/** Metadata records of a turn trace, and how the reader accepts one
    (scripts/turn-trace.py, `clean_record`). */
module TraceRecords {
  import opened Options
  import opened Timestamps

  type Instant = u: Utc | IsUtc(u) witness Utc(1, 1, 1, 0, 0, 0, 0)

  /** A decoded JSON value, as far as the reader distinguishes them; an absent
      member reads as null. */
  datatype Json = Null | Bool(b: bool) | Int(i: int) | Text(s: string) | Nested

  datatype Member =
    | Target | SchemaVersion | ServiceName | Stage | Phase | TurnId | TraceId | InstanceId | RequestId | SpanId
    | Timestamp | IngressRequestId | RelatedTurnId | ParentSpanId | DurationMs | HttpStatus | ErrorCode | PartIndex
    | Outcome | GapReason | Unknown(name: string)

  type Raw = Member -> Json

  /** The words a record may use. */
  datatype Words = Words(
    target: string, services: set<string>, stages: set<string>, phases: set<string>, outcomes: set<string>,
    gaps: set<string>)

  const WORDS := Words(
    "nyxid::turn_trace",
    {"nyxid", "nyxagent", "cma"},
    { "ingress", "admission", "execution", "engine", "first_output", "mcp", "proxy", "proxy_headers", "proxy_body",
      "node_headers", "capacity_wait", "channel", "channel_part", "replay", "gateway", "model", "tool", "platform" },
    {"start", "end", "link", "milestone"},
    { "completed", "failed", "cancelled", "unknown", "streamed", "silent", "confirmed", "rejected", "partial" },
    {"missing_parent", "invalid_parent", "mismatched_turn"})

  /** The library parsers, version-4 UUIDs in canonical spelling and zoned timestamps
      as instants in UTC, with the words in use: those of WORDS. */
  datatype Library = Library(uuid: string -> Option<string>, time: string -> Option<Instant>, words: Words)

  const U64_MAX: nat := 0xFFFF_FFFF_FFFF_FFFF
  const U32_MAX: nat := 0xFFFF_FFFF

  datatype Record = Record(
    service: string, stage: string, phase: string, turn: Option<string>, instance: string, request: string,
    span: string, timestamp: Instant, ingressRequest: Option<string>, relatedTurn: Option<string>,
    parent: Option<string>, duration: Option<nat>, status: Option<nat>, error: Option<nat>, part: Option<nat>,
    outcome: Option<string>, gap: Option<string>)

  function Identifier(lib: Library, j: Json): Option<string> {
    if j.Text? && |j.s| in {32, 36} then lib.uuid(j.s) else None
  }

  predicate IsHex(c: char) {
    '0' <= c <= '9' || 'a' <= c <= 'f'
  }

  function SpanOf(j: Json): Option<string> {
    if j.Text? && |j.s| == 16 && (forall c :: c in j.s ==> IsHex(c)) && (exists c :: c in j.s && c != '0')
    then Some(j.s) else None
  }

  function OneOf(j: Json, allowed: set<string>): Option<string> {
    if j.Text? && j.s in allowed then Some(j.s) else None
  }

  function Bounded(j: Json, bound: nat): Option<nat> {
    if j.Int? && 0 <= j.i <= bound then Some(j.i) else None
  }

  /** An optional member may be absent, but not wrong. */
  predicate Wrong<T>(j: Json, v: Option<T>) {
    j != Null && v.None?
  }

  function InstantOf(lib: Library, j: Json): Option<Instant> {
    if j.Text? then lib.time(j.s) else None
  }

  predicate HeaderOk(lib: Library, raw: Raw) {
    && raw(Target) == Text(lib.words.target) && raw(SchemaVersion) == Int(1)
    && OneOf(raw(ServiceName), lib.words.services).Some? && OneOf(raw(Stage), lib.words.stages).Some? && OneOf(raw(Phase), lib.words.phases).Some?
  }

  /** A record without turn is an ingress record that names neither turn nor trace;
      otherwise turn and trace are the same identifier. */
  predicate TurnOk(lib: Library, raw: Raw) {
    var turn := Identifier(lib, raw(TurnId));
    && (turn.None? ==> raw(Stage) == Text("ingress") && raw(TurnId) == Null && raw(TraceId) == Null)
    && Identifier(lib, raw(TraceId)) == turn
  }

  predicate OptionalsOk(lib: Library, raw: Raw) {
    && !Wrong(raw(IngressRequestId), Identifier(lib, raw(IngressRequestId)))
    && !Wrong(raw(RelatedTurnId), Identifier(lib, raw(RelatedTurnId)))
    && !Wrong(raw(ParentSpanId), SpanOf(raw(ParentSpanId)))
    && !Wrong(raw(DurationMs), Bounded(raw(DurationMs), U64_MAX))
    && !Wrong(raw(HttpStatus), Bounded(raw(HttpStatus), 599))
    && !Wrong(raw(ErrorCode), Bounded(raw(ErrorCode), U32_MAX))
    && !Wrong(raw(PartIndex), Bounded(raw(PartIndex), U32_MAX))
    && !Wrong(raw(Outcome), OneOf(raw(Outcome), lib.words.outcomes))
    && !Wrong(raw(GapReason), OneOf(raw(GapReason), lib.words.gaps))
  }

  function Clean(lib: Library, raw: Raw): Option<Record> {
    var instance, request := Identifier(lib, raw(InstanceId)), Identifier(lib, raw(RequestId));
    var span, time := SpanOf(raw(SpanId)), InstantOf(lib, raw(Timestamp));
    if HeaderOk(lib, raw) && TurnOk(lib, raw) && instance.Some? && request.Some? && span.Some? && time.Some? && OptionalsOk(lib, raw)
    then Some(Record(raw(ServiceName).s, raw(Stage).s, raw(Phase).s, Identifier(lib, raw(TurnId)),
      instance.value, request.value, span.value, time.value,
      Identifier(lib, raw(IngressRequestId)), Identifier(lib, raw(RelatedTurnId)), SpanOf(raw(ParentSpanId)),
      Bounded(raw(DurationMs), U64_MAX), Bounded(raw(HttpStatus), 599), Bounded(raw(ErrorCode), U32_MAX),
      Bounded(raw(PartIndex), U32_MAX), OneOf(raw(Outcome), lib.words.outcomes), OneOf(raw(GapReason), lib.words.gaps)))
    else None
  }

  // ---- writing a cleaned record and reading it back ----

  function NoDashes(s: string): string {
    if s == "" then "" else (if s[0] == '-' then "" else [s[0]]) + NoDashes(s[1..])
  }

  /** Every dash is taken out, wherever it stands, and nothing else. */
  lemma {:induction false} NoDashesMeaning(s: string, t: string)
    ensures NoDashes(s + t) == NoDashes(s) + NoDashes(t)
    ensures '-' !in NoDashes(s) && ('-' !in s ==> NoDashes(s) == s)
  {
    if s == "" {
      assert s + t == t;
    } else {
      NoDashesMeaning(s[1..], t);
      assert (s + t)[1..] == s[1..] + t && (s + t)[0] == s[0];
      var first := if s[0] == '-' then "" else [s[0]];
      assert NoDashes(s + t) == first + (NoDashes(s[1..]) + NoDashes(t));
    }
  }

  function TextOr(v: Option<string>): Json {
    match v case None => Null case Some(s) => Text(s)
  }

  function IntOr(v: Option<nat>): Json {
    match v case None => Null case Some(n) => Int(n)
  }

  /** The members of the cleaned record; the trace is the turn without dashes. */
  function Encode(lib: Library, r: Record): Raw {
    (m: Member) => EncodeMember(lib, r, m)
  }

  function EncodeMember(lib: Library, r: Record, m: Member): Json {
    match m
    case Target => Text(lib.words.target)
    case SchemaVersion => Int(1)
    case ServiceName => Text(r.service)
    case Stage => Text(r.stage)
    case Phase => Text(r.phase)
    case TurnId => TextOr(r.turn)
    case TraceId => if r.turn.Some? then Text(NoDashes(r.turn.value)) else Null
    case InstanceId => Text(r.instance)
    case RequestId => Text(r.request)
    case SpanId => Text(r.span)
    case Timestamp => Text(PrintUtc(r.timestamp))
    case IngressRequestId => TextOr(r.ingressRequest)
    case RelatedTurnId => TextOr(r.relatedTurn)
    case ParentSpanId => TextOr(r.parent)
    case DurationMs => IntOr(r.duration)
    case HttpStatus => IntOr(r.status)
    case ErrorCode => IntOr(r.error)
    case PartIndex => IntOr(r.part)
    case Outcome => TextOr(r.outcome)
    case GapReason => TextOr(r.gap)
    case Unknown(_) => Null
  }

  /** What the library parsers do with their own canonical output. */
  ghost predicate Lawful(lib: Library) {
    && (forall s :: lib.uuid(s).Some? ==>
          var c := lib.uuid(s).value;
          |c| == 36 && lib.uuid(c) == Some(c) && |NoDashes(c)| == 32 && lib.uuid(NoDashes(c)) == Some(c))
    && (forall u: Instant :: lib.time(PrintUtc(u)) == Some(u))
  }

  lemma IdentifierAgain(lib: Library, j: Json)
    requires Lawful(lib)
    ensures Identifier(lib, TextOr(Identifier(lib, j))) == Identifier(lib, j)
    ensures Identifier(lib, j).Some? ==>
              Identifier(lib, Text(NoDashes(Identifier(lib, j).value))) == Identifier(lib, j)
  {
  }

  lemma WordAgain(j: Json, allowed: set<string>)
    ensures OneOf(TextOr(OneOf(j, allowed)), allowed) == OneOf(j, allowed)
    ensures OneOf(j, allowed).Some? ==> j == Text(OneOf(j, allowed).value)
  {
  }

  lemma SpanAgain(j: Json)
    ensures SpanOf(TextOr(SpanOf(j))) == SpanOf(j)
  {
  }

  lemma NumberAgain(j: Json, bound: nat)
    ensures Bounded(IntOr(Bounded(j, bound)), bound) == Bounded(j, bound)
  {
  }

  /** A document read like an accepted one is accepted as the same record. */
  lemma ReadAlike(lib: Library, raw: Raw, again: Raw)
    requires Clean(lib, raw).Some? && HeaderOk(lib, again) && TurnOk(lib, again) && OptionalsOk(lib, again)
    requires again(ServiceName) == raw(ServiceName) && again(Stage) == raw(Stage) && again(Phase) == raw(Phase)
    requires Identifier(lib, again(TurnId)) == Identifier(lib, raw(TurnId))
    requires Identifier(lib, again(InstanceId)) == Identifier(lib, raw(InstanceId))
    requires Identifier(lib, again(RequestId)) == Identifier(lib, raw(RequestId))
    requires SpanOf(again(SpanId)) == SpanOf(raw(SpanId))
    requires InstantOf(lib, again(Timestamp)) == InstantOf(lib, raw(Timestamp))
    requires OptionalsAlike(lib, raw, again)
    ensures Clean(lib, again) == Clean(lib, raw)
  {
  }

  predicate OptionalsAlike(lib: Library, raw: Raw, again: Raw) {
    && Identifier(lib, again(IngressRequestId)) == Identifier(lib, raw(IngressRequestId))
    && Identifier(lib, again(RelatedTurnId)) == Identifier(lib, raw(RelatedTurnId))
    && SpanOf(again(ParentSpanId)) == SpanOf(raw(ParentSpanId))
    && Bounded(again(DurationMs), U64_MAX) == Bounded(raw(DurationMs), U64_MAX)
    && Bounded(again(HttpStatus), 599) == Bounded(raw(HttpStatus), 599)
    && Bounded(again(ErrorCode), U32_MAX) == Bounded(raw(ErrorCode), U32_MAX)
    && Bounded(again(PartIndex), U32_MAX) == Bounded(raw(PartIndex), U32_MAX)
    && OneOf(again(Outcome), lib.words.outcomes) == OneOf(raw(Outcome), lib.words.outcomes)
    && OneOf(again(GapReason), lib.words.gaps) == OneOf(raw(GapReason), lib.words.gaps)
  }

  /** What Encode writes for an accepted document, member by member. */
  predicate HeaderWritten(lib: Library, raw: Raw, again: Raw) {
    && again(Target) == Text(lib.words.target) && again(SchemaVersion) == Int(1)
    && again(ServiceName) == raw(ServiceName) && again(Stage) == raw(Stage) && again(Phase) == raw(Phase)
  }

  predicate Written(lib: Library, raw: Raw, again: Raw) {
    && again(TurnId) == TextOr(Identifier(lib, raw(TurnId)))
    && again(TraceId) == (match Identifier(lib, raw(TurnId)) case Some(t) => Text(NoDashes(t)) case None => Null)
    && InstantOf(lib, raw(Timestamp)).Some? && again(Timestamp) == Text(PrintUtc(InstantOf(lib, raw(Timestamp)).value))
  }

  predicate LinksWritten(lib: Library, raw: Raw, again: Raw) {
    && again(IngressRequestId) == TextOr(Identifier(lib, raw(IngressRequestId)))
    && again(RelatedTurnId) == TextOr(Identifier(lib, raw(RelatedTurnId)))
    && again(ParentSpanId) == TextOr(SpanOf(raw(ParentSpanId)))
  }

  predicate NumbersWritten(raw: Raw, again: Raw) {
    && again(DurationMs) == IntOr(Bounded(raw(DurationMs), U64_MAX))
    && again(HttpStatus) == IntOr(Bounded(raw(HttpStatus), 599))
    && again(ErrorCode) == IntOr(Bounded(raw(ErrorCode), U32_MAX))
    && again(PartIndex) == IntOr(Bounded(raw(PartIndex), U32_MAX))
  }

  predicate WordsWritten(lib: Library, raw: Raw, again: Raw) {
    && again(Outcome) == TextOr(OneOf(raw(Outcome), lib.words.outcomes))
    && again(GapReason) == TextOr(OneOf(raw(GapReason), lib.words.gaps))
  }

  predicate OriginWritten(lib: Library, raw: Raw, again: Raw) {
    && again(InstanceId) == TextOr(Identifier(lib, raw(InstanceId)))
    && again(RequestId) == TextOr(Identifier(lib, raw(RequestId)))
    && again(SpanId) == TextOr(SpanOf(raw(SpanId)))
  }

  lemma EncodeWritesOrigin(lib: Library, raw: Raw)
    requires Clean(lib, raw).Some?
    ensures OriginWritten(lib, raw, Encode(lib, Clean(lib, raw).value))
  {
  }

  lemma EncodeWritesHeader(lib: Library, raw: Raw)
    requires Clean(lib, raw).Some?
    ensures HeaderWritten(lib, raw, Encode(lib, Clean(lib, raw).value))
  {
  }

  lemma EncodeWrites(lib: Library, raw: Raw)
    requires Clean(lib, raw).Some?
    ensures Written(lib, raw, Encode(lib, Clean(lib, raw).value))
  {
  }

  lemma EncodeWritesLinks(lib: Library, raw: Raw)
    requires Clean(lib, raw).Some?
    ensures LinksWritten(lib, raw, Encode(lib, Clean(lib, raw).value))
  {
  }

  lemma EncodeWritesNumbers(lib: Library, raw: Raw)
    requires Clean(lib, raw).Some?
    ensures NumbersWritten(raw, Encode(lib, Clean(lib, raw).value))
  {
  }

  lemma EncodeWritesWords(lib: Library, raw: Raw)
    requires Clean(lib, raw).Some?
    ensures WordsWritten(lib, raw, Encode(lib, Clean(lib, raw).value))
  {
  }

  lemma OptionalsAgain(lib: Library, raw: Raw, again: Raw)
    requires Lawful(lib)
    requires LinksWritten(lib, raw, again) && NumbersWritten(raw, again) && WordsWritten(lib, raw, again)
    ensures OptionalsAlike(lib, raw, again) && OptionalsOk(lib, again)
  {
    LinksAgain(lib, raw, again);
    NumbersAgain(raw, again);
    WordsAgain(lib, raw, again);
  }

  lemma WrittenIsRead(lib: Library, raw: Raw, again: Raw)
    requires Lawful(lib) && Clean(lib, raw).Some? && HeaderWritten(lib, raw, again)
    requires OriginWritten(lib, raw, again) && Written(lib, raw, again)
    requires OptionalsAlike(lib, raw, again) && OptionalsOk(lib, again)
    ensures Clean(lib, again) == Clean(lib, raw)
  {
    IdentifierAgain(lib, raw(InstanceId));
    IdentifierAgain(lib, raw(RequestId));
    SpanAgain(raw(SpanId));
    TurnAgain(lib, raw, again);
    ReadAlike(lib, raw, again);
  }

  /** Exports may be read again: a cleaned record is accepted as it is. */
  lemma CleanedRecordsAreStable(lib: Library, raw: Raw)
    requires Lawful(lib) && Clean(lib, raw).Some?
    ensures Clean(lib, Encode(lib, Clean(lib, raw).value)) == Clean(lib, raw)
  {
    var again := Encode(lib, Clean(lib, raw).value);
    EncodeWritesHeader(lib, raw);
    EncodeWritesOrigin(lib, raw);
    EncodeWrites(lib, raw);
    EncodeWritesLinks(lib, raw);
    EncodeWritesNumbers(lib, raw);
    EncodeWritesWords(lib, raw);
    OptionalsAgain(lib, raw, again);
    WrittenIsRead(lib, raw, again);
  }

  lemma TurnAgain(lib: Library, raw: Raw, again: Raw)
    requires Lawful(lib) && TurnOk(lib, raw) && again(Stage) == raw(Stage)
    requires again(TurnId) == TextOr(Identifier(lib, raw(TurnId)))
    requires again(TraceId) == match Identifier(lib, raw(TurnId)) case Some(t) => Text(NoDashes(t)) case None => Null
    ensures TurnOk(lib, again) && Identifier(lib, again(TurnId)) == Identifier(lib, raw(TurnId))
  {
    IdentifierAgain(lib, raw(TurnId));
  }

  lemma LinksAgain(lib: Library, raw: Raw, again: Raw)
    requires Lawful(lib)
    requires LinksWritten(lib, raw, again)
    ensures Identifier(lib, again(IngressRequestId)) == Identifier(lib, raw(IngressRequestId))
    ensures Identifier(lib, again(RelatedTurnId)) == Identifier(lib, raw(RelatedTurnId))
    ensures SpanOf(again(ParentSpanId)) == SpanOf(raw(ParentSpanId))
  {
    IdentifierAgain(lib, raw(IngressRequestId));
    IdentifierAgain(lib, raw(RelatedTurnId));
    SpanAgain(raw(ParentSpanId));
  }

  lemma NumbersAgain(raw: Raw, again: Raw)
    requires NumbersWritten(raw, again)
    ensures Bounded(again(DurationMs), U64_MAX) == Bounded(raw(DurationMs), U64_MAX)
    ensures Bounded(again(HttpStatus), 599) == Bounded(raw(HttpStatus), 599)
    ensures Bounded(again(ErrorCode), U32_MAX) == Bounded(raw(ErrorCode), U32_MAX)
    ensures Bounded(again(PartIndex), U32_MAX) == Bounded(raw(PartIndex), U32_MAX)
  {
    NumberAgain(raw(DurationMs), U64_MAX);
    NumberAgain(raw(HttpStatus), 599);
    NumberAgain(raw(ErrorCode), U32_MAX);
    NumberAgain(raw(PartIndex), U32_MAX);
  }

  lemma WordsAgain(lib: Library, raw: Raw, again: Raw)
    requires WordsWritten(lib, raw, again)
    ensures OneOf(again(Outcome), lib.words.outcomes) == OneOf(raw(Outcome), lib.words.outcomes)
    ensures OneOf(again(GapReason), lib.words.gaps) == OneOf(raw(GapReason), lib.words.gaps)
  {
    WordAgain(raw(Outcome), lib.words.outcomes);
    WordAgain(raw(GapReason), lib.words.gaps);
  }

  // ---- acceptance in the members of the document ----

  /** The words of the format. */
  lemma WordsOfTheFormat()
    ensures WORDS.target == "nyxid::turn_trace" && WORDS.services == {"nyxid", "nyxagent", "cma"}
    ensures forall w :: w in WORDS.stages <==>
      w in ["admission", "capacity_wait", "channel", "channel_part", "engine", "execution", "first_output", "gateway",
            "ingress", "mcp", "model", "node_headers", "platform", "proxy", "proxy_body", "proxy_headers", "replay", "tool"]
    ensures WORDS.phases == {"start", "end", "link", "milestone"}
    ensures forall w :: w in WORDS.outcomes <==>
      w in ["cancelled", "completed", "confirmed", "failed", "partial", "rejected", "silent", "streamed", "unknown"]
    ensures WORDS.gaps == {"missing_parent", "invalid_parent", "mismatched_turn"}
  {
  }

  /** The member is the identifier, in one of its two spellings. */
  ghost predicate Names(lib: Library, j: Json, id: string) {
    j.Text? && (|j.s| == 32 || |j.s| == 36) && lib.uuid(j.s) == Some(id)
  }

  /** Sixteen hexadecimal digits, not all zero. */
  ghost predicate IsSpan(j: Json, span: string) {
    && j == Text(span) && |span| == 16
    && (forall i :: 0 <= i < 16 ==> '0' <= span[i] <= '9' || 'a' <= span[i] <= 'f')
    && exists i :: 0 <= i < 16 && span[i] != '0'
  }

  ghost predicate NamesOrAbsent(lib: Library, j: Json, v: Option<string>) {
    match v case None => j == Null case Some(id) => Names(lib, j, id)
  }

  ghost predicate SpanOrAbsent(j: Json, v: Option<string>) {
    match v case None => j == Null case Some(span) => IsSpan(j, span)
  }

  ghost predicate NumberOrAbsent(j: Json, v: Option<nat>, bound: nat) {
    match v case None => j == Null case Some(n) => j == Int(n) && n <= bound
  }

  ghost predicate WordOrAbsent(j: Json, v: Option<string>, words: set<string>) {
    match v case None => j == Null case Some(w) => j == Text(w) && w in words
  }

  lemma IdentifierExactly(lib: Library, j: Json, v: Option<string>)
    ensures v.Some? ==> (Identifier(lib, j) == v <==> Names(lib, j, v.value))
    ensures NamesOrAbsent(lib, j, v) <==> Identifier(lib, j) == v && !Wrong(j, v)
  {
  }

  lemma SpanExactly(j: Json, v: Option<string>)
    ensures v.Some? ==> (SpanOf(j) == v <==> IsSpan(j, v.value))
    ensures SpanOrAbsent(j, v) <==> SpanOf(j) == v && !Wrong(j, v)
  {
    if v.Some? && IsSpan(j, v.value) {
      var i :| 0 <= i < 16 && v.value[i] != '0';
      assert v.value[i] in j.s;
    }
    if SpanOf(j).Some? {
      var c :| c in j.s && c != '0';
      var i :| 0 <= i < |j.s| && j.s[i] == c;
      assert forall i :: 0 <= i < 16 ==> j.s[i] in j.s;
    }
  }

  /** The header is right, and names the service, stage and phase of the record. */
  ghost predicate HeaderSays(lib: Library, raw: Raw, r: Record) {
    && raw(Target) == Text(lib.words.target) && raw(SchemaVersion) == Int(1)
    && raw(ServiceName) == Text(r.service) && r.service in lib.words.services
    && raw(Stage) == Text(r.stage) && r.stage in lib.words.stages
    && raw(Phase) == Text(r.phase) && r.phase in lib.words.phases
  }

  /** Turn and trace are one identifier; only an ingress record may have neither. */
  ghost predicate TurnSays(lib: Library, raw: Raw, r: Record) {
    match r.turn
    case Some(id) => Names(lib, raw(TurnId), id) && Names(lib, raw(TraceId), id)
    case None => r.stage == "ingress" && raw(TurnId) == Null && raw(TraceId) == Null
  }

  ghost predicate OriginSays(lib: Library, raw: Raw, r: Record) {
    && Names(lib, raw(InstanceId), r.instance) && Names(lib, raw(RequestId), r.request)
    && IsSpan(raw(SpanId), r.span) && raw(Timestamp).Text? && lib.time(raw(Timestamp).s) == Some(r.timestamp)
  }

  ghost predicate LinksSay(lib: Library, raw: Raw, r: Record) {
    && NamesOrAbsent(lib, raw(IngressRequestId), r.ingressRequest)
    && NamesOrAbsent(lib, raw(RelatedTurnId), r.relatedTurn)
    && SpanOrAbsent(raw(ParentSpanId), r.parent)
  }

  ghost predicate ValuesSay(lib: Library, raw: Raw, r: Record) {
    && NumberOrAbsent(raw(DurationMs), r.duration, 0xFFFF_FFFF_FFFF_FFFF)
    && NumberOrAbsent(raw(HttpStatus), r.status, 599)
    && NumberOrAbsent(raw(ErrorCode), r.error, 0xFFFF_FFFF)
    && NumberOrAbsent(raw(PartIndex), r.part, 0xFFFF_FFFF)
    && WordOrAbsent(raw(Outcome), r.outcome, lib.words.outcomes)
    && WordOrAbsent(raw(GapReason), r.gap, lib.words.gaps)
  }

  lemma NumberExactly(j: Json, v: Option<nat>, bound: nat)
    ensures NumberOrAbsent(j, v, bound) <==> Bounded(j, bound) == v && !Wrong(j, v)
  {
  }

  lemma WordExactly(j: Json, v: Option<string>, words: set<string>)
    ensures WordOrAbsent(j, v, words) <==> OneOf(j, words) == v && !Wrong(j, v)
  {
  }

  predicate HasLinks(lib: Library, raw: Raw, r: Record) {
    && r.ingressRequest == Identifier(lib, raw(IngressRequestId)) && r.relatedTurn == Identifier(lib, raw(RelatedTurnId))
    && r.parent == SpanOf(raw(ParentSpanId))
  }

  predicate HasValues(lib: Library, raw: Raw, r: Record) {
    && r.duration == Bounded(raw(DurationMs), U64_MAX) && r.status == Bounded(raw(HttpStatus), 599)
    && r.error == Bounded(raw(ErrorCode), U32_MAX) && r.part == Bounded(raw(PartIndex), U32_MAX)
    && r.outcome == OneOf(raw(Outcome), lib.words.outcomes) && r.gap == OneOf(raw(GapReason), lib.words.gaps)
  }

  lemma LinksExactly(lib: Library, raw: Raw, r: Record)
    ensures LinksSay(lib, raw, r) <==>
      && HasLinks(lib, raw, r)
      && !Wrong(raw(IngressRequestId), r.ingressRequest) && !Wrong(raw(RelatedTurnId), r.relatedTurn) && !Wrong(raw(ParentSpanId), r.parent)
  {
    IdentifierExactly(lib, raw(IngressRequestId), r.ingressRequest);
    IdentifierExactly(lib, raw(RelatedTurnId), r.relatedTurn);
    SpanExactly(raw(ParentSpanId), r.parent);
  }

  lemma ValuesExactly(lib: Library, raw: Raw, r: Record)
    ensures ValuesSay(lib, raw, r) <==>
      && HasValues(lib, raw, r)
      && !Wrong(raw(DurationMs), r.duration) && !Wrong(raw(HttpStatus), r.status) && !Wrong(raw(ErrorCode), r.error)
      && !Wrong(raw(PartIndex), r.part) && !Wrong(raw(Outcome), r.outcome) && !Wrong(raw(GapReason), r.gap)
  {
    NumberExactly(raw(DurationMs), r.duration, U64_MAX);
    NumberExactly(raw(HttpStatus), r.status, 599);
    NumberExactly(raw(ErrorCode), r.error, U32_MAX);
    NumberExactly(raw(PartIndex), r.part, U32_MAX);
    WordExactly(raw(Outcome), r.outcome, lib.words.outcomes);
    WordExactly(raw(GapReason), r.gap, lib.words.gaps);
  }

  lemma OriginExactly(lib: Library, raw: Raw, r: Record)
    ensures OriginSays(lib, raw, r) <==>
      && Identifier(lib, raw(InstanceId)) == Some(r.instance) && Identifier(lib, raw(RequestId)) == Some(r.request)
      && SpanOf(raw(SpanId)) == Some(r.span) && InstantOf(lib, raw(Timestamp)) == Some(r.timestamp)
  {
    IdentifierExactly(lib, raw(InstanceId), Some(r.instance));
    IdentifierExactly(lib, raw(RequestId), Some(r.request));
    SpanExactly(raw(SpanId), Some(r.span));
  }

  lemma HeaderExactly(lib: Library, raw: Raw, r: Record)
    ensures HeaderSays(lib, raw, r) <==>
      HeaderOk(lib, raw) && r.service == raw(ServiceName).s && r.stage == raw(Stage).s && r.phase == raw(Phase).s
  {
  }

  lemma TurnExactly(lib: Library, raw: Raw, r: Record)
    requires raw(Stage) == Text(r.stage)
    ensures TurnSays(lib, raw, r) <==> TurnOk(lib, raw) && r.turn == Identifier(lib, raw(TurnId))
  {
    if r.turn.Some? {
      IdentifierExactly(lib, raw(TurnId), r.turn);
      IdentifierExactly(lib, raw(TraceId), r.turn);
    }
  }

  /** For every document and record: the document is accepted as that record if and only if
      each of its members says what the record holds. Members of other names say nothing. */
  lemma AcceptedExactly(lib: Library, raw: Raw, r: Record)
    ensures Clean(lib, raw) == Some(r) <==>
      HeaderSays(lib, raw, r) && TurnSays(lib, raw, r) && OriginSays(lib, raw, r) && LinksSay(lib, raw, r) && ValuesSay(lib, raw, r)
  {
    HeaderExactly(lib, raw, r);
    if raw(Stage) == Text(r.stage) {
      TurnExactly(lib, raw, r);
    }
    OriginExactly(lib, raw, r);
    LinksExactly(lib, raw, r);
    ValuesExactly(lib, raw, r);
  }
}
