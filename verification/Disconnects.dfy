/** Connections and requests that learn when the client is gone
    (backend/src/downstream_disconnect.rs). */
module Disconnects {
  import opened CancellationTokens
  import opened Options

  datatype Poll<+T> = Pending | Ready(outcome: T)

  datatype IoError = IoError

  // ---- what the transport reports ----

  /** A connection has a root token, a request the child of its connection's token, or a
      root of its own. */
  datatype Kind = Connection | Request(connection: Option<nat>)

  datatype Event =
    | Accept
    | Read(conn: nat, room: nat, before: nat, filled: Poll<Result<nat, IoError>>)
    | Write(conn: nat, length: nat, written: Poll<Result<nat, IoError>>)
    | WriteVectored(conn: nat, lengths: seq<nat>, written: Poll<Result<nat, IoError>>)
    | Flush(conn: nat, done: Poll<Result<(), IoError>>)
    | Shutdown(conn: nat, done: Poll<Result<(), IoError>>)
    | DropIo(conn: nat)
    | Start(connection: Option<nat>)
    | DropBody(request: nat)

  predicate Failed<T>(p: Poll<Result<T, IoError>>) {
    p.Ready? && p.outcome.Err?
  }

  predicate SomeBytes(lengths: seq<nat>) {
    exists i :: 0 <= i < |lengths| && lengths[i] > 0
  }

  /** The event shows that the client closed this connection, or that the server did. */
  predicate SeesClosed(e: Event, c: nat) {
    match e
    case Read(conn, room, before, filled) =>
      conn == c && (Failed(filled) || (room > 0 && filled == Ready(Ok(before))))
    case Write(conn, length, written) => conn == c && (Failed(written) || (length > 0 && written == Ready(Ok(0))))
    case WriteVectored(conn, lengths, written) =>
      conn == c && (Failed(written) || (SomeBytes(lengths) && written == Ready(Ok(0))))
    case Flush(conn, done) => conn == c && Failed(done)
    case Shutdown(conn, done) => conn == c && done.Ready?
    case DropIo(conn) => conn == c
    case Accept => false
    case Start(_) => false
    case DropBody(_) => false
  }

  // ---- runs ----

  datatype State = State(kinds: seq<Kind>, tokens: Forest)

  const INITIAL: State := State([], Forest([], {}))

  predicate IsConnection(s: State, t: nat) {
    t < |s.kinds| && s.kinds[t].Connection?
  }

  predicate Possible(s: State, e: Event) {
    match e
    case Accept => true
    case Start(connection) => connection.Some? ==> IsConnection(s, connection.value)
    case DropBody(request) => request < |s.kinds| && s.kinds[request].Request?
    case Read(conn, _, before, filled) =>
      IsConnection(s, conn) && (filled.Ready? && filled.outcome.Ok? ==> before <= filled.outcome.value)
    case _ => IsConnection(s, e.conn)
  }

  predicate Touches(e: Event) {
    !e.Accept? && !e.Start? && !e.DropBody?
  }

  function ParentOf(k: Kind): Option<nat> {
    match k case Connection => None case Request(connection) => connection
  }

  /** Every token stands below the connection its kind names, and below nothing else. */
  predicate WellFormed(s: State) {
    && |s.kinds| == |s.tokens.parents| && Coherent(s.tokens)
    && (forall i :: 0 <= i < |s.kinds| ==> s.tokens.parents[i] == ParentOf(s.kinds[i]))
    && (forall i :: 0 <= i < |s.kinds| && ParentOf(s.kinds[i]).Some? ==> IsConnection(s, ParentOf(s.kinds[i]).value))
  }

  function Born(s: State, k: Kind): State {
    State(s.kinds + [k], Create(s.tokens, ParentOf(k)))
  }

  function Apply(s: State, e: Event): State
    requires WellFormed(s) && Possible(s, e)
  {
    match e
    case Accept => Born(s, Connection)
    case Start(connection) => Born(s, Request(connection))
    case DropBody(request) => s.(tokens := Cancel(s.tokens, request))
    case _ => if SeesClosed(e, e.conn) then s.(tokens := Cancel(s.tokens, e.conn)) else s
  }

  lemma ApplyKeepsWellFormed(s: State, e: Event)
    requires WellFormed(s) && Possible(s, e)
    ensures WellFormed(Apply(s, e))
  {
    if e.Accept? || e.Start? {
      CreateKeepsCoherent(s.tokens, ParentOf(if e.Accept? then Connection else Request(e.connection)));
    } else if e.DropBody? {
      CancelKeepsCoherent(s.tokens, e.request);
    } else {
      CancelKeepsCoherent(s.tokens, e.conn);
    }
  }

  /** The state after a run, absent when some event of it was not possible. */
  function After(run: seq<Event>): (s: Option<State>)
    ensures s.Some? ==> WellFormed(s.value)
  {
    if run == [] then Some(INITIAL)
    else
      var before, e := After(run[..|run| - 1]), run[|run| - 1];
      if before.None? || !Possible(before.value, e) then None
      else
        ApplyKeepsWellFormed(before.value, e);
        Some(Apply(before.value, e))
  }

  predicate Gone(run: seq<Event>, c: nat) {
    exists k :: 0 <= k < |run| && SeesClosed(run[k], c)
  }

  predicate Dropped(run: seq<Event>, r: nat) {
    exists k :: 0 <= k < |run| && run[k] == DropBody(r)
  }

  /** Why a token is cancelled. */
  predicate Cause(run: seq<Event>, k: Kind, t: nat) {
    match k
    case Connection => Gone(run, t)
    case Request(connection) => Dropped(run, t) || (connection.Some? && Gone(run, connection.value))
  }

  // ---- one event ----

  lemma GoneSnoc(run: seq<Event>, e: Event, c: nat)
    ensures Gone(run + [e], c) <==> Gone(run, c) || SeesClosed(e, c)
  {
    assert SeesClosed(e, c) ==> SeesClosed((run + [e])[|run|], c);
    assert forall k :: 0 <= k < |run| ==> (run + [e])[k] == run[k];
  }

  lemma DroppedSnoc(run: seq<Event>, e: Event, r: nat)
    ensures Dropped(run + [e], r) <==> Dropped(run, r) || e == DropBody(r)
  {
    assert e == DropBody(r) ==> (run + [e])[|run|] == DropBody(r);
    assert forall k :: 0 <= k < |run| ==> (run + [e])[k] == run[k];
  }

  /** Below a connection stand its requests, below a request nothing else. */
  lemma BelowMeaning(s: State, i: nat, t: nat)
    requires WellFormed(s) && i < |s.kinds| && t < |s.kinds|
    ensures Below(s.tokens.parents, i, t) <==> i == t || ParentOf(s.kinds[i]) == Some(t)
  {
    var p := s.tokens.parents;
    if p[i].Some? {
      assert Below(p, i, t) <==> i == t || Below(p, p[i].value, t);
      assert p[p[i].value].None?;
    }
  }

  /** An event names no token that does not exist yet. */
  lemma {:induction false} NothingAboutTheUnborn(run: seq<Event>, t: nat)
    requires After(run).Some? && t >= |After(run).value.kinds|
    ensures !Gone(run, t) && !Dropped(run, t)
  {
    if run != [] {
      var init, e := run[..|run| - 1], run[|run| - 1];
      KindsGrow(After(init).value, e);
      NothingAboutTheUnborn(init, t);
      assert init + [e] == run;
      GoneSnoc(init, e, t);
      DroppedSnoc(init, e, t);
    }
  }

  lemma KindsGrow(s: State, e: Event)
    requires WellFormed(s) && Possible(s, e)
    ensures s.kinds <= Apply(s, e).kinds
  {
  }

  /** The event cancels this token of the state. */
  predicate Hits(s: State, e: Event, t: nat)
    requires t < |s.kinds|
  {
    match e
    case Accept => false
    case Start(_) => false
    case DropBody(request) => request == t
    case _ => SeesClosed(e, e.conn) && (e.conn == t || ParentOf(s.kinds[t]) == Some(e.conn))
  }

  lemma Effect(s: State, e: Event, t: nat)
    requires WellFormed(s) && Possible(s, e) && t < |s.kinds|
    ensures t in Apply(s, e).tokens.cancelled <==> t in s.tokens.cancelled || Hits(s, e, t)
  {
    if e.DropBody? {
      BelowMeaning(s, t, e.request);
    } else if Touches(e) {
      BelowMeaning(s, t, e.conn);
    }
  }

  lemma CauseSnoc(run: seq<Event>, e: Event, s: State, t: nat)
    requires WellFormed(s) && Possible(s, e) && t < |s.kinds|
    ensures Cause(run + [e], s.kinds[t], t) <==> Cause(run, s.kinds[t], t) || Hits(s, e, t)
  {
    GoneSnoc(run, e, t);
    DroppedSnoc(run, e, t);
    if ParentOf(s.kinds[t]).Some? {
      GoneSnoc(run, e, ParentOf(s.kinds[t]).value);
    }
  }

  lemma BornToken(run: seq<Event>, e: Event, s: State)
    requires After(run) == Some(s) && Possible(s, e) && (e.Accept? || e.Start?)
    requires forall t: nat :: t < |s.kinds| ==> (t in s.tokens.cancelled <==> Cause(run, s.kinds[t], t))
    ensures var t, next := |s.kinds|, Apply(s, e); t in next.tokens.cancelled <==> Cause(run + [e], next.kinds[t], t)
  {
    var t := |s.kinds|;
    NothingAboutTheUnborn(run, t);
    GoneSnoc(run, e, t);
    DroppedSnoc(run, e, t);
    if e.Start? && e.connection.Some? {
      var c := e.connection.value;
      GoneSnoc(run, e, c);
      assert c in s.tokens.cancelled <==> Cause(run, s.kinds[c], c);
    }
  }

  /** In every run of accepts, I/O outcomes, request starts, body drops and connection
      drops, a token is cancelled exactly when its connection was seen closed or its own
      body was dropped. */
  lemma {:induction false} CancelledExactlyForCause(run: seq<Event>, t: nat)
    requires After(run).Some? && t < |After(run).value.kinds|
    ensures var s := After(run).value; t in s.tokens.cancelled <==> Cause(run, s.kinds[t], t)
    decreases run
  {
    if run != [] {
      var init, e := run[..|run| - 1], run[|run| - 1];
      var s := After(init).value;
      assert init + [e] == run;
      KindsGrow(s, e);
      if t < |s.kinds| {
        CancelledExactlyForCause(init, t);
        Effect(s, e, t);
        CauseSnoc(init, e, s, t);
      } else {
        forall u: nat | u < |s.kinds|
          ensures u in s.tokens.cancelled <==> Cause(init, s.kinds[u], u)
        {
          CancelledExactlyForCause(init, u);
        }
        BornToken(init, e, s);
      }
    }
  }

  /** What an outcome of I/O says about the client: gone on any error; on a read that had room
      and brought no byte; on a write of some bytes that took none; on a finished shutdown. */
  predicate ClientGone(e: Event) {
    match e
    case Read(_, _, _, Ready(Err(_))) => true
    case Read(_, room, before, Ready(Ok(after))) => room != 0 && after == before
    case Write(_, _, Ready(Err(_))) => true
    case Write(_, length, Ready(Ok(taken))) => length != 0 && taken == 0
    case WriteVectored(_, _, Ready(Err(_))) => true
    case WriteVectored(_, lengths, Ready(Ok(taken))) => taken == 0 && exists i :: 0 <= i < |lengths| && lengths[i] != 0
    case Flush(_, Ready(Err(_))) => true
    case Shutdown(_, Ready(_)) => true
    case DropIo(_) => true
    case _ => false
  }

  /** For every event that can happen: a token of the state is cancelled afterwards exactly if
      it was before, or the event drops its own body, or it shows that the client of its
      connection is gone. A token that is made now is cancelled exactly if its connection's is. */
  lemma EventCancelsExactly(s: State, e: Event, t: nat)
    requires WellFormed(s) && Possible(s, e)
    ensures t < |s.kinds| ==>
      (t in Apply(s, e).tokens.cancelled <==>
        || t in s.tokens.cancelled
        || e == DropBody(t)
        || (Touches(e) && ClientGone(e) && (e.conn == t || s.kinds[t] == Request(Some(e.conn)))))
    ensures e == Accept ==> Apply(s, e).kinds == s.kinds + [Connection] && |s.kinds| !in Apply(s, e).tokens.cancelled
    ensures e.Start? ==>
      && Apply(s, e).kinds == s.kinds + [Request(e.connection)]
      && (|s.kinds| in Apply(s, e).tokens.cancelled <==> e.connection != None && e.connection.value in s.tokens.cancelled)
  {
    if t < |s.kinds| {
      Effect(s, e, t);
      assert Touches(e) ==> (SeesClosed(e, e.conn) <==> ClientGone(e));
    }
  }

  /** Dropping a body cancels that request and nothing else: neither its connection nor a
      sibling on the same connection. */
  lemma DroppingABodyIsIsolated(s: State, r: nat)
    requires WellFormed(s) && Possible(s, DropBody(r))
    ensures Apply(s, DropBody(r)).tokens.cancelled == s.tokens.cancelled + {r}
    ensures Apply(s, DropBody(r)).kinds == s.kinds
  {
    LeafCancelsItself(s.tokens, r);
  }

  /** No event undoes a cancellation. */
  lemma {:induction false} CancellationIsFinal(run: seq<Event>, more: seq<Event>)
    requires After(run + more).Some?
    ensures After(run).Some? && After(run).value.tokens.cancelled <= After(run + more).value.tokens.cancelled
  {
    if more == [] {
      assert run + more == run;
    } else {
      var init := more[..|more| - 1];
      assert (run + more)[..|run + more| - 1] == run + init;
      CancellationIsFinal(run, init);
    }
  }

  // ---- the transport and the request bodies ----

  class Server {
    const tokens: Tokens
    var kinds: seq<Kind>

    function View(): State
      reads this, tokens
    {
      State(kinds, tokens.View())
    }

    constructor ()
      ensures View() == INITIAL && WellFormed(View()) && fresh(tokens)
    {
      tokens := new Tokens();
      kinds := [];
    }

    /** `DisconnectAwareIo::new`. */
    method AcceptConnection() returns (conn: nat)
      requires WellFormed(View())
      modifies this, tokens
      ensures WellFormed(View()) && View() == Apply(old(View()), Accept) && conn == |old(kinds)|
    {
      ApplyKeepsWellFormed(View(), Accept);
      conn := tokens.Add(None);
      kinds := kinds + [Connection];
    }

    method PollRead(conn: nat, room: nat, before: nat, filled: Poll<Result<nat, IoError>>)
      returns (result: Poll<Result<nat, IoError>>)
      requires WellFormed(View()) && Possible(View(), Read(conn, room, before, filled))
      modifies tokens
      ensures WellFormed(View()) && View() == Apply(old(View()), Read(conn, room, before, filled)) && result == filled
    {
      ApplyKeepsWellFormed(View(), Read(conn, room, before, filled));
      match filled {
        case Ready(Ok(after)) =>
          if room > 0 && after == before {
            tokens.CancelToken(conn);
          }
        case Ready(Err(_)) =>
          tokens.CancelToken(conn);
        case Pending =>
      }
      result := filled;
    }

    method PollWrite(conn: nat, length: nat, written: Poll<Result<nat, IoError>>)
      returns (result: Poll<Result<nat, IoError>>)
      requires WellFormed(View()) && IsConnection(View(), conn)
      modifies tokens
      ensures WellFormed(View()) && View() == Apply(old(View()), Write(conn, length, written)) && result == written
    {
      ApplyKeepsWellFormed(View(), Write(conn, length, written));
      match written {
        case Ready(Ok(n)) =>
          if n == 0 && length > 0 {
            tokens.CancelToken(conn);
          }
        case Ready(Err(_)) =>
          tokens.CancelToken(conn);
        case Pending =>
      }
      result := written;
    }

    method PollWriteVectored(conn: nat, lengths: seq<nat>, written: Poll<Result<nat, IoError>>)
      returns (result: Poll<Result<nat, IoError>>)
      requires WellFormed(View()) && IsConnection(View(), conn)
      modifies tokens
      ensures WellFormed(View()) && View() == Apply(old(View()), WriteVectored(conn, lengths, written)) && result == written
    {
      ApplyKeepsWellFormed(View(), WriteVectored(conn, lengths, written));
      var hasBytes := false;
      for i := 0 to |lengths|
        invariant hasBytes <==> SomeBytes(lengths[..i])
      {
        hasBytes := hasBytes || lengths[i] > 0;
        assert forall k :: 0 <= k < i ==> lengths[..i + 1][k] == lengths[..i][k];
        assert lengths[..i + 1][i] == lengths[i];
      }
      assert lengths[..|lengths|] == lengths;
      match written {
        case Ready(Ok(n)) =>
          if n == 0 && hasBytes {
            tokens.CancelToken(conn);
          }
        case Ready(Err(_)) =>
          tokens.CancelToken(conn);
        case Pending =>
      }
      result := written;
    }

    method PollFlush(conn: nat, done: Poll<Result<(), IoError>>) returns (result: Poll<Result<(), IoError>>)
      requires WellFormed(View()) && IsConnection(View(), conn)
      modifies tokens
      ensures WellFormed(View()) && View() == Apply(old(View()), Flush(conn, done)) && result == done
    {
      ApplyKeepsWellFormed(View(), Flush(conn, done));
      if done.Ready? && done.outcome.Err? {
        tokens.CancelToken(conn);
      }
      result := done;
    }

    method PollShutdown(conn: nat, done: Poll<Result<(), IoError>>) returns (result: Poll<Result<(), IoError>>)
      requires WellFormed(View()) && IsConnection(View(), conn)
      modifies tokens
      ensures WellFormed(View()) && View() == Apply(old(View()), Shutdown(conn, done)) && result == done
    {
      ApplyKeepsWellFormed(View(), Shutdown(conn, done));
      if done.Ready? {
        tokens.CancelToken(conn);
      }
      result := done;
    }

    method DropConnection(conn: nat)
      requires WellFormed(View()) && IsConnection(View(), conn)
      modifies tokens
      ensures WellFormed(View()) && View() == Apply(old(View()), DropIo(conn))
    {
      ApplyKeepsWellFormed(View(), DropIo(conn));
      tokens.CancelToken(conn);
    }

    /** `request_cancellation`: a child of the connection's token, or an independent one. */
    method RequestCancellation(connection: Option<nat>) returns (request: nat)
      requires WellFormed(View()) && Possible(View(), Start(connection))
      modifies this, tokens
      ensures WellFormed(View()) && View() == Apply(old(View()), Start(connection)) && request == |old(kinds)|
    {
      ApplyKeepsWellFormed(View(), Start(connection));
      request := tokens.Add(connection);
      kinds := kinds + [Request(connection)];
    }

    /** Dropping a `CancelOnDropStream`. */
    method DropResponseBody(request: nat)
      requires WellFormed(View()) && Possible(View(), DropBody(request))
      modifies tokens
      ensures WellFormed(View()) && View() == Apply(old(View()), DropBody(request))
    {
      ApplyKeepsWellFormed(View(), DropBody(request));
      tokens.CancelToken(request);
    }
  }

  // ---- waiting for work ----

  datatype ClientDisconnected = ClientDisconnected

  /** One poll of `until_client_disconnect`: the work is asked first. */
  function PollUntil<T>(work: Poll<T>, cancelled: bool): Poll<Result<T, ClientDisconnected>> {
    if work.Ready? then Ready(Ok(work.outcome)) else if cancelled then Ready(Err(ClientDisconnected)) else Pending
  }

  datatype Moment<T> = Moment(work: Poll<T>, cancelled: bool)

  /** What the caller gets from a series of polls. */
  function Await<T>(moments: seq<Moment<T>>): Poll<Result<T, ClientDisconnected>> {
    if moments == [] then Pending
    else
      var first := PollUntil(moments[0].work, moments[0].cancelled);
      if first.Ready? then first else Await(moments[1..])
  }

  predicate Quiet<T>(m: Moment<T>) {
    m.work.Pending? && !m.cancelled
  }

  /** The first poll that finds the work done or the client gone. */
  function Settled<T>(moments: seq<Moment<T>>): (k: nat)
    ensures k <= |moments| && forall j :: 0 <= j < k ==> Quiet(moments[j])
    ensures k < |moments| ==> !Quiet(moments[k])
  {
    if moments == [] || !Quiet(moments[0]) then 0 else 1 + Settled(moments[1..])
  }

  /** Work completed by the poll that first sees the cancellation still wins; otherwise
      that poll ends the wait. */
  lemma {:induction false} CompletedWorkWins<T>(moments: seq<Moment<T>>)
    ensures var k := Settled(moments);
      && (k == |moments| ==> Await(moments) == Pending)
      && (k < |moments| && moments[k].work.Ready? ==> Await(moments) == Ready(Ok(moments[k].work.outcome)))
      && (k < |moments| && moments[k].work.Pending? ==>
            moments[k].cancelled && Await(moments) == Ready(Err(ClientDisconnected)))
  {
    if moments != [] && Quiet(moments[0]) {
      CompletedWorkWins(moments[1..]);
    }
  }
}
