/** Cancellation tokens in parent/child trees, as the server transport shares them
    (backend/src/downstream_disconnect.rs). Tokens are numbered in creation order. */
module CancellationTokens {
  import opened Options

  /** Parents, absent for roots, and the tokens cancelled so far. */
  datatype Forest = Forest(parents: seq<Option<nat>>, cancelled: set<nat>)

  predicate ParentsFirst(parents: seq<Option<nat>>) {
    forall i :: 0 <= i < |parents| && parents[i].Some? ==> parents[i].value < i
  }

  /** The token is the given one or descends from it. */
  predicate Below(parents: seq<Option<nat>>, i: nat, t: nat)
    requires ParentsFirst(parents) && i < |parents|
    decreases i, t
  {
    i == t || (parents[i].Some? && Below(parents, parents[i].value, t))
  }

  /** Cancellation reaches every descendant of a cancelled token. */
  predicate Coherent(f: Forest) {
    && ParentsFirst(f.parents)
    && (forall t :: t in f.cancelled ==> t < |f.parents|)
    && (forall i :: 0 <= i < |f.parents| && f.parents[i].Some? && f.parents[i].value in f.cancelled ==> i in f.cancelled)
  }

  function Create(f: Forest, parent: Option<nat>): Forest {
    Forest(f.parents + [parent],
      if parent.Some? && parent.value in f.cancelled then f.cancelled + {|f.parents|} else f.cancelled)
  }

  function Cancel(f: Forest, t: nat): Forest
    requires ParentsFirst(f.parents)
  {
    f.(cancelled := f.cancelled + set i | 0 <= i < |f.parents| && Below(f.parents, i, t))
  }

  lemma CreateKeepsCoherent(f: Forest, parent: Option<nat>)
    requires Coherent(f) && (parent.Some? ==> parent.value < |f.parents|)
    ensures Coherent(Create(f, parent))
  {
  }

  lemma CancelKeepsCoherent(f: Forest, t: nat)
    requires Coherent(f)
    ensures Coherent(Cancel(f, t))
  {
  }

  predicate Leaf(parents: seq<Option<nat>>, t: nat) {
    forall i :: 0 <= i < |parents| ==> parents[i] != Some(t)
  }

  lemma {:induction false} NothingBelowLeaf(parents: seq<Option<nat>>, i: nat, t: nat)
    requires ParentsFirst(parents) && i < |parents| && Leaf(parents, t)
    ensures Below(parents, i, t) <==> i == t
    decreases i
  {
    if parents[i].Some? {
      NothingBelowLeaf(parents, parents[i].value, t);
    }
  }

  /** A token without children is cancelled alone. */
  lemma LeafCancelsItself(f: Forest, t: nat)
    requires Coherent(f) && t < |f.parents| && Leaf(f.parents, t)
    ensures Cancel(f, t).cancelled == f.cancelled + {t}
  {
    forall i | 0 <= i < |f.parents|
      ensures Below(f.parents, i, t) <==> i == t
    {
      NothingBelowLeaf(f.parents, i, t);
    }
  }

  /** The shared token tree. */
  class Tokens {
    var parents: seq<Option<nat>>
    var cancelled: set<nat>

    function View(): Forest
      reads this
    {
      Forest(parents, cancelled)
    }

    constructor ()
      ensures View() == Forest([], {}) && Coherent(View())
    {
      parents, cancelled := [], {};
    }

    /** `CancellationToken::new` or `child_token`. */
    method Add(parent: Option<nat>) returns (t: nat)
      requires Coherent(View()) && (parent.Some? ==> parent.value < |parents|)
      modifies this
      ensures Coherent(View()) && View() == Create(old(View()), parent) && t == |old(parents)|
    {
      CreateKeepsCoherent(View(), parent);
      t := |parents|;
      if parent.Some? && parent.value in cancelled {
        cancelled := cancelled + {t};
      }
      parents := parents + [parent];
    }

    /** `cancel`: one pass in creation order reaches all descendants. */
    method CancelToken(t: nat)
      requires Coherent(View()) && t < |parents|
      modifies this
      ensures Coherent(View()) && View() == Cancel(old(View()), t)
    {
      CancelKeepsCoherent(View(), t);
      var reached: set<nat> := {};
      for i := 0 to |parents|
        invariant reached == set k | 0 <= k < i && Below(parents, k, t)
        invariant parents == old(parents) && cancelled == old(cancelled)
      {
        if i == t || (parents[i].Some? && parents[i].value in reached) {
          reached := reached + {i};
        }
      }
      cancelled := cancelled + reached;
    }
  }
}
