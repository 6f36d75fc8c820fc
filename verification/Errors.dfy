/** Classifying a connect error by its chain of causes, which may be cyclic. */
module Errors {
  import opened Common
  import opened Models

  /** The heap of exception objects, by identity. */
  type Identity = nat

  datatype Raised = Raised(isSsl: bool, isGai: bool, isRefused: bool,
                           cause: Option<Identity>, context: Option<Identity>)

  type Heap = map<Identity, Raised>

  predicate LinkFine(heap: Heap, link: Option<Identity>) {
    link.Some? ==> link.value in heap
  }

  predicate Closed(heap: Heap) {
    forall n :: n in heap ==> LinkFine(heap, heap[n].cause) && LinkFine(heap, heap[n].context)
  }

  const DEPTH: nat := 8

  function ClassOf(e: Raised): Option<ErrorCode> {
    if e.isSsl then Some(TlsError)
    else if e.isGai then Some(Dns)
    else if e.isRefused then Some(TcpRefused)
    else None
  }

  /** `__cause__ or __context__`. */
  function Link(e: Raised): Option<Identity> {
    if e.cause.Some? then e.cause else e.context
  }

  /** The node `i` links from the start, if the chain is that long. */
  function Node(heap: Heap, start: Option<Identity>, i: nat): (n: Option<Identity>)
    requires Closed(heap) && LinkFine(heap, start)
    ensures LinkFine(heap, n)
  {
    if i == 0 then start
    else
      var before := Node(heap, start, i - 1);
      if before.None? then None
      else
        assert before.value in heap;
        Link(heap[before.value])
  }

  function ClassAt(heap: Heap, start: Option<Identity>, i: nat): Option<ErrorCode>
    requires Closed(heap) && LinkFine(heap, start)
  {
    var n := Node(heap, start, i);
    if n.None? then None else ClassOf(heap[n.value])
  }

  /** The walk without any memory of where it has been. */
  function PlainWalk(heap: Heap, current: Option<Identity>, fuel: nat): ErrorCode
    requires Closed(heap) && LinkFine(heap, current)
    decreases fuel
  {
    if fuel == 0 || current.None? then Connection
    else
      var e := heap[current.value];
      if ClassOf(e).Some? then ClassOf(e).value else PlainWalk(heap, Link(e), fuel - 1)
  }

  lemma {:induction false} NodeShift(heap: Heap, start: Identity, i: nat)
    requires Closed(heap) && start in heap
    ensures Node(heap, Some(start), i + 1) == Node(heap, Link(heap[start]), i)
  {
    if i > 0 {
      NodeShift(heap, start, i - 1);
    }
  }

  /** The plain walk finds the class of the first classified node among the first `fuel`, and
      answers `Connection` exactly when there is none. */
  lemma {:induction false} PlainWalkFindsFirst(heap: Heap, current: Option<Identity>, fuel: nat)
    requires Closed(heap) && LinkFine(heap, current)
    ensures
      var code := PlainWalk(heap, current, fuel);
      || (code == Connection && forall i: nat :: i < fuel ==> ClassAt(heap, current, i).None?)
      || (exists i: nat :: i < fuel && ClassAt(heap, current, i) == Some(code)
                           && forall j: nat :: j < i ==> ClassAt(heap, current, j).None?)
    decreases fuel
  {
    if fuel == 0 {
    } else if current.None? {
      forall i: nat
        ensures Node(heap, current, i).None?
      {
        NoneStaysNone(heap, i);
      }
    } else if ClassOf(heap[current.value]).Some? {
      assert ClassAt(heap, current, 0) == ClassOf(heap[current.value]);
    } else {
      var next := Link(heap[current.value]);
      var code := PlainWalk(heap, current, fuel);
      PlainWalkFindsFirst(heap, next, fuel - 1);
      assert ClassAt(heap, current, 0).None?;
      forall i: nat
        ensures ClassAt(heap, current, i + 1) == ClassAt(heap, next, i)
      {
        NodeShift(heap, current.value, i);
      }
      if i: nat :| i < fuel - 1 && ClassAt(heap, next, i) == Some(code)
                   && forall j: nat :: j < i ==> ClassAt(heap, next, j).None? {
        assert ClassAt(heap, current, i + 1) == Some(code);
        forall j: nat | j < i + 1
          ensures ClassAt(heap, current, j).None?
        {
          assert j == 0 || ClassAt(heap, current, j - 1 + 1) == ClassAt(heap, next, j - 1);
        }
      } else {
        forall i: nat | i < fuel
          ensures ClassAt(heap, current, i).None?
        {
          assert i == 0 || ClassAt(heap, current, i - 1 + 1) == ClassAt(heap, next, i - 1);
        }
      }
    }
  }

  lemma {:induction false} NoneStaysNone(heap: Heap, i: nat)
    requires Closed(heap)
    ensures Node(heap, None, i).None?
  {
    if i > 0 {
      NoneStaysNone(heap, i - 1);
    }
  }

  /** A walk that stays among unclassified nodes finds nothing. */
  lemma {:induction false} NothingNewInACycle(heap: Heap, seen: set<Identity>, current: Option<Identity>, fuel: nat)
    requires Closed(heap) && LinkFine(heap, current)
    requires forall n :: n in seen ==> n in heap && ClassOf(heap[n]).None?
    requires forall n :: n in seen ==> Link(heap[n]).None? || Link(heap[n]).value in seen
    requires current.None? || current.value in seen
    ensures PlainWalk(heap, current, fuel) == Connection
    decreases fuel
  {
    if fuel > 0 && current.Some? {
      NothingNewInACycle(heap, seen, Link(heap[current.value]), fuel - 1);
    }
  }

  // ---- The answer, read off the chain ----

  /** The nodes from `start` on, each the cause of the one before, or its context if it has no cause: the
      first eight, or all of them if the chain is shorter. */
  ghost predicate IsChain(heap: Heap, start: Identity, chain: seq<Identity>)
    requires Closed(heap)
  {
    && 1 <= |chain| <= 8 && chain[0] == start && start in heap
    && (forall i :: 0 <= i < |chain| ==> chain[i] in heap)
    && (forall i :: 0 <= i < |chain| - 1 ==> Follows(heap[chain[i]], chain[i + 1]))
    && (|chain| == 8 || (heap[chain[|chain| - 1]].cause == None && heap[chain[|chain| - 1]].context == None))
  }

  predicate Follows(e: Raised, next: Identity) {
    e.cause == Some(next) || (e.cause == None && e.context == Some(next))
  }

  predicate Flagged(e: Raised) {
    e.isSsl || e.isGai || e.isRefused
  }

  /** Node `i` is the first of the chain that is of one of the three kinds. */
  ghost predicate FirstFlagged(heap: Heap, chain: seq<Identity>, i: nat) {
    && i < |chain| && chain[i] in heap && Flagged(heap[chain[i]])
    && forall j: nat :: j < i ==> chain[j] in heap && !Flagged(heap[chain[j]])
  }

  /** The answer is the kind of the first flagged node, TLS before DNS before a refusal, or `connection`
      if there is none. */
  ghost predicate Answers(heap: Heap, chain: seq<Identity>, code: ErrorCode) {
    && (code == TlsError <==> exists i: nat :: FirstFlagged(heap, chain, i) && heap[chain[i]].isSsl)
    && (code == Dns <==>
          exists i: nat :: FirstFlagged(heap, chain, i) && heap[chain[i]].isGai && !heap[chain[i]].isSsl)
    && (code == TcpRefused <==>
          exists i: nat :: FirstFlagged(heap, chain, i) && heap[chain[i]].isRefused
                           && !heap[chain[i]].isGai && !heap[chain[i]].isSsl)
    && (code == Connection <==> forall i :: 0 <= i < |chain| ==> chain[i] in heap && !Flagged(heap[chain[i]]))
  }

  /** The plain walk from any node of the chain on sees the rest of the chain. */
  lemma {:induction false} WalkAlong(heap: Heap, start: Identity, chain: seq<Identity>, k: nat) returns (i: nat)
    requires Closed(heap) && IsChain(heap, start, chain) && k < |chain|
    requires forall j: nat :: j < k ==> !Flagged(heap[chain[j]])
    ensures k <= i <= |chain|
    ensures forall j: nat :: j < i ==> !Flagged(heap[chain[j]])
    ensures i < |chain| ==> Flagged(heap[chain[i]])
    ensures PlainWalk(heap, Some(chain[k]), 8 - k) ==
              if i < |chain| then ClassOf(heap[chain[i]]).GetOr(Connection) else Connection
    decreases |chain| - k
  {
    var e := heap[chain[k]];
    if Flagged(e) {
      i := k;
    } else if k + 1 < |chain| {
      assert Follows(heap[chain[k]], chain[k + 1]);
      assert Link(e) == Some(chain[k + 1]);
      i := WalkAlong(heap, start, chain, k + 1);
    } else {
      i := |chain|;
    }
  }

  lemma {:induction false} WalkAnswers(heap: Heap, start: Identity, chain: seq<Identity>)
    requires Closed(heap) && IsChain(heap, start, chain)
    ensures Answers(heap, chain, PlainWalk(heap, Some(start), 8))
  {
    var i := WalkAlong(heap, start, chain, 0);
    if i < |chain| {
      assert FirstFlagged(heap, chain, i);
      assert forall j: nat :: FirstFlagged(heap, chain, j) ==> j == i;
    } else {
      assert forall j: nat :: !FirstFlagged(heap, chain, j);
    }
  }

  /** Every node starts a chain, cyclic or not. */
  lemma {:induction false} SomeChain(heap: Heap, start: Identity) returns (chain: seq<Identity>)
    requires Closed(heap) && start in heap
    ensures IsChain(heap, start, chain)
  {
    chain := [start];
    while |chain| < 8 && Link(heap[chain[|chain| - 1]]).Some?
      invariant 1 <= |chain| <= 8 && chain[0] == start
      invariant forall i :: 0 <= i < |chain| ==> chain[i] in heap
      invariant forall i :: 0 <= i < |chain| - 1 ==> Follows(heap[chain[i]], chain[i + 1])
      decreases 8 - |chain|
    {
      chain := chain + [Link(heap[chain[|chain| - 1]]).value];
    }
  }

  /** The bounded walk with a visited set: on every chain, cyclic or not, it answers as the plain
      walk does, and so as the chain says. */
  method ClassifyConnectCause(heap: Heap, exc: Identity) returns (code: ErrorCode)
    requires Closed(heap) && exc in heap
    ensures code == PlainWalk(heap, Some(exc), DEPTH)
    ensures forall chain: seq<Identity> :: IsChain(heap, exc, chain) ==> Answers(heap, chain, code)
  {
    forall chain: seq<Identity> | IsChain(heap, exc, chain)
      ensures Answers(heap, chain, PlainWalk(heap, Some(exc), DEPTH))
    {
      WalkAnswers(heap, exc, chain);
    }
    var current: Option<Identity> := Some(exc);
    var seen: set<Identity> := {};
    for i := 0 to DEPTH
      invariant LinkFine(heap, current)
      invariant PlainWalk(heap, Some(exc), DEPTH) == PlainWalk(heap, current, DEPTH - i)
      invariant forall n :: n in seen ==> n in heap && ClassOf(heap[n]).None?
      invariant forall n :: n in seen ==>
                  Link(heap[n]).None? || Link(heap[n]).value in seen || Link(heap[n]) == current
    {
      if current.None? {
        break;
      }
      var e := heap[current.value];
      if e.isSsl {
        return TlsError;
      }
      if e.isGai {
        return Dns;
      }
      if e.isRefused {
        return TcpRefused;
      }
      if current.value in seen {
        NothingNewInACycle(heap, seen, current, DEPTH - i);
        break;
      }
      seen := seen + {current.value};
      current := if e.cause.Some? then e.cause else e.context;
    }
    return Connection;
  }
}
