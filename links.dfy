// The instruction list of Optimizer.c as an arena: instruction k lives at
// index k, and a link is an index or NIL.  These are the facts about links
// that the imperative sweep needs, stated over plain sequences.

module Links {
  import opened Instr
  import opened DeadCode
  import opened Liveness

  /** NULL, for instruction links and for "no item found". */
  const NIL: int := -1

  /** Every link points forward, or is NIL. */
  predicate Forward(nx: seq<int>) {
    forall k :: 0 <= k < |nx| ==> nx[k] == NIL || k < nx[k] < |nx|
  }

  /** The list ReadInstructionList builds: each instruction linked to the one
      after it, the last to NIL. */
  function Chain(n: nat): (nx: seq<int>)
    ensures |nx| == n && Forward(nx)
  {
    seq(n, k => if k + 1 < n then k + 1 else NIL)
  }

  /** The instructions met by following links from j until NIL. */
  function Walk(code: seq<Instruction>, nx: seq<int>, j: int): (w: seq<Instruction>)
    requires |nx| == |code| && Forward(nx) && (j == NIL || 0 <= j < |code|)
    ensures j == NIL <==> w == []
    ensures forall x :: x in w ==> x in code
    decreases if j == NIL then 0 else |code| - j
  {
    if j == NIL then [] else [code[j]] + Walk(code, nx, nx[j])
  }

  /** The first kept position at or after m, or NIL when there is none. */
  function NextKept(kept: seq<bool>, m: nat): (r: int)
    ensures r == NIL || (m <= r < |kept| && kept[r])
    ensures r == NIL ==> forall k :: m <= k < |kept| ==> !kept[k]
    ensures r != NIL ==> forall k :: m <= k < r ==> !kept[k]
    decreases |kept| - m
  {
    if m >= |kept| then NIL
    else if kept[m] then m
    else NextKept(kept, m + 1)
  }

  /** The list reachable from head is exactly the kept positions in order:
      head is the first kept position and every kept position links to the
      next kept one.  Links of dropped positions do not matter. */
  ghost predicate Linked(nx: seq<int>, head: int, kept: seq<bool>) {
    && |nx| == |kept|
    && head == NextKept(kept, 0)
    && forall k :: 0 <= k < |nx| && kept[k] ==> nx[k] == NextKept(kept, k + 1)
  }

  /** Changing a decision at or before i does not move the first kept position
      after it. */
  lemma {:induction false} NextKeptAbove(kept: seq<bool>, i: nat, b: bool, m: nat)
    requires i < |kept| && i < m
    ensures NextKept(kept[i := b], m) == NextKept(kept, m)
    decreases |kept| - m
  {
    if m < |kept| && !kept[m] {
      NextKeptAbove(kept, i, b, m + 1);
    }
  }

  /** The fresh list links every instruction. */
  lemma ChainLinked(n: nat)
    ensures Linked(Chain(n), if n > 0 then 0 else NIL, AllTrue(n))
  {
    forall k | 0 <= k < n
      ensures Chain(n)[k] == NextKept(AllTrue(n), k + 1)
    {
      if k + 1 < n {
        assert AllTrue(n)[k + 1];
      }
    }
    if n > 0 {
      assert AllTrue(n)[0];
    }
  }

  /** Unlinking the head, as handleDependant does when the first instruction
      is dead: head moves to its successor. */
  lemma UnlinkHead(nx: seq<int>, kept: seq<bool>)
    requires Linked(nx, 0, kept) && |kept| > 0
    ensures Linked(nx, nx[0], kept[0 := false])
  {
    var kept' := kept[0 := false];
    NextKeptAbove(kept, 0, false, 1);
    forall k | 0 <= k < |nx| && kept'[k]
      ensures nx[k] == NextKept(kept', k + 1)
    {
      NextKeptAbove(kept, 0, false, k + 1);
    }
  }

  /** Unlinking position i > 0 while everything up to i is still kept: its
      predecessor i - 1 takes over its link. */
  lemma UnlinkInner(nx: seq<int>, kept: seq<bool>, i: nat)
    requires Linked(nx, 0, kept) && 0 < i < |kept|
    requires forall k :: 0 <= k <= i ==> kept[k]
    ensures Linked(nx[i - 1 := nx[i]], 0, kept[i := false])
  {
    var kept', nx' := kept[i := false], nx[i - 1 := nx[i]];
    forall k | 0 <= k < |nx'| && kept'[k]
      ensures nx'[k] == NextKept(kept', k + 1)
    {
      if k == i - 1 {
        NextKeptAbove(kept, i, false, i + 1);
      } else if k > i {
        NextKeptAbove(kept, i, false, k + 1);
      } else {
        assert kept'[k + 1];
      }
    }
    assert kept'[0];
  }

  /** Following the links of a Linked list visits the kept instructions, in
      order: the printed list is the filtered code. */
  lemma {:induction false} WalkKept(code: seq<Instruction>, nx: seq<int>, kept: seq<bool>, m: nat)
    requires |nx| == |code| == |kept| && Forward(nx) && m <= |code|
    requires forall k :: m <= k < |nx| && kept[k] ==> nx[k] == NextKept(kept, k + 1)
    ensures Walk(code, nx, NextKept(kept, m)) == Filter(code[m..], kept[m..])
    decreases |code| - m
  {
    if m < |code| {
      WalkKept(code, nx, kept, m + 1);
      assert code[m..][1..] == code[m + 1..] && kept[m..][1..] == kept[m + 1..];
    }
  }
}
