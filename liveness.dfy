// Properties of the backward sweep: which instructions it keeps, what it does
// to the demand list, and what it guarantees about its output.

module Liveness {
  import opened Wrappers
  import opened Instr
  import opened DeadCode

  // ----- the sweep, piece by piece -----

  /** The sweep visits the last instruction first. */
  lemma SweepSnoc(code: seq<Instruction>, x: Instruction, ds: seq<Demand>)
    ensures Sweep(code + [x], ds)
         == (Sweep(code, Step(ds, x).1).0 + [Step(ds, x).0], Sweep(code, Step(ds, x).1).1)
  {
    assert (code + [x])[..|code|] == code;
    assert (code + [x])[|code|] == x;
  }

  /** Sweeping a + b is sweeping b, then sweeping a with the demands b left. */
  lemma {:induction false} SweepAppend(a: seq<Instruction>, b: seq<Instruction>, ds: seq<Demand>)
    ensures Sweep(a + b, ds)
         == (Sweep(a, Sweep(b, ds).1).0 + Sweep(b, ds).0, Sweep(a, Sweep(b, ds).1).1)
    decreases |b|
  {
    if b == [] {
      assert a + b == a;
      assert Sweep(a, ds).0 + [] == Sweep(a, ds).0;
    } else {
      var n := |b| - 1;
      var x := b[n];
      var st := Step(ds, x);
      assert b == b[..n] + [x];
      assert a + b == (a + b[..n]) + [x];
      SweepSnoc(a + b[..n], x, ds);
      SweepAppend(a, b[..n], st.1);
      var inner := Sweep(b[..n], st.1);
      assert Sweep(b, ds) == (inner.0 + [st.0], inner.1);
      var outer := Sweep(a, inner.1);
      assert Sweep(a + b, ds) == ((outer.0 + inner.0) + [st.0], outer.1);
      assert (outer.0 + inner.0) + [st.0] == outer.0 + (inner.0 + [st.0]);
    }
  }

  /** The demands pending when the sweep reaches position k. */
  function Pending(code: seq<Instruction>, k: nat): seq<Demand>
    requires k < |code|
  {
    Sweep(code[k + 1..], []).1
  }

  /** The demands pending just after position k has been visited. */
  function After(code: seq<Instruction>, k: nat): seq<Demand>
    requires k < |code|
  {
    Sweep(code[k..], []).1
  }

  /** The decision at k is the step at k, taken on the demands pending then. */
  lemma KeepAt(code: seq<Instruction>, k: nat)
    requires k < |code|
    ensures Keep(code)[k] == Step(Pending(code, k), code[k]).0
    ensures After(code, k) == Step(Pending(code, k), code[k]).1
  {
    var a, b := code[..k + 1], code[k + 1..];
    assert code == a + b;
    SweepAppend(a, b, []);
    assert a == code[..k] + [code[k]];
    SweepSnoc(code[..k], code[k], Pending(code, k));
    assert code[k..] == [code[k]] + b;
    SweepAppend([code[k]], b, []);
    SweepSnoc([], code[k], Pending(code, k));
  }

  /** Kept iff demanded: READ and WRITE always stay; any other instruction
      stays exactly when a demand for what it defines is pending when the
      sweep reaches it. */
  lemma KeptIffDemanded(code: seq<Instruction>, k: nat)
    requires k < |code|
    ensures IsIo(code[k]) ==> Keep(code)[k]
    ensures !IsIo(code[k]) ==> (Keep(code)[k] <==> Defines(code[k]).value in Pending(code, k))
  {
    KeepAt(code, k);
  }

  /** A removed instruction leaves the demands as they were. */
  lemma RemovedHasNoEffect(code: seq<Instruction>, k: nat)
    requires k < |code| && !Keep(code)[k]
    ensures After(code, k) == Pending(code, k)
  {
    KeepAt(code, k);
  }

  /** A kept instruction other than READ and WRITE consumes one pending copy
      of the demand it satisfies, then adds the demands of its operands that
      are not pending already. */
  lemma KeptConsumesOne(code: seq<Instruction>, k: nat)
    requires k < |code| && Keep(code)[k] && !IsIo(code[k])
    ensures After(code, k) == AddUses(RemoveFirst(Pending(code, k), Defines(code[k]).value), code[k])
  {
    KeepAt(code, k);
  }

  /** Counted per demand: the satisfied demand loses exactly one copy (unless
      the instruction also reads it), every demand of Uses(ins) is pending
      afterwards, and all other demands keep their number of copies. */
  lemma StepCounts(ds: seq<Demand>, ins: Instruction, x: Demand)
    requires !IsIo(ins) && Step(ds, ins).0
    ensures x == Defines(ins).value && x !in Uses(ins) ==> multiset(Step(ds, ins).1)[x] == multiset(ds)[x] - 1
    ensures x != Defines(ins).value && x !in Uses(ins) ==> multiset(Step(ds, ins).1)[x] == multiset(ds)[x]
    ensures x in Uses(ins) ==> x in Step(ds, ins).1
  {
    var d := Defines(ins).value;
    RemoveFirstCount(ds, d);
    AddUsesContents(RemoveFirst(ds, d), ins);
  }

  // ----- the output -----

  lemma {:induction false} FilterAppend(a: seq<Instruction>, b: seq<Instruction>, ka: seq<bool>, kb: seq<bool>)
    requires |ka| == |a| && |kb| == |b|
    ensures Filter(a + b, ka + kb) == Filter(a, ka) + Filter(b, kb)
    decreases |a|
  {
    if a == [] {
      assert a + b == b && ka + kb == kb;
      assert Filter(a, ka) == [];
    } else {
      var h := if ka[0] then [a[0]] else [];
      var ab, kab := a + b, ka + kb;
      assert ab[0] == a[0] && kab[0] == ka[0];
      assert ab[1..] == a[1..] + b && kab[1..] == ka[1..] + kb;
      assert Filter(ab, kab) == h + Filter(a[1..] + b, ka[1..] + kb);
      FilterAppend(a[1..], b, ka[1..], kb);
      assert Filter(a, ka) == h + Filter(a[1..], ka[1..]);
      assert h + (Filter(a[1..], ka[1..]) + Filter(b, kb)) == (h + Filter(a[1..], ka[1..])) + Filter(b, kb);
    }
  }

  lemma FilterSnoc(code: seq<Instruction>, x: Instruction, keep: seq<bool>, k: bool)
    requires |keep| == |code|
    ensures Filter(code + [x], keep + [k]) == Filter(code, keep) + (if k then [x] else [])
  {
    FilterAppend(code, [x], keep, [k]);
    assert Filter([x], [k]) == (if k then [x] else []) + Filter([], []);
  }

  function AllTrue(n: nat): seq<bool> {
    seq(n, _ => true)
  }

  lemma {:induction false} FilterAllTrue(code: seq<Instruction>)
    ensures Filter(code, AllTrue(|code|)) == code
    decreases |code|
  {
    if code != [] {
      assert AllTrue(|code|)[1..] == AllTrue(|code| - 1);
      FilterAllTrue(code[1..]);
    }
  }

  /** Idempotence of one sweep: sweeping its own output again, from the same
      pending demands, keeps every instruction and ends with the same
      leftover demands, because removed instructions never touched them. */
  lemma {:induction false} SweepFilterIdempotent(code: seq<Instruction>, ds: seq<Demand>)
    ensures Sweep(Filter(code, Sweep(code, ds).0), ds)
         == (AllTrue(|Filter(code, Sweep(code, ds).0)|), Sweep(code, ds).1)
    decreases |code|
  {
    if code != [] {
      var n := |code| - 1;
      var x := code[n];
      var st := Step(ds, x);
      var rest := Sweep(code[..n], st.1);
      assert code == code[..n] + [x];
      assert Sweep(code, ds) == (rest.0 + [st.0], rest.1);
      FilterSnoc(code[..n], x, rest.0, st.0);
      SweepFilterIdempotent(code[..n], st.1);
      IdempotentStep(Filter(code[..n], rest.0), x, ds, rest.1);
    } else {
      assert AllTrue(0) == [];
    }
  }

  /** One instruction more at the end: if it was kept, the second sweep keeps
      it again from the same demands; if it was removed, it is absent and the
      demands were unchanged anyway. */
  lemma IdempotentStep(f: seq<Instruction>, x: Instruction, ds: seq<Demand>, left: seq<Demand>)
    requires Sweep(f, Step(ds, x).1) == (AllTrue(|f|), left)
    ensures var g := f + (if Step(ds, x).0 then [x] else []);
      Sweep(g, ds) == (AllTrue(|g|), left)
  {
    if Step(ds, x).0 {
      SweepSnoc(f, x, ds);
      assert AllTrue(|f|) + [true] == AllTrue(|f| + 1);
    } else {
      assert f + [] == f;
    }
  }

  /** Running the optimizer on its own output removes nothing. */
  lemma OptimizeIdempotent(code: seq<Instruction>)
    ensures Keep(Optimized(code)) == AllTrue(|Optimized(code)|)
    ensures Optimized(Optimized(code)) == Optimized(code)
  {
    SweepFilterIdempotent(code, []);
    FilterAllTrue(Optimized(code));
  }

  /** The READ and WRITE instructions of a sequence, in order. */
  function IoOf(code: seq<Instruction>): seq<Instruction>
    decreases |code|
  {
    if code == [] then [] else (if IsIo(code[0]) then [code[0]] else []) + IoOf(code[1..])
  }

  lemma {:induction false} SweepKeepsIo(code: seq<Instruction>, ds: seq<Demand>)
    ensures forall k :: 0 <= k < |code| && IsIo(code[k]) ==> Sweep(code, ds).0[k]
    decreases |code|
  {
    if code != [] {
      var n := |code| - 1;
      SweepKeepsIo(code[..n], Step(ds, code[n]).1);
    }
  }

  lemma {:induction false} FilterKeepsIo(code: seq<Instruction>, keep: seq<bool>)
    requires |keep| == |code|
    requires forall k :: 0 <= k < |code| && IsIo(code[k]) ==> keep[k]
    ensures IoOf(Filter(code, keep)) == IoOf(code)
    decreases |code|
  {
    if code != [] {
      var head := if keep[0] then [code[0]] else [];
      FilterKeepsIo(code[1..], keep[1..]);
      IoOfAppend(head, Filter(code[1..], keep[1..]));
    }
  }

  lemma IoOfAppend(a: seq<Instruction>, b: seq<Instruction>)
    requires |a| <= 1
    ensures IoOf(a + b) == IoOf(a) + IoOf(b)
  {
    if a != [] {
      assert (a + b)[0] == a[0] && (a + b)[1..] == b;
      assert IoOf(a) == (if IsIo(a[0]) then [a[0]] else []) + IoOf([]);
    } else {
      assert a + b == b;
    }
  }

  /** Every READ and WRITE survives, and they come out in their original
      order: the input and output agree on their I/O instructions. */
  lemma OptimizeKeepsIo(code: seq<Instruction>)
    ensures IoOf(Optimized(code)) == IoOf(code)
  {
    SweepKeepsIo(code, []);
    FilterKeepsIo(code, Keep(code));
  }

  /** The positions marked true, from position `from` on, in increasing order. */
  function KeptIndices(keep: seq<bool>, from: nat): (r: seq<nat>)
    requires from <= |keep|
    ensures forall t :: 0 <= t < |r| ==> from <= r[t] < |keep| && keep[r[t]]
    ensures forall t, u :: 0 <= t < u < |r| ==> r[t] < r[u]
    decreases |keep| - from
  {
    if from == |keep| then []
    else (if keep[from] then [from] else []) + KeptIndices(keep, from + 1)
  }

  /** Survivors keep their relative order: the output is the input read at
      strictly increasing positions, exactly the kept ones. */
  lemma {:induction false} FilterOrder(code: seq<Instruction>, keep: seq<bool>, from: nat)
    requires |keep| == |code| && from <= |code|
    ensures |Filter(code[from..], keep[from..])| == |KeptIndices(keep, from)|
    ensures forall t :: 0 <= t < |KeptIndices(keep, from)| ==>
      Filter(code[from..], keep[from..])[t] == code[KeptIndices(keep, from)[t]]
    decreases |code| - from
  {
    if from < |code| {
      FilterOrder(code, keep, from + 1);
      assert code[from..][1..] == code[from + 1..] && keep[from..][1..] == keep[from + 1..];
    }
  }

  // ----- where demands come from and how long they stay -----

  /** Every demand after a step was pending before it or is one the visited
      instruction adds. */
  lemma StepSources(ds: seq<Demand>, x: Instruction, y: Demand)
    requires y in Step(ds, x).1
    ensures y in ds || y in Uses(x)
  {
    if !IsIo(x) && Step(ds, x).0 {
      var d := Defines(x).value;
      AddUsesContents(RemoveFirst(ds, d), x);
      if y in RemoveFirst(ds, d) {
        RemoveFirstCount(ds, d);
        assert multiset(RemoveFirst(ds, d))[y] > 0;
      }
    }
  }

  /** A pending demand that no visited instruction satisfies stays pending. */
  lemma StepRetains(ds: seq<Demand>, x: Instruction, y: Demand)
    requires y in ds && Defines(x) != Some(y)
    ensures y in Step(ds, x).1
  {
    if !IsIo(x) && Step(ds, x).0 {
      var d := Defines(x).value;
      RemoveFirstCount(ds, d);
      assert multiset(RemoveFirst(ds, d))[y] > 0;
      AddUsesContents(RemoveFirst(ds, d), x);
    }
  }

  /** Demands left over by a sweep were pending at its start or were added by
      one of the instructions it visited and kept. */
  lemma {:induction false} DemandOrigin(code: seq<Instruction>, ds: seq<Demand>, y: Demand)
    requires y in Sweep(code, ds).1
    ensures y in ds || exists k :: 0 <= k < |code| && Sweep(code, ds).0[k] && y in Uses(code[k])
    decreases |code|
  {
    if code != [] {
      var n := |code| - 1;
      var st := Step(ds, code[n]);
      var rest := Sweep(code[..n], st.1);
      assert Sweep(code, ds) == (rest.0 + [st.0], rest.1);
      DemandOrigin(code[..n], st.1, y);
      if y !in st.1 {
        var k :| 0 <= k < n && rest.0[k] && y in Uses(code[..n][k]);
        assert code[..n][k] == code[k] && Sweep(code, ds).0[k] == rest.0[k];
      } else {
        StepSources(ds, code[n], y);
        if y !in ds {
          assert st.0 && Sweep(code, ds).0[n] == st.0;
        }
      }
    }
  }

  /** The decisions after k are those of sweeping the code after k alone. */
  lemma KeepSuffix(code: seq<Instruction>, k: nat)
    requires k < |code|
    ensures Keep(code)[k + 1..] == Sweep(code[k + 1..], []).0
  {
    var a, b := code[..k + 1], code[k + 1..];
    assert code == a + b;
    SweepAppend(a, b, []);
  }

  /** A demand stays pending through a stretch of code none of whose
      instructions satisfies it. */
  lemma {:induction false} DemandPersists(code: seq<Instruction>, ds: seq<Demand>, y: Demand)
    requires y in ds
    requires forall k :: 0 <= k < |code| ==> Defines(code[k]) != Some(y)
    ensures y in Sweep(code, ds).1
    decreases |code|
  {
    if code != [] {
      var n := |code| - 1;
      StepRetains(ds, code[n], y);
      assert forall k :: 0 <= k < n ==> code[..n][k] == code[k];
      DemandPersists(code[..n], Step(ds, code[n]).1, y);
    }
  }

  /** A STORE is removed when no later instruction reads its variable: no
      LOAD of it and no WRITE of it follows. */
  lemma DeadStoreRemoved(code: seq<Instruction>, k: nat)
    requires k < |code| && code[k].opcode == STORE
    requires forall j :: k < j < |code| ==>
      !(code[j].opcode == LOAD && code[j].field2 == code[k].field1) &&
      !(code[j].opcode == WRITE && code[j].field1 == code[k].field1)
    ensures !Keep(code)[k]
  {
    KeptIffDemanded(code, k);
    PendingOrigin(code, k, Demand(code[k].field1, Id));
  }

  /** A demand pending at k was added by some kept instruction after k. */
  lemma PendingOrigin(code: seq<Instruction>, k: nat, y: Demand)
    requires k < |code|
    ensures y in Pending(code, k) ==> exists j :: k < j < |code| && Keep(code)[j] && y in Uses(code[j])
  {
    if y in Pending(code, k) {
      var tail := code[k + 1..];
      DemandOrigin(tail, [], y);
      var j :| 0 <= j < |tail| && Sweep(tail, []).0[j] && y in Uses(tail[j]);
      KeepSuffix(code, k);
      assert tail[j] == code[k + 1 + j] && Keep(code)[k + 1..][j] == Keep(code)[k + 1 + j];
    }
  }

  /** The cascade of handleDependant: an instruction other than READ and
      WRITE that no kept later instruction reads is removed, so producers
      whose only consumers were removed are removed as well. */
  lemma UnneededRemoved(code: seq<Instruction>, k: nat)
    requires k < |code| && !IsIo(code[k])
    requires forall j :: k < j < |code| && Keep(code)[j] ==> Defines(code[k]).value !in Uses(code[j])
    ensures !Keep(code)[k]
  {
    KeptIffDemanded(code, k);
    PendingOrigin(code, k, Defines(code[k]).value);
  }

  // ----- well-formed code stays well formed -----

  /** The demand a register definition satisfies. */
  lemma DefinesReg(ins: Instruction, u: int)
    ensures Defines(ins) == Some(Demand(u, Reg)) <==> DefReg(ins) == Some(u)
  {
  }

  /** Every register an instruction reads becomes a register demand. */
  lemma UsedRegsAreUses(ins: Instruction, u: int)
    requires u in UsedRegs(ins)
    ensures Demand(u, Reg) in Uses(ins) && !IsIo(ins)
  {
  }

  /** In well-formed code, the instruction defining a register that a kept
      instruction reads is kept too. */
  lemma UseIsDemanded(code: seq<Instruction>, k: nat, u: int)
    requires WellFormed(code) && k < |code| && Keep(code)[k] && u in UsedRegs(code[k])
    ensures exists j :: 0 <= j < k && Keep(code)[j] && DefReg(code[j]) == Some(u)
  {
    WellFormedUse(code, k, u);
    var j :| 0 <= j < k && DefReg(code[j]) == Some(u);
    var y := Demand(u, Reg);
    UsedRegsAreUses(code[k], u);
    KeepAt(code, k);
    StepCounts(Pending(code, k), code[k], y);
    forall m | j < m < k
      ensures Defines(code[m]) != Some(y)
    {
      WellFormedUnique(code, j, m);
      DefinesReg(code[m], u);
    }
    PendingAtDefinition(code, j, k, y);
    DefinesReg(code[j], u);
    KeptIffDemanded(code, j);
  }

  /** A demand pending after position k that nothing between j and k
      satisfies is pending when the sweep reaches j. */
  lemma PendingAtDefinition(code: seq<Instruction>, j: nat, k: nat, y: Demand)
    requires j < k < |code| && y in After(code, k)
    requires forall m :: j < m < k ==> Defines(code[m]) != Some(y)
    ensures y in Pending(code, j)
  {
    var mid := code[j + 1..k];
    assert code[j + 1..] == mid + code[k..];
    SweepAppend(mid, code[k..], []);
    assert forall m :: 0 <= m < |mid| ==> mid[m] == code[j + 1 + m];
    DemandPersists(mid, After(code, k), y);
  }

  /** Every register a kept instruction reads is in `defined`, or defined by
      an earlier kept instruction, and none is defined by a removed one. */
  ghost predicate Closed(code: seq<Instruction>, keep: seq<bool>, defined: set<int>, removed: set<int>)
    requires |keep| == |code|
  {
    forall k, u :: 0 <= k < |code| && keep[k] && u in UsedRegs(code[k]) ==>
      u !in removed && (u in defined || exists j :: 0 <= j < k && keep[j] && DefReg(code[j]) == Some(u))
  }

  lemma KeepClosed(code: seq<Instruction>)
    requires WellFormed(code)
    ensures Closed(code, Keep(code), {}, {})
  {
    forall k, u | 0 <= k < |code| && Keep(code)[k] && u in UsedRegs(code[k])
      ensures exists j :: 0 <= j < k && Keep(code)[j] && DefReg(code[j]) == Some(u)
    {
      UseIsDemanded(code, k, u);
    }
  }

  lemma ClosedAfterKept(code: seq<Instruction>, keep: seq<bool>, defined: set<int>, removed: set<int>)
    requires |keep| == |code| > 0 && keep[0]
    requires Closed(code, keep, defined, removed)
    ensures Closed(code[1..], keep[1..], defined + DefSetOf(code[0]), removed)
  {
    var rest, kr := code[1..], keep[1..];
    forall k, u | 0 <= k < |rest| && kr[k] && u in UsedRegs(rest[k])
      ensures u !in removed
      ensures u in defined + DefSetOf(code[0]) || exists j :: 0 <= j < k && kr[j] && DefReg(rest[j]) == Some(u)
    {
      assert rest[k] == code[k + 1] && kr[k] == keep[k + 1];
      if u !in defined {
        var j :| 0 <= j < k + 1 && keep[j] && DefReg(code[j]) == Some(u);
        if j > 0 {
          assert rest[j - 1] == code[j] && kr[j - 1] == keep[j];
        }
      }
    }
  }

  lemma ClosedAfterRemoved(code: seq<Instruction>, keep: seq<bool>, defined: set<int>, removed: set<int>)
    requires |keep| == |code| > 0 && !keep[0]
    requires WellFormedAfter(code, defined + removed)
    requires Closed(code, keep, defined, removed)
    ensures Closed(code[1..], keep[1..], defined, removed + DefSetOf(code[0]))
  {
    var rest, kr := code[1..], keep[1..];
    forall k, u | 0 <= k < |rest| && kr[k] && u in UsedRegs(rest[k])
      ensures u !in removed + DefSetOf(code[0])
      ensures u in defined || exists j :: 0 <= j < k && kr[j] && DefReg(rest[j]) == Some(u)
    {
      assert rest[k] == code[k + 1] && kr[k] == keep[k + 1];
      if u !in defined {
        var j :| 0 <= j < k + 1 && keep[j] && DefReg(code[j]) == Some(u);
        assert rest[j - 1] == code[j] && kr[j - 1] == keep[j];
        FirstDefinitionUnique(code, defined + removed, j);
      }
    }
  }

  /** Under single assignment no later instruction redefines the register
      the first one defines. */
  lemma FirstDefinitionUnique(code: seq<Instruction>, defined: set<int>, j: nat)
    requires WellFormedAfter(code, defined) && 0 < j < |code|
    ensures DefReg(code[j]).Some? ==> DefReg(code[j]).value !in DefSetOf(code[0])
  {
    WellFormedAfterAt(code, defined, j);
    assert code[..j][0] == code[0];
    if DefReg(code[0]).Some? {
      DefRegMember(code[..j], 0);
    }
  }

  /** Dropping instructions keeps single assignment, as long as no kept
      instruction reads a register only a dropped one defines. */
  lemma {:induction false} FilterWellFormedAfter(code: seq<Instruction>, keep: seq<bool>,
                                                 defined: set<int>, removed: set<int>)
    requires |keep| == |code|
    requires WellFormedAfter(code, defined + removed)
    requires Closed(code, keep, defined, removed)
    ensures WellFormedAfter(Filter(code, keep), defined)
    decreases |code|
  {
    if code != [] {
      var x, rest, kr := code[0], code[1..], keep[1..];
      var f := Filter(rest, kr);
      if keep[0] {
        ClosedAfterKept(code, keep, defined, removed);
        assert defined + removed + DefSetOf(x) == defined + DefSetOf(x) + removed;
        FilterWellFormedAfter(rest, kr, defined + DefSetOf(x), removed);
        assert ([x] + f)[0] == x && ([x] + f)[1..] == f;
        assert UsedRegs(x) <= defined by {
          forall u | u in UsedRegs(x) ensures u in defined {
            assert keep[0] && code[0] == x;
          }
        }
      } else {
        ClosedAfterRemoved(code, keep, defined, removed);
        assert defined + removed + DefSetOf(x) == defined + (removed + DefSetOf(x));
        FilterWellFormedAfter(rest, kr, defined, removed + DefSetOf(x));
        assert [] + f == f;
      }
    }
  }

  /** The optimizer turns well-formed code into well-formed code: every
      register a surviving instruction reads is still defined earlier by a
      surviving instruction, and still only once. */
  lemma OptimizePreservesWellFormed(code: seq<Instruction>)
    requires WellFormed(code)
    ensures WellFormed(Optimized(code))
  {
    KeepClosed(code);
    var none: set<int> := {};
    assert none + none == none;
    FilterWellFormedAfter(code, Keep(code), none, none);
  }
}
