// What the dead-code eliminator of Optimizer.c computes, as functions over
// the instruction sequence: a single backward sweep that keeps a list of
// pending demands and decides, instruction by instruction, whether to keep it.

module DeadCode {
  import opened Wrappers
  import opened Instr

  /** The kind of a demand: a virtual register (type 0 in the C code) or a
      variable id (type 1). */
  datatype Kind = Reg | Id

  /** A pending demand: some kept instruction later in the code needs this
      register or variable. */
  datatype Demand = Demand(value: int, kind: Kind)

  /** The demand an instruction satisfies when it is kept: STORE writes the
      variable in field1, LOADI, LOAD and the operators the register in
      field1.  READ and WRITE are kept unconditionally. */
  function Defines(ins: Instruction): (d: Option<Demand>)
    ensures d.None? <==> IsIo(ins)
    ensures d.Some? ==> d.value.value == ins.field1
    ensures d.Some? ==> (d.value.kind == Id <==> ins.opcode == STORE)
  {
    if IsIo(ins) then None
    else if ins.opcode == STORE then Some(Demand(ins.field1, Id))
    else Some(Demand(ins.field1, Reg))
  }

  /** insertImportant guarded by findImportantItem: push at the front unless
      an equal demand is pending already. */
  function AddIfAbsent(ds: seq<Demand>, d: Demand): (r: seq<Demand>)
    ensures d in r && multiset(ds) <= multiset(r)
    ensures forall x :: x in r <==> x in ds || x == d
    ensures d in ds ==> r == ds
    ensures multiset(r)[d] == if d in ds then multiset(ds)[d] else 1
  {
    if d in ds then ds else [d] + ds
  }

  /** storeInstrAsImportant, with the fall-through of its switch: an operator
      adds its field3 and then its field2 register, STORE its field2
      register, LOAD its field2 variable, WRITE its field1 variable, and
      anything else nothing. */
  function AddUses(ds: seq<Demand>, ins: Instruction): (r: seq<Demand>)
  {
    if IsBinary(ins.opcode) then
      AddIfAbsent(AddIfAbsent(ds, Demand(ins.field3, Reg)), Demand(ins.field2, Reg))
    else if ins.opcode == STORE then AddIfAbsent(ds, Demand(ins.field2, Reg))
    else if ins.opcode == LOAD then AddIfAbsent(ds, Demand(ins.field2, Id))
    else if ins.opcode == WRITE then AddIfAbsent(ds, Demand(ins.field1, Id))
    else ds
  }

  /** The demands storeInstrAsImportant may add for an instruction. */
  function Uses(ins: Instruction): (u: set<Demand>)
    ensures forall x :: x in u && x.kind == Id ==> ins.opcode == LOAD || ins.opcode == WRITE
    ensures forall x :: x in u && x.kind == Reg ==> IsBinary(ins.opcode) || ins.opcode == STORE
  {
    if IsBinary(ins.opcode) then {Demand(ins.field3, Reg), Demand(ins.field2, Reg)}
    else if ins.opcode == STORE then {Demand(ins.field2, Reg)}
    else if ins.opcode == LOAD then {Demand(ins.field2, Id)}
    else if ins.opcode == WRITE then {Demand(ins.field1, Id)}
    else {}
  }

  /** AddUses adds exactly Uses(ins), each at most once, and removes nothing. */
  lemma AddUsesContents(ds: seq<Demand>, ins: Instruction)
    ensures forall x :: x in AddUses(ds, ins) <==> x in ds || x in Uses(ins)
    ensures multiset(ds) <= multiset(AddUses(ds, ins))
    ensures forall x :: x !in Uses(ins) ==> multiset(AddUses(ds, ins))[x] == multiset(ds)[x]
    ensures forall x :: x in Uses(ins) ==>
      multiset(AddUses(ds, ins))[x] == if x in ds then multiset(ds)[x] else 1
  {
    if IsBinary(ins.opcode) {
      var d3, d2 := Demand(ins.field3, Reg), Demand(ins.field2, Reg);
      AddIfAbsentCount(ds, d3);
      AddIfAbsentCount(AddIfAbsent(ds, d3), d2);
      if d2 != d3 {
        assert d2 in AddIfAbsent(ds, d3) <==> d2 in ds;
      }
    } else if ins.opcode == STORE {
      AddIfAbsentCount(ds, Demand(ins.field2, Reg));
    } else if ins.opcode == LOAD {
      AddIfAbsentCount(ds, Demand(ins.field2, Id));
    } else if ins.opcode == WRITE {
      AddIfAbsentCount(ds, Demand(ins.field1, Id));
    }
  }

  lemma AddIfAbsentCount(ds: seq<Demand>, d: Demand)
    ensures forall x :: x != d ==> multiset(AddIfAbsent(ds, d))[x] == multiset(ds)[x]
  {
  }

  /** removeImportant applied to the item findImportantItem returns: the
      first demand equal to d leaves the list, and nothing else changes. */
  function RemoveFirst(ds: seq<Demand>, d: Demand): (r: seq<Demand>)
    ensures d in ds ==> |r| == |ds| - 1
    ensures d !in ds ==> r == ds
  {
    if ds == [] then []
    else if ds[0] == d then ds[1..]
    else [ds[0]] + RemoveFirst(ds[1..], d)
  }

  /** The position findImportantItem stops at. */
  function FirstIndex(ds: seq<Demand>, d: Demand): (k: nat)
    requires d in ds
    ensures k < |ds| && ds[k] == d && d !in ds[..k]
  {
    if ds[0] == d then 0 else 1 + FirstIndex(ds[1..], d)
  }

  /** Removing one item: one occurrence of d fewer, the others as they were. */
  lemma {:induction false} RemoveFirstCount(ds: seq<Demand>, d: Demand)
    ensures multiset(RemoveFirst(ds, d)) == multiset(ds) - multiset{d}
  {
    if ds != [] && ds[0] != d {
      RemoveFirstCount(ds[1..], d);
      assert ds == [ds[0]] + ds[1..];
    } else if ds != [] {
      assert ds == [ds[0]] + ds[1..];
    }
  }

  /** RemoveFirst unlinks the item at FirstIndex and keeps the order of the
      rest. */
  lemma {:induction false} RemoveFirstAt(ds: seq<Demand>, d: Demand)
    requires d in ds
    ensures RemoveFirst(ds, d) == ds[..FirstIndex(ds, d)] + ds[FirstIndex(ds, d) + 1..]
  {
    if ds[0] != d {
      var tl := ds[1..];
      RemoveFirstAt(tl, d);
      var k := FirstIndex(tl, d);
      assert FirstIndex(ds, d) == k + 1;
      calc {
        RemoveFirst(ds, d);
        [ds[0]] + RemoveFirst(tl, d);
        [ds[0]] + (tl[..k] + tl[k + 1..]);
        ([ds[0]] + tl[..k]) + tl[k + 1..];
        { assert ds[..k + 1] == [ds[0]] + tl[..k]; assert ds[k + 2..] == tl[k + 1..]; }
        ds[..k + 1] + ds[k + 2..];
      }
    } else {
      assert ds[..0] + ds[1..] == ds[1..];
    }
  }

  /** One activation of criticalCheck: whether the instruction stays, and the
      demand list afterwards. */
  function Step(ds: seq<Demand>, ins: Instruction): (r: (bool, seq<Demand>))
    ensures IsIo(ins) ==> r.0
    ensures !IsIo(ins) ==> (r.0 <==> Defines(ins).value in ds)
    ensures !r.0 ==> r.1 == ds
    ensures ins.opcode == READ ==> r.1 == ds
    ensures ins.opcode == WRITE ==> multiset(r.1) == multiset(ds) + multiset{Demand(ins.field1, Id)}
  {
    if ins.opcode == READ then (true, ds)
    else if ins.opcode == WRITE then (true, [Demand(ins.field1, Id)] + ds)
    else
      var d := Defines(ins).value;
      if d in ds then (true, AddUses(RemoveFirst(ds, d), ins)) else (false, ds)
  }

  /** The step of an instruction that an item asks for, in the terms
      handleDependant works in: the first matching item is removed and the
      operands are added. */
  lemma StepDemanded(ds: seq<Demand>, ins: Instruction)
    requires !IsIo(ins) && Defines(ins).value in ds
    ensures Step(ds, ins)
         == (true, AddUses(ds[..FirstIndex(ds, Defines(ins).value)] + ds[FirstIndex(ds, Defines(ins).value) + 1..], ins))
  {
    var d := Defines(ins).value;
    RemoveFirstAt(ds, d);
    var rest := ds[..FirstIndex(ds, d)] + ds[FirstIndex(ds, d) + 1..];
    assert RemoveFirst(ds, d) == rest;
  }

  /** The whole backward sweep from the last instruction to the first, given
      the demands pending before it: one decision per instruction, in the
      order of the code, and the demands left over at the end. */
  function Sweep(code: seq<Instruction>, ds: seq<Demand>): (r: (seq<bool>, seq<Demand>))
    ensures |r.0| == |code|
    decreases |code|
  {
    if code == [] then ([], ds)
    else
      var n := |code| - 1;
      var (keep, ds') := Step(ds, code[n]);
      var rest := Sweep(code[..n], ds');
      (rest.0 + [keep], rest.1)
  }

  /** The decisions the optimizer takes, starting with no pending demands. */
  function Keep(code: seq<Instruction>): (r: seq<bool>)
    ensures |r| == |code|
  {
    Sweep(code, []).0
  }

  /** The instructions at the positions marked true, in their original order. */
  function Filter(code: seq<Instruction>, keep: seq<bool>): (r: seq<Instruction>)
    requires |keep| == |code|
    ensures |r| <= |code|
    ensures forall x :: x in r ==> x in code
    decreases |code|
  {
    if code == [] then []
    else (if keep[0] then [code[0]] else []) + Filter(code[1..], keep[1..])
  }

  /** The optimizer's output. */
  function Optimized(code: seq<Instruction>): (r: seq<Instruction>)
    ensures |r| <= |code|
  {
    Filter(code, Keep(code))
  }
}
