// The dead-code eliminator of Optimizer.c as the program that runs: the
// instruction list held in link arrays, the list of important items as a
// mutable field, and criticalCheck walking backwards over the prev links.

module Optimizer {
  import opened Wrappers
  import opened Instr
  import opened DeadCode
  import opened Liveness
  import opened Links

  /** An item index i is the (i+1)-th entry of the firstImportant list. */
  lemma FirstIndexIs(ds: seq<Demand>, d: Demand, i: nat)
    requires i < |ds| && ds[i] == d && d !in ds[..i]
    ensures FirstIndex(ds, d) == i
  {
    var k := FirstIndex(ds, d);
    assert forall m :: 0 <= m < k ==> ds[..k][m] == ds[m];
    assert forall m :: 0 <= m < i ==> ds[..i][m] == ds[m];
  }

  /** The instruction list (instruction k at index k, linked through next and
      prev) together with the list of important items. */
  class InstrList {
    const code: seq<Instruction>
    const prev: array<int>
    const next: array<int>
    var head: int
    var demands: seq<Demand>

    ghost predicate Valid()
      reads this, prev, next
    {
      && prev != next && prev.Length == |code| && next.Length == |code|
      && (forall k :: 0 <= k < |code| ==> prev[k] == k - 1)
      && Forward(next[..])
      && (head == NIL || 0 <= head < |code|)
    }

    /** The doubly linked list ReadInstructionList returns, and an empty
        list of important items. */
    constructor(code: seq<Instruction>)
      ensures Valid() && this.code == code && demands == []
      ensures next[..] == Chain(|code|) && head == (if |code| > 0 then 0 else NIL)
      ensures fresh(prev) && fresh(next)
    {
      var n := |code|;
      var p := new int[n];
      var nx := new int[n];
      var k := 0;
      while k < n
        invariant 0 <= k <= n
        invariant forall j :: 0 <= j < k ==> p[j] == j - 1
        invariant forall j :: 0 <= j < k ==> nx[j] == Chain(n)[j]
      {
        p[k] := k - 1;
        nx[k] := if k + 1 < n then k + 1 else NIL;
        k := k + 1;
      }
      this.code := code;
      prev, next := p, nx;
      head := if n > 0 then 0 else NIL;
      demands := [];
      new;
      assert next[..] == Chain(n);
    }

    /** insertImportant: the new item becomes firstImportant. */
    method InsertImportant(value: int, kind: Kind)
      modifies this`demands
      ensures demands == [Demand(value, kind)] + old(demands)
    {
      demands := [Demand(value, kind)] + demands;
    }

    /** removeImportant: the item unlinks itself and its neighbours close the
        gap. */
    method RemoveImportant(item: nat)
      requires item < |demands|
      modifies this`demands
      ensures demands == old(demands)[..item] + old(demands)[item + 1..]
    {
      demands := demands[..item] + demands[item + 1..];
    }

    /** findImportantItem: the first item with this value and type, or NIL. */
    method FindImportantItem(value: int, kind: Kind) returns (item: int)
      ensures Demand(value, kind) in demands ==> item == FirstIndex(demands, Demand(value, kind))
      ensures Demand(value, kind) !in demands ==> item == NIL
    {
      var i := 0;
      while i < |demands|
        invariant 0 <= i <= |demands|
        invariant Demand(value, kind) !in demands[..i]
      {
        if demands[i].kind == kind && demands[i].value == value {
          FirstIndexIs(demands, Demand(value, kind), i);
          return i;
        }
        assert demands[..i + 1] == demands[..i] + [demands[i]];
        i := i + 1;
      }
      assert demands[..i] == demands;
      return NIL;
    }

    /** The guarded insertion storeInstrAsImportant uses for every field. */
    method InsertIfAbsent(value: int, kind: Kind)
      modifies this`demands
      ensures demands == AddIfAbsent(old(demands), Demand(value, kind))
    {
      var item := FindImportantItem(value, kind);
      if item == NIL {
        InsertImportant(value, kind);
      }
    }

    /** storeInstrAsImportant: the switch falls through from the operators
        into the STORE case, so an operator asks for field3 and then
        field2. */
    method StoreInstrAsImportant(ins: Instruction)
      modifies this`demands
      ensures demands == AddUses(old(demands), ins)
    {
      if IsBinary(ins.opcode) {
        InsertIfAbsent(ins.field3, Reg);
      }
      if IsBinary(ins.opcode) || ins.opcode == STORE {
        InsertIfAbsent(ins.field2, Reg);
      } else if ins.opcode == LOAD {
        InsertIfAbsent(ins.field2, Id);
      } else if ins.opcode == WRITE {
        InsertIfAbsent(ins.field1, Id);
      }
    }

    /** handleDependant: with no dependee the instruction is unlinked (head
        moves on, or its predecessor skips it; the successor's prev is left
        as it was); otherwise the dependee is discharged and the
        instruction's own operands become important. */
    method HandleDependant(k: int, dependee: int)
      requires Valid() && 0 <= k < |code| && (k == head || k > 0)
      requires dependee == NIL || 0 <= dependee < |demands|
      modifies this`head, next, this`demands
      ensures Valid()
      ensures dependee == NIL ==> demands == old(demands)
      ensures dependee == NIL && k == old(head) ==> head == old(next[k]) && next[..] == old(next[..])
      ensures dependee == NIL && k != old(head) ==>
        head == old(head) && next[..] == old(next[..])[k - 1 := old(next[k])]
      ensures dependee != NIL ==> head == old(head) && next[..] == old(next[..])
      ensures dependee != NIL ==>
        demands == AddUses(old(demands)[..dependee] + old(demands)[dependee + 1..], code[k])
    {
      if dependee == NIL {
        if k == head {
          head := next[k];
        } else {
          next[prev[k]] := next[k];
        }
      } else {
        RemoveImportant(dependee);
        StoreInstrAsImportant(code[k]);
      }
    }

    /** One activation of criticalCheck, without its tail call: READ is kept,
        WRITE is kept and its variable becomes important, and anything else
        is kept exactly when an item asks for what it defines. */
    method Visit(k: int)
      requires Valid() && 0 <= k < |code| && (k == head || k > 0)
      modifies this`head, next, this`demands
      ensures Valid()
      ensures demands == Step(old(demands), code[k]).1
      ensures Step(old(demands), code[k]).0 ==> head == old(head) && next[..] == old(next[..])
      ensures !Step(old(demands), code[k]).0 && k == old(head) ==>
        head == old(next[k]) && next[..] == old(next[..])
      ensures !Step(old(demands), code[k]).0 && k != old(head) ==>
        head == old(head) && next[..] == old(next[..])[k - 1 := old(next[k])]
    {
      var ins := code[k];
      if ins.opcode == READ {
      } else if ins.opcode == WRITE {
        InsertImportant(ins.field1, Id);
      } else {
        var kind := if ins.opcode == STORE then Id else Reg;
        ghost var d := Demand(ins.field1, kind);
        assert d == Defines(ins).value;
        var dependee := FindImportantItem(ins.field1, kind);
        if d in demands {
          StepDemanded(demands, ins);
        } else {
          assert Step(demands, ins) == (false, demands);
        }
        HandleDependant(k, dependee);
      }
    }

    /** The loop of main that follows next from head to the last
        instruction of the list as it was read. */
    method FindTail() returns (tail: int)
      requires Valid() && next[..] == Chain(|code|) && head == 0
      ensures tail == |code| - 1
    {
      tail := head;
      while next[tail] != NIL
        invariant 0 <= tail < |code|
        decreases |code| - tail
      {
        tail := next[tail];
      }
    }

    /** criticalCheck from the tail: every instruction visited once, last
        to first, along prev (read before the instruction is unlinked).
        Afterwards the list reachable from head holds exactly the kept
        instructions and the important items are what the sweep leaves. */
    method CriticalCheck(tail: int)
      requires Valid() && tail == |code| - 1
      requires Linked(next[..], head, AllTrue(|code|))
      modifies this`head, next, this`demands
      ensures Valid()
      ensures demands == Sweep(code, old(demands)).1
      ensures Linked(next[..], head, Sweep(code, old(demands)).0)
    {
      ghost var d0 := demands;
      ghost var kept := AllTrue(|code|);
      var i := tail;
      SweptStart(code, d0, next[..], head);
      while i != NIL
        invariant Valid() && Swept(code, d0, i, demands, next[..], head, kept)
        decreases i + 1
      {
        SweptHead(code, d0, i, demands, next[..], head, kept);
        var p := prev[i];
        ghost var ds, nx, h := demands, next[..], head;
        Visit(i);
        SweptStep(code, d0, i, ds, nx, h, kept, next[..], head);
        kept := kept[i := Step(ds, code[i]).0];
        i := p;
      }
      SweptDone(code, d0, demands, next[..], head, kept);
    }

    /** The loop of main that frees every important item. */
    method ClearImportant()
      modifies this`demands
      ensures demands == []
    {
      while demands != []
        decreases |demands|
      {
        demands := demands[1..];
      }
    }

    /** The instructions PrintInstructionList writes: those reachable from
        head, in link order. */
    method Instructions() returns (out: seq<Instruction>)
      requires Valid()
      ensures out == Walk(code, next[..], head)
    {
      out := [];
      var j := head;
      while j != NIL
        invariant j == NIL || 0 <= j < |code|
        invariant out + Walk(code, next[..], j) == Walk(code, next[..], head)
        decreases if j == NIL then 0 else |code| - j
      {
        assert Walk(code, next[..], j) == [code[j]] + Walk(code, next[..], next[j]);
        out := out + [code[j]];
        j := next[j];
      }
      assert out + [] == out;
    }
  }

  /** The state of the backward loop before visiting i: everything up to i
      is still linked, the links reflect the decisions after i, and sweeping
      code[..i+1] from the current demands finishes the sweep of the whole
      code. */
  ghost predicate Swept(code: seq<Instruction>, d0: seq<Demand>, i: int, ds: seq<Demand>,
                        nx: seq<int>, head: int, kept: seq<bool>)
  {
    && -1 <= i < |code| && |kept| == |code|
    && (forall k :: 0 <= k <= i ==> kept[k])
    && Linked(nx, head, kept)
    && Sweep(code, d0) == (Sweep(code[..i + 1], ds).0 + kept[i + 1..], Sweep(code[..i + 1], ds).1)
  }

  lemma SweptStart(code: seq<Instruction>, d0: seq<Demand>, nx: seq<int>, head: int)
    requires Linked(nx, head, AllTrue(|code|))
    ensures Swept(code, d0, |code| - 1, d0, nx, head, AllTrue(|code|))
  {
    assert code[..|code|] == code && AllTrue(|code|)[|code|..] == [];
    assert Sweep(code, d0).0 + [] == Sweep(code, d0).0;
  }

  lemma SweptHead(code: seq<Instruction>, d0: seq<Demand>, i: int, ds: seq<Demand>,
                  nx: seq<int>, head: int, kept: seq<bool>)
    requires Swept(code, d0, i, ds, nx, head, kept) && i >= 0
    ensures head == 0
  {
    assert kept[0];
  }

  lemma SweptStep(code: seq<Instruction>, d0: seq<Demand>, i: nat, ds: seq<Demand>,
                  nx: seq<int>, head: int, kept: seq<bool>, nx': seq<int>, head': int)
    requires Swept(code, d0, i, ds, nx, head, kept)
    requires Step(ds, code[i]).0 ==> head' == head && nx' == nx
    requires !Step(ds, code[i]).0 && i == head ==> head' == nx[i] && nx' == nx
    requires !Step(ds, code[i]).0 && i != head ==> head' == head && nx' == nx[i - 1 := nx[i]]
    ensures Swept(code, d0, i - 1, Step(ds, code[i]).1, nx', head', kept[i := Step(ds, code[i]).0])
  {
    var b := Step(ds, code[i]).0;
    SweptHead(code, d0, i, ds, nx, head, kept);
    SweepStep(code, d0, i, ds, kept, b);
    Relinked(nx, nx', head', kept, i, b);
  }

  lemma SweptDone(code: seq<Instruction>, d0: seq<Demand>, ds: seq<Demand>,
                  nx: seq<int>, head: int, kept: seq<bool>)
    requires Swept(code, d0, -1, ds, nx, head, kept)
    ensures ds == Sweep(code, d0).1 && Linked(nx, head, Sweep(code, d0).0)
  {
    assert code[..0] == [] && Sweep(code[..0], ds) == ([], ds);
    assert [] + kept[0..] == kept;
  }

  /** One step of the backward loop, as the sweep sees it: visiting i with
      the demands ds turns the sweep of code[..i+1] into the sweep of
      code[..i] from the demands the step leaves. */
  lemma SweepStep(code: seq<Instruction>, d0: seq<Demand>, i: nat, ds: seq<Demand>, kept: seq<bool>, b: bool)
    requires i < |code| == |kept| && b == Step(ds, code[i]).0
    requires Sweep(code, d0) == (Sweep(code[..i + 1], ds).0 + kept[i + 1..], Sweep(code[..i + 1], ds).1)
    ensures Sweep(code, d0) ==
      (Sweep(code[..i], Step(ds, code[i]).1).0 + kept[i := b][i..], Sweep(code[..i], Step(ds, code[i]).1).1)
  {
    SweepPrefix(code, i, ds);
    ReplaceAt(Sweep(code[..i], Step(ds, code[i]).1).0, kept, i, b);
  }

  /** The sweep of code[..i+1] visits code[i] and then sweeps code[..i]. */
  lemma SweepPrefix(code: seq<Instruction>, i: nat, ds: seq<Demand>)
    requires i < |code|
    ensures Sweep(code[..i + 1], ds) ==
      (Sweep(code[..i], Step(ds, code[i]).1).0 + [Step(ds, code[i]).0], Sweep(code[..i], Step(ds, code[i]).1).1)
  {
    var pre := code[..i + 1];
    assert pre[..i] == code[..i] && pre[i] == code[i];
  }

  lemma ReplaceAt(r: seq<bool>, kept: seq<bool>, i: nat, b: bool)
    requires i < |kept|
    ensures (r + [b]) + kept[i + 1..] == r + kept[i := b][i..]
  {
    assert kept[i := b][i..] == [b] + kept[i + 1..];
  }

  /** One step of the backward loop, as the links see it: after the visit of
      i (which unlinks i exactly when b is false) the list is Linked for the
      new decisions. */
  lemma Relinked(nx: seq<int>, nx': seq<int>, head': int, kept: seq<bool>, i: nat, b: bool)
    requires i < |kept| && Linked(nx, 0, kept)
    requires forall k :: 0 <= k <= i ==> kept[k]
    requires b ==> head' == 0 && nx' == nx
    requires !b && i == 0 ==> head' == nx[0] && nx' == nx
    requires !b && i != 0 ==> head' == 0 && nx' == nx[i - 1 := nx[i]]
    ensures Linked(nx', head', kept[i := b])
  {
    if b {
      assert kept[i := b] == kept;
    } else if i == 0 {
      UnlinkHead(nx, kept);
    } else {
      UnlinkInner(nx, kept, i);
    }
  }

  /** main: an empty input is an error; otherwise find the tail, sweep from
      it, free the important items and print what is left.  The printed
      list is the input with the dead instructions filtered out. */
  method Optimize(code: seq<Instruction>) returns (r: Option<seq<Instruction>>)
    ensures code == [] ==> r == None
    ensures code != [] ==> r == Some(Optimized(code))
  {
    if code == [] {
      return None;
    }
    var list := new InstrList(code);
    ChainLinked(|code|);
    var tail := list.FindTail();
    list.CriticalCheck(tail);
    list.ClearImportant();
    var out := list.Instructions();
    WalkKept(code, list.next[..], Keep(code), 0);
    assert code[0..] == code && Keep(code)[0..] == Keep(code);
    return Some(out);
  }
}
