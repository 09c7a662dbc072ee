// The shared intermediate representation of the tinyL tool chain: one
// instruction is an opcode and three integer fields whose meaning depends on
// the opcode.  Instr.h, which declares these in the C repository, is not part
// of this model; the declarations below follow how Compiler.c and
// Optimizer.c use the fields.

module Wrappers {
  datatype Option<T> = None | Some(value: T)
}

module Instr {
  import opened Wrappers

  datatype Opcode = LOADI | LOAD | STORE | ADD | SUB | MUL | AND | OR | READ | WRITE

  /** Field layout as the code generator fills it in:
        LOADI  (register, digit value, EMPTY_FIELD)
        LOAD   (register, variable id, 0)
        STORE  (variable id, register, 0)
        binop  (result register, left register, right register)
        READ   (variable id, 0, 0)
        WRITE  (variable id, 0, 0)                                   */
  datatype Instruction = Instruction(opcode: Opcode, field1: int, field2: int, field3: int)

  /** The filler the code generator puts in the unused third field of LOADI. */
  const EMPTY_FIELD: int := 0xFFFFF

  predicate IsBinary(op: Opcode) {
    op == ADD || op == SUB || op == MUL || op == AND || op == OR
  }

  /** READ and WRITE have an effect outside the program. */
  predicate IsIo(ins: Instruction) {
    ins.opcode == READ || ins.opcode == WRITE
  }

  /** The virtual register an instruction defines, if any. */
  function DefReg(ins: Instruction): Option<int> {
    if ins.opcode == LOADI || ins.opcode == LOAD || IsBinary(ins.opcode) then Some(ins.field1) else None
  }

  /** The virtual registers an instruction reads. */
  function UsedRegs(ins: Instruction): set<int> {
    if ins.opcode == STORE then {ins.field2}
    else if IsBinary(ins.opcode) then {ins.field2, ins.field3}
    else {}
  }

  function DefOf(ins: Instruction): seq<int> {
    if DefReg(ins).Some? then [DefReg(ins).value] else []
  }

  function DefSetOf(ins: Instruction): set<int> {
    if DefReg(ins).Some? then {DefReg(ins).value} else {}
  }

  /** The registers defined by `code`, in the order of their definitions. */
  function DefSeq(code: seq<Instruction>): seq<int>
    decreases |code|
  {
    if code == [] then [] else DefOf(code[0]) + DefSeq(code[1..])
  }

  /** The registers defined by `code`, as a set. */
  function DefRegs(code: seq<Instruction>): set<int>
    decreases |code|
  {
    if code == [] then {} else DefSetOf(code[0]) + DefRegs(code[1..])
  }

  /** Single assignment over registers, given the registers `defined` before
      `code` starts: each instruction, in turn, reads only registers defined
      before it and defines a register not defined before it. */
  predicate WellFormedAfter(code: seq<Instruction>, defined: set<int>)
    decreases |code|
  {
    code == [] ||
      (&& UsedRegs(code[0]) <= defined
       && (DefReg(code[0]).Some? ==> DefReg(code[0]).value !in defined)
       && WellFormedAfter(code[1..], defined + DefSetOf(code[0])))
  }

  predicate WellFormed(code: seq<Instruction>) {
    WellFormedAfter(code, {})
  }

  lemma {:induction false} DefSeqAppend(a: seq<Instruction>, b: seq<Instruction>)
    ensures DefSeq(a + b) == DefSeq(a) + DefSeq(b)
    decreases |a|
  {
    if a == [] {
      assert a + b == b;
    } else {
      assert (a + b)[0] == a[0] && (a + b)[1..] == a[1..] + b;
      DefSeqAppend(a[1..], b);
    }
  }

  lemma {:induction false} DefRegsAppend(a: seq<Instruction>, b: seq<Instruction>)
    ensures DefRegs(a + b) == DefRegs(a) + DefRegs(b)
    decreases |a|
  {
    if a == [] {
      assert a + b == b;
    } else {
      assert (a + b)[0] == a[0] && (a + b)[1..] == a[1..] + b;
      DefRegsAppend(a[1..], b);
    }
  }

  /** The set of defined registers is the set of the elements of DefSeq. */
  lemma {:induction false} DefRegsElements(code: seq<Instruction>)
    ensures forall x :: x in DefRegs(code) <==> x in DefSeq(code)
    decreases |code|
  {
    if code != [] {
      DefRegsElements(code[1..]);
    }
  }

  /** The register defined at position k belongs to DefRegs of the whole code. */
  lemma {:induction false} DefRegMember(code: seq<Instruction>, k: nat)
    requires k < |code| && DefReg(code[k]).Some?
    ensures DefReg(code[k]).value in DefRegs(code)
    decreases k
  {
    if k > 0 {
      DefRegMember(code[1..], k - 1);
    }
  }

  /** Every register in DefRegs has a defining instruction. */
  lemma {:induction false} DefRegsWitness(code: seq<Instruction>, u: int)
    requires u in DefRegs(code)
    ensures exists j :: 0 <= j < |code| && DefReg(code[j]) == Some(u)
    decreases |code|
  {
    if u !in DefSetOf(code[0]) {
      DefRegsWitness(code[1..], u);
      var j :| 0 <= j < |code| - 1 && DefReg(code[1..][j]) == Some(u);
      assert code[1..][j] == code[j + 1];
    }
  }

  /** The conditions WellFormedAfter places on the instruction at position k. */
  lemma {:induction false} WellFormedAfterAt(code: seq<Instruction>, defined: set<int>, k: nat)
    requires WellFormedAfter(code, defined) && k < |code|
    ensures UsedRegs(code[k]) <= defined + DefRegs(code[..k])
    ensures DefReg(code[k]).Some? ==> DefReg(code[k]).value !in defined + DefRegs(code[..k])
    decreases k
  {
    if k > 0 {
      WellFormedAfterAt(code[1..], defined + DefSetOf(code[0]), k - 1);
      var pre := code[..k];
      assert pre[0] == code[0] && pre[1..] == code[1..][..k - 1];
      assert code[1..][k - 1] == code[k];
    }
  }

  /** Well-formedness read as "each used register has an earlier definition". */
  lemma WellFormedUse(code: seq<Instruction>, k: nat, u: int)
    requires WellFormed(code) && k < |code| && u in UsedRegs(code[k])
    ensures exists j :: 0 <= j < k && DefReg(code[j]) == Some(u)
  {
    WellFormedAfterAt(code, {}, k);
    DefRegsWitness(code[..k], u);
    var j :| 0 <= j < k && DefReg(code[..k][j]) == Some(u);
    assert code[..k][j] == code[j];
  }

  /** Well-formedness read as "no register is defined twice". */
  lemma WellFormedUnique(code: seq<Instruction>, i: nat, j: nat)
    requires WellFormed(code) && i < j < |code| && DefReg(code[i]).Some?
    ensures DefReg(code[j]) != DefReg(code[i])
  {
    WellFormedAfterAt(code, {}, j);
    assert code[..j][i] == code[i];
    DefRegMember(code[..j], i);
  }

  /** Well-formedness of a concatenation, piece by piece. */
  lemma {:induction false} WellFormedAfterAppend(a: seq<Instruction>, b: seq<Instruction>, defined: set<int>)
    ensures WellFormedAfter(a + b, defined)
        <==> WellFormedAfter(a, defined) && WellFormedAfter(b, defined + DefRegs(a))
    decreases |a|
  {
    if a == [] {
      assert a + b == b;
      assert defined + DefRegs(a) == defined;
    } else {
      assert (a + b)[0] == a[0] && (a + b)[1..] == a[1..] + b;
      WellFormedAfterAppend(a[1..], b, defined + DefSetOf(a[0]));
      assert defined + DefSetOf(a[0]) + DefRegs(a[1..]) == defined + DefRegs(a);
    }
  }

  /** More registers defined beforehand do no harm, provided code redefines none. */
  lemma {:induction false} WellFormedAfterWiden(code: seq<Instruction>, defined: set<int>, more: set<int>)
    requires WellFormedAfter(code, defined)
    requires DefRegs(code) !! more
    ensures WellFormedAfter(code, defined + more)
    decreases |code|
  {
    if code != [] {
      WellFormedAfterWiden(code[1..], defined + DefSetOf(code[0]), more);
      assert defined + DefSetOf(code[0]) + more == defined + more + DefSetOf(code[0]);
    }
  }

  lemma WellFormedSingle(x: Instruction)
    requires UsedRegs(x) == {}
    ensures WellFormed([x])
  {
    assert [x][1..] == [];
  }

  lemma WellFormedSnoc(code: seq<Instruction>, x: Instruction)
    requires WellFormed(code)
    requires UsedRegs(x) <= DefRegs(code)
    requires DefReg(x).Some? ==> DefReg(x).value !in DefRegs(code)
    ensures WellFormed(code + [x])
  {
    assert [x][1..] == [];
    assert WellFormedAfter([x], {} + DefRegs(code));
    WellFormedAfterAppend(code, [x], {});
  }

  lemma WellFormedAppend(a: seq<Instruction>, b: seq<Instruction>)
    requires WellFormed(a) && WellFormed(b)
    requires DefRegs(a) !! DefRegs(b)
    ensures WellFormed(a + b)
  {
    WellFormedAfterWiden(b, {}, DefRegs(a));
    WellFormedAfterAppend(a, b, {});
  }
}
