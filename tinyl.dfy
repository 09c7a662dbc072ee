// The tinyL language as an abstract syntax, its concrete (prefix, one
// character per token) text, and the instruction sequence the code
// generator of Compiler.c emits for each construct.

module TinyL {
  import opened Wrappers
  import opened Instr

  /** The six variables, identified by their character code. */
  type VarName = c: char | 'a' <= c <= 'f' witness 'a'

  type Digit = d: int | 0 <= d <= 9

  datatype BinOp = Add | Sub | Mul | And | Or

  datatype Expr =
    | Num(d: Digit)
    | Var(v: VarName)
    | Bin(op: BinOp, left: Expr, right: Expr)

  datatype Stmt =
    | Assign(x: VarName, rhs: Expr)
    | Read(r: VarName)
    | Print(p: VarName)

  /** A program is a non-empty statement list (STMTLIST needs one STMT). */
  type Program = seq<Stmt>

  function OpChar(op: BinOp): char {
    match op
    case Add => '+'
    case Sub => '-'
    case Mul => '*'
    case And => '&'
    case Or => '|'
  }

  function OpCodeOf(op: BinOp): (c: Opcode)
    ensures IsBinary(c)
  {
    match op
    case Add => ADD
    case Sub => SUB
    case Mul => MUL
    case And => AND
    case Or => OR
  }

  function DigitChar(d: Digit): char {
    ('0' as int + d) as char
  }

  // ----- concrete syntax -----

  function ExprText(e: Expr): seq<char> {
    match e
    case Num(d) => [DigitChar(d)]
    case Var(v) => [v]
    case Bin(op, l, r) => [OpChar(op)] + ExprText(l) + ExprText(r)
  }

  function StmtText(s: Stmt): seq<char> {
    match s
    case Assign(v, e) => [v, '='] + ExprText(e)
    case Read(v) => ['%', v]
    case Print(v) => ['$', v]
  }

  /** STMTLIST: statements separated by ';'. */
  function ListText(ss: seq<Stmt>): seq<char>
    requires |ss| > 0
  {
    if |ss| == 1 then StmtText(ss[0]) else StmtText(ss[0]) + [';'] + ListText(ss[1..])
  }

  /** PROGRAM ::= STMTLIST '!' */
  function ProgramText(p: Program): seq<char>
    requires |p| > 0
  {
    ListText(p) + ['!']
  }

  // ----- code generation -----

  /** Number of registers the code for e allocates. */
  function Regs(e: Expr): (n: nat)
    ensures n > 0
  {
    match e
    case Num(_) => 1
    case Var(_) => 1
    case Bin(_, l, r) => Regs(l) + Regs(r) + 1
  }

  /** Code for e when the register counter stands at r: operands first, left
      before right, and the result register allocated after both. */
  function GenExpr(e: Expr, r: int): (code: seq<Instruction>)
  {
    match e
    case Num(d) => [Instruction(LOADI, r, d, EMPTY_FIELD)]
    case Var(v) => [Instruction(LOAD, r, v as int, 0)]
    case Bin(op, left, right) =>
      GenExpr(left, r) + GenExpr(right, r + Regs(left))
      + [Instruction(OpCodeOf(op), r + Regs(left) + Regs(right),
                     r + Regs(left) - 1, r + Regs(left) + Regs(right) - 1)]
  }

  function StmtRegs(s: Stmt): nat {
    if s.Assign? then Regs(s.rhs) else 0
  }

  function GenStmt(s: Stmt, r: int): (code: seq<Instruction>)
  {
    match s
    case Assign(v, e) => GenExpr(e, r) + [Instruction(STORE, v as int, r + Regs(e) - 1, 0)]
    case Read(v) => [Instruction(READ, v as int, 0, 0)]
    case Print(v) => [Instruction(WRITE, v as int, 0, 0)]
  }

  function ListRegs(ss: seq<Stmt>): nat {
    if ss == [] then 0 else StmtRegs(ss[0]) + ListRegs(ss[1..])
  }

  function GenStmts(ss: seq<Stmt>, r: int): (code: seq<Instruction>)
  {
    if ss == [] then [] else GenStmt(ss[0], r) + GenStmts(ss[1..], r + StmtRegs(ss[0]))
  }

  /** The register counter starts at 1 (Compiler.c, regnum). */
  function GenProgram(p: Program): (code: seq<Instruction>)
  {
    GenStmts(p, 1)
  }

  // ----- properties of the generated code -----

  /** An expression emits one instruction per register it allocates. */
  lemma {:induction false} GenExprLength(e: Expr, r: int)
    ensures |GenExpr(e, r)| == Regs(e)
  {
    if e.Bin? {
      GenExprLength(e.left, r);
      GenExprLength(e.right, r + Regs(e.left));
    }
  }

  /** A statement list emits one instruction per allocated register and one
      STORE, READ or WRITE per statement. */
  lemma {:induction false} GenStmtsLength(ss: seq<Stmt>, r: int)
    ensures |GenStmts(ss, r)| == ListRegs(ss) + |ss|
  {
    if ss != [] {
      if ss[0].Assign? {
        GenExprLength(ss[0].rhs, r);
      }
      GenStmtsLength(ss[1..], r + StmtRegs(ss[0]));
    }
  }

  /** The consecutive registers lo, lo + 1, ..., lo + n - 1. */
  function Range(lo: int, n: nat): seq<int> {
    seq(n, k => lo + k)
  }

  lemma RangeAppend(lo: int, n: nat, m: nat)
    ensures Range(lo, n) + Range(lo + n, m) == Range(lo, n + m)
  {
  }

  lemma DefSeqSingle(x: Instruction)
    ensures DefSeq([x]) == DefOf(x)
  {
    assert [x][1..] == [];
  }

  lemma DefRegsRange(code: seq<Instruction>, lo: int, n: nat)
    requires DefSeq(code) == Range(lo, n)
    ensures forall x :: x in DefRegs(code) <==> lo <= x < lo + n
  {
    DefRegsElements(code);
    forall x | lo <= x < lo + n ensures x in DefSeq(code) {
      assert Range(lo, n)[x - lo] == x;
    }
  }

  lemma RangesDisjoint(c0: seq<Instruction>, c1: seq<Instruction>, r: int, a: nat, b: nat)
    requires DefSeq(c0) == Range(r, a) && DefSeq(c1) == Range(r + a, b)
    ensures DefRegs(c0) !! DefRegs(c1)
  {
    DefRegsRange(c0, r, a);
    DefRegsRange(c1, r + a, b);
    forall x | x in DefRegs(c0) ensures x !in DefRegs(c1) {
    }
  }

  /** Two well-formed pieces over adjacent register ranges join into one. */
  lemma JoinRegisters(c0: seq<Instruction>, c1: seq<Instruction>, r: int, a: nat, b: nat)
    requires DefSeq(c0) == Range(r, a) && WellFormed(c0)
    requires DefSeq(c1) == Range(r + a, b) && WellFormed(c1)
    ensures DefSeq(c0 + c1) == Range(r, a + b)
    ensures WellFormed(c0 + c1)
  {
    RangesDisjoint(c0, c1, r, a, b);
    WellFormedAppend(c0, c1);
    DefSeqAppend(c0, c1);
    RangeAppend(r, a, b);
  }

  /** Appending an instruction that reads registers of the range and defines
      either nothing or the next register keeps the code well formed. */
  lemma ExtendRegisters(c: seq<Instruction>, x: Instruction, r: int, n: nat)
    requires DefSeq(c) == Range(r, n) && WellFormed(c)
    requires forall u :: u in UsedRegs(x) ==> r <= u < r + n
    requires DefOf(x) == [] || DefOf(x) == [r + n]
    ensures DefSeq(c + [x]) == Range(r, n + |DefOf(x)|)
    ensures WellFormed(c + [x])
  {
    DefRegsRange(c, r, n);
    WellFormedSnoc(c, x);
    DefSeqAppend(c, [x]);
    DefSeqSingle(x);
    RangeAppend(r, n, |DefOf(x)|);
  }

  lemma BinRegisters(cl: seq<Instruction>, cr: seq<Instruction>, x: Instruction, r: int, a: nat, b: nat)
    requires DefSeq(cl) == Range(r, a) && WellFormed(cl) && a > 0
    requires DefSeq(cr) == Range(r + a, b) && WellFormed(cr) && b > 0
    requires IsBinary(x.opcode) && x.field1 == r + a + b
    requires x.field2 == r + a - 1 && x.field3 == r + a + b - 1
    ensures DefSeq((cl + cr) + [x]) == Range(r, a + b + 1)
    ensures WellFormed((cl + cr) + [x])
  {
    assert DefOf(x) == [r + a + b] && UsedRegs(x) == {r + a - 1, r + a + b - 1};
    JoinRegisters(cl, cr, r, a, b);
    ExtendRegisters(cl + cr, x, r, a + b);
  }

  /** What the code for an expression guarantees about registers, when the
      counter stands at r and the expression allocates n of them: it defines
      exactly r .. r+n-1, each once and in increasing order, reads only
      registers it defined earlier, and its last instruction defines the
      result register r + n - 1. */
  predicate Numbered(c: seq<Instruction>, r: int, n: nat) {
    && DefSeq(c) == Range(r, n)
    && WellFormed(c)
    && |c| > 0
    && DefReg(c[|c| - 1]) == Some(r + n - 1)
  }

  lemma BinNumbered(cl: seq<Instruction>, cr: seq<Instruction>, x: Instruction, c: seq<Instruction>,
                    r: int, a: nat, b: nat, n: nat)
    requires Numbered(cl, r, a) && Numbered(cr, r + a, b) && a > 0 && b > 0
    requires IsBinary(x.opcode) && x.field1 == r + a + b
    requires x.field2 == r + a - 1 && x.field3 == r + a + b - 1
    requires c == (cl + cr) + [x] && n == a + b + 1
    ensures Numbered(c, r, n)
  {
    BinRegisters(cl, cr, x, r, a, b);
  }

  /** The step of the induction for an operator node. */
  lemma GenBinNumbered(op: BinOp, left: Expr, right: Expr, r: int)
    requires Numbered(GenExpr(left, r), r, Regs(left))
    requires Numbered(GenExpr(right, r + Regs(left)), r + Regs(left), Regs(right))
    ensures Numbered(GenExpr(Bin(op, left, right), r), r, Regs(Bin(op, left, right)))
  {
    var a, b := Regs(left), Regs(right);
    var x := Instruction(OpCodeOf(op), r + a + b, r + a - 1, r + a + b - 1);
    GenBinUnfold(op, left, right, r, a, b);
    BinNumbered(GenExpr(left, r), GenExpr(right, r + a), x, GenExpr(Bin(op, left, right), r),
                r, a, b, Regs(Bin(op, left, right)));
  }

  /** One unfolding of GenExpr at an operator node. */
  lemma GenBinUnfold(op: BinOp, left: Expr, right: Expr, r: int, a: nat, b: nat)
    requires a == Regs(left) && b == Regs(right)
    ensures GenExpr(Bin(op, left, right), r) ==
      (GenExpr(left, r) + GenExpr(right, r + a)) + [Instruction(OpCodeOf(op), r + a + b, r + a - 1, r + a + b - 1)]
    ensures Regs(Bin(op, left, right)) == a + b + 1
  {
  }

  lemma LeafNumbered(x: Instruction, r: int)
    requires DefReg(x) == Some(r) && UsedRegs(x) == {}
    ensures Numbered([x], r, 1)
  {
    DefSeqSingle(x);
    WellFormedSingle(x);
  }

  /** The code for an expression is Numbered over its Regs(e) registers. */
  lemma {:induction false} GenExprRegisters(e: Expr, r: int)
    ensures Numbered(GenExpr(e, r), r, Regs(e))
  {
    match e
    case Num(d) =>
      LeafNumbered(Instruction(LOADI, r, d, EMPTY_FIELD), r);
    case Var(v) =>
      LeafNumbered(Instruction(LOAD, r, v as int, 0), r);
    case Bin(op, left, right) =>
      GenExprRegisters(left, r);
      GenExprRegisters(right, r + Regs(left));
      GenBinNumbered(op, left, right, r);
  }

  lemma GenStmtRegisters(s: Stmt, r: int)
    ensures DefSeq(GenStmt(s, r)) == Range(r, StmtRegs(s))
    ensures WellFormed(GenStmt(s, r))
  {
    match s
    case Assign(v, e) =>
      GenExprRegisters(e, r);
      AssignRegisters(GenExpr(e, r), v, r, Regs(e));
    case Read(v) =>
      IoRegisters(Instruction(READ, v as int, 0, 0));
    case Print(v) =>
      IoRegisters(Instruction(WRITE, v as int, 0, 0));
  }

  lemma AssignRegisters(c: seq<Instruction>, v: VarName, r: int, n: nat)
    requires Numbered(c, r, n) && n > 0
    ensures DefSeq(c + [Instruction(STORE, v as int, r + n - 1, 0)]) == Range(r, n)
    ensures WellFormed(c + [Instruction(STORE, v as int, r + n - 1, 0)])
  {
    var x := Instruction(STORE, v as int, r + n - 1, 0);
    assert UsedRegs(x) == {r + n - 1} && DefOf(x) == [];
    ExtendRegisters(c, x, r, n);
  }

  lemma IoRegisters(x: Instruction)
    requires IsIo(x)
    ensures DefSeq([x]) == [] && WellFormed([x])
  {
    DefSeqSingle(x);
    WellFormedSingle(x);
  }

  lemma {:induction false} GenStmtsRegisters(ss: seq<Stmt>, r: int)
    ensures DefSeq(GenStmts(ss, r)) == Range(r, ListRegs(ss))
    ensures WellFormed(GenStmts(ss, r))
    decreases |ss|
  {
    if ss != [] {
      GenStmtsRegisters(ss[1..], r + StmtRegs(ss[0]));
      GenStmtsStep(ss, r);
    }
  }

  lemma GenStmtsStep(ss: seq<Stmt>, r: int)
    requires ss != []
    requires DefSeq(GenStmts(ss[1..], r + StmtRegs(ss[0]))) == Range(r + StmtRegs(ss[0]), ListRegs(ss[1..]))
    requires WellFormed(GenStmts(ss[1..], r + StmtRegs(ss[0])))
    ensures DefSeq(GenStmts(ss, r)) == Range(r, ListRegs(ss))
    ensures WellFormed(GenStmts(ss, r))
  {
    var a, b := StmtRegs(ss[0]), ListRegs(ss[1..]);
    GenStmtRegisters(ss[0], r);
    GenStmtsUnfold(ss, r, a);
    ListRegsUnfold(ss, a, b);
    JoinInto(GenStmt(ss[0], r), GenStmts(ss[1..], r + a), GenStmts(ss, r), r, a, b, ListRegs(ss));
  }

  /** One unfolding of GenStmts at a non-empty list. */
  lemma GenStmtsUnfold(ss: seq<Stmt>, r: int, a: nat)
    requires ss != [] && a == StmtRegs(ss[0])
    ensures GenStmts(ss, r) == GenStmt(ss[0], r) + GenStmts(ss[1..], r + a)
  {
  }

  lemma ListRegsUnfold(ss: seq<Stmt>, a: nat, b: nat)
    requires ss != [] && a == StmtRegs(ss[0]) && b == ListRegs(ss[1..])
    ensures ListRegs(ss) == a + b
  {
  }

  lemma JoinInto(c0: seq<Instruction>, c1: seq<Instruction>, c: seq<Instruction>, r: int, a: nat, b: nat, n: nat)
    requires DefSeq(c0) == Range(r, a) && WellFormed(c0)
    requires DefSeq(c1) == Range(r + a, b) && WellFormed(c1)
    requires c == c0 + c1 && n == a + b
    ensures DefSeq(c) == Range(r, n) && WellFormed(c)
  {
    JoinRegisters(c0, c1, r, a, b);
  }

  /** Whole programs: registers 1, 2, ..., each defined by exactly one
      instruction, numbered in emission order without gaps, and every register
      read is defined earlier in the sequence. */
  lemma GenProgramWellFormed(p: Program)
    ensures DefSeq(GenProgram(p)) == Range(1, ListRegs(p))
    ensures WellFormed(GenProgram(p))
  {
    GenStmtsRegisters(p, 1);
  }
}
