// The two tools in sequence: what the optimizer does to code the compiler
// produced.

module Pipeline {
  import opened Wrappers
  import opened Instr
  import opened TinyL
  import opened DeadCode
  import opened Liveness

  /** The READ and WRITE instructions a program's '%' and '$' statements
      stand for, in program order. */
  function IoStmts(ss: seq<Stmt>): seq<Instruction> {
    if ss == [] then []
    else
      (match ss[0]
       case Assign(_, _) => []
       case Read(v) => [Instruction(READ, v as int, 0, 0)]
       case Print(v) => [Instruction(WRITE, v as int, 0, 0)])
      + IoStmts(ss[1..])
  }

  lemma {:induction false} IoOfConcat(a: seq<Instruction>, b: seq<Instruction>)
    ensures IoOf(a + b) == IoOf(a) + IoOf(b)
    decreases |a|
  {
    if a != [] {
      IoOfConcat(a[1..], b);
      assert (a + b)[0] == a[0] && (a + b)[1..] == a[1..] + b;
    } else {
      assert a + b == b;
    }
  }

  /** Expression code does no input or output. */
  lemma {:induction false} GenExprSilent(e: Expr, r: int)
    ensures IoOf(GenExpr(e, r)) == []
  {
    match e
    case Num(_) =>
    case Var(_) =>
    case Bin(op, left, right) =>
      GenExprSilent(left, r);
      GenExprSilent(right, r + Regs(left));
      GenBinSilent(op, left, right, r);
  }

  lemma GenBinSilent(op: BinOp, left: Expr, right: Expr, r: int)
    requires IoOf(GenExpr(left, r)) == [] && IoOf(GenExpr(right, r + Regs(left))) == []
    ensures IoOf(GenExpr(Bin(op, left, right), r)) == []
  {
    var a, b := Regs(left), Regs(right);
    GenBinUnfold(op, left, right, r, a, b);
    SilentJoin(GenExpr(left, r), GenExpr(right, r + a),
               Instruction(OpCodeOf(op), r + a + b, r + a - 1, r + a + b - 1), GenExpr(Bin(op, left, right), r));
  }

  lemma SilentJoin(a: seq<Instruction>, b: seq<Instruction>, x: Instruction, c: seq<Instruction>)
    requires IoOf(a) == [] && IoOf(b) == [] && !IsIo(x) && c == a + b + [x]
    ensures IoOf(c) == []
  {
    IoOfConcat(a, b);
    IoOfConcat(a + b, [x]);
  }

  /** One statement's code does the statement's own input or output. */
  lemma GenStmtIo(st: Stmt, r: int)
    ensures IoOf(GenStmt(st, r)) == IoStmts([st])
  {
    assert [st][1..] == [];
    match st
    case Assign(v, e) =>
      GenExprSilent(e, r);
      IoOfConcat(GenExpr(e, r), [Instruction(STORE, v as int, r + Regs(e) - 1, 0)]);
    case Read(_) =>
    case Print(_) =>
  }

  lemma IoStmtsCons(ss: seq<Stmt>)
    requires ss != []
    ensures IoStmts(ss) == IoStmts([ss[0]]) + IoStmts(ss[1..])
  {
    assert [ss[0]][1..] == [];
  }

  /** The input and output the generated code performs is exactly the
      program's reads and prints, in order. */
  lemma {:induction false} GenStmtsIo(ss: seq<Stmt>, r: int)
    ensures IoOf(GenStmts(ss, r)) == IoStmts(ss)
    decreases |ss|
  {
    if ss != [] {
      GenStmtsIo(ss[1..], r + StmtRegs(ss[0]));
      GenStmtsIoStep(ss, r);
    }
  }

  lemma GenStmtsIoStep(ss: seq<Stmt>, r: int)
    requires ss != []
    requires IoOf(GenStmts(ss[1..], r + StmtRegs(ss[0]))) == IoStmts(ss[1..])
    ensures IoOf(GenStmts(ss, r)) == IoStmts(ss)
  {
    var head, tail := GenStmt(ss[0], r), GenStmts(ss[1..], r + StmtRegs(ss[0]));
    assert GenStmts(ss, r) == head + tail;
    IoOfConcat(head, tail);
    GenStmtIo(ss[0], r);
    IoStmtsCons(ss);
  }

  /** Every statement produces at least one instruction, so the optimizer
      never sees an empty list from a program the compiler accepted. */
  lemma {:induction false} GenStmtsNonEmpty(ss: seq<Stmt>, r: int)
    requires |ss| > 0
    ensures |GenStmts(ss, r)| >= |ss|
    decreases |ss|
  {
    if |ss| > 1 {
      GenStmtsNonEmpty(ss[1..], r + StmtRegs(ss[0]));
    }
    match ss[0]
    case Assign(v, e) => assert |GenExpr(e, r)| > 0 by { GenExprRegisters(e, r); }
    case Read(_) =>
    case Print(_) =>
  }

  /** Compiling a program and optimizing the result gives well-formed code
      that performs the program's reads and prints in the program's order. */
  lemma CompileThenOptimize(p: Program)
    requires |p| > 0
    ensures GenProgram(p) != []
    ensures WellFormed(Optimized(GenProgram(p)))
    ensures IoOf(Optimized(GenProgram(p))) == IoStmts(p)
  {
    GenStmtsNonEmpty(p, 1);
    GenProgramWellFormed(p);
    OptimizePreservesWellFormed(GenProgram(p));
    OptimizeKeepsIo(GenProgram(p));
    GenStmtsIo(p, 1);
  }
}
