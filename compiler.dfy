// The recursive-descent parser and code generator of Compiler.c as a state
// machine: the cursor into the input buffer, the register counter and the
// instructions emitted so far are fields that the routines update.  Every
// syntax error becomes ok == false; the instructions emitted before the error
// stay in `code`, as the C program leaves them in its output file.

module Compiler {
  import opened Wrappers
  import opened Instr
  import opened TinyL
  import opened Parsing

  class Parser {
    /** The whitespace-free input buffer (without its terminator). */
    const input: seq<char>
    /** The cursor `buffer`, as an index into input. */
    var pos: nat
    /** The next free virtual register. */
    var regnum: int
    /** The instructions written to the output so far. */
    var code: seq<Instruction>

    predicate Valid()
      reads this
    {
      pos <= |input|
    }

    constructor (s: seq<char>)
      ensures input == s && pos == 0 && regnum == 1 && code == []
      ensures Valid()
    {
      input := s;
      pos := 0;
      regnum := 1;
      code := [];
    }

    /** next_token: fails on the terminator, and fails after stepping onto it. */
    method NextToken() returns (ok: bool)
      requires Valid()
      modifies this`pos
      ensures Valid()
      ensures ok <==> Advance(input, old(pos)).Some?
      ensures pos == if Tok(input, old(pos)) == NUL then old(pos) else old(pos) + 1
    {
      if Tok(input, pos) == NUL {
        return false;
      }
      pos := pos + 1;
      ok := Tok(input, pos) != NUL;
    }

    /** next_register: hands out the counter and bumps it. */
    method NextRegister() returns (r: int)
      modifies this`regnum
      ensures r == old(regnum) && regnum == r + 1
    {
      r := regnum;
      regnum := regnum + 1;
    }

    /** CodeGen: appends one instruction to the output. */
    method CodeGen(opcode: Opcode, field1: int, field2: int, field3: int)
      modifies this`code
      ensures code == old(code) + [Instruction(opcode, field1, field2, field3)]
    {
      code := code + [Instruction(opcode, field1, field2, field3)];
    }

    /** digit: a fresh register loaded with the digit's value. */
    method Digit() returns (ok: bool, reg: int)
      requires Valid()
      modifies this`pos, this`regnum, this`code
      ensures Valid()
      ensures ok <==> IsDigit(Tok(input, old(pos))) && Advance(input, old(pos)).Some?
      ensures !IsDigit(Tok(input, old(pos))) ==> code == old(code) && regnum == old(regnum)
      ensures IsDigit(Tok(input, old(pos))) ==>
        && reg == old(regnum) && regnum == old(regnum) + 1
        && code == old(code) + [Instruction(LOADI, reg, ToDigit(Tok(input, old(pos))), EMPTY_FIELD)]
      ensures ok ==> pos == old(pos) + 1
    {
      if !IsDigit(Tok(input, pos)) {
        return false, 0;
      }
      reg := NextRegister();
      CodeGen(LOADI, reg, ToDigit(Tok(input, pos)), EMPTY_FIELD);
      ok := NextToken();
    }

    /** var: the identifier's character code, and the cursor past it. */
    method Var() returns (ok: bool, id: int)
      requires Valid()
      modifies this`pos
      ensures Valid()
      ensures ok <==> ParseVar(input, old(pos)).Some?
      ensures ok ==> id == Tok(input, old(pos)) as int && pos == old(pos) + 1
    {
      if !IsIdentifier(Tok(input, pos)) {
        return false, 0;
      }
      id := Tok(input, pos) as int;
      ok := NextToken();
    }

    /** expr: dispatches on the token, and on success has emitted exactly the
        code for the expression parsed, holding its value in reg. */
    method Expr() returns (ok: bool, reg: int)
      requires Valid()
      modifies this`pos, this`regnum, this`code
      ensures Valid()
      ensures ok <==> ParseExpr(input, old(pos)).Some?
      ensures ok ==>
        var (e, j) := ParseExpr(input, old(pos)).value;
        && pos == j
        && code == old(code) + GenExpr(e, old(regnum))
        && regnum == old(regnum) + Regs(e)
        && reg == regnum - 1
      ensures old(code) <= code
      decreases |input| - pos, 2
    {
      var c := Tok(input, pos);
      if c == '+' || c == '-' || c == '*' {
        ok, reg := ArithExpr();
      } else if c == '&' || c == '|' {
        ok, reg := LogicalExpr();
      } else if IsIdentifier(c) {
        reg := NextRegister();
        var id;
        ok, id := Var();
        if !ok {
          return;
        }
        CodeGen(LOAD, reg, id, 0);
      } else if IsDigit(c) {
        ok, reg := Digit();
      } else {
        ok, reg := false, 0;
      }
    }

    /** The tail shared by arith_expr and logical_expr: both operands, then
        a fresh register for the result. */
    method Operands(op: Opcode) returns (ok: bool, reg: int)
      requires Valid() && CharOp(Tok(input, pos)).Some?
      requires op == OpCodeOf(CharOp(Tok(input, pos)).value)
      modifies this`pos, this`regnum, this`code
      ensures Valid()
      ensures ok <==> ParseExpr(input, old(pos)).Some?
      ensures ok ==>
        var (e, j) := ParseExpr(input, old(pos)).value;
        && pos == j
        && code == old(code) + GenExpr(e, old(regnum))
        && regnum == old(regnum) + Regs(e)
        && reg == regnum - 1
      ensures old(code) <= code
      decreases |input| - pos, 0
    {
      ghost var c, p0, r0, c0 := Tok(input, pos), pos, regnum, code;
      ParseBinUnfold(input, p0);
      ok := NextToken();
      if !ok {
        return false, 0;
      }
      var left, right;
      ok, left := Expr();
      if !ok {
        return false, 0;
      }
      ghost var l, c1, r1 := ParseExpr(input, p0 + 1).value, code, regnum;
      ok, right := Expr();
      if !ok {
        return false, 0;
      }
      ghost var rt, c2 := ParseExpr(input, l.1).value, code;
      reg := NextRegister();
      CodeGen(op, reg, left, right);
      GenBinStep(CharOp(c).value, l.0, rt.0, r0, r1, c0, c1, c2, op, reg, left, right);
    }

    /** arith_expr: + - * token; any other token is an error. */
    method ArithExpr() returns (ok: bool, reg: int)
      requires Valid()
      modifies this`pos, this`regnum, this`code
      ensures Valid()
      ensures ok <==> Tok(input, old(pos)) in {'+', '-', '*'} && ParseExpr(input, old(pos)).Some?
      ensures ok ==>
        var (e, j) := ParseExpr(input, old(pos)).value;
        && pos == j
        && code == old(code) + GenExpr(e, old(regnum))
        && regnum == old(regnum) + Regs(e)
        && reg == regnum - 1
      ensures old(code) <= code
      decreases |input| - pos, 1
    {
      var op;
      var c := Tok(input, pos);
      if c == '+' {
        op := ADD;
      } else if c == '-' {
        op := SUB;
      } else if c == '*' {
        op := MUL;
      } else {
        return false, 0;
      }
      ok, reg := Operands(op);
    }

    /** logical_expr: & | token; any other token is an error. */
    method LogicalExpr() returns (ok: bool, reg: int)
      requires Valid()
      modifies this`pos, this`regnum, this`code
      ensures Valid()
      ensures ok <==> Tok(input, old(pos)) in {'&', '|'} && ParseExpr(input, old(pos)).Some?
      ensures ok ==>
        var (e, j) := ParseExpr(input, old(pos)).value;
        && pos == j
        && code == old(code) + GenExpr(e, old(regnum))
        && regnum == old(regnum) + Regs(e)
        && reg == regnum - 1
      ensures old(code) <= code
      decreases |input| - pos, 1
    {
      var op;
      var c := Tok(input, pos);
      if c == '&' {
        op := AND;
      } else if c == '|' {
        op := OR;
      } else {
        return false, 0;
      }
      ok, reg := Operands(op);
    }

    /** assign: VAR '=' EXPR, then STORE of the expression's register. */
    method Assign() returns (ok: bool)
      requires Valid()
      modifies this`pos, this`regnum, this`code
      ensures Valid()
      ensures ok <==> IsIdentifier(Tok(input, old(pos))) && ParseStmt(input, old(pos)).Some?
      ensures ok ==>
        var (st, j) := ParseStmt(input, old(pos)).value;
        && pos == j
        && code == old(code) + GenStmt(st, old(regnum))
        && regnum == old(regnum) + StmtRegs(st)
      ensures old(code) <= code
    {
      ghost var p0, r0, c0 := pos, regnum, code;
      var id, reg;
      ok, id := Var();
      if !ok {
        return;
      }
      if Tok(input, pos) != '=' {
        return false;
      }
      ok := NextToken();
      if !ok {
        return;
      }
      ok, reg := Expr();
      if !ok {
        return;
      }
      ghost var e, c1 := ParseExpr(input, p0 + 2).value.0, code;
      CodeGen(STORE, id, reg, 0);
      GenAssignStep(Tok(input, p0), e, r0, c0, c1, id, reg);
    }

    /** read: '%' VAR, then READ of the variable. */
    method Read() returns (ok: bool)
      requires Valid()
      modifies this`pos, this`code
      ensures Valid()
      ensures ok <==> Tok(input, old(pos)) == '%' && ParseStmt(input, old(pos)).Some?
      ensures ok ==>
        var (st, j) := ParseStmt(input, old(pos)).value;
        && pos == j
        && code == old(code) + GenStmt(st, old(regnum))
        && StmtRegs(st) == 0
      ensures old(code) <= code
    {
      if Tok(input, pos) != '%' {
        return false;
      }
      ok := NextToken();
      if !ok {
        return;
      }
      var id;
      ok, id := Var();
      if !ok {
        return;
      }
      CodeGen(READ, id, 0, 0);
    }

    /** print: '$' VAR, then WRITE of the variable. */
    method Print() returns (ok: bool)
      requires Valid()
      modifies this`pos, this`code
      ensures Valid()
      ensures ok <==> Tok(input, old(pos)) == '$' && ParseStmt(input, old(pos)).Some?
      ensures ok ==>
        var (st, j) := ParseStmt(input, old(pos)).value;
        && pos == j
        && code == old(code) + GenStmt(st, old(regnum))
        && StmtRegs(st) == 0
      ensures old(code) <= code
    {
      if Tok(input, pos) != '$' {
        return false;
      }
      ok := NextToken();
      if !ok {
        return;
      }
      var id;
      ok, id := Var();
      if !ok {
        return;
      }
      CodeGen(WRITE, id, 0, 0);
    }

    /** stmt: dispatches on the first token; any other token is an error. */
    method Stmt() returns (ok: bool)
      requires Valid()
      modifies this`pos, this`regnum, this`code
      ensures Valid()
      ensures ok <==> ParseStmt(input, old(pos)).Some?
      ensures ok ==>
        var (st, j) := ParseStmt(input, old(pos)).value;
        && pos == j
        && code == old(code) + GenStmt(st, old(regnum))
        && regnum == old(regnum) + StmtRegs(st)
      ensures old(code) <= code
    {
      var c := Tok(input, pos);
      if IsIdentifier(c) {
        ok := Assign();
      } else if c == '%' {
        ok := Read();
      } else if c == '$' {
        ok := Print();
      } else {
        ok := false;
      }
    }

    /** stmtlist: STMT MORESTMTS. */
    method StmtList() returns (ok: bool)
      requires Valid()
      modifies this`pos, this`regnum, this`code
      ensures Valid()
      ensures ok <==> ParseStmtList(input, old(pos)).Some?
      ensures ok ==>
        var (ss, j) := ParseStmtList(input, old(pos)).value;
        && pos == j
        && code == old(code) + GenStmts(ss, old(regnum))
        && regnum == old(regnum) + ListRegs(ss)
      ensures old(code) <= code
      decreases |input| - pos, 1
    {
      ghost var p0, r0, c0 := pos, regnum, code;
      ok := Stmt();
      if !ok {
        return;
      }
      ghost var st, p1, r1, c1 := ParseStmt(input, p0).value.0, pos, regnum, code;
      ok := MoreStmts();
      if !ok {
        return;
      }
      GenListStep(st, ParseMoreStmts(input, p1).value.0, r0, r1, c0, c1, code);
    }

    /** morestmts: ';' STMTLIST, or nothing when the token is not ';'. */
    method MoreStmts() returns (ok: bool)
      requires Valid()
      modifies this`pos, this`regnum, this`code
      ensures Valid()
      ensures ok <==> ParseMoreStmts(input, old(pos)).Some?
      ensures ok ==>
        var (ss, j) := ParseMoreStmts(input, old(pos)).value;
        && pos == j
        && code == old(code) + GenStmts(ss, old(regnum))
        && regnum == old(regnum) + ListRegs(ss)
      ensures old(code) <= code
      decreases |input| - pos, 0
    {
      if Tok(input, pos) == ';' {
        ok := NextToken();
        if !ok {
          return;
        }
        ok := StmtList();
      } else {
        ok := true;
      }
    }

    /** program: STMTLIST, then the token must be '!'; it is not consumed. */
    method Program() returns (ok: bool)
      requires Valid()
      modifies this`pos, this`regnum, this`code
      ensures Valid()
      ensures ok <==> ParseStmtList(input, old(pos)).Some? && Tok(input, ParseStmtList(input, old(pos)).value.1) == '!'
      ensures ok ==>
        && pos == ParseStmtList(input, old(pos)).value.1
        && code == old(code) + GenStmts(ParseStmtList(input, old(pos)).value.0, old(regnum))
      ensures old(code) <= code
    {
      ok := StmtList();
      if !ok {
        return;
      }
      ok := Tok(input, pos) == '!';
    }
  }

  /** ParseExpr on an operator token, unfolded once. */
  lemma ParseBinUnfold(s: seq<char>, i: nat)
    requires i <= |s| && CharOp(Tok(s, i)).Some?
    ensures ParseExpr(s, i).Some? <==>
      && Advance(s, i).Some?
      && ParseExpr(s, i + 1).Some?
      && ParseExpr(s, ParseExpr(s, i + 1).value.1).Some?
    ensures ParseExpr(s, i).Some? ==>
      var l := ParseExpr(s, i + 1).value;
      var r := ParseExpr(s, l.1).value;
      ParseExpr(s, i) == Some((Bin(CharOp(Tok(s, i)).value, l.0, r.0), r.1))
  {
  }

  /** The output after both operands and the operator instruction is the
      output before them followed by the code for the operator node. */
  lemma GenBinStep(op: BinOp, l: Expr, r: Expr, r0: int, r1: int,
                   c0: seq<Instruction>, c1: seq<Instruction>, c2: seq<Instruction>,
                   opcode: Opcode, reg: int, left: int, right: int)
    requires c1 == c0 + GenExpr(l, r0)
    requires r1 == r0 + Regs(l) && left == r1 - 1
    requires c2 == c1 + GenExpr(r, r1)
    requires reg == r1 + Regs(r) && right == reg - 1
    requires opcode == OpCodeOf(op)
    ensures c2 + [Instruction(opcode, reg, left, right)] == c0 + GenExpr(Bin(op, l, r), r0)
  {
    assert GenExpr(Bin(op, l, r), r0) == GenExpr(l, r0) + GenExpr(r, r0 + Regs(l))
      + [Instruction(OpCodeOf(op), r0 + Regs(l) + Regs(r), r0 + Regs(l) - 1, r0 + Regs(l) + Regs(r) - 1)];
  }

  /** The output after an assignment's expression and its STORE. */
  lemma GenAssignStep(v: VarName, e: Expr, r0: int, c0: seq<Instruction>, c1: seq<Instruction>, id: int, reg: int)
    requires c1 == c0 + GenExpr(e, r0) && id == v as int && reg == r0 + Regs(e) - 1
    ensures c1 + [Instruction(STORE, id, reg, 0)] == c0 + GenStmt(Assign(v, e), r0)
  {
  }

  /** The output after a first statement and the statements that follow it. */
  lemma GenListStep(st: Stmt, rest: seq<Stmt>, r0: int, r1: int,
                    c0: seq<Instruction>, c1: seq<Instruction>, c2: seq<Instruction>)
    requires c1 == c0 + GenStmt(st, r0) && r1 == r0 + StmtRegs(st)
    requires c2 == c1 + GenStmts(rest, r1)
    ensures c2 == c0 + GenStmts([st] + rest, r0)
    ensures ListRegs([st] + rest) == StmtRegs(st) + ListRegs(rest)
  {
    assert ([st] + rest)[0] == st && ([st] + rest)[1..] == rest;
  }

  /** The whole compiler: on a buffer that parses as a program, exactly the
      code for that program, and otherwise a failure. */
  method Compile(s: seq<char>) returns (r: Option<seq<Instruction>>)
    ensures r == if ParseProgram(s).Some? then Some(GenProgram(ParseProgram(s).value)) else None
    ensures r.Some? ==> WellFormed(r.value) && DefSeq(r.value) == Range(1, ListRegs(ParseProgram(s).value))
  {
    var parser := new Parser(s);
    var ok := parser.Program();
    if ok {
      assert [] + GenStmts(ParseStmtList(s, 0).value.0, 1) == GenStmts(ParseStmtList(s, 0).value.0, 1);
      r := Some(parser.code);
      GenProgramWellFormed(ParseProgram(s).value);
    } else {
      r := None;
    }
  }
}
