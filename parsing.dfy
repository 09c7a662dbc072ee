// A functional reference parser for tinyL over a whitespace-free character
// buffer.  It takes the same decisions as the recursive-descent routines of
// Compiler.c, one token (character) of lookahead at a time, and end-of-input
// behaves like the C string terminator '\0'.

module Parsing {
  import opened Wrappers
  import opened TinyL

  const NUL: char := '\0'

  /** The token under the cursor: the character at i, or the terminator past
      the end of the buffer. */
  function Tok(s: seq<char>, i: nat): (c: char)
    ensures c != NUL ==> i < |s|
  {
    if i < |s| then s[i] else NUL
  }

  /** next_token: refuses to move off the terminator, and refuses to move onto
      it (Compiler.c:350-366).  On success the cursor is one further. */
  function Advance(s: seq<char>, i: nat): (r: Option<nat>)
    ensures r.Some? <==> Tok(s, i) != NUL && Tok(s, i + 1) != NUL
    ensures r.Some? ==> r.value == i + 1 && r.value < |s|
  {
    if Tok(s, i) == NUL || Tok(s, i + 1) == NUL then None else Some(i + 1)
  }

  // ----- character classifiers -----

  /** is_digit; a digit is neither the terminator nor an operator. */
  predicate IsDigit(c: char): (b: bool)
    ensures b ==> c != NUL && CharOp(c).None?
  {
    '0' <= c <= '9'
  }

  /** to_digit: the value of a digit character, and zero for anything else. */
  function ToDigit(c: char): (d: Digit)
    ensures IsDigit(c) ==> DigitChar(d) == c
    ensures !IsDigit(c) ==> d == 0
  {
    if IsDigit(c) then (c as int - '0' as int) else 0
  }

  /** is_identifier; the variables a..f are neither digits, nor the
      terminator, nor operators, so expr's dispatch is unambiguous. */
  predicate IsIdentifier(c: char): (b: bool)
    ensures b ==> !IsDigit(c) && c != NUL && CharOp(c).None?
  {
    'a' <= c <= 'f'
  }

  /** The operator a character denotes in expression position, if any:
      + - * go to arith_expr, & | to logical_expr. */
  function CharOp(c: char): (r: Option<BinOp>)
    ensures r.Some? ==> OpChar(r.value) == c
  {
    if c == '+' then Some(Add)
    else if c == '-' then Some(Sub)
    else if c == '*' then Some(Mul)
    else if c == '&' then Some(And)
    else if c == '|' then Some(Or)
    else None
  }

  lemma DigitRoundTrip(d: Digit)
    ensures IsDigit(DigitChar(d)) && ToDigit(DigitChar(d)) == d
  {
  }

  lemma OpRoundTrip(op: BinOp)
    ensures CharOp(OpChar(op)) == Some(op)
  {
  }

  // ----- the grammar, one function per parser routine -----

  /** EXPR: one expression starting at i, with the cursor after it. */
  function ParseExpr(s: seq<char>, i: nat): (r: Option<(Expr, nat)>)
    requires i <= |s|
    ensures r.Some? ==> i < r.value.1 < |s|
    decreases |s| - i
  {
    var c := Tok(s, i);
    if CharOp(c).Some? then
      match Advance(s, i)
      case None => None
      case Some(j) =>
        match ParseExpr(s, j)
        case None => None
        case Some(lhs) =>
          match ParseExpr(s, lhs.1)
          case None => None
          case Some(rhs) => Some((Bin(CharOp(c).value, lhs.0, rhs.0), rhs.1))
    else if IsIdentifier(c) then
      match Advance(s, i)
      case None => None
      case Some(j) => Some((Var(c), j))
    else if IsDigit(c) then
      match Advance(s, i)
      case None => None
      case Some(j) => Some((Num(ToDigit(c)), j))
    else
      None
  }

  /** VAR in the position after the '%' of READ or the '$' of PRINT. */
  function ParseVar(s: seq<char>, i: nat): (r: Option<(VarName, nat)>)
    ensures r.Some? <==> IsIdentifier(Tok(s, i)) && Advance(s, i).Some?
    ensures r.Some? ==> r.value == (Tok(s, i), i + 1)
  {
    var c := Tok(s, i);
    if IsIdentifier(c) then
      match Advance(s, i)
      case None => None
      case Some(j) => Some((c, j))
    else None
  }

  /** STMT: an assignment, a read or a print, chosen by its first token. */
  function ParseStmt(s: seq<char>, i: nat): (r: Option<(Stmt, nat)>)
    requires i <= |s|
    ensures r.Some? ==> i < r.value.1 < |s|
  {
    var c := Tok(s, i);
    if IsIdentifier(c) then
      match Advance(s, i)
      case None => None
      case Some(j) =>
        if Tok(s, j) != '=' then None
        else
          match Advance(s, j)
          case None => None
          case Some(k) =>
            match ParseExpr(s, k)
            case None => None
            case Some(rhs) => Some((Assign(c, rhs.0), rhs.1))
    else if c == '%' || c == '$' then
      match Advance(s, i)
      case None => None
      case Some(j) =>
        match ParseVar(s, j)
        case None => None
        case Some(v) => Some((if c == '%' then Read(v.0) else Print(v.0), v.1))
    else
      None
  }

  /** STMTLIST ::= STMT MORESTMTS */
  function ParseStmtList(s: seq<char>, i: nat): (r: Option<(seq<Stmt>, nat)>)
    requires i <= |s|
    ensures r.Some? ==> i < r.value.1 < |s| && |r.value.0| > 0
    decreases |s| - i, 1
  {
    match ParseStmt(s, i)
    case None => None
    case Some(first) =>
      match ParseMoreStmts(s, first.1)
      case None => None
      case Some(rest) => Some(([first.0] + rest.0, rest.1))
  }

  /** MORESTMTS ::= ; STMTLIST | epsilon, decided by whether the token is ';'. */
  function ParseMoreStmts(s: seq<char>, i: nat): (r: Option<(seq<Stmt>, nat)>)
    requires i <= |s|
    ensures r.Some? ==> i <= r.value.1 <= |s|
    ensures r.Some? && r.value.1 == i ==> r.value.0 == []
    ensures r.Some? && r.value.0 == [] ==> r.value.1 == i
    decreases |s| - i, 0
  {
    if Tok(s, i) == ';' then
      match Advance(s, i)
      case None => None
      case Some(j) => ParseStmtList(s, j)
    else
      Some(([], i))
  }

  /** PROGRAM ::= STMTLIST '!'.  The '!' is checked but never consumed, and
      nothing after it is looked at. */
  function ParseProgram(s: seq<char>): (r: Option<Program>)
    ensures r.Some? ==> |r.value| > 0
  {
    match ParseStmtList(s, 0)
    case None => None
    case Some(list) => if Tok(s, list.1) == '!' then Some(list.0) else None
  }
}
