// The parser against the concrete syntax: a parse succeeds exactly when the
// buffer holds the text of the construct followed by a token that is not the
// terminator, and it then returns that construct.

module RoundTrip {
  import opened Wrappers
  import opened TinyL
  import opened Parsing

  /** t occurs in s at position i. */
  predicate PrefixAt(t: seq<char>, s: seq<char>, i: nat) {
    i + |t| <= |s| && s[i..i + |t|] == t
  }

  lemma PrefixConcat(t1: seq<char>, t2: seq<char>, s: seq<char>, i: nat)
    ensures PrefixAt(t1 + t2, s, i) <==> PrefixAt(t1, s, i) && PrefixAt(t2, s, i + |t1|)
  {
    if PrefixAt(t1 + t2, s, i) {
      assert s[i..i + |t1|] == (t1 + t2)[..|t1|];
      assert s[i + |t1|..i + |t1| + |t2|] == (t1 + t2)[|t1|..];
    }
    if PrefixAt(t1, s, i) && PrefixAt(t2, s, i + |t1|) {
      assert s[i..i + |t1 + t2|] == s[i..i + |t1|] + s[i + |t1|..i + |t1| + |t2|];
    }
  }

  lemma PrefixHead(t: seq<char>, s: seq<char>, i: nat)
    requires PrefixAt(t, s, i) && |t| > 0
    ensures Tok(s, i) == t[0]
  {
    assert s[i..i + |t|][0] == s[i];
  }

  /** The first character of an expression: an operator, a variable or a
      digit, and never the terminator. */
  predicate ExprStart(c: char) {
    CharOp(c).Some? || IsIdentifier(c) || IsDigit(c)
  }

  lemma ExprTextHead(e: Expr)
    ensures |ExprText(e)| > 0 && ExprStart(ExprText(e)[0]) && ExprText(e)[0] != NUL
  {
    match e
    case Num(d) => DigitRoundTrip(d);
    case Var(v) =>
    case Bin(op, l, r) => OpRoundTrip(op);
  }

  /** Soundness for EXPR: what ParseExpr returns is the expression whose text
      the buffer holds between the two cursor positions, and the token after
      it is not the terminator. */
  lemma {:induction false} ParseExprSound(s: seq<char>, i: nat)
    requires i <= |s| && ParseExpr(s, i).Some?
    ensures ParseExpr(s, i).value.1 == i + |ExprText(ParseExpr(s, i).value.0)|
    ensures PrefixAt(ExprText(ParseExpr(s, i).value.0), s, i)
    ensures Tok(s, ParseExpr(s, i).value.1) != NUL
    decreases |s| - i
  {
    var c := Tok(s, i);
    var j := i + 1;
    if CharOp(c).Some? {
      var op := CharOp(c).value;
      var lhs := ParseExpr(s, j).value;
      var rhs := ParseExpr(s, lhs.1).value;
      ParseExprSound(s, j);
      ParseExprSound(s, lhs.1);
      PrefixConcat([c], ExprText(lhs.0), s, i);
      PrefixConcat([c] + ExprText(lhs.0), ExprText(rhs.0), s, i);
    } else {
      assert s[i..i + 1] == [c];
    }
  }

  /** How the text of an operator node lies in the buffer: the operator at i,
      the left operand from i + 1 up to k, the right one from k up to m. */
  lemma BinTextPieces(s: seq<char>, i: nat, op: BinOp, l: Expr, r: Expr, k: nat, m: nat)
    requires PrefixAt(ExprText(Bin(op, l, r)), s, i)
    requires Tok(s, i + |ExprText(Bin(op, l, r))|) != NUL
    requires k == i + 1 + |ExprText(l)| && m == k + |ExprText(r)|
    ensures Tok(s, i) == OpChar(op) && Tok(s, i + 1) != NUL
    ensures PrefixAt(ExprText(l), s, i + 1) && Tok(s, k) != NUL
    ensures PrefixAt(ExprText(r), s, k) && Tok(s, m) != NUL
    ensures m == i + |ExprText(Bin(op, l, r))|
  {
    var n := i + |ExprText(Bin(op, l, r))|;
    assert Tok(s, n) != NUL;
    BinTextSplit(s, i, op, l, r, k, m);
    assert m == n;
    ExprTextHead(l);
    ExprTextHead(r);
    PrefixHead(ExprText(l), s, i + 1);
    PrefixHead(ExprText(r), s, k);
  }

  /** The three pieces of an operator node's text, located in the buffer. */
  lemma BinTextSplit(s: seq<char>, i: nat, op: BinOp, l: Expr, r: Expr, k: nat, m: nat)
    requires PrefixAt(ExprText(Bin(op, l, r)), s, i)
    requires k == i + 1 + |ExprText(l)| && m == k + |ExprText(r)|
    ensures Tok(s, i) == OpChar(op)
    ensures PrefixAt(ExprText(l), s, i + 1) && PrefixAt(ExprText(r), s, k)
    ensures m == i + |ExprText(Bin(op, l, r))|
  {
    var tl, tr := ExprText(l), ExprText(r);
    assert ExprText(Bin(op, l, r)) == [OpChar(op)] + tl + tr;
    PrefixHead(ExprText(Bin(op, l, r)), s, i);
    PrefixConcat([OpChar(op)] + tl, tr, s, i);
    PrefixConcat([OpChar(op)], tl, s, i);
  }

  /** ParseExpr on an operator token, given the parses of both operands. */
  lemma ParseBinStep(s: seq<char>, i: nat, op: BinOp, l: Expr, r: Expr, k: nat, m: nat)
    requires i < |s| && Tok(s, i) == OpChar(op) && Tok(s, i + 1) != NUL
    requires ParseExpr(s, i + 1) == Some((l, k))
    requires ParseExpr(s, k) == Some((r, m))
    ensures ParseExpr(s, i) == Some((Bin(op, l, r), m))
  {
    OpRoundTrip(op);
  }

  /** ParseExpr on a variable or a digit followed by a non-terminator. */
  lemma ParseLeafStep(s: seq<char>, i: nat, e: Expr)
    requires !e.Bin? && PrefixAt(ExprText(e), s, i) && Tok(s, i + 1) != NUL
    ensures ParseExpr(s, i) == Some((e, i + 1))
  {
    PrefixHead(ExprText(e), s, i);
    if e.Num? {
      DigitRoundTrip(e.d);
    }
  }

  /** Completeness for EXPR: the text of e, followed by a token other than
      the terminator, parses back to e. */
  lemma {:induction false} ParseExprComplete(s: seq<char>, i: nat, e: Expr)
    requires PrefixAt(ExprText(e), s, i)
    requires Tok(s, i + |ExprText(e)|) != NUL
    ensures ParseExpr(s, i) == Some((e, i + |ExprText(e)|))
    decreases e
  {
    if e.Bin? {
      var k := i + 1 + |ExprText(e.left)|;
      var m := k + |ExprText(e.right)|;
      BinTextPieces(s, i, e.op, e.left, e.right, k, m);
      ParseExprComplete(s, i + 1, e.left);
      ParseExprComplete(s, k, e.right);
      ParseBinStep(s, i, e.op, e.left, e.right, k, m);
    } else {
      ParseLeafStep(s, i, e);
    }
  }

  /** EXPR parses as e up to j exactly when the buffer holds e's text there. */
  lemma ParseExprIff(s: seq<char>, i: nat, e: Expr, j: nat)
    requires i <= |s|
    ensures ParseExpr(s, i) == Some((e, j))
        <==> j == i + |ExprText(e)| && PrefixAt(ExprText(e), s, i) && Tok(s, j) != NUL
  {
    if ParseExpr(s, i) == Some((e, j)) {
      ParseExprSound(s, i);
    }
    if j == i + |ExprText(e)| && PrefixAt(ExprText(e), s, i) && Tok(s, j) != NUL {
      ParseExprComplete(s, i, e);
    }
  }

  // ----- statements -----

  lemma StmtTextHead(st: Stmt)
    ensures |StmtText(st)| > 1 && StmtText(st)[0] != NUL && StmtText(st)[0] != ';'
  {
  }

  /** Soundness for STMT. */
  lemma ParseStmtSound(s: seq<char>, i: nat)
    requires i <= |s| && ParseStmt(s, i).Some?
    ensures ParseStmt(s, i).value.1 == i + |StmtText(ParseStmt(s, i).value.0)|
    ensures PrefixAt(StmtText(ParseStmt(s, i).value.0), s, i)
    ensures Tok(s, ParseStmt(s, i).value.1) != NUL
  {
    var c := Tok(s, i);
    assert s[i..i + 2] == [s[i], s[i + 1]];
    if IsIdentifier(c) {
      var rhs := ParseExpr(s, i + 2).value;
      ParseExprSound(s, i + 2);
      PrefixConcat([c, '='], ExprText(rhs.0), s, i);
    }
  }

  /** Completeness for STMT. */
  lemma ParseStmtComplete(s: seq<char>, i: nat, st: Stmt)
    requires PrefixAt(StmtText(st), s, i)
    requires Tok(s, i + |StmtText(st)|) != NUL
    ensures ParseStmt(s, i) == Some((st, i + |StmtText(st)|))
  {
    var t := StmtText(st);
    assert s[i..i + |t|][0] == s[i] && s[i..i + |t|][1] == s[i + 1];
    if st.Assign? {
      PrefixConcat([st.x, '='], ExprText(st.rhs), s, i);
      ExprTextHead(st.rhs);
      PrefixHead(ExprText(st.rhs), s, i + 2);
      ParseExprComplete(s, i + 2, st.rhs);
    }
  }

  // ----- statement lists -----

  /** The text MORESTMTS matches for the statements after the first. */
  function MoreText(ss: seq<Stmt>): seq<char> {
    if ss == [] then [] else [';'] + ListText(ss)
  }

  lemma ListTextCons(st: Stmt, rest: seq<Stmt>)
    ensures ListText([st] + rest) == StmtText(st) + MoreText(rest)
  {
    var ss := [st] + rest;
    assert ss[0] == st && ss[1..] == rest;
  }

  lemma ListTextHead(ss: seq<Stmt>)
    requires |ss| > 0
    ensures |ListText(ss)| > 0 && ListText(ss)[0] != NUL
  {
    StmtTextHead(ss[0]);
  }

  /** Soundness for STMTLIST: the statements returned are those whose
      ';'-separated text lies between the two cursor positions, and the token
      after it is neither the terminator nor ';'. */
  lemma {:induction false} ParseStmtListSound(s: seq<char>, i: nat)
    requires i <= |s| && ParseStmtList(s, i).Some?
    ensures ParseStmtList(s, i).value.1 == i + |ListText(ParseStmtList(s, i).value.0)|
    ensures PrefixAt(ListText(ParseStmtList(s, i).value.0), s, i)
    ensures Tok(s, ParseStmtList(s, i).value.1) !in {NUL, ';'}
    decreases |s| - i, 1
  {
    var first := ParseStmt(s, i).value;
    ParseStmtSound(s, i);
    var rest := ParseMoreStmts(s, first.1).value;
    ParseMoreStmtsSound(s, first.1);
    ListTextCons(first.0, rest.0);
    PrefixConcat(StmtText(first.0), MoreText(rest.0), s, i);
  }

  /** Soundness for MORESTMTS, from a position that is not the terminator. */
  lemma {:induction false} ParseMoreStmtsSound(s: seq<char>, i: nat)
    requires i <= |s| && Tok(s, i) != NUL && ParseMoreStmts(s, i).Some?
    ensures ParseMoreStmts(s, i).value.1 == i + |MoreText(ParseMoreStmts(s, i).value.0)|
    ensures PrefixAt(MoreText(ParseMoreStmts(s, i).value.0), s, i)
    ensures Tok(s, ParseMoreStmts(s, i).value.1) !in {NUL, ';'}
    decreases |s| - i, 0
  {
    if Tok(s, i) == ';' {
      var list := ParseStmtList(s, i + 1).value;
      ParseStmtListSound(s, i + 1);
      assert s[i..i + 1] == [';'];
      PrefixConcat([';'], ListText(list.0), s, i);
    } else {
      assert s[i..i] == [];
    }
  }

  /** MORESTMTS on ';' followed by a statement list that parses. */
  lemma ParseMoreStep(s: seq<char>, i: nat, rest: seq<Stmt>, j: nat)
    requires i < |s| && Tok(s, i) == ';' && Tok(s, i + 1) != NUL
    requires ParseStmtList(s, i + 1) == Some((rest, j))
    ensures ParseMoreStmts(s, i) == Some((rest, j))
  {
  }

  /** STMTLIST from the parses of its first statement and of MORESTMTS. */
  lemma ParseListStep(s: seq<char>, i: nat, st: Stmt, k: nat, rest: seq<Stmt>, j: nat)
    requires i <= |s|
    requires ParseStmt(s, i) == Some((st, k))
    requires ParseMoreStmts(s, k) == Some((rest, j))
    ensures ParseStmtList(s, i) == Some(([st] + rest, j))
  {
  }

  /** How the text of a statement list lies in the buffer: its first
      statement from i up to k, then the text MORESTMTS matches up to the
      end j. */
  lemma ListTextPieces(s: seq<char>, i: nat, ss: seq<Stmt>, k: nat, j: nat)
    requires |ss| > 0 && PrefixAt(ListText(ss), s, i)
    requires k == i + |StmtText(ss[0])| && j == i + |ListText(ss)|
    ensures PrefixAt(StmtText(ss[0]), s, i)
    ensures PrefixAt(MoreText(ss[1..]), s, k) && j == k + |MoreText(ss[1..])|
  {
    assert ss == [ss[0]] + ss[1..];
    ListTextCons(ss[0], ss[1..]);
    PrefixConcat(StmtText(ss[0]), MoreText(ss[1..]), s, i);
  }

  /** The text MORESTMTS matches for a non-empty rest: the ';' at k and the
      text of the rest from k + 1 up to j. */
  lemma MoreTextPieces(s: seq<char>, k: nat, rest: seq<Stmt>, j: nat)
    requires |rest| > 0 && PrefixAt(MoreText(rest), s, k) && j == k + |MoreText(rest)|
    ensures Tok(s, k) == ';' && Tok(s, k + 1) != NUL
    ensures PrefixAt(ListText(rest), s, k + 1) && j == k + 1 + |ListText(rest)|
  {
    var tr := ListText(rest);
    assert MoreText(rest) == [';'] + tr;
    PrefixConcat([';'], tr, s, k);
    PrefixHead(MoreText(rest), s, k);
    ListTextHead(rest);
    PrefixHead(tr, s, k + 1);
  }

  /** Completeness for STMTLIST: the text of a non-empty statement list,
      followed by a token that is neither the terminator nor ';', parses back
      to that list. */
  lemma {:induction false} ParseStmtListComplete(s: seq<char>, i: nat, ss: seq<Stmt>)
    requires |ss| > 0 && PrefixAt(ListText(ss), s, i)
    requires Tok(s, i + |ListText(ss)|) !in {NUL, ';'}
    ensures ParseStmtList(s, i) == Some((ss, i + |ListText(ss)|))
    decreases |ss|
  {
    var st, rest := ss[0], ss[1..];
    var j := i + |ListText(ss)|;
    var k := i + |StmtText(st)|;
    ListTextPieces(s, i, ss, k, j);
    if rest == [] {
      ParseStmtComplete(s, i, st);
      assert ParseMoreStmts(s, k) == Some(([], k));
      ParseListStep(s, i, st, k, [], k);
    } else {
      MoreTextPieces(s, k, rest, j);
      ParseStmtComplete(s, i, st);
      ParseStmtListComplete(s, k + 1, rest);
      ParseMoreStep(s, k, rest, j);
      ParseListStep(s, i, st, k, rest, j);
    }
    assert [st] + rest == ss;
  }

  /** Completeness for MORESTMTS: the ';'-prefixed text of the statements
      after the first (nothing, for none), followed by a token that is
      neither the terminator nor ';', parses back to those statements. */
  lemma ParseMoreStmtsComplete(s: seq<char>, i: nat, rest: seq<Stmt>)
    requires PrefixAt(MoreText(rest), s, i)
    requires Tok(s, i + |MoreText(rest)|) !in {NUL, ';'}
    ensures ParseMoreStmts(s, i) == Some((rest, i + |MoreText(rest)|))
  {
    var j := i + |MoreText(rest)|;
    if rest != [] {
      MoreTextPieces(s, i, rest, j);
      ParseStmtListComplete(s, i + 1, rest);
      ParseMoreStep(s, i, rest, j);
    }
  }

  // ----- programs -----

  /** PROGRAM accepts exactly the buffers that begin with the text of a
      non-empty statement list followed by '!', and returns that list. */
  lemma ParseProgramIff(s: seq<char>, p: Program)
    ensures ParseProgram(s) == Some(p) <==> |p| > 0 && PrefixAt(ProgramText(p), s, 0)
  {
    if ParseProgram(s) == Some(p) {
      ParseStmtListSound(s, 0);
      var j := ParseStmtList(s, 0).value.1;
      assert s[j..j + 1] == ['!'];
      PrefixConcat(ListText(p), ['!'], s, 0);
    }
    if |p| > 0 && PrefixAt(ProgramText(p), s, 0) {
      PrefixConcat(ListText(p), ['!'], s, 0);
      PrefixHead(['!'], s, |ListText(p)|);
      ParseStmtListComplete(s, 0, p);
    }
  }

  /** Whatever follows the '!' is never looked at. */
  lemma ParseProgramIgnoresSuffix(s: seq<char>, t: seq<char>)
    requires ParseProgram(s).Some?
    ensures ParseProgram(s + t) == ParseProgram(s)
  {
    var p := ParseProgram(s).value;
    ParseProgramIff(s, p);
    var n := |ProgramText(p)|;
    assert (s + t)[..n] == s[..n];
    ParseProgramIff(s + t, p);
  }

  /** An accepted buffer always contains the '!', so a buffer that ends
      without one is rejected: the cursor would have to advance onto the
      terminator. */
  lemma ParseProgramNeedsBang(s: seq<char>)
    ensures '!' !in s ==> ParseProgram(s) == None
  {
    if ParseProgram(s).Some? {
      var p := ParseProgram(s).value;
      ParseProgramIff(s, p);
      var n := |ProgramText(p)|;
      assert s[..n][n - 1] == '!';
    }
  }
}
