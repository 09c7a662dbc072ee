// Worked programs: what the compiler emits for them and what the optimizer
// keeps of it.

module Scenarios {
  import opened Wrappers
  import opened Instr
  import opened TinyL
  import opened Parsing
  import opened DeadCode
  import opened Liveness
  import opened RoundTrip

  const A: int := 'a' as int
  const B: int := 'b' as int

  const Sample: Program := [Assign('a', Num(5)), Assign('b', Num(3)), Print('a')]

  const SampleCode: seq<Instruction> :=
    [Instruction(LOADI, 1, 5, EMPTY_FIELD), Instruction(STORE, A, 1, 0),
     Instruction(LOADI, 2, 3, EMPTY_FIELD), Instruction(STORE, B, 2, 0),
     Instruction(WRITE, A, 0, 0)]

  lemma SampleParses()
    ensures ParseProgram("a=5;b=3;$a!") == Some(Sample)
  {
    assert ListText([Print('a')]) == "$a";
    assert ListText(Sample[1..]) == "b=3;$a";
    assert ProgramText(Sample) == "a=5;b=3;$a!";
    ParseProgramIff("a=5;b=3;$a!", Sample);
  }

  lemma SampleCompiles()
    ensures GenProgram(Sample) == SampleCode
  {
  }

  /** The activations of criticalCheck on the sample that keep an
      instruction, last instruction first: the print demands a, the store to
      a discharges a and demands register 1, and the constant discharges
      that. */
  lemma SampleSteps()
    ensures Step([], SampleCode[4]) == (true, [Demand(A, Id)])
    ensures Step([Demand(A, Id)], SampleCode[1]) == (true, [Demand(1, Reg)])
    ensures Step([Demand(1, Reg)], SampleCode[0]) == (true, [])
  {
    var da, d1 := [Demand(A, Id)], [Demand(1, Reg)];
    assert [Demand(A, Id)] + [] == da && [Demand(1, Reg)] + [] == d1;
    assert RemoveFirst(da, Demand(A, Id)) == [];
    assert AddUses([], SampleCode[1]) == d1;
    assert RemoveFirst(d1, Demand(1, Reg)) == [];
  }

  /** The two instructions of the assignment to b meet no demand for what
      they define. */
  lemma SampleDeadSteps()
    ensures Step([Demand(A, Id)], SampleCode[3]) == (false, [Demand(A, Id)])
    ensures Step([Demand(A, Id)], SampleCode[2]) == (false, [Demand(A, Id)])
  {
    assert Defines(SampleCode[3]).value !in [Demand(A, Id)];
    assert Defines(SampleCode[2]).value !in [Demand(A, Id)];
  }

  /** In "a=5;b=3;$a!" the assignment to b is never read, so its two
      instructions are dead and the other three stay. */
  lemma SampleKeep()
    ensures Keep(SampleCode) == [true, true, false, false, true]
  {
    var i0, i1, i2, i3, i4 := SampleCode[0], SampleCode[1], SampleCode[2], SampleCode[3], SampleCode[4];
    var da, d1 := [Demand(A, Id)], [Demand(1, Reg)];
    SampleSteps();
    SampleDeadSteps();
    SweepSnoc([], i0, d1);
    assert [i0] == [] + [i0];
    SweepSnoc([i0], i1, da);
    SweepSnoc([i0, i1], i2, da);
    SweepSnoc([i0, i1, i2], i3, da);
    SweepSnoc([i0, i1, i2, i3], i4, []);
    assert SampleCode == [i0, i1, i2, i3] + [i4];
    assert [i0, i1, i2, i3] == [i0, i1, i2] + [i3];
    assert [i0, i1, i2] == [i0, i1] + [i2];
    assert [i0, i1] == [i0] + [i1];
  }

  lemma SampleOptimized()
    ensures Optimized(SampleCode) == [SampleCode[0], SampleCode[1], SampleCode[4]]
  {
    var i0, i1, i2, i3, i4 := SampleCode[0], SampleCode[1], SampleCode[2], SampleCode[3], SampleCode[4];
    SampleKeep();
    assert Filter([i4], [true]) == [i4];
    assert Filter([i3, i4], [false, true]) == [i4];
    assert Filter([i2, i3, i4], [false, false, true]) == [i4];
    assert Filter([i1, i2, i3, i4], [true, false, false, true]) == [i1, i4];
    assert Filter(SampleCode, [true, true, false, false, true]) == [i0, i1, i4];
  }

  /** Malformed programs are rejected: a missing terminator, an empty
      statement list, an operator written infix, and an assignment without
      its '='. */
  lemma Rejected()
    ensures ParseProgram("a=5") == None
    ensures ParseProgram("!") == None
    ensures ParseProgram("a=5+1!") == None
    ensures ParseProgram("a+5!") == None
  {
  }

  /** Instructions shared by the two programs below: the store of register
      1 into a, and the print of a. */
  const Store1 := Instruction(STORE, A, 1, 0)
  const PrintA := Instruction(WRITE, A, 0, 0)

  /** "a=5;%a;$a!": the READ in between neither discharges the demand the
      print makes for a nor adds one, so the store it overwrites still
      stays. */
  const Load5 := Instruction(LOADI, 1, 5, EMPTY_FIELD)
  const ReadA := Instruction(READ, A, 0, 0)
  const Reread: seq<Instruction> := [Load5, Store1, ReadA, PrintA]
  const RereadProgram: Program := [Assign('a', Num(5)), Read('a'), Print('a')]

  lemma RereadParses()
    ensures ParseProgram("a=5;%a;$a!") == Some(RereadProgram)
  {
    assert ListText([Print('a')]) == "$a";
    assert ListText(RereadProgram[1..]) == "%a;$a";
    assert ProgramText(RereadProgram) == "a=5;%a;$a!";
    ParseProgramIff("a=5;%a;$a!", RereadProgram);
  }

  lemma RereadCompiles()
    ensures GenProgram(RereadProgram) == Reread
  {
    var p := RereadProgram;
    assert GenStmt(p[0], 1) == [Load5, Store1];
    assert GenStmts(p[2..], 2) == [PrintA];
    assert GenStmts(p[1..], 2) == [ReadA, PrintA];
    assert GenStmts(p, 1) == [Load5, Store1] + [ReadA, PrintA];
  }

  lemma RereadSteps()
    ensures Step([], PrintA) == (true, [Demand(A, Id)])
    ensures Step([Demand(A, Id)], ReadA) == (true, [Demand(A, Id)])
    ensures Step([Demand(1, Reg)], Load5) == (true, [])
  {
    assert [Demand(A, Id)] + [] == [Demand(A, Id)];
    assert RemoveFirst([Demand(1, Reg)], Demand(1, Reg)) == [];
  }

  lemma RereadKept()
    ensures Keep(Reread) == [true, true, true, true]
  {
    var da, d1 := [Demand(A, Id)], [Demand(1, Reg)];
    RereadSteps();
    OverwrittenStoreStep();
    SweepSnoc([], Load5, d1);
    assert [Load5] == [] + [Load5];
    SweepSnoc([Load5], Store1, da);
    SweepSnoc([Load5, Store1], ReadA, da);
    SweepSnoc([Load5, Store1, ReadA], PrintA, []);
    assert Reread == [Load5, Store1, ReadA] + [PrintA];
    assert [Load5, Store1, ReadA] == [Load5, Store1] + [ReadA];
    assert [Load5, Store1] == [Load5] + [Store1];
  }

  /** Two prints of the same variable leave two demands for it: the WRITE
      case does not look for an equal item first. */
  lemma PrintSteps()
    ensures Step([], PrintA) == (true, [Demand(A, Id)])
    ensures Step([Demand(A, Id)], PrintA) == (true, [Demand(A, Id), Demand(A, Id)])
  {
    assert [Demand(A, Id)] + [] == [Demand(A, Id)];
    assert [Demand(A, Id)] + [Demand(A, Id)] == [Demand(A, Id), Demand(A, Id)];
  }

  lemma WritesNotMerged()
    ensures Sweep([PrintA, PrintA], []) == ([true, true], [Demand(A, Id), Demand(A, Id)])
  {
    var da, dd := [Demand(A, Id)], [Demand(A, Id), Demand(A, Id)];
    PrintSteps();
    SweepSnoc([], PrintA, dd);
    assert [PrintA] == [] + [PrintA];
    assert Sweep([], dd).0 + [true] == [true];
    assert Sweep([PrintA], da) == ([true], dd);
    SweepSnoc([PrintA], PrintA, []);
    assert [PrintA, PrintA] == [PrintA] + [PrintA];
    assert [true] + [true] == [true, true];
  }

  /** "a=1;a=2;$a;$a!": the second print's demand for a is not merged with
      the first, so once the store of 2 has consumed one of them the other
      is consumed by the overwritten store of 1, which stays together with
      its constant. */
  const Load1 := Instruction(LOADI, 1, 1, EMPTY_FIELD)
  const Load2 := Instruction(LOADI, 2, 2, EMPTY_FIELD)
  const Store2 := Instruction(STORE, A, 2, 0)
  const PrintedTwice: seq<Instruction> := [Load1, Store1, Load2, Store2, PrintA, PrintA]
  const PrintedTwiceProgram: Program := [Assign('a', Num(1)), Assign('a', Num(2)), Print('a'), Print('a')]

  lemma PrintedTwiceParses()
    ensures ParseProgram("a=1;a=2;$a;$a!") == Some(PrintedTwiceProgram)
  {
    assert ListText([Print('a')]) == "$a";
    assert ListText(PrintedTwiceProgram[2..]) == "$a;$a";
    assert ListText(PrintedTwiceProgram[1..]) == "a=2;$a;$a";
    assert ProgramText(PrintedTwiceProgram) == "a=1;a=2;$a;$a!";
    ParseProgramIff("a=1;a=2;$a;$a!", PrintedTwiceProgram);
  }

  lemma PrintedTwiceCompiles()
    ensures GenProgram(PrintedTwiceProgram) == PrintedTwice
  {
    var p := PrintedTwiceProgram;
    assert GenStmt(p[0], 1) == [Load1, Store1];
    assert GenStmt(p[1], 2) == [Load2, Store2];
    assert GenStmts(p[3..], 3) == [PrintA];
    assert GenStmts(p[2..], 3) == [PrintA, PrintA];
    assert GenStmts(p[1..], 2) == [Load2, Store2] + [PrintA, PrintA];
    assert GenStmts(p, 1) == [Load1, Store1] + [Load2, Store2, PrintA, PrintA];
  }

  /** The store of 2 takes the first of the two demands for a. */
  lemma OverwritingStoreStep()
    ensures Step([Demand(A, Id), Demand(A, Id)], Store2) == (true, [Demand(2, Reg), Demand(A, Id)])
  {
    var da, dd := [Demand(A, Id)], [Demand(A, Id), Demand(A, Id)];
    assert Defines(Store2) == Some(Demand(A, Id));
    assert dd[0] == Demand(A, Id) && dd[1..] == da;
    assert RemoveFirst(dd, Demand(A, Id)) == da;
    assert Demand(2, Reg) !in da;
    assert AddUses(da, Store2) == AddIfAbsent(da, Demand(2, Reg)) == [Demand(2, Reg)] + da;
    assert Store2.opcode != READ && Store2.opcode != WRITE;
    assert Step(dd, Store2) == (true, AddUses(RemoveFirst(dd, Demand(A, Id)), Store2));
    assert [Demand(2, Reg)] + da == [Demand(2, Reg), Demand(A, Id)];
  }

  /** The overwritten store of 1 takes the demand left over. */
  lemma OverwrittenStoreStep()
    ensures Step([Demand(A, Id)], Store1) == (true, [Demand(1, Reg)])
  {
    assert RemoveFirst([Demand(A, Id)], Demand(A, Id)) == [];
    assert AddUses([], Store1) == [Demand(1, Reg)];
  }

  lemma ConstantSteps()
    ensures Step([Demand(2, Reg), Demand(A, Id)], Load2) == (true, [Demand(A, Id)])
    ensures Step([Demand(1, Reg)], Load1) == (true, [])
  {
    assert RemoveFirst([Demand(2, Reg), Demand(A, Id)], Demand(2, Reg)) == [Demand(A, Id)];
    assert RemoveFirst([Demand(1, Reg)], Demand(1, Reg)) == [];
  }

  /** The two prints and the second store, swept first. */
  lemma PrintedTwiceLate()
    ensures Sweep([Store2, PrintA, PrintA], []) == ([true, true, true], [Demand(2, Reg), Demand(A, Id)])
  {
    var dd := [Demand(A, Id), Demand(A, Id)];
    WritesNotMerged();
    OverwritingStoreStep();
    SweepSnoc([], Store2, dd);
    assert [Store2] == [] + [Store2];
    assert Sweep([], [Demand(2, Reg), Demand(A, Id)]).0 + [true] == [true];
    assert Sweep([Store2], dd) == ([true], [Demand(2, Reg), Demand(A, Id)]);
    SweepAppend([Store2], [PrintA, PrintA], []);
    assert [Store2, PrintA, PrintA] == [Store2] + [PrintA, PrintA];
    assert [true] + [true, true] == [true, true, true];
  }

  /** The first store and both constants, swept with what the rest left. */
  lemma PrintedTwiceEarly()
    ensures Sweep([Load1, Store1, Load2], [Demand(2, Reg), Demand(A, Id)]) == ([true, true, true], [])
  {
    ConstantSteps();
    OverwrittenStoreStep();
    var da, d1 := [Demand(A, Id)], [Demand(1, Reg)];
    SweepSnoc([], Load1, d1);
    assert [Load1] == [] + [Load1];
    assert Sweep([], []).0 + [true] == [true];
    assert Sweep([Load1], d1) == ([true], []);
    SweepSnoc([Load1], Store1, da);
    assert [Load1, Store1] == [Load1] + [Store1];
    assert [true] + [true] == [true, true];
    assert Sweep([Load1, Store1], da) == ([true, true], []);
    SweepSnoc([Load1, Store1], Load2, [Demand(2, Reg), Demand(A, Id)]);
    assert [Load1, Store1, Load2] == [Load1, Store1] + [Load2];
    assert [true, true] + [true] == [true, true, true];
  }

  /** Every instruction stays, the overwritten store of 1 included, and no
      demand is left over. */
  lemma PrintedTwiceKept()
    ensures Sweep(PrintedTwice, []) == ([true, true, true, true, true, true], [])
  {
    PrintedTwiceLate();
    PrintedTwiceEarly();
    assert PrintedTwice == [Load1, Store1, Load2] + [Store2, PrintA, PrintA];
    SweepAppend([Load1, Store1, Load2], [Store2, PrintA, PrintA], []);
    assert [true, true, true] + [true, true, true] == [true, true, true, true, true, true];
  }
}
