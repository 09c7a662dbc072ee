# tinyL: compiler and dead-code eliminator

This is a Dafny model of the two stages of the tinyL tool chain.

**The compiler (Compiler.c)** is an LL(1) recursive-descent parser. It reads a whitespace-free buffer of one-character tokens and emits one three-field IR instruction per reduction. Every expression routine returns the virtual register that holds its value. Registers come from a counter `regnum`, which starts at 1.

**The optimizer (Optimizer.c)** removes dead code from the instruction list in a single backward pass. It walks from the last instruction to the first and keeps a list of "important items". Each item is a pending demand for a register or a variable:
- READ and WRITE are always kept. A WRITE adds a demand for its variable.
- Any other instruction stays only if a pending demand asks for what it defines.
- An instruction that stays consumes that one demand and adds demands for its operands.
- An instruction that does not stay is unlinked from the list.

Modules:

- `Wrappers`, `Instr` (instr.dfy): the instruction record and its field layout, what each instruction defines and reads, and `WellFormed`. `WellFormed` is single assignment: every register is read only after it is defined, and defined only once. Instr.h is not part of this model, so these declarations follow how the two C files use the fields.
- `TinyL` (tinyl.dfy): the abstract syntax, its concrete prefix text, and the code (`GenExpr`, `GenStmt`, `GenStmts`, `GenProgram`) the generator emits for each construct. It also holds the proofs that the registers of generated code are 1, 2, ... in emission order, each defined once and defined before it is read.
- `Parsing` (parsing.dfy): the token model and the character classifiers. It also holds one function per non-terminal, taking the same decisions as the C routines: `ParseExpr` stands for `expr` and folds in `digit`, `arith_expr` and `logical_expr`; `ParseStmt` stands for `stmt` and folds in `assign`, `read` and `print`; `ParseVar`, `ParseStmtList`, `ParseMoreStmts` and `ParseProgram` stand for `var`, `stmtlist`, `morestmts` and `program` one to one. Past the end of the buffer the token is the terminator `'\0'`.
- `RoundTrip` (roundtrip.dfy): each parse function (`ParseExpr`, `ParseStmt`, `ParseStmtList`, `ParseMoreStmts`, `ParseProgram`) succeeds exactly when the buffer holds the text of a construct, followed by a token that lets the routine stop, and it then returns that construct.
- `Compiler` (compiler.dfy): `class Parser` holds the cursor, the register counter and the output. It has one method per C routine, with the same mutual recursion, plus `Operands`, the tail that `arith_expr` and `logical_expr` share. Each method is proved against the parse and code-generation functions. `Compile` is the run of `program()` on a fresh parser.
- `DeadCode` (deadcode.dfy): the eliminator as functions. `Step` is one activation of `criticalCheck`. `Sweep` is the backward pass. `Keep` is the decisions the pass takes, and `Optimized` is the instructions it keeps.
- `Liveness` (liveness.dfy) proves these properties of the pass:
  - it is "kept iff demanded";
  - a removed instruction has no effect on the demands;
  - it keeps every READ and WRITE, and keeps the relative order;
  - it is idempotent;
  - it preserves `WellFormed`;
  - a dead store is removed.
- `Links` (links.dfy): the instruction list as index links (`NIL = -1`). `Walk` is what is reachable from the head. `Linked` says the links skip exactly the removed instructions.
- `Optimizer` (optimizer.dfy): `class InstrList` holds the list as `prev`/`next` arrays, the head, and the important-item list as a mutable sequence. Its methods `InsertImportant`, `RemoveImportant`, `FindImportantItem`, `StoreInstrAsImportant`, `HandleDependant` and `CriticalCheck` model the C functions of those names. The other methods are pieces of C code that is not a function of its own: `InsertIfAbsent` is the look-up-then-insert guard inside `storeInstrAsImportant`, `Visit` is the body of one `criticalCheck` activation, `FindTail` and `ClearImportant` are the loops of `main` that find the tail and free the important list, and `Instructions` is what `main`'s call of `PrintInstructionList` writes. `CriticalCheck` is proved to leave exactly the `Sweep` decisions in the links, and `Optimize` to print `Optimized(code)`.
- `Pipeline` (pipeline.dfy): compiling and then optimizing gives well-formed code with the program's reads and prints, in order.
- `Scenarios` (scenarios.dfy): worked programs.

Two behaviours of the C code that the model keeps:
- **Output on a syntax error.** `CodeGen` writes each instruction to the output file as soon as it is generated (Compiler.c:347), so a failed run leaves the instructions emitted before the error. `Parser` keeps that prefix in `code`, and `Compile` returns `None`.
- **What terminates a program.** The `'!'` is checked and never consumed, and nothing after it is read (Compiler.c:321-329).

## Model

| member | source | states |
|---|---|---|
| Parsing.Advance | Compiler.c:350-366 | next_token fails on the terminator and fails when the next token is the terminator; otherwise the cursor moves one position and stays inside the buffer |
| Parsing.Tok | Compiler.c:51 | the token under the cursor; a token other than the terminator lies inside the buffer |
| Parsing.IsDigit | Compiler.c:373-378 | is_digit; a digit is neither the terminator nor an operator character |
| Parsing.IsIdentifier | Compiler.c:388-393 | is_identifier; a variable a..f is neither a digit, nor the terminator, nor an operator character, so expr's dispatch is unambiguous |
| Parsing.ToDigit | Compiler.c:380-386 | a digit character maps to the digit whose character it is; any other character maps to 0 |
| Parsing.CharOp | Compiler.c:117-124 | the operator a character selects in expression position is the one whose character it is |
| Parsing.DigitRoundTrip | Compiler.c:373-386 | every digit's character is classified as a digit and converts back to that digit |
| Parsing.OpRoundTrip | Compiler.c:155-213 | every operator's character selects that operator again |
| Parsing.ParseExpr | Compiler.c:112-153 | a successful EXPR parse moves the cursor forward and stays inside the buffer |
| Parsing.ParseVar | Compiler.c:99-110 | VAR succeeds exactly on an identifier not followed by the terminator, returns that character and moves one position |
| Parsing.ParseStmt | Compiler.c:268-291 | a successful STMT parse moves the cursor forward and stays inside the buffer |
| Parsing.ParseStmtList | Compiler.c:308-315 | a successful STMTLIST parse returns at least one statement and moves forward inside the buffer |
| Parsing.ParseMoreStmts | Compiler.c:293-306 | MORESTMTS never moves backwards, and consumes nothing exactly when it returns no statements |
| Parsing.ParseProgram | Compiler.c:317-330 | an accepted program has at least one statement |
| TinyL.OpCodeOf | Compiler.c:160-198 | + - * & \| are translated to the binary opcodes ADD SUB MUL AND OR |
| TinyL.Regs | Compiler.c:85-213 | every expression allocates at least one register |
| TinyL.GenExprRegisters | Compiler.c:85-213 | the code for an expression defines registers r, r+1, ... in emission order, is single-assignment with every read defined earlier, and ends with the definition of the result register |
| TinyL.GenStmtRegisters | Compiler.c:215-266 | a statement's code defines the next StmtRegs registers in order and is well formed |
| TinyL.GenStmtsRegisters | Compiler.c:293-315 | a statement list's code defines the next ListRegs registers in order and is well formed |
| TinyL.GenProgramWellFormed | Compiler.c:368-371 | a program's code defines registers 1, 2, ..., n in emission order, each exactly once, and every register read is defined earlier |
| TinyL.GenExpr | Compiler.c:85-213 | the code digit, var, arith_expr and logical_expr emit for an expression: operands first, left before right, the result register allocated after both (its registers are stated by GenExprRegisters, its length by GenExprLength) |
| TinyL.GenStmt | Compiler.c:215-266 | the code assign, read and print emit: the expression's code and then STORE of its last register, or one READ or WRITE (stated by GenStmtRegisters and Pipeline.GenStmtIo) |
| TinyL.GenStmts | Compiler.c:293-315 | the code of a statement list, each statement starting where the previous one left the counter (stated by GenStmtsRegisters and GenStmtsLength) |
| TinyL.GenProgram | Compiler.c:317-333 | the code of a program with the counter starting at 1 (stated by GenProgramWellFormed) |
| TinyL.GenExprLength | Compiler.c:85-213 | an expression emits exactly one instruction per register it allocates |
| TinyL.GenStmtsLength | Compiler.c:215-315 | a list emits one instruction per allocated register plus one per statement |
| RoundTrip.ExprTextHead | Compiler.c:112-153 | the text of an expression starts with a character expr accepts and is never empty |
| RoundTrip.ParseExprSound | Compiler.c:112-213 | what EXPR returns is the expression whose text lies between the two cursor positions, and the token after it is not the terminator |
| RoundTrip.ParseExprComplete | Compiler.c:112-213 | the text of any expression, followed by a non-terminator, parses back to that expression and ends right after its text |
| RoundTrip.ParseExprIff | Compiler.c:112-213 | EXPR returns (e, j) exactly when e's text lies at the cursor, j is right after it, and the token at j is not the terminator |
| RoundTrip.ParseStmtSound | Compiler.c:215-291 | what STMT returns is the statement whose text lies between the cursor positions, followed by a non-terminator |
| RoundTrip.ParseStmtComplete | Compiler.c:215-291 | the text of any statement, followed by a non-terminator, parses back to that statement |
| RoundTrip.ParseStmtListSound | Compiler.c:308-315 | what STMTLIST returns is the list whose ';'-separated text lies between the cursor positions, followed by neither the terminator nor ';' |
| RoundTrip.ParseMoreStmtsSound | Compiler.c:293-306 | from a cursor that is not on the terminator, what MORESTMTS returns is the list whose ';'-prefixed text lies between the cursor positions, and the token it stops at is neither the terminator nor ';' |
| RoundTrip.ParseStmtListComplete | Compiler.c:293-315 | the text of any non-empty list, followed by neither the terminator nor ';', parses back to that list |
| RoundTrip.ParseMoreStmtsComplete | Compiler.c:293-306 | the text of any statement sequence after the first, followed by neither the terminator nor ';', parses back to that sequence and stops right after it |
| RoundTrip.ParseProgramIff | Compiler.c:317-330 | PROGRAM accepts p exactly when p is non-empty and the buffer begins with p's text followed by '!' |
| RoundTrip.ParseProgramIgnoresSuffix | Compiler.c:321-329 | anything after an accepted program's '!' changes nothing |
| RoundTrip.ParseProgramNeedsBang | Compiler.c:321-324 | a buffer without '!' is rejected |
| Compiler.Parser.constructor | Compiler.c:54-55 | the cursor starts at the first token, regnum at 1, the output empty |
| Compiler.Parser.NextToken | Compiler.c:350-366 | succeeds exactly when Advance does; moves the cursor unless it stands on the terminator |
| Compiler.Parser.NextRegister | Compiler.c:368-371 | returns the counter and increments it, so registers are handed out consecutively and each is greater than all before it |
| Compiler.Parser.CodeGen | Compiler.c:335-348 | appends exactly one instruction to the output |
| Compiler.Parser.Digit | Compiler.c:85-97 | a digit emits LOADI(fresh register, value, EMPTY_FIELD) and advances; a non-digit fails with nothing emitted |
| Compiler.Parser.Var | Compiler.c:99-110 | succeeds exactly when VAR parses, returning the character code and advancing one position |
| Compiler.Parser.Expr | Compiler.c:112-153 | succeeds exactly when EXPR parses; it then has moved to the end of the expression, emitted exactly GenExpr for it, allocated Regs(e) registers, and returns the last one |
| Compiler.Parser.Operands | Compiler.c:174-184 | operator token, left operand, right operand, then a register allocated after both: emits exactly GenExpr of the operator node |
| Compiler.Parser.ArithExpr | Compiler.c:155-185 | succeeds exactly on + - * starting an expression that parses, with the output and registers of that expression |
| Compiler.Parser.LogicalExpr | Compiler.c:187-213 | succeeds exactly on & \| starting an expression that parses, with the output and registers of that expression |
| Compiler.Parser.Assign | Compiler.c:215-232 | succeeds exactly on VAR '=' EXPR; emits the expression's code followed by STORE(id, result register, 0) |
| Compiler.Parser.Read | Compiler.c:234-249 | succeeds exactly on '%' VAR; emits READ(id, 0, 0) and allocates no register |
| Compiler.Parser.Print | Compiler.c:251-266 | succeeds exactly on '$' VAR; emits WRITE(id, 0, 0) and allocates no register |
| Compiler.Parser.Stmt | Compiler.c:268-291 | succeeds exactly when STMT parses, with exactly that statement's code emitted |
| Compiler.Parser.StmtList | Compiler.c:308-315 | succeeds exactly when STMTLIST parses, with the code of all its statements in order |
| Compiler.Parser.MoreStmts | Compiler.c:293-306 | on ';' parses a list, otherwise succeeds consuming nothing; the code of the statements parsed |
| Compiler.Parser.Program | Compiler.c:317-330 | succeeds exactly when a statement list is followed by '!', which is not consumed; the output is that list's code |
| Compiler.Compile | Compiler.c:450-452 | on a buffer that parses the output is exactly GenProgram of the parsed program, which is well formed with registers 1..n; otherwise failure |
| DeadCode.Defines | Optimizer.c:155-167 | READ and WRITE define no demand; STORE defines its variable (type 1), every other instruction its field1 register (type 0) |
| DeadCode.AddIfAbsent | Optimizer.c:92-104 | the guarded insert adds d, removes nothing, changes nothing when d is already present, and otherwise leaves exactly one copy of d |
| DeadCode.AddUses | Optimizer.c:84-110 | storeInstrAsImportant, with the fall-through from the operators into STORE (its contents are stated by AddUsesContents) |
| DeadCode.Uses | Optimizer.c:84-110 | the demands an instruction's operands make: variables only for LOAD and WRITE, registers only for the operators and STORE |
| DeadCode.AddUsesContents | Optimizer.c:84-110 | storeInstrAsImportant adds exactly the demands the instruction's operands make (with the operator-to-STORE fall-through), removes none, changes no other count, and leaves each operand demand at its old count when it was pending and at exactly one copy otherwise |
| DeadCode.StepDemanded | Optimizer.c:129-137 | when an item asks for what a non-I/O instruction defines, the step keeps it, drops the first such item and adds the operands |
| DeadCode.AddIfAbsentCount | Optimizer.c:92-104 | the guarded insert changes the count of no other demand |
| DeadCode.RemoveFirst | Optimizer.c:45-61 | removing a present item shortens the list by one; removing an absent one changes nothing |
| DeadCode.FirstIndex | Optimizer.c:66-80 | the position findImportantItem stops at holds the item, and no earlier position does |
| DeadCode.RemoveFirstCount | Optimizer.c:45-61 | removal takes away exactly one occurrence of the item |
| DeadCode.RemoveFirstAt | Optimizer.c:45-61 | removal unlinks the item at the first matching position and keeps the order of the rest |
| DeadCode.Step | Optimizer.c:144-171 | READ and WRITE are kept; anything else is kept exactly when its defined demand is pending; a removed instruction leaves the demands unchanged; READ changes no demand; WRITE adds one demand for its variable even when one is pending |
| DeadCode.Sweep | Optimizer.c:144-175 | one decision per instruction, the last instruction visited first (its properties are the Liveness lemmas) |
| DeadCode.Keep | Optimizer.c:196 | one decision per instruction, for the sweep started from the tail with no pending items |
| DeadCode.Filter | Optimizer.c:205-206 | the instructions at the kept positions, never more than the code and only instructions of the code |
| DeadCode.Optimized | Optimizer.c:205-206 | the list main prints, never longer than its input |
| Liveness.SweepSnoc | Optimizer.c:174 | the sweep visits the last instruction first and continues with its predecessor |
| Liveness.SweepAppend | Optimizer.c:174 | sweeping a + b sweeps b and then a with the demands b left |
| Liveness.KeepAt | Optimizer.c:144-175 | the decision at k is the Step taken with the demands the later instructions left |
| Liveness.KeptIffDemanded | Optimizer.c:149-171 | READ and WRITE are always kept; anything else is kept iff its defined demand is pending when it is visited |
| Liveness.RemovedHasNoEffect | Optimizer.c:116-128 | a removed instruction neither consumes nor adds a demand |
| Liveness.KeptConsumesOne | Optimizer.c:129-137 | a kept non-I/O instruction removes its first matching demand and adds its operands' demands |
| Liveness.StepCounts | Optimizer.c:129-137 | a kept instruction lowers the count of its own demand by exactly one (unless it uses it), leaves the others, and makes its operands pending |
| Liveness.StepSources | Optimizer.c:129-137 | every demand after a step was pending before or comes from the instruction's operands |
| Liveness.StepRetains | Optimizer.c:144-171 | a step never drops a demand the instruction does not define |
| Liveness.DemandOrigin | Optimizer.c:144-175 | every demand left after a sweep was pending before it or is an operand of an instruction the sweep kept |
| Liveness.DemandPersists | Optimizer.c:144-175 | a demand no swept instruction defines survives the sweep |
| Liveness.PendingOrigin | Optimizer.c:144-175 | a demand pending before position k is an operand of some later instruction that is kept |
| Liveness.KeepSuffix | Optimizer.c:144-175 | the decisions for the instructions after k are those of sweeping that suffix alone from an empty list, since criticalCheck starts at the tail |
| Liveness.UnneededRemoved | Optimizer.c:113-140 | a non-I/O instruction whose result no later kept instruction reads is unlinked: removal cascades through instructions that only feed removed ones |
| Liveness.DeadStoreRemoved | Optimizer.c:155-170 | a STORE whose variable no later instruction reads is removed |
| Liveness.UseIsDemanded | Optimizer.c:129-137 | in well-formed code every register a kept instruction reads has its defining instruction kept |
| Liveness.FilterAppend | Optimizer.c:118-126 | unlinking works piecewise: filtering a + b is filtering a, then b |
| Liveness.FilterAllTrue | Optimizer.c:118-126 | when nothing is unlinked the list is unchanged |
| Liveness.SweepFilterIdempotent | Optimizer.c:113-175 | sweeping the survivors from the same demands keeps all of them and leaves the same demands |
| Liveness.OptimizeIdempotent | Optimizer.c:113-175 | a second run removes nothing: the output is a fixed point |
| Liveness.SweepKeepsIo | Optimizer.c:149-154 | every READ and WRITE survives the sweep |
| Liveness.FilterKeepsIo | Optimizer.c:118-126 | unlinking only non-I/O instructions leaves the reads and writes in order |
| Liveness.OptimizeKeepsIo | Optimizer.c:149-154 | the output performs exactly the input's reads and writes, in the same order |
| Liveness.KeptIndices | Optimizer.c:118-126 | the indices of the survivors, increasing |
| Liveness.FilterOrder | Optimizer.c:118-126 | the t-th survivor is the instruction at the t-th kept index, so survivors keep their relative order |
| Liveness.KeepClosed | Optimizer.c:129-137 | in well-formed code the kept instructions read only registers defined by kept instructions |
| Liveness.FirstDefinitionUnique | Optimizer.c:129-137 | in single-assignment code no later instruction redefines the first one's register |
| Liveness.FilterWellFormedAfter | Optimizer.c:118-126 | removing instructions that no kept instruction depends on keeps the code single-assignment |
| Liveness.OptimizePreservesWellFormed | Optimizer.c:113-175 | the optimizer maps well-formed code to well-formed code |
| Links.Chain | Optimizer.c:182 | links of the list as read: each instruction points to the next one and the last to NIL |
| Links.Walk | Optimizer.c:205-206 | the instructions met following next until NIL: empty exactly at NIL, and only instructions of the code |
| Links.NextKept | Optimizer.c:118-126 | the first kept position at or after m, or NIL |
| Links.ChainLinked | Optimizer.c:182 | the list as read is linked for "everything kept" |
| Links.UnlinkHead | Optimizer.c:118-120 | moving the head to its successor unlinks the first instruction |
| Links.UnlinkInner | Optimizer.c:121-126 | setting the predecessor's next to the removed instruction's next unlinks it |
| Links.WalkKept | Optimizer.c:205-206 | following next from the first kept position yields exactly the kept instructions in order |
| Optimizer.FirstIndexIs | Optimizer.c:71-77 | a first match at i is the position findImportantItem returns |
| Optimizer.InstrList.constructor | Optimizer.c:182 | the list as ReadInstructionList builds it: prev of k is k-1, next the chain, head 0, no important items |
| Optimizer.InstrList.InsertImportant | Optimizer.c:25-42 | the new item becomes the first of the list |
| Optimizer.InstrList.RemoveImportant | Optimizer.c:45-61 | the item unlinks and the rest keep their order |
| Optimizer.InstrList.FindImportantItem | Optimizer.c:66-80 | the first item with this value and type, or NIL when there is none |
| Optimizer.InstrList.InsertIfAbsent | Optimizer.c:92-104 | find, then insert only when absent |
| Optimizer.InstrList.StoreInstrAsImportant | Optimizer.c:84-110 | adds exactly the demands of AddUses, with the fall-through from the operators into STORE |
| Optimizer.InstrList.HandleDependant | Optimizer.c:113-140 | with no dependee the instruction is unlinked (head moves on, or the predecessor skips it), demands unchanged; otherwise the dependee is removed and the operands' demands added, links unchanged |
| Optimizer.InstrList.Visit | Optimizer.c:144-171 | one activation: the demands become Step's, and the instruction is unlinked exactly when Step drops it |
| Optimizer.InstrList.FindTail | Optimizer.c:190-193 | the walk along next from head ends at the last instruction |
| Optimizer.InstrList.CriticalCheck | Optimizer.c:144-175 | visiting from the tail along prev (read before unlinking) leaves the demands Sweep leaves and links that skip exactly the instructions Sweep drops |
| Optimizer.InstrList.ClearImportant | Optimizer.c:198-203 | leftover items are discarded |
| Optimizer.InstrList.Instructions | Optimizer.c:205-206 | the instructions reachable from head, in link order |
| Optimizer.Relinked | Optimizer.c:118-126 | after a visit the links skip exactly the dropped instructions |
| Optimizer.SweepStep | Optimizer.c:174 | visiting i turns the remaining sweep of code[..i+1] into that of code[..i] |
| Optimizer.Optimize | Optimizer.c:177-210 | empty input is an error; otherwise the printed list is exactly Optimized(code) |
| Pipeline.GenExprSilent | Compiler.c:112-213 | expression code performs no input or output |
| Pipeline.GenStmtIo | Compiler.c:215-266 | a statement's code performs exactly that statement's read or print |
| Pipeline.GenStmtsIo | Compiler.c:293-315 | a list's code performs exactly its reads and prints, in order |
| Pipeline.GenStmtsNonEmpty | Compiler.c:215-266 | every statement emits at least one instruction |
| Pipeline.CompileThenOptimize | Optimizer.c:144-175 | optimizing a compiled program gives well-formed code doing exactly the program's reads and prints, in order |
| Scenarios.SampleParses | Compiler.c:317-330 | "a=5;b=3;$a!" parses to its three statements |
| Scenarios.SampleCompiles | Compiler.c:215-266 | that program compiles to LOADI 1 5, STORE a 1, LOADI 2 3, STORE b 2, WRITE a |
| Scenarios.SampleSteps | Optimizer.c:144-171 | the activations on that code that keep an instruction |
| Scenarios.SampleDeadSteps | Optimizer.c:155-170 | the assignment to b finds no demand |
| Scenarios.SampleKeep | Optimizer.c:144-175 | the two instructions of b=3 are dropped, the rest kept |
| Scenarios.SampleOptimized | Optimizer.c:205-206 | the output is LOADI 1 5, STORE a 1, WRITE a |
| Scenarios.Rejected | Compiler.c:215-330 | a missing '!', an empty list, an infix operator and a missing '=' are rejected |
| Scenarios.RereadSteps | Optimizer.c:149-150 | READ neither discharges the pending demand for its variable nor adds one |
| Scenarios.RereadParses | Compiler.c:317-333 | "a=5;%a;$a!" parses to an assignment, a read and a print of a |
| Scenarios.RereadCompiles | Compiler.c:215-266 | that program compiles to LOADI 1 5, STORE a 1, READ a, WRITE a |
| Scenarios.RereadKept | Optimizer.c:149-150 | in "a=5;%a;$a!" the store that the read overwrites is still kept |
| Scenarios.PrintSteps | Optimizer.c:151-154 | a print keeps its WRITE and adds a demand for its variable even when one is already pending |
| Scenarios.PrintedTwiceParses | Compiler.c:317-333 | "a=1;a=2;$a;$a!" parses to two assignments to a and two prints of it |
| Scenarios.PrintedTwiceCompiles | Compiler.c:215-266 | that program compiles to LOADI 1 1, STORE a 1, LOADI 2 2, STORE a 2, WRITE a, WRITE a |
| Scenarios.WritesNotMerged | Optimizer.c:151-154 | two prints of one variable leave two demands for it |
| Scenarios.OverwritingStoreStep | Optimizer.c:155-170 | in "a=1;a=2;$a;$a!" the store of 2 consumes only one of the two demands for a |
| Scenarios.OverwrittenStoreStep | Optimizer.c:155-170 | the remaining demand for a keeps the overwritten store of 1 and asks for its register |
| Scenarios.ConstantSteps | Optimizer.c:155-170 | both constants meet the demand for their register and add nothing |
| Scenarios.PrintedTwiceLate | Optimizer.c:144-175 | sweeping the two prints and the store of 2 keeps all three and leaves a demand for register 2 and one for a |
| Scenarios.PrintedTwiceEarly | Optimizer.c:144-175 | that leftover demand for a keeps the store of 1 and its constant, and nothing is left over |
| Scenarios.PrintedTwiceKept | Optimizer.c:144-175 | in "a=1;a=2;$a;$a!" every instruction is kept, the overwritten store of 1 included |

## Left out

- read_input (Compiler.c:395-421), Compiler.c's main (file opening, the banner, argument checks) and the token echo of next_token are input/output. The parser takes the whitespace-free buffer as a `seq<char>`.
- ERROR and exit are modelled as failure results: `ok == false` in `Parser` and `None` from `Compile` and `Optimize`. The WARNING of `to_digit` (Compiler.c:384) does not stop the run: the C code returns 0 and carries on, and `Parsing.ToDigit` returns 0 too; only the message is left out. No parse path reaches it, since `digit()` calls `to_digit` only after `is_digit` holds.
- PrintInstruction, ReadInstructionList, PrintInstructionList and DestroyInstructionList are in InstrUtils, which is not part of this model. Instead, `Parser.CodeGen` appends to a sequence, `InstrList` is built from a sequence, and `Instructions` returns the printed list as one.
- malloc and free are not modelled. The use of `instr->prev` after `free(instr)` (Optimizer.c:128, 174) is modelled by reading the predecessor before the visit.
- The missing update of `next->prev` on unlinking (Optimizer.c:121-126) is reproduced: `prev` is never written. The backward walk therefore still visits every original instruction.
- Compiler.Parser.NextRegister: regnum is an unbounded integer, so the C `int` overflow after 2^31 - 1 registers is not modelled.
- Compiler.Parser.Operands is not a C function. It is the tail that arith_expr and logical_expr share, factored out once.
- Optimizer.InstrList.HandleDependant: the unused `type` parameter is dropped. The dependee is passed as its position in the item list.
- Optimizer.InstrList.CriticalCheck: the tail recursion is written as a loop over indices, which visits the same sequence of instructions.
- The instruction fields are unbounded integers, and the C `char` type field of an item is the two-valued `Kind`.
