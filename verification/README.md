# rvcc in Dafny

rvcc is a small C compiler. It reads tokens once and emits an intermediate language (IL) of numbered registers and a
push stack while it reads; a generator then sizes the stack frames, computes the length of every operation's code,
emits RISC-V or ARM instructions that rely on those lengths, and wraps them in an ELF file. This project models that
middle part and proves that a program's meaning survives it.

Layers, from the source text down; each is proved against a specification that does not mention the one below it.

1. **Reading.** `ParserState.Parser` is the parser: a class with the IL list, the block table and the stack of switch
   exits, with loops that emit and back-patch. `Grammar` says which token sequences are constructs and `Compile` which
   IL belongs to a construct; every method is proved to accept exactly the grammar and to append exactly that IL.
   `Spelling` and `StmtSpelling` write expressions, statements and whole function bodies as tokens, with a token table
   of their own, and prove that reading them gives them back with the tables they declare; `Accepted` is the converse:
   nothing else is read. `Lookups` says that names find the first entry of a table.
2. **Meaning.** `Levels` gives a chain of operands its value level by level: products, then sums, shifts and bitwise
   operators, then comparisons, then connectives, each from left to right. `Semantics` is the meaning of expressions;
   `StmtSemantics` is a big-step meaning of statements in which a block has its own names and its locals start with
   whatever memory holds. `ExprCorrect` and `Flow` prove that the IL computes them, `ScopedCode` that names are looked
   up in the block they stand in. The meaning comes with two sets of rules for pointers, side by side: those of the
   language, by the type of what an lvalue denotes (`CTypes`), and those the compiler follows. `Uses` and `Scaling`
   say where they are the same, and `TypedCode` carries the language's meaning to the code there; `Declarations` is
   about the sizes initialisers store.
3. **IL as a whole.** `Linked` proves every jump well linked and reconstructs scopes from block markers; `Tables` and
   `Scoping` relate the tables while parsing to the finished ones and say when exactly parser and generator mean the
   same variable; `Frame`, `StackPointer` and `Calls` are about stack frames, the stack pointer along every path, and
   the call protocol of the IL machine (`IlMachine`).
4. **Code.** `Codegen.Generator` is the two-pass generator. `RiscvEncode` and `ArmEncode` hold the encoders,
   `RiscvIsa` and `ArmIsa` independent decoders and executors that follow the RISC-V Unprivileged ISA (RV32I, sections
   2.2 to 2.6, and MUL of the M extension) and the ARMv7-A/R Architecture Reference Manual (sections A5.2.4 and A8.8).
   `RiscvSim` and `ArmSim` prove that the emitted code simulates the IL machine, `Reach` when emission can fail at
   all. `Zones` and `EndToEnd` carry a statement's meaning through all layers to the IL machine, `Processors` to the
   two processors, and `CompiledFunctions` does it for a function that is called; `Recursion` closes the circle for
   calls inside calls, `Accesses` is about statements that use variables by name only, and `BothBackends` compares the
   two processors. `Bits` says bit by bit what the operations on words are.
5. **Numbers and files.** `Numbers` is the run-time library's number formatting against the compiler's own number
   reading, `Numerals` reading against positional notation. `Elf.Writer` is the file layout; `Loader` reads the file
   as the System V ABI says, everything through the header. `DataAddresses` follows literals and globals from the
   generator's addresses to their bytes in the loaded file, `Elements` the elements of arrays.

Memory is a map of all 2^32 addresses to bytes, words are 32 bits wide and wrap, and the host's arithmetic in the
encoders is modelled with its right shift arithmetic. Source errors and null pointers are a failed result (`None`, or
`ok == false`). A statement that reads pushed values or writes what its callers hold has no meaning: which bytes may
be read and written in each block is part of the surroundings (`Semantics.Access`), and the end-to-end theorems fix it
as all bytes but those.

## What the proofs found

The code was modelled as it is. Where a property one would expect is false, the exact condition is proved.

* A last `switch` clause that falls off its end runs into the comparisons again, with what register 1 holds by then.
  If no clause's code writes register 1 that is the switch value, and control comes back to the same clause
  (`Flow.SwitchReenters`); `switch (1) { case 1: }` never ends (`Flow.FallOffLoops`). If the last statement is an
  assignment or an initialised declaration it is the value stored, and control leaves the switch there if and only if
  that is no case value and there is no default (`Flow.SwitchLeavesIff`). Behind a call it is what the callee leaves
  there.
* Pointers are scaled by their variable's declaration, not by the type of what its indexes lead to. With `int *p` the
  statement `p[0] += 1;` adds four (`Scaling.ElementIncremented`); statements add the right amount if and only if
  `Scaling.AmountFits` holds (`Scaling.UpdateAgreesIff`): no pointers are left to follow and the variable is no
  pointer or one to bytes, or just one is left, or the declared type is as large as a pointer. For a parameter `char
  *q[]` the statement `q++;` moves it by one byte (`Scaling.PointerToPointersBumped`).
* `++` and `--` in an expression always move a pointer by one byte (`Scaling.PointerBumped`): right for numbers and
  pointers to bytes and for nothing else (`Scaling.BumpAgreesIff`).
* A `+` behind an element of an array, or behind one reached through a pointer, is taken for pointer arithmetic: with
  `int a[10]` the value of `a[0] + 1` is that of `a[0]` and four (`Scaling.ElementPlusOne`, the condition is
  `Scaling.PlusFitsIff`). Behind a pointer the plus takes the next operand only, so `p + a * b` is read as `(p + a) *
  b` (`Declarations.PlusBindsFirst`).
* An array of pointers is taken for a pointer: it has the space of one (`Elements.SpaceIff`), and `names[1]` with
  `char *names[4]` is the second byte of what the first pointer points to (`Scaling.PointerSelected`). Indexing is
  right if and only if `Scaling.IndexesFit` holds: one index behind a plain array or pointer, or indexes of a pointer
  to pointers (`Scaling.IndexesFitIff`).
* The initialisers of a declaration all store as many bytes as its first variable needs. In `char c = 1, *p = q;` p
  gets one byte of q (`Declarations.PointerInitialised`). The size is right if and only if both variables are
  pointers, or neither is, or the type is as large as a pointer (`Declarations.DeclarationSizes`).
* The frame size check (at most 2047 bytes) is made for each block alone, so nested blocks can put a local more than
  2048 bytes below the frame pointer. The RISC-V backend stops with an error exactly there, the ARM backend does not
  (`BothReach.DeepLocal`, `BothReach.NestedTooDeep`).
* A one-byte parameter behind another parameter destroys it, because parameters are stored as whole words
  (`Calls.ParamsReadableIff`).
* Parser and generator resolve names on different tables and in different orders. A global that the parser found is
  the generator's choice too; a local or parameter is if and only if there is in the end no global of its name and no
  nearer block declares the name later (`Scoping.LookupAgreesIff`). In `{ int x; { x = 1; int x; } }` the assignment
  goes to the inner x (`Scoping.DeclaredLater`).
* On ARM `!x` is right exactly if x is 0 or 1 (`ArmSim.NotAgrees`), and shifts agree with RISC-V exactly if the
  count's low byte is below 32 or the result is zero anyway (`ArmSim.ShiftAgrees`).
* The byte load sign-extends on RISC-V and zero-extends on ARM; they agree if and only if the byte is below 128
  (`Words.LoadByteSame`, `BothBackends.ReadSameIff`).
* The unpadded decimal text of v reads back as v exactly if v > -1000000000: ten digits leave no place for the sign
  (`Numbers.DecimalRoundTripIff`).
* The upper-case prefix `0X` is known where a constant is read and nowhere else: in an expression `0X10` is 0
  (`Numerals.UpperPrefixReads`).
* Printed in a width, a number keeps its text if and only if the text fits the width and is not that of zero between
  blanks, which loses its only digit (`Numerals.WidthKeepsIff`).
* `break` out of a block with locals leaves their space reserved; the stack pointer then only lies lower than needed,
  which is harmless for the frame (`StackPointer.FrameSafe`), but a loop around it needs stack for every round. The
  end-to-end theorem therefore asks for as much stack as blocks are entered (`EndToEnd.Enough`).
* The unchecked range of JAL suffices because the code fits its buffer of 2^20 bytes (`Placement.DistanceFits`).
* `&&` and `||` evaluate both sides and are bitwise, as TODO.txt admits; they are the logical connectives on truth
  values (`Words.LogicalOnTruthValues`).
* Commas between and behind arguments are optional, and `++` or `--` in front of a constant or a function is read and
  forgotten; apart from this only spellings are accepted (`Accepted.StmtAccepted`). A dereference `*x` in an
  expression is always refused, although the code has a branch for it. The model does the same.

## Model

| member | source | states |
|---|---|---|
| Spelling.ExprBack | src/parser.c:277-571 | an expression tree written out as tokens, in any surroundings that cannot continue it, is read back as the same tree |
| Spelling.SpellingUnique | src/parser.c:459-571 | two trees with the same spelling are equal: the grammar is unambiguous |
| Spelling.OperandBack | src/parser.c:277-406 | the same for operands: signs, `!`, brackets, prefix and postfix operators, indexes, pointer arithmetic, calls |
| Spelling.NumberBack | src/parser.c:184-229 | the decimal text of every number but the least, behind a minus token if it is negative, is read as that number |
| Spelling.NumBack | src/parser.c:184-229 | a number by its digits, a character or a named constant, signed or not, is read as that number with its spelling |
| StmtSpelling.StmtBack | src/parser.c:897-1255 | a statement that fits its scope, written out as tokens anywhere and not followed by an `else` it could take, is read back as itself, and the tables behind it are those it declares |
| StmtSpelling.StmtSpellingUnique | src/parser.c:897-1255 | no two statements that fit have one spelling |
| StmtSpelling.FunctionBack | src/parser.c:1257-1267 | a function body, brace to brace, is read back, and its block is the next entry of the table |
| StmtSpelling.AssignBack | src/parser.c:803-895 | the same for assignments: `=`, `++`, `--`, `+=`, `-=`, `|=`, `&=` by their own tokens, and calls through an lvalue |
| StmtSpelling.DeclareBack | src/parser.c:1177-1221 | the same for declarations: every declarator and initialiser in order, each name in the tables before its initialiser |
| StmtSpelling.PartBack | src/parser.c:98-133 | the same for a declarator: its star, its name and its array part, whose length is the constant written |
| StmtSpelling.ForHeadBack | src/parser.c:1070-1131 | the same for the three parts of a `for`, any of which may be missing |
| StmtSpelling.LabelBack | src/parser.c:1007-1024 | a case label by number, character or named constant has its value |
| StmtSpelling.ClausesBack | src/parser.c:1005-1032 | the clauses of a switch are read back with their labels, in order |
| Accepted.StmtAccepted | src/parser.c:897-1255 | the converse: a statement that is accepted fits its scope, leaves the tables it declares, and is its spelling but for commas behind arguments and for `++` and `--` in front of constants and functions |
| Accepted.FunctionAccepted | src/parser.c:1257-1267 | the same for function bodies |
| Accepted.ExprAccepted | src/parser.c:459-571 | the same for expressions |
| Accepted.OperandAccepted | src/parser.c:277-406 | the same for operands |
| Accepted.AssignAccepted | src/parser.c:803-895 | the same for assignments |
| Accepted.DeclareAccepted | src/parser.c:1177-1221 | the same for declarations |
| Accepted.ClausesAccepted | src/parser.c:1005-1032 | the same for the clauses of a switch |
| Lookups.TypeFirst | src/globals.c:51-58 | a type is the first of the table with the name |
| Lookups.VarFirst | src/globals.c:167-197 | so is a variable of one block, of the parameters or of the globals |
| Lookups.FunctionFirst | src/globals.c:149-156 | so is a function |
| Lookups.ConstantFirst | src/globals.c:140-147 | so is a named constant |
| ParserState.Parser.ReadExpression | src/parser.c:459-571 | the shunting-yard reader succeeds exactly on expressions and appends the code of their tree, which computes the value taken level by level; its operator stack stays inside ten entries |
| ParserState.Parser.ReadChain | src/parser.c:486-570 | the reduce loop over a chain of three or more operands reads exactly the chain and emits its code |
| ParserState.Parser.ReduceStack | src/parser.c:490-521 | reducing pops exactly the operators that bind at least as tightly as the coming one and emits their applications |
| ParserState.Parser.ReadTerm | src/parser.c:486-533 | after each operator the stack is still strictly increasing in priority and has at most four entries |
| ParserState.Parser.UnwindStack | src/parser.c:536-568 | the remaining operators are applied from the top; the error after the loop is never reached |
| ParserState.Parser.ReadOperand | src/parser.c:277-406 | succeeds exactly on operands, with their code; a minus needs a number, a name or a bracket behind it |
| ParserState.Parser.ReadNamed | src/parser.c:347-405 | constants first, then variables, then functions; all registers below are saved around a call |
| ParserState.Parser.ReadLValue | src/parser.c:605-699 | an lvalue's address code, and the size and reference flag the caller goes on with |
| ParserState.Parser.ReadSuffix | src/parser.c:701-800 | pointer arithmetic, prefix and postfix updates, or a plain read |
| ParserState.Parser.ReadArgs | src/parser.c:573-581 | arguments go to registers 0, 1, ... in order |
| ParserState.Parser.ReadPointerCall | src/parser.c:243-273 | a call through a pointer saves the lower registers and the pointer, and takes it back into the last register |
| ParserState.Parser.ReadAssignment | src/parser.c:803-895 | succeeds exactly on assignments, updates and calls through an lvalue, with their code; which tokens those are is `StmtSpelling.AssignBack` and `Accepted.AssignAccepted` |
| ParserState.Parser.ReadDeclaration | src/parser.c:1177-1221 | the declared names enter the block one by one, before their initialisers are read |
| ParserState.Parser.ReadDeclarator | src/parser.c:98-133 | the variable a declarator declares, or an error |
| ParserState.Parser.Patch | src/parser.c:924-956 | patching a jump changes that instruction's target and nothing else |
| ParserState.Parser.ReadIf | src/parser.c:924-958 | the code of if and if-else with both jumps patched to their labels |
| ParserState.Parser.ReadWhile | src/parser.c:960-983 | the code of while with the exit jump patched |
| ParserState.Parser.ReadFor | src/parser.c:1070-1131 | the code of for: test, increment and body in that order, all four jumps right |
| ParserState.Parser.ReadDo | src/parser.c:1133-1151 | the code of do-while |
| ParserState.Parser.ReadSwitch | src/parser.c:985-1063 | the code of switch, and the stack of exits is as before |
| ParserState.Parser.ReadClauses | src/parser.c:1005-1032 | the recorded case values and label places are those of the clauses read; the last default wins |
| ParserState.Parser.EmitChecks | src/parser.c:1038-1054 | one comparison per case in order, then the jump to the default label if there is one |
| ParserState.Parser.ReadBreak | src/parser.c:1065-1068 | a jump to the innermost switch's exit jump, and whatever statement follows is read with it |
| ParserState.Parser.ReadReturn | src/parser.c:912-922 | the value, if any, in register 0 and a return from the block's function |
| ParserState.Parser.ReadBlock | src/parser.c:1240-1255 | a new block under its parent, its markers around its statements |
| ParserState.Parser.ReadStatement | src/parser.c:897-1238 | succeeds exactly on statements, appends their code, leaves the table they declare and the stack of exits unchanged; which tokens those are is `StmtSpelling.StmtBack` and `Accepted.StmtAccepted` |
| ParserState.Parser.ReadFunctionBody | src/parser.c:1257-1267 | a function body's block and exit point, and where the exit point is |
| Semantics.Root | src/parser.c:408-421 | where the tree has its root: at the rightmost operator of least priority; that this tree has the value taken level by level is `ExprCorrect.TreeIsLevels` |
| Levels.LevelsFinish | src/parser.c:408-421 | every operator is on one of the four levels, so one value is left behind the last |
| ExprCorrect.TreeIsLevels | src/parser.c:408-421 | the tree has the value taken level by level: products of operands, sums, shifts and bitwise operators of products, comparisons of sums, connectives of comparisons, each from the left |
| ExprCorrect.ExprTree | src/parser.c:408-421 | so an expression means its tree |
| ExprCorrect.TreeStep | src/parser.c:490-521 | applying an operator to its neighbours, once its surroundings do not bind tighter, keeps the value of the whole tree |
| ExprCorrect.ReducedIncreasing | src/parser.c:490-521 | what stays on the operator stack and the coming operator are strictly increasing in priority |
| ExprCorrect.StackBounded | src/parser.c:461-462 | a strictly increasing stack has at most four of the ten entries |
| ExprCorrect.ReduceRun | src/parser.c:490-521 | the reducing code keeps the value of every tree that goes on with the coming operator |
| ExprCorrect.UnwindRun | src/parser.c:536-568 | the unwinding code leaves the value of the whole tree in the result register and takes all values off the stack |
| ExprCorrect.ExprRun | src/parser.c:459-571 | running an expression's code leaves its tree's value in register p, the memory its meaning gives, the push stack as before and all registers below p unchanged |
| ExprCorrect.CodeComputes | src/parser.c:459-571 | the code of an expression, run, leaves the value taken level by level over its operands' values |
| ExprCorrect.OperandRun | src/parser.c:277-406 | the same for operands |
| ExprCorrect.ArgsRun | src/parser.c:573-581 | when the call comes register k holds argument k, whatever calls the later arguments contain |
| ExprCorrect.CallRun | src/parser.c:380-395 | a call in an expression leaves its result in the given register and all lower registers and the stack as before |
| ExprCorrect.PointerCallRun | src/parser.c:243-273 | the same for calls through a pointer, which leave seven registers for arguments |
| ExprCorrect.LValueRun | src/parser.c:605-699 | an lvalue's code leaves its address |
| ExprCorrect.SuffixRun | src/parser.c:701-800 | prefix updates give the new value, postfix updates the old one, both store the new one, by the compiler's rules for pointers |
| Scaling.IndexesFitIff | src/parser.c:623-664 | for which declarations and numbers of indexes the code follows pointers and counts in sizes as the language does at every index |
| Scaling.SizeFitsIff | src/parser.c:617-630 | when the size read and written is that of what the lvalue denotes |
| Scaling.AmountFitsIff | src/parser.c:847-853 | when an update's amount is the one its type asks for |
| Scaling.BumpFitsIff | src/parser.c:742-746 | when `++` and `--` in an expression add the right amount |
| Scaling.PlusFitsIff | src/parser.c:702-731 | when a plus behind an lvalue starts from the right value and counts in the right size |
| Scaling.AdvanceAgreesIff | src/parser.c:647-661 | two element sizes lead to the same places for all indexes if and only if they are the same |
| Scaling.UpdateAgreesIff | src/parser.c:847-893 | whatever the variable holds, `x++;` and `x--;` store what they mean if and only if the amount is right |
| Scaling.BumpAgreesIff | src/parser.c:735-790 | so do `x++`, `++x`, `x--` and `--x` in an expression |
| Scaling.ExprTyped | src/parser.c:459-571 | where all uses of variables meet these conditions, an expression means by the language's rules what it means by the compiler's |
| Scaling.AssignTyped | src/parser.c:803-895 | the same for assignments |
| Scaling.StmtTyped | src/parser.c:897-1255 | the same for statements, blocks and initialisers included |
| Scaling.ElementIncremented | src/parser.c:849-853 | with `int *p` the code of `p[0] += 1;` adds four to the element |
| Scaling.PointerBumped | src/parser.c:742-746 | with `int *p` the code of `p++` in an expression moves p by one byte |
| Scaling.PointerToPointersBumped | src/parser.c:849-853 | with `char *q[]` the code of `q++;` moves q by one byte |
| Scaling.ElementPlusOne | src/parser.c:703-731 | with `int a[10]` the code of `a[0] + 1` gives the element and four |
| Scaling.PointerSelected | src/parser.c:633-664 | with `char *names[4]` the code of `names[1]` leads to the second byte of what the first pointer points to |
| Uses.StmtSame | src/parser.c:897-1255 | surroundings that treat every use of a variable in a statement alike give it the same outcome |
| TypedCode.OperandRunTyped | src/parser.c:277-406 | the code of an operand that meets the conditions, suffixes included, computes its value by the language's rules |
| TypedCode.ExprRunTyped | src/parser.c:459-571 | the same for expressions |
| TypedCode.AssignRunTyped | src/parser.c:803-895 | the same for assignments: the code stores what the language says |
| TypedCode.StmtGoesTyped | src/parser.c:897-1255 | the same for statements and their outcomes |
| TypedCode.StatementRunsTyped | src/codegen.c:92-384 | the same down to the IL machine |
| Declarations.DeclarationSizes | src/parser.c:1177-1221 | every initialiser stores the size of the declaration's first variable; it is its own variable's if and only if both are pointers, neither is, or the type is as large as a pointer |
| Declarations.PointerInitialised | src/parser.c:1177-1221 | in `char c = 1, *p = q;` one byte is stored into p |
| Declarations.PlusBindsFirst | src/parser.c:703-731 | behind a pointer `p + a * b` is read as `(p + a) * b` |
| Words.LogicalOnTruthValues | TODO.txt:1 | the eager bitwise operators are and, or on operands 0 and 1 |
| Bits.AndOrWord | src/arch/riscv.c:633-656 | `&` and `|` on every bit |
| Bits.ShiftWord | src/arch/riscv.c:657-662 | shifts move every bit and fill with zeros |
| Bits.BitsDetermine | src/arch/riscv.c:648-671 | words with the same bits are the same |
| Bits.SignedIs | src/arch/riscv.c:603-631 | comparisons read words in two's complement |
| StmtSemantics.DepartsNotNormal | src/parser.c:1030 | a statement that ends in break or return never ends normally |
| Flow.StmtGoes | src/parser.c:897-1255 | the code of a statement, names looked up in the block in force at each index, takes every run from its first index to the place its structured outcome names: behind it, the switch's exit jump, or the function's exit, with the memory and result the meaning gives |
| Flow.CompoundGoes | src/parser.c:1240-1255 | the same for a block, whose names are its own and whose locals start with what memory holds |
| ScopedCode.StmtScoped | src/codegen.c:325-346 | over a statement's code, every name stands where the block in force is the one the name was read in |
| Flow.IfGoes | src/parser.c:924-958 | the same for if |
| Flow.WhileGoes | src/parser.c:960-983 | the same for while |
| Flow.ForGoes | src/parser.c:1070-1131 | the same for for |
| Flow.DoGoes | src/parser.c:1133-1151 | the same for do-while |
| Flow.SwitchGoes | src/parser.c:985-1063 | the same for switch with fall-through, default and break, provided the last clause does not fall off its end |
| Flow.DispatchGoes | src/parser.c:1038-1060 | the comparisons go to the first clause with register 1's value, else to the default clause, else behind the switch |
| Flow.ClausesGo | src/parser.c:1005-1032 | from any clause on, control falls through to the end or to the exit jump |
| Flow.FallOffDispatches | src/parser.c:1030-1060 | from the comparisons on, control leaves the switch if and only if register 1 holds no case value and there is no default, else it enters the clause selected |
| Flow.FallOffQuiet | src/parser.c:1030-1060 | off clauses whose code does not write register 1, the comparisons see the value by which the clause was selected |
| Flow.FallOffStored | src/parser.c:1030-1060 | off a last clause that ends in an assignment or an initialised declaration, they see the value stored last |
| Flow.SwitchReenters | src/parser.c:985-1063 | a switch that falls off clauses of the first kind comes back to the clause it entered, with the memory the clauses leave |
| Flow.SwitchLeavesIff | src/parser.c:985-1063 | a switch that falls off such a clause leaves if and only if the value stored selects no clause |
| Flow.FallOffLoops | src/parser.c:1030-1060 | a concrete switch whose meaning ends but whose code never does |
| Flow.ReturnGoes | src/parser.c:912-922 | a return leaves its value in register 0 and goes to the function's exit point |
| Flow.AssignRun | src/parser.c:803-895 | assignment code stores what the assignment means by the compiler's rules for pointers; `TypedCode.AssignRunTyped` has the language's |
| Linked.StmtLinked | src/parser.c:897-1255 | in any statement's code every jump goes to a label in it, or to the enclosing switch's exit jump, at the same push height and in the same block or one around it; markers nest; the block in force at every index is the one the parser was in |
| Linked.SwitchLinked | src/parser.c:985-1063 | the same for switch: breaks are linked to the exit jump and the exit jump to the label behind |
| Linked.BlockFits | src/parser.c:1240-1255 | between its markers a block is at its own level, around them at its parent's |
| Linked.BreakLinked | src/parser.c:1065-1068 | a break is linked to the switch's exit jump |
| Plain.ChainPlain | src/parser.c:486-570 | expression code pushes one value more than waiting operators and balances at the end |
| Tables.StmtTables | src/parser.c:897-1255 | reading a statement only adds blocks and locals, nests the statement in its block, and accepts no break outside a switch |
| Tables.FunctionTables | src/parser.c:1257-1267 | a function's body as read meets what the theorems about linked code need |
| Scoping.LookupAgreesIff | src/codegen.c:133-157 | the generator's lookup on the finished tables gives the declaration the parser found on the tables of the moment, always for a global, and for a local or parameter if and only if no global has the name in the end and no nearer block declares it later |
| Scoping.PlacesFind | src/globals.c:167-204 | the declarations compared are those the two searches give |
| Scoping.DeclaredLater | src/parser.c:1177-1221 | tables of a use before an inner declaration, on which parser and generator differ although no global has the name |
| Scoping.LookupAgrees | src/codegen.c:133-157 | if no name is declared twice among what is visible, the generator's lookup on the finished tables gives the variable the parser found on the tables of the moment |
| Scoping.ShadowedGlobal | src/globals.c:198-204 | if a local shadows a global, parser and generator resolve the name differently |
| Scoping.FindVisible | src/globals.c:167-204 | the search through blocks, parameters and globals finds the first visible declaration of the name |
| Frame.PlacedApart | src/codegen.c:35-44 | variables placed one behind the other do not overlap and fill exactly their total size |
| Frame.DepthGrows | src/codegen.c:25-53 | an inner block's frame reaches at least as deep as what it is in, in steps of 16 |
| Frame.FrameApart | src/codegen.c:4-53 | in every block all visible locals and parameters lie pairwise disjoint between the frame pointer and the block's depth |
| StackPointer.StepKeepsRoom | src/codegen.c:325-346 | no step raises the stack pointer by more than the needed room shrinks |
| StackPointer.PathKeepsRoom | src/codegen.c:325-346 | so along every path |
| StackPointer.FrameSafe | src/codegen.c:325-346 | along every path through a body, loops and breaks included, the stack pointer stays at or below the depth of the block in force and the values pushed in it |
| StackPointer.FunctionLevels | src/parser.c:1257-1267 | a function's body starts in its own block and control is outside any block behind it |
| StackPointer.FunctionSafe | src/codegen.c:4-53 | from the tokens of a function body: pushes never overlap a variable on any path, and the visible variables are disjoint |
| StackPointer.RunFollows | src/codegen.c:325-346 | a run of the IL machine in a body is such a path, and its stack pointer moves as along it |
| StackPointer.StatesSafe | src/codegen.c:325-346 | so in every state the machine reaches in a body without calls the stack pointer is at or below the frame of the block in force and the values pushed |
| StackPointer.ScopesUnder | src/parser.c:1240-1255 | every instruction of a statement is in its block or in one inside it |
| Calls.EnterSaves | src/arch/riscv.c:700-711 | the entry point saves the caller's frame pointer and return address above the new frame, and storing parameters leaves them alone |
| Calls.CallSitesDiffer | src/arch/riscv.c:401-472 | a return address belongs to one call only |
| Calls.CallReturns | src/arch/riscv.c:575-581 | a call, any body that keeps the frame pointer and the two saved words, and the exit point: control is behind the call, with the caller's stack and frame pointer whatever the stack pointer had become, and the result in the register the call names |
| Calls.ParamsReadableIff | src/codegen.c:358-364 | every parameter reads back as passed, for all values, if and only if no parameter but the first is a single byte |
| Calls.ByteDestroys | src/codegen.c:358-364 | a one-byte parameter behind another changes it, with the values that show it |
| Codegen.SizeVariable | src/globals.c:206-223 | the loop that adds up a variable's size gives the size its layout uses; that this is the space of its elements, and when not, is `Elements.ElementsFill` and `Elements.SpaceIff` |
| Codegen.Generator.SizeFunction | src/codegen.c:4-22 | the parameters are placed from the frame pointer down and the size rounded up to 16; succeeds exactly if that is at most 2047 |
| Codegen.Generator.SizeBlock | src/codegen.c:25-53 | sizing a block again sizes all blocks around it and only those, and returns the depth; succeeds exactly if all are small |
| Codegen.Generator.SizeFunctions | src/codegen.c:56-77 | all functions, blocks and globals are placed as their declarations say |
| Codegen.Generator.CalculateCodeLength | src/codegen.c:80-89 | the offset of every instruction is the sum of the predicted lengths before it |
| Codegen.Generator.Generate | src/codegen.c:92-384 | succeeds exactly if every length is known, every frame is small and every operation can be emitted; then the code at each instruction's predicted offset is that instruction's code in the block in force, and code and data meet at the predicted end |
| Codegen.WellUsedEmittable | src/codegen.c:92-384 | on sized tables neither backend stops at a program whose operations have a meaning and whose frames are at most 2048 bytes deep |
| Backend.LengthPredicted | src/arch/riscv.c:401-472 | the length the first pass predicts is the length the second pass emits, for every operation and both backends |
| RiscvBackend.LengthPredicted | src/arch/riscv.c:401-472 | the same for RISC-V |
| ArmBackend.LengthPredicted | src/arch/arm.c:295-366 | the same for ARM |
| Placement.OffsetsGrow | src/codegen.c:80-89 | offsets are multiples of four, grow, and stay within the code buffer |
| Placement.DistanceFits | src/codegen.c:170-204 | every distance between an instruction and a jump target is even and in JAL's range |
| RiscvReach.LowersIff | src/arch/riscv.c:119-147 | on sized tables a RISC-V operation is refused for an immediate exactly if it addresses a local more than 2048 bytes down |
| ArmReach.LowersIff | src/arch/arm.c:106-120 | the ARM counterpart: exactly if the distance rounded up to 256 is not eight bits shifted by an even amount |
| BothReach.ShallowEmitted | src/codegen.c:15-19 | with frames of at most 2048 bytes every operation that has a meaning is encodable on both backends: prologues, blocks and parameters always |
| BothReach.SameOperations | src/arch/arm.c:375-570 | both backends have code for the same operations |
| BothReach.LocalsNear | src/codegen.c:133-157 | whatever local a name resolves to is within reach if the block's depth is: 2048 bytes on RISC-V, 65280 on ARM |
| BothReach.DeepLocal | src/codegen.c:46-50 | between 2048 and 65280 bytes down only RISC-V refuses a local |
| BothReach.NestedTooDeep | src/codegen.c:46-50 | two nested blocks that pass the size check reach that far |
| Reach.LocalDepth | src/codegen.c:25-53 | a resolved local lies between the frame pointer and the depth of the block it is seen from |
| RiscvEncode.DecodeAssembled | src/arch/riscv.c:119-179 | decoding an assembled instruction gives it back, operands and immediate included |
| RiscvEncode.EncodeRFields | src/arch/riscv.c:119-122 | the R format: every field is where the ISA reads it |
| RiscvEncode.EncodeIFields | src/arch/riscv.c:124-134 | the I format, refused exactly outside -2048 to 2047 |
| RiscvEncode.EncodeSFields | src/arch/riscv.c:136-146 | the S format likewise |
| RiscvEncode.EncodeBFields | src/arch/riscv.c:148-161 | the B format, refused exactly outside -4096 to 4095 |
| RiscvEncode.EncodeJFields | src/arch/riscv.c:163-174 | the J format: every even offset within 2^20 comes back |
| RiscvEncode.EncodeUFields | src/arch/riscv.c:176-179 | the U format keeps the upper twenty bits |
| RiscvEncode.HiLo | src/arch/riscv.c:103-117 | upper and lower part together give every 32-bit value, and the lower part always fits ADDI |
| ArmIsa.ConditionsAreComparisons | src/arch/arm.c:62-81 | the conditions tested after CMP are signed 32-bit comparison |
| ArmEncode.EncodeOperand | src/arch/arm.c:106-120 | the loop that looks for a rotation ends and computes the operand specified |
| ArmEncode.OperandExists | src/arch/arm.c:106-120 | it succeeds exactly for eight bits shifted left by an even amount |
| ArmEncode.OperandExpands | src/arch/arm.c:106-120 | expanding the encoded operand as A5.2.4 of the ARM manual says gives the value back |
| ArmEncode.DecodeAssembled | src/arch/arm.c:96-256 | decoding an assembled instruction gives it back |
| ArmEncode.DecodeBranch | src/arch/arm.c:243-253 | branch offsets come back with the pipeline's eight bytes accounted for |
| ArmEncode.WideHalves | src/arch/arm.c:142-151 | MOVW and MOVT leave exactly every 32-bit value |
| ArmEncode.WideTruncates | src/arch/arm.c:142-151 | the wide encoders use the low sixteen bits of their operand only |
| ArmBackend.LocalAddrEncodable | src/arch/arm.c:393-397 | the two additions for a local's address can be encoded for every offset from -65280 to 255 |
| ArmBackend.FrameSizesEncodable | src/arch/arm.c:173-179 | multiples of 16 up to 4080 can be encoded |
| RiscvSim.StepSimulated | src/arch/riscv.c:474-711 | whenever the IL machine steps, the emitted RISC-V code reaches a related state |
| RiscvSim.RunSimulated | src/codegen.c:92-384 | every run of the IL machine is matched by a run of the processor: registers, memory, stack, frame and pc related |
| RiscvSim.SimCompare | src/arch/riscv.c:603-631 | the branch over two constants computes the comparison |
| RiscvSim.SimCondJump | src/arch/riscv.c:672-693 | near and far conditional jumps land on their target or on the next instruction |
| RiscvSim.SimTwoPart | src/arch/riscv.c:474-509 | two instructions build an absolute or pc-relative value |
| RiscvSim.SimEntry | src/arch/riscv.c:700-711 | the entry code saves, sets up the frame and stores the parameters as the IL machine does |
| RiscvSim.SimExitJump | src/arch/riscv.c:575-581 | the exit code restores stack and frame pointer and jumps to the saved return address |
| RiscvSim.SimAfterCall | src/codegen.c:181-204 | behind the jump the result moves to the call's register |
| ArmSim.StepSimulated | src/arch/arm.c:375-570 | the ARM counterpart, for operands on which ARM computes what the IL means |
| ArmSim.RunSimulated | src/codegen.c:92-384 | every such run is matched by a run of the ARM processor |
| ArmSim.SimCompare | src/arch/arm.c:497-503 | CMP and two conditional moves compute the comparison |
| ArmSim.SimCondJump | src/arch/arm.c:544-552 | conditional jumps land on their target or on the next instruction |
| ArmSim.SimLocal | src/arch/arm.c:393-397 | two additions give a local's address |
| ArmSim.SimEntry | src/arch/arm.c:559-570 | the entry code |
| ArmSim.SimExitJump | src/arch/arm.c:469-475 | the exit code |
| ArmSim.NotAgrees | src/arch/arm.c:520-542 | ARM's `!` is right if and only if the operand is 0 or 1 |
| ArmSim.ShiftAgrees | src/arch/arm.c:520-542 | the two processors' shifts agree if and only if the count's low byte is below 32 or the result is zero anyway |
| BothBackends.BothAgree | src/arch/arm.c:375-552 | on runs of portable operations, byte accesses included, both processors end with the same IL registers, memory and stack pointer |
| Words.LoadByteSame | src/arch/riscv.c:511-523 | sign-extending and zero-extending a byte give the same if and only if it is below 128 |
| BothBackends.ReadSameIff | src/arch/arm.c:405-417 | a read gives the same on both processors if and only if it is of a word or of such a byte |
| BothBackends.PortableRuns | src/arch/arm.c:375-552 | such a run is a run for either backend, whatever its layout |
| BothBackends.SizedForArm | src/codegen.c:4-53 | what sizing leaves meets what the ARM simulation needs |
| EndToEnd.NameIsDeclared | src/codegen.c:133-157 | what a name means in a block is the address of the declaration the parser found for it, whenever the generator keeps to it |
| EndToEnd.NameResolved | src/codegen.c:133-157 | wherever a name has a meaning the generator's lookup gives its address |
| EndToEnd.VariableClear | src/codegen.c:25-53 | in every block, an access to a visible local or parameter is clear of pushed values and of what callers hold |
| EndToEnd.AccessClear | src/codegen.c:159-168 | what has a meaning reads and writes neither pushed values nor, writing, what callers hold |
| EndToEnd.StepMatches | src/arch/riscv.c:563-573 | a step of IL on an abstract stack is a step of the IL machine, whose pushed values lie below the frame of the block in force |
| EndToEnd.StartMatches | src/codegen.c:325-333 | entering a block brings its locals into view as the bytes that are there |
| EndToEnd.EndMatches | src/codegen.c:335-346 | leaving it gives their bytes to the push region |
| EndToEnd.JumpLevel | src/parser.c:924-1151 | a jump, breaks included, goes to an index at the same push height, in the same block or one around it |
| EndToEnd.CallMatches | src/codegen.c:189-223 | a call whose callee keeps its part of the protocol is matched from the call to the instruction behind it |
| EndToEnd.RunMatches | src/codegen.c:92-384 | so for whole runs, blocks and calls included, and callers' saved words and pushed values stay |
| EndToEnd.StatesSafeInRun | src/codegen.c:325-346 | in every state of such a run the stack pointer is at or below the end of the frame of the block in force, less the values pushed |
| EndToEnd.ToldExists | src/codegen.c:325-333 | for every run there are bytes for the locals that come into view and values for the registers behind calls: those that are there |
| EndToEnd.CalleeUnique | src/codegen.c:189-223 | a call has at most one run to its callee's exit |
| EndToEnd.StatementRuns | src/codegen.c:92-384 | from a source statement's meaning to the IL machine: the code runs to where the statement's outcome says, with its memory and result, if callees keep their part |
| Processors.RiscvStatement | src/arch/riscv.c:474-711 | the same to the RISC-V processor |
| Processors.ArmStatement | src/arch/arm.c:375-570 | the same to the ARM processor, on operands on which it computes what the IL means |
| CompiledFunctions.FunctionParsed | src/parser.c:1257-1267 | what the parser accepts as a function, once its code and the finished tables are in place, meets what the next row asks |
| CompiledFunctions.FunctionKeeps | src/codegen.c:347-364 | a compiled function, called by name or through a pointer, keeps its part of the protocol, from the call to its exit point, and ends there with its body's memory and value |
| Recursion.MeantHappens | src/codegen.c:189-223 | by induction over the depth of nested calls: a call whose body, and whose inner calls, have meanings returns, keeps its part of the protocol and ends with what its body means |
| Recursion.StatementHappens | src/codegen.c:92-384 | a statement whose calls have meanings runs to its outcome on the IL machine, with nothing asked of the run |
| Recursion.RiscvHappens | src/arch/riscv.c:474-711 | the same on the RISC-V processor: nothing is asked but the meanings and enough stack |
| Recursion.ArmHappens | src/arch/arm.c:375-570 | the same on the ARM processor, on operands on which it computes what the IL means |
| Recursion.ActivationExists | src/codegen.c:347-364 | every call of a compiled function has an activation in which its body can be given a meaning, with what registers and memory hold |
| Recursion.LeafMeans | src/codegen.c:347-364 | a function without calls means what its body means |
| Accesses.LocalPermitted | src/codegen.c:25-53 | a visible local or parameter used by name is the program's to read and write |
| Accesses.GlobalPermitted | src/codegen.c:70-77 | so is a global, where the data ends below the stack |
| Accesses.ByNameMeans | src/parser.c:605-895 | a statement that uses variables by name only has the meaning it has when no byte is reserved |
| Accesses.CallFreeOk | src/codegen.c:92-384 | without calls nothing is asked of a run |
| Accesses.ByNameRuns | src/codegen.c:92-384 | a statement without calls that uses variables by name only runs to its outcome with nothing asked but enough stack |
| CompiledFunctions.EnterBelow | src/arch/riscv.c:700-711 | entering a function touches nothing at or above its caller's stack pointer |
| CompiledFunctions.NoBreak | src/parser.c:1065-1068 | without a break outside its switches a statement does not end in one |
| DataAddresses.GlobalsApart | src/codegen.c:70-77 | no byte of the data belongs to two globals |
| DataAddresses.LiteralFound | src/arch/riscv.c:474-479 | the address the code computes for a literal leads to its own bytes in the loaded file |
| DataAddresses.GlobalFound | src/codegen.c:133-157 | the address the code computes for a global leads to bytes in the loaded file that are that global's own, no other's and no literal's |
| DataAddresses.Build | src/rvcc.c:83-88 | generating and writing the file leave what the two rows above ask |
| Elements.PlaceIs | src/parser.c:650-664 | element i of an array begins i times its size behind the array, by the language's rules and by the compiler's |
| Elements.IndexedPlace | src/parser.c:623-664 | an array with an index denotes the element the index counts to |
| Elements.ElementsFill | src/globals.c:206-223 | the elements inside the bounds are together exactly the bytes of the variable |
| Elements.ElementsApart | src/globals.c:206-223 | no two elements have a byte in common |
| Elements.SpaceIff | src/globals.c:206-223 | an array has the space of its elements if and only if it is not one of several pointers |
| Elements.ScalarSpace | src/globals.c:206-223 | a variable that is no array has the space of what it denotes |
| Elements.LocalElement | src/codegen.c:35-53 | an element of a local array lies in the frame of the block, below the frame pointer, and none of its bytes is another visible variable's |
| Elements.GlobalElement | src/codegen.c:70-77 | every byte of an element of a global array is in the loaded file a byte of that global and of no other |
| Elements.ElementPermitted | src/codegen.c:25-53 | inside the bounds an element of a visible local or parameter is the program's to read and write |
| Numbers.ReadNumericParam | src/parser.c:184-229 | the loop over a number's text computes its value, or an error; the value is that of the decimal or hexadecimal notation by `Numerals.DenotedReads` |
| Numbers.ReadNumericConstant | src/parser.c:73-96 | the same for constants: case labels, array lengths and named constants |
| Numerals.DecimalReads | src/parser.c:184-229 | decimal digits are read, in an expression and as a constant, as the sum of the digits by their weights, cut to 32 bits, negated under a minus |
| Numerals.HexadecimalReads | src/parser.c:73-96 | the same for hexadecimal digits of either case behind `0x` |
| Numerals.UpperPrefixReads | src/parser.c:198-229 | behind `0X` a constant has its value and a number in an expression is 0 |
| Numerals.DenotedReads | src/parser.c:73-96 | both readers give the value a text denotes in positional notation |
| Numbers.DigitsInPlace | lib/rvclib.c:95-140 | subtracting weights without division writes the ten decimal digits into the buffer |
| Numbers.Render10InPlace | lib/rvclib.c:95-152 | the digits and the sign in the place of the last leading zero |
| Numbers.Render16InPlace | lib/rvclib.c:154-168 | the hexadecimal digits |
| Numbers.Format | lib/rvclib.c:170-247 | width, padding and prefix: the text in the buffer is the specified one |
| Numbers.DecimalRoundTrip | lib/rvclib.c:95-247 | what reading the unpadded decimal text of any number gives |
| Numbers.DecimalRoundTripIff | lib/rvclib.c:95-152 | it gives the number back if and only if the number is above -1000000000 |
| Numbers.HexRoundTrip | lib/rvclib.c:154-247 | for every 32-bit value the prefixed hexadecimal text, unpadded or padded with zeros to ten characters, reads back as the value |
| Numerals.DecimalConstant | src/parser.c:73-96 | the decimal text of every number from 0 to 2147483647, read as a constant, is that number |
| Numerals.HexadecimalParam | src/parser.c:184-229 | the prefixed hexadecimal text of every 32-bit value, read in an expression, is that value, negated under a minus |
| Numerals.WidthKeepsText | lib/rvclib.c:170-247 | in a width that is large enough a number keeps its text behind the padding; zero between blanks does not |
| Numerals.WidthKeepsIff | lib/rvclib.c:170-247 | the text printed ends in the number's text if and only if that fits the width and is not zero between blanks |
| Elf.IntBytesRead | src/elf.c:27-38 | four bytes written are the two's complement word, little end first |
| Elf.Writer.AddSymbol | src/elf.c:229-243 | a symbol's entry points at its name; earlier symbols stay |
| Elf.Writer.Align | src/elf.c:214-227 | data and names are padded to a multiple of four and otherwise kept |
| Elf.Writer.GenerateHeader | src/elf.c:70-113 | the header is the specified 21 words, by which `Loader` finds everything else |
| Elf.Writer.GenerateFooter | src/elf.c:115-212 | the section names and the six section headers as specified |
| Elf.Writer.Generate | src/elf.c:245-263 | the file is header, code, data, symbols, names and section headers in order |
| Elf.SectionLocated | src/elf.c:115-212 | for any buffers, the bytes a section header's offset and size name are exactly that section's, and its name is found |
| Elf.HeaderField | src/elf.c:70-113 | the header's fields read back as written, from 0x54 bytes |
| Elf.AddressesAgree | src/elf.c:104-112 | code and data lie in memory where their section headers say and the load segment puts them |
| Elf.SymbolNamed | src/elf.c:229-243 | symbol k's name offset finds its own NUL-terminated name, and its value is its address |
| Loader.Identified | src/elf.c:72-90 | the file is a 32-bit little-endian executable for its machine |
| Loader.Counted | src/elf.c:86-102 | the header says where the program header and the section headers are, how large and how many they are, and which section holds the names |
| Loader.OneSegment | src/elf.c:104-112 | the program header found by the header's own offset, entry size and count is the only one: loadable, readable, writable, executable, all of it in the file, and it begins at the entry point |
| Loader.Loaded | src/elf.c:104-112 | a loader that follows these puts the code at the entry point and the data behind it, byte for byte, and nothing else |
| Loader.SectionRead | src/elf.c:115-212 | every section header, found through the header, has its name, kind, flags, address, place, size, link and entry size |
| Loader.SectionNamed | src/elf.c:115-212 | every section's name is found through the section whose index the header gives |
| Loader.SymbolRead | src/elf.c:229-243 | symbol k, through the symbol table's entry size and linked strings, has its name, value and section |

## Left out

- The lexer, the preprocessor and source loading: the model starts from tokens.
- String literals, `sizeof`, struct members (`.` and `->`), typedefs, inline assembly and function-pointer
  declarators: the grammar of the model refuses them; they widen the type tables without touching the theorems.
- Top-level declarations and the order in which functions are read: a function's body is read with the tables given.
- File I/O, argument handling, `main`, log output: effects of the outside world.
- The program start, exit, system calls and generic operations: their lengths and emitted words are in the model,
  their effect is not, so runs are runs between them.
- Fixed capacities other than the code buffer and the operator stack: buffers and tables are unbounded.
- Symbols added during code generation: `Elf.Writer` takes any sequence of symbols.
- EndToEnd.StatementRuns: asks one thing of the run, that callees keep their part of the call protocol and give what
  the surroundings promise, and enough stack before it; `Recursion.StatementHappens` replaces the first by the
  callees' meanings. `Processors.RiscvStatement` and `Processors.ArmStatement` likewise, with `Recursion.RiscvHappens`
  and `Recursion.ArmHappens`.
- CompiledFunctions.FunctionKeeps: takes what inner calls give from the run; `Recursion.MeantHappens` takes it from
  their bodies.
- Recursion.MeantHappens: is about calls nested to a finite depth in bodies whose meaning is defined; a function's
  meaning is that of one activation, since its locals have other addresses and first bytes in every one.
- StackPointer.StatesSafe: is about runs without calls; `EndToEnd.StatesSafeInRun` is about runs with them.
- Accesses.ByNameRuns: is about RISC-V and about statements without indexes and pointers; what an index may reach
  depends on its value, and the permitted bytes are then part of the meaning.
- Scaling.UpdateAgreesIff: and `Scaling.BumpAgreesIff` are about addition and subtraction; `|=` and `&=` may hide a
  wrong amount.
- DataAddresses.Build: leaves out symbols added during code generation.
- EndToEnd.NameResolved: gives a name that is both a local and a global no meaning; `Scoping.LookupAgreesIff` says
  when parser and generator differ about one.
- Flow.FallOffDispatches: speaks of register 1; what it holds is said where no clause writes it and where the last
  clause ends in an assignment or an initialised declaration. Behind a call it is whatever the callee leaves.
- ParserState.Parser.ReadOperand: refuses string literals and `sizeof`, which the source reads.
- ParserState.Parser.ReadLValue: refuses the members `.` and `->`, which the source compiles.
- ParserState.Parser.ReadDeclarator: refuses function-pointer declarators, which the source reads.
- ParserState.Parser.ReadStatement: refuses inline assembly, which the source reads.
- ExprCorrect.SuffixRun: follows the compiler's rules for pointers; `TypedCode.OperandRunTyped` has the language's,
  where they are the same.
- Flow.AssignRun: likewise, with `TypedCode.AssignRunTyped`.
- ExprCorrect.ExprRun: takes the effect of a called function as given, apart from the registers and stack around the
  call.
- Flow.StmtGoes: is about statements whose meaning is defined for some bound on loop iterations; a diverging statement
  has none.
- Flow.SwitchGoes: needs a last clause that ends in break or return; `Flow.FallOffDispatches` is about the others.
- Calls.CallReturns: takes as given that the body keeps the frame pointer and the two saved words; for compiled bodies
  `CompiledFunctions.FunctionKeeps` proves it.
- Numbers.DecimalRoundTrip: leaves out the least 32-bit number, for which the rendering loop reads past its buffer.
- ArmSim.RunSimulated: takes runs on whose operands ARM agrees with the IL, the exact conditions being
  `ArmSim.NotAgrees` and `ArmSim.ShiftAgrees`; byte loads zero-extend, as `BothBackends.ReadSameIff` says.
- Spelling.ExprBack: is about operands whose number is the one their digits, character or name stand for; the least
  number has no decimal digits of its own (`Spelling.NumberSpelled`).
- StmtSpelling.StmtBack: is about statements whose `else` parts, trailing expressions and blocks fit what stands
  around them; `Accepted.StmtAccepted` says that no others are read.
- Accepted.StmtAccepted: takes numeric tokens that hold a decimal or `0x` hexadecimal number; the lexer lets others
  such as `1a` through, and the parser reads some number from them.
- Numerals.DecimalReads: is about digit strings; a text with other characters in it is read as some number, too.
- Elements.ElementPermitted: is about elements of one or four bytes, the sizes the code can read and write.
