# The mygo language: compiler, byte-code machine, parser and event loop

mygo is a small Go-like language. Its source text is cut into tokens behind a cached stream, a
back-tracking recursive-descent parser builds a tree, a compiler turns each function into
three-address code over byte-addressed stack slots, and a virtual machine runs that code. A
separate event loop runs tasks that several producers post. This project models these four parts
and proves what they do, for all inputs and all runs.

Every part that changes state step by step is a class or a method with a loop, proved against a
function; the theorems are about those functions.

| files | part |
|---|---|
| `Words`, `Vm`, `Instructions`, `Frames`, `CountedLoop` | bytes and words, the machine, what its instructions do, its calling discipline, loops in byte code |
| `Tokens`, `Ast`, `Lexer`, `LexerProofs`, `Scanner`, `TokenStream` | tokens, the scanners, the stream with its cache and saved states |
| `Grammar`, `Loose`, `ExprParser`, `ExprParserProofs`, `Precedence`, `ExprParsing` | expressions: grammar and ways to write it, parser function, its proofs, the operators by name, the parser on the stream |
| `StmtGrammar`, `StmtLoose`, `StmtParser`, `StmtParserProofs`, `StmtSound`, `StmtParsing` | the same for statements and files |
| `ExprCompiler`, `ExprCorrect`, `CallCorrect`, `Agreement`, `Scratch` | code for expressions, what it computes, the same for calls, when that is what is written, where it writes |
| `StmtCompiler`, `StmtCorrect`, `IfCode`, `Compiler`, `TypeTable` | statements and functions, their meaning, the code of nested statements and its labels, the compiler object, the type table |
| `Flat`, `FlatTree`, `FlatCover`, `BlockExact`, `FileCorrect`, `EndToEnd` | expressions as a list of operands and operators, exactly which blocks and files mean what is written, files of several functions, and the whole chain from text to memory |
| `EventLoop` | the task queue, any number of producers, one consuming loop |

## What the code does where one would expect something else

The model keeps each of these as the code has it.

- `compile_expr_ops` hands the machine the new operand first and the accumulated value second
  (`src/compiler.cpp:378-400` with `src/vm.cpp:101-107`), so a binary `-` or `/` is compiled with
  its operands swapped: `3 - 1` leaves -2. `ExprRuns` states exactly what the code computes;
  `PatternExact` says exactly which operator patterns come out as written (those without a
  binary `-` or `/`), and since `EveryTreeIsFlat` shows that there are no other arithmetic
  expressions, nothing is left over. `BlockExact` and `FileExact` say the same of blocks and files, `AsymmetricFileDiffers` and
  `WrongOutput` give files that do not do what is written, and `OneOperatorExact` gives the
  condition on the operands.
- The "not defined" test of `compile_assignment` (`src/compiler.cpp:296-305`) comes after `operator[]` has
  inserted the name, with size 0 at address 0. So the error is never reported, no byte is moved, and a later
  declaration of that name (an `emplace`) changes nothing: the first mention of a name decides
  for the whole function (`FirstMentionDecides`, `LostVariable`).
- Only a type's name is looked up, so a variable of a struct type written in place is of an unknown
  type (`StructInPlace`).
- A declaration reserves a slot and does not compile its initialiser. The meaning of a block
  (`StmtCorrect.Meaning`) speaks only of variables that have been assigned. A block of
  declarations, assignments and expressions over ints, one-argument prints, statements without
  code, and loops over such blocks is called straight.
- The frames of the machine tile its stack exactly as long as no `SetStackBottom` wraps around
  64 bits (`RunTiling`, both directions). Frame isolation also needs that no base lies so high that
  a 56-bit offset wraps around: `IsolationExact` gives the exact bound, `EscapingExample` a program
  that never wraps a `SetStackBottom` and changes its caller's byte.
- Compiling a file breaks off when a struct has a field of an unknown type (a null entry is
  dereferenced) or a global variable has an unknown type or none (an assertion). `WellTyped`
  is the exact condition on the names.
- The header of a `for` is not compiled, only its body, so the body runs exactly once
  (`LoopPrintsOnce`). The conditions of an `if` are not compiled either: the blocks of all branches
  and of the last `else` stand one after the other between one jump and one label (`IfBrackets`).
- A name, a string or a truth value as an operand has no code (`NotRead`), a comparison leaves its
  left operand (`ComparisonRuns`), `print` with several arguments shows the last (`CallRuns`),
  and arithmetic on float literals is int arithmetic on their words (`NegatedFloatRuns`).
- Compiled functions do not return, so a file's functions run one into the next, in one frame.
- A source that starts with a space or a tab does not parse (`LeadingSpace`): only spaces behind
  a token are skipped.
- Newlines between statements may be left out, except where a minus would go on with the
  expression before it or an expression would be another value of a `return`. A comma may stand
  after the last argument of a call, but not alone; commas between parameters may be left out.
- The first `Peek` at a position returns the token with unset locations, later ones the located one.
- The fixed tokens are tried in the order of their list, before symbols: `format` lexes as `for`, `mat`.
  A symbol that touches the end of the input is no token. False is spelled `flase`.
- `Function::parse` builds an error for a missing name and drops it; `For::parse` drops even
  fatal errors of its header parts; `Return::parse` takes any number of expressions.

## Model

| member | source | states |
|---|---|---|
| Words.ArithMeaning | src/vm.cpp:101-123 | the machine's int arithmetic has a result exactly where C++ defines one: sums, differences and products in range, quotients except by 0 and of the least int by -1; a quotient leaves a remainder smaller than the divisor and of the dividend's sign (section 7.6.5 of ISO/IEC 14882:2020) |
| Words.OneResult | src/vm.cpp:101-123 | and only one number is such a result |
| Words.TwosComplement | src/vm.h:159-163 | a signed word is its pattern modulo 2^32 |
| Words.LittleEndian | src/vm.cpp:83-87 | the lowest byte of a word comes first |
| Words.Put32 | src/vm.cpp:83-87 | a 32-bit write reads back little-endian and changes no byte outside its four |
| Words.Put64 | src/vm.cpp:89-93 | a 64-bit write reads back and changes no byte outside its eight |
| Vm.ByteCodeVM.constructor | src/vm.cpp:20-29 | a new machine has zeroed memory and registers and an empty call stack |
| Vm.ByteCodeVM.SetPc | src/vm.h:203 | sets the program counter and nothing else |
| Vm.ByteCodeVM.Run | src/vm.cpp:65-284 | the loop over mutable registers and memory is the step function iterated, and fails exactly where that leaves defined behaviour |
| Vm.ByteCodeVM.Execute | src/vm.cpp:68-282 | one instruction on the object is one step |
| Vm.ByteCodeVM.ExecuteStore | src/vm.cpp:71-98 | Move, Set8, Set32, Set64, SetStackBottom and SavePC on the object, whole new state |
| Vm.ByteCodeVM.ExecuteCompute | src/vm.cpp:101-150 | three-address and immediate arithmetic on the object, whole new state |
| Vm.ByteCodeVM.ExecuteJump | src/vm.cpp:152-177 | compare two words and jump through a word in memory, whole new state |
| Vm.ByteCodeVM.ExecuteCall | src/vm.cpp:208-249 | a user call pushes the return point and moves the frame; print calls append to the console |
| Vm.ByteCodeVM.ExecuteReturn | src/vm.cpp:251-277 | collect the result, drop the frame, then write the result through the caller's bases |
| Vm.ByteCodeVM.ReadResult | src/vm.cpp:261-264 | the result bytes, collected one by one, each address translated anew |
| Vm.ByteCodeVM.WriteResult | src/vm.cpp:272-274 | the result bytes, stored one by one, each address translated anew |
| Vm.ByteCodeVM.TransAddr | src/vm.h:184-197 | a tagged address relative to one of the two bases, when all its bytes are in memory |
| Vm.ExecAdd | src/vm.cpp:65-67 | a run of a + b ticks is a run of a ticks and then one of b, also when either fails |
| Instructions.BinStep | src/vm.cpp:101-123 | a three-address operation puts the word at the second address OP the word at the third to the first and changes nothing else; for ints as C++ defines it, undefined elsewhere; for floats by the float unit in that order of operands |
| Instructions.BinDStep | src/vm.cpp:125-148 | the same with the word at the first address on the left and the immediate on the right |
| Instructions.NoOperand | src/vm.cpp:101-148 | arithmetic on an address outside memory is undefined |
| Instructions.JumpStep | src/vm.cpp:152-177 | each of the three jumps for a smaller, equal and greater first word: taken or not, and where to |
| Instructions.StoreStep | src/vm.cpp:71-207 | what each store leaves in its bytes, and that it changes no others |
| Instructions.FrameStep | src/vm.cpp:94-98 | SetStackBottom puts the bottom so many bytes above the top, modulo 2^64 |
| Instructions.LastReturn | src/vm.cpp:251-256 | a return without a caller ends the run, whatever ticks are left |
| Instructions.PrintStep | src/vm.cpp:222-249 | a print adds one line, the word at its address as int or float, and changes nothing else |
| Instructions.Addresses | src/vm.h:184-197 | tag 3 is an offset from the top, tag 4 one from the bottom, and no other tag is an address |
| Frames.StepTiling | src/vm.cpp:94-98 | from tiling frames, a step leaves tiling frames if and only if it is not a SetStackBottom that wraps |
| Frames.RunTiling | src/vm.cpp:208-271 | frames tile in every state of a run if and only if no SetStackBottom on the way wraps |
| Frames.ReachableTiled | src/vm.cpp:65-284 | in every state reachable without such a wrap, each saved frame ends where the next begins and the last where the current one begins |
| Frames.WrappingExample | src/vm.cpp:94-98 | a program of three instructions that wraps and ends untiled |
| Frames.StepInside | src/vm.cpp:94-277 | while a routine is active, no single instruction, call or return of anything it calls changes a byte below its frame or a caller's return point |
| Frames.RunInside | src/vm.cpp:65-284 | the same over whole runs of any program, through nested and recursive calls |
| Frames.IsolationExact | src/vm.h:184-197 | no address leads below a frame if and only if neither base lies in the last 2^56 of the 64-bit range |
| Frames.EscapingExample | src/vm.cpp:77-98 | a program whose frames are tiled throughout, without a 64-bit wrap, whose routine changes its caller's byte |
| Frames.ReadBytesMeaning | src/vm.cpp:261-264 | byte-wise collection succeeds if and only if the range is in memory, and yields that slice |
| Frames.WriteBytesMeaning | src/vm.cpp:272-274 | byte-wise storing succeeds if and only if the range is in memory, and replaces that slice only |
| Frames.CallEntry | src/vm.cpp:211-218 | what the caller put at STACK_TAIL + o, the routine finds at STACK_TOP + o, for every o and width |
| Frames.MatchedCall | src/vm.cpp:208-277 | from a call to the Return that matches it: pc after the call, both bases and the call stack restored, exactly the returned bytes delivered even if the ranges overlap, and nothing else of the caller's stack changed |
| CountedLoop.Round | test/test_bytevm.cpp:40-64 | one round bumps the counter by one and jumps back exactly while the counter is below the limit |
| CountedLoop.RoundsRun | test/test_bytevm.cpp:40-64 | from any counter value below the maximum, the loop runs the rounds that are left and leaves |
| CountedLoop.LoopRuns | test/test_bytevm.cpp:13-64 | for every 32-bit n the loop of SavePC, AddI32D, body and JumpGtI32 runs its body exactly max(1, n) times and ends after a known number of ticks, for every body of stores and F32 arithmetic off the three slots |
| CountedLoop.AnyLoopRuns | test/test_bytevm.cpp:13-64 | the same count, and the end, for every body that comes back from each state of a condition it keeps: with I32 arithmetic, prints, jumps, inner loops or calls |
| CountedLoop.TameComesBack | src/vm.cpp:71-150 | bodies of stores and F32 arithmetic off the slots are such bodies |
| CountedLoop.TameStep | src/vm.cpp:71-150 | a body instruction that writes inside the frame but off the loop's slots leaves them and the frame as they are |
| ExprCorrect.ExprRuns | src/compiler.cpp:314-410 | for every arithmetic tree of any depth and width: the code puts its value (new operand OP accumulated value) at STACK_TOP + origin, advances pc by its length, changes no byte outside its scratch area, leaves bases, calls and console alone, and is undefined exactly where an int operation is |
| ExprCorrect.OpsRun | src/compiler.cpp:366-404 | the part of a node's code from its i-th operator on folds the rest of the operands onto the slot |
| ExprCompiler.Set32Runs | src/compiler.cpp:335-344 | a literal's instruction stores it at the slot |
| ExprCompiler.NegateRuns | src/compiler.cpp:352-361 | unary minus multiplies the slot by -1, and is undefined for the least int |
| ExprCompiler.OpRuns | src/compiler.cpp:378-400 | an operator's instruction computes new operand OP accumulated value into the accumulator's slot |
| CallCorrect.CallRuns | src/compiler.cpp:412-434 | a call of `print` with arithmetic arguments shows its last argument's value, a call of anything else only computes them; either is undefined when one of them is |
| CallCorrect.ArgsRun | src/compiler.cpp:412-426 | arguments are computed into one slot, each over the one before |
| CallCorrect.ComparisonRuns | src/compiler.cpp:366-404 | a comparison leaves its left operand's value |
| CallCorrect.FloatRuns | src/compiler.cpp:335-344 | a float literal's code leaves the literal's word at the slot |
| CallCorrect.NegatedFloatRuns | src/compiler.cpp:351-361 | a minus before it multiplies that word as an int by -1 |
| CallCorrect.NotRead | src/compiler.cpp:335-344 | names, strings and truth values have no code |
| Agreement.OperatorsMean | src/compiler.cpp:366-404 | + - * / by name: written, left OP right as C++ has it; compiled, right OP left |
| Agreement.MinusMeans | src/compiler.cpp:351-361 | a minus before an operand changes its sign in both readings, but for the least int |
| Agreement.SymmetricAgrees | src/compiler.cpp:346-410 | without a binary - or / the compiled value is the value as written, undefined cases included |
| Agreement.OneOperatorExact | src/compiler.cpp:378-400 | for one operator whose written value is defined, the compiled value is the same if and only if the two operand values satisfy `SwapSafe`: always for + and *, equal for -, equal or opposite and non-zero for / |
| Agreement.SwapExact | src/vm.cpp:101-123 | the same for the machine operation: swapping its operands keeps its result if and only if they are swap-safe |
| Agreement.DifferenceExample | src/compiler.cpp:378-400 | 3 - 1 is 2 as written and -2 as compiled |
| Flat.SymmetricFlat | src/compiler.cpp:366-404 | flat expressions over + and * have one value in both readings |
| Flat.OperandsThatDiffer | src/compiler.cpp:366-404 | for every operator pattern with a - or a /, literals with a defined value as written and none as compiled |
| Flat.PatternExact | src/compiler.cpp:366-404 | an operator pattern is compiled as written for all operands if and only if every operator is + or * |
| FlatTree.TreeValue | src/ast.cpp:248-321 | the tree the precedence chain builds has the value of the flat expression: * and / bind tighter, left associative, as written and as compiled |
| FlatTree.TreeYield | src/ast.cpp:248-321 | and it is written with exactly the flat expression's tokens |
| FlatCover.EveryTreeIsFlat | src/ast.cpp:219-353 | every arithmetic tree the parser can build comes from a flat expression, which has its two values |
| Scratch.CodeWrites | src/compiler.cpp:314-434 | the code of any expression writes only within its extent above the slot |
| Scratch.ExtentBound | src/compiler.cpp:346-434 | the extent of a tree of the parser's shape is at most 4 + 4 * level + 12 * call depth |
| Scratch.ScratchBound | src/compiler.cpp:314-434 | a parsed expression with call depth d writes only within 16 + 12 * d bytes above its slot |
| StmtCorrect.LayoutKept | src/compiler.cpp:247-312 | compiling any statement keeps recorded variables at their places, pairwise apart and below the stack top |
| StmtCorrect.LayoutKeptNodes | src/compiler.cpp:467-471 | the same over every block |
| StmtCorrect.MovesRun | src/compiler.cpp:55-60 | the byte-wise moves of an assignment copy its value down to the variable and change nothing else |
| StmtCorrect.AsgnRuns | src/compiler.cpp:292-312 | an assignment leaves its variable holding the value and every other variable as it was, also for names of other sizes |
| StmtCorrect.PrintNodeRuns | src/compiler.cpp:412-434 | a print of one arithmetic expression appends exactly its value to the console |
| StmtCorrect.BlockRuns | src/compiler.cpp:467-471 | a block of declarations, assignments, expressions, one-argument prints and loops over such blocks (each of which means its body once), from any state that holds the world before it, ends in a state that holds the world after it, or is undefined exactly when the meaning is |
| StmtCorrect.FirstMentionDecides | src/compiler.cpp:269-312 | which variables get a slot and of what size: the first mention of a name settles it |
| StmtCorrect.LostVariable | src/compiler.cpp:292-312 | an assignment before the declaration leaves its variable a slot of no bytes, whatever follows |
| StmtCorrect.CompiledFunction | src/compiler.cpp:228-245 | a whole compiled function, run from the start: same console as the source meaning, and every int variable in its slot |
| StmtCorrect.SymmetricBlock | src/compiler.cpp:467-471 | without binary - and / the meaning as compiled is the meaning as written |
| IfCode.NodeFlattens | src/compiler.cpp:247-267 | whatever its nesting, a statement's code is that of the declarations, assignments and expressions in it, in order, those of all branches, of the last else and of loop bodies included, with only jumps and labels in between; so are its variables and errors |
| IfCode.NodesFlatten | src/compiler.cpp:467-471 | the same for blocks |
| IfCode.IfBrackets | src/compiler.cpp:436-461 | an if is one jump, the code of all its branches and its last else, and the label the jump names, which no other instruction has |
| IfCode.NodeLabelled | src/compiler.cpp:436-461 | each label number is used by one if, wherever it is nested, with one jump and behind it one label |
| IfCode.FileLabelled | src/compiler.cpp:228-245 | the same through all functions of a file |
| IfCode.BodyReserves | src/compiler.cpp:269-290 | a body reports each declaration of an unknown type, in order and nothing else; its frame has the bytes of each declaration of a known one, repeated ones again |
| IfCode.StructInPlace | src/compiler.cpp:274-282 | a variable of a struct type written in place is reported as of an unknown type and gets no slot |
| IfCode.FileReports | src/compiler.cpp:228-245 | a file reports those of its functions, in order |
| FileCorrect.FunctionsRun | src/compiler.cpp:171-177 | the linked functions of a file, run from one state, print what they print one after the other, each without variables at its start, or are undefined when one is |
| FileCorrect.HasFileMeaning | src/compiler.cpp:228-234 | a file has a meaning exactly when each expression in each function has a value |
| FileCorrect.FileExact | src/compiler.cpp:366-404 | among all files that differ only in literals and signs and have a meaning as written, the compiled meaning is that one for all of them if and only if no function has a binary - or / |
| FileCorrect.FileDiffers | src/compiler.cpp:366-404 | and otherwise one of them means something as written and nothing as compiled |
| FileCorrect.CutShort | src/vm.cpp:65-67 | a run that is cut short has printed the beginning of what the longer one prints |
| BlockExact.BlockExact | src/compiler.cpp:366-404 | among all blocks that differ only in literals and signs and have a meaning as written, the compiled meaning is that one for all of them if and only if no statement has a binary - or / |
| BlockExact.BlockDiffers | src/compiler.cpp:366-404 | a block with a binary - or / anywhere, dead stores included, has one of its shape that means something as written and nothing as compiled |
| BlockExact.HasBlockMeaning | src/compiler.cpp:467-471 | a block has a meaning, compiled or written, exactly when each expression it evaluates has a value |
| Compiler.CompilingFunc.AddMoveInsts | src/compiler.cpp:55-60 | the loop appends one Move per byte |
| Compiler.Compiler.CompileExpr | src/compiler.cpp:314-333 | the object's recursion appends exactly the expression's code and restores the stack top |
| Compiler.Compiler.CompileLiteral | src/compiler.cpp:335-344 | appends the literal's store |
| Compiler.Compiler.CompileOps | src/compiler.cpp:346-410 | appends a node's code and restores the stack top |
| Compiler.Compiler.CompileOpsLoop | src/compiler.cpp:366-404 | the loop over operators, which moves the stack top up and back in each round |
| Compiler.Compiler.CompileFuncall | src/compiler.cpp:412-434 | appends the arguments' code, then the call |
| Compiler.Compiler.CompileDeclaration | src/compiler.cpp:269-290 | reserves a slot unless the name has one, reports an unknown type, emits nothing |
| Compiler.Compiler.CompileAssignment | src/compiler.cpp:292-312 | appends the value's code and the moves to the slot the name has after `operator[]` |
| Compiler.Compiler.CompileStatement | src/compiler.cpp:247-267 | appends a statement's code, errors and labels |
| Compiler.Compiler.CompileIf | src/compiler.cpp:436-461 | the code of an if statement with its labels |
| Compiler.Compiler.CompileBlock | src/compiler.cpp:467-471 | the loop over a block's statements |
| Compiler.Compiler.CompileFunc | src/compiler.cpp:236-245 | a function is compiled in a fresh layout and put into the table |
| Compiler.Compiler.Link | src/compiler.cpp:171-177 | the program is the functions' code one after the other |
| Compiler.Compiler.CompileGlobal | src/compiler.cpp:180-199 | gets through if and only if every global variable has a known type |
| Compiler.Compiler.CompileFuncs | src/compiler.cpp:228-234 | the functions of a file, in order, other nodes skipped |
| Compiler.Compiler.Compile | src/compiler.cpp:164-169 | gets through types and globals if and only if the file is well typed; then the linked program and the errors, with the sizes its typedefs give |
| TypeTable.TypeTable.MaxTypeId | src/compiler.cpp:105-113 | whatever order the table is walked in, the result is 10 times the number of types |
| TypeTable.TypeTable.FindByName | src/compiler.cpp:115-122 | the first entry of that name in the order the hash table is walked, and one if and only if there is any |
| TypeTable.TypeTable.Insert | src/compiler.cpp:101-103 | a new number is entered, one already there keeps its entry |
| TypeTable.TypeTable.ReadFields | src/compiler.cpp:213-219 | the loop over fields is the function of the entries, up to the first unknown type |
| TypeTable.FieldsExact | src/compiler.cpp:213-219 | which succeeds if and only if every field's type is known, with the fields in order and the sum of their recorded sizes |
| TypeTable.TypeTable.CompileTypedef | src/compiler.cpp:204-223 | one typedef enters the next type, or nothing when a field's type is unknown |
| TypeTable.NewTypeExact | src/compiler.cpp:207-222 | the next type exists if and only if every field's type is known; it has a fresh number, the named fields, and as many bytes as its basic parts counted recursively |
| TypeTable.TypeTable.CompileTypes | src/compiler.cpp:202-226 | any sequence of typedefs goes through if and only if every struct field has a type that was there or that an earlier typedef names; then the entries are exactly those typedefs, in order |
| TypeTable.TypesExact | src/compiler.cpp:202-226 | the same of the function, for every walk order and every prefix, with all entries sized by their basic parts |
| TypeTable.WellTypedExact | src/compiler.cpp:164-226 | compiling gets past types and globals if and only if the names resolve: struct fields to earlier types, globals to any |
| TypeTable.BasicSizes | src/compiler.cpp:74-99 | without typedefs the sizes are 1, 4, 4 and 16, whatever the walk |
| TypeTable.StructSized | src/compiler.cpp:211-220 | a size summed from recorded sizes is the recursive sum of the basic parts |
| TypeTable.SearchOrderIrrelevant | src/compiler.cpp:115-122 | two tables of one sequence of typedefs with distinct names are equal, however they were searched |
| TypeTable.AnyWalk | src/compiler.cpp:115-122 | so with distinct names every walk order of the hash table gives one table |
| Lexer.TokenExtent | src/token.cpp:174-223 | every token but the end marker covers at least one character and none past the end; space tokens stand exactly at spaces |
| LexerProofs.TokenIsItsText | src/token.cpp:174-223 | the characters a token covers spell that token |
| LexerProofs.TableSpells | src/token.h:17-50 | every entry of the scanner's table has its kind's spelling |
| LexerProofs.InTable | src/token.h:17-50 | and every kind with a spelling is in the table |
| LexerProofs.LongestFixed | src/token.cpp:193-204 | of the fixed tokens that begin the input the longest is found, and none only when none begins it |
| LexerProofs.Classes | src/token.cpp:100-116 | blanks, digits, letters and the underscore, by name |
| LexerProofs.LineEnds | src/token.cpp:162-172 | carriage return and line feed together are one newline, each alone is one |
| LexerProofs.Blanks | src/token.cpp:183-191 | spaces and tabs up to the next other character are one token |
| LexerProofs.IntExact | src/token.cpp:72-89 | digits are scanned to their number exactly when an int can hold it |
| LexerProofs.CutOff | src/token.cpp:120-147 | an unclosed string and a name at the end of the input are no tokens |
| LexerProofs.PiecesTile | src/token_stream.cpp:39-55 | the tokens of a source, spaces included, tile it: their texts joined are the source, none is empty, and dropping the spaces gives the tokens the stream steps through |
| LexerProofs.PrefixFree | src/token.h:17-50 | no fixed token is a prefix of a later one, so each can be reached |
| LexerProofs.DigitsValue | src/token.cpp:72-86 | the decimal digits of every number scan to that number |
| LexerProofs.PrintScans | src/token.cpp:174-223 | a printed token followed by a space scans to that token, for ints, floats, quote-free strings, all fixed tokens, and symbols that do not begin with a fixed token |
| LexerProofs.NameExact | src/token.cpp:193-221 | a name is scanned back if and only if no fixed token begins it |
| LexerProofs.FormatExample | src/token.cpp:193-204 | `format` is scanned as `for` |
| LexerProofs.PrintLexes | src/token.cpp:174-223 | so every list of such tokens, printed, lexes back to itself |
| Scanner.IntFromChars | src/token.cpp:72-89 | the accumulating loop is the decimal value of the digits at the front |
| Scanner.FloatFromChars | src/token.cpp:149-160 | digits, a point and digits, or nothing |
| Scanner.StrFromChars | src/token.cpp:135-147 | a string up to its closing quote, or nothing at the end of the input |
| Scanner.SymbolFromChars | src/token.cpp:120-133 | a symbol that does not touch the end of the input |
| Scanner.EndlFromChars | src/token.cpp:162-172 | the three line ends |
| Scanner.FixedFromChars | src/token.cpp:193-204 | the first fixed token in list order that matches character by character |
| Scanner.FromChars | src/token.cpp:174-223 | all scanners in order |
| TokenStream.BoundaryThen | src/token_stream.cpp:43-46 | token boundaries compose, and the location replayed over both parts is the one replayed over the whole |
| TokenStream.LocationCounts | src/token_stream.cpp:21-29 | in every state of a stream the line is one more than the newline tokens before it, the column one more than the characters since the last of them or since the start |
| TokenStream.AfterCoherent | src/token_stream.cpp:39-55 | a coherent state stays coherent one token further |
| TokenStream.TokenStream.constructor | src/token_stream.cpp:12 | a new stream stands before all tokens of its source |
| TokenStream.TokenStream.Peek | src/token_stream.cpp:14-37 | type, length and data always those of a fresh scan here; the location unset exactly when this call filled the cache, right otherwise; nothing but the cache changes |
| TokenStream.TokenStream.Next | src/token_stream.cpp:39-55 | drops exactly one token with the spaces after it and records the dropped one, located |
| TokenStream.TokenStream.StepOver | src/token_stream.cpp:43-46 | one round of that loop |
| TokenStream.TokenStream.Save | src/token_stream.h:29 | what a guard keeps stands for the tokens that are left |
| TokenStream.TokenStream.Load | src/token_stream.h:61 | loading any earlier state restores position, location and last token, whatever the cache holds |
| ExprParserProofs.Accepts | src/ast.cpp:215-413 | for every tree of the precedence chain's shape and every way to write it (a comma after a call's last argument or none), parsing it followed by anything that cannot continue it returns that tree and stops there |
| ExprParserProofs.Complete | src/ast.cpp:215-413 | in particular from the tree's own tokens |
| ExprParserProofs.Sound | src/ast.cpp:215-413 | whenever parsing succeeds, the tree has that shape and the consumed tokens are a way to write it |
| ExprParserProofs.NoExpression | src/ast.cpp:323-381 | no expression starts with anything but a literal, a name or a minus |
| ExprParserProofs.ExactlyTheGrammar | src/ast.cpp:215-413 | every token list parses completely to a tree if and only if it is a way to write that tree |
| Precedence.OperatorExact | src/ast.cpp:219-321 | between two operands, + - * / < > == are operators and no other token is |
| Precedence.OperandExact | src/ast.cpp:355-381 | a token alone is an expression exactly when it is a number, a string, true, false or a name |
| Precedence.Binding | src/ast.cpp:219-321 | products bind tighter than sums, sums tighter than comparisons, whichever comes first |
| Precedence.Chaining | src/ast.cpp:248-321 | operators of one level stand in one node, in order |
| Precedence.NoChaining | src/ast.cpp:219-247 | a second comparison is left over |
| ExprParserProofs.LoneComma | src/ast.cpp:392-409 | of `f(,)` only the name is read |
| ExprParserProofs.Unambiguous | src/ast.cpp:215-413 | no token list is a way to write two trees |
| ExprParser.Parse | src/ast.cpp:219-353 | on every token list each level ends, and a success consumes at least one token |
| ExprParsing.ParseToken | src/ast.cpp:355-381 | the method on the stream does what the function on the token list says; on an error position, location and last token are as before |
| ExprParsing.ParseFuncall | src/ast.cpp:383-413 | the same for calls |
| ExprParsing.ParseArgs | src/ast.cpp:394-407 | the loop over arguments, with or without a comma after the last |
| ExprParsing.ParseAtomic | src/ast.cpp:324-353 | a call, a negated token or a token |
| ExprParsing.Parse | src/ast.cpp:219-321 | each level of the chain, with its guard |
| ExprParsing.ParseRest | src/ast.cpp:265-279 | the loop that gathers operators and operands of one level into one node |
| ExprParsing.ParseExpr | src/ast.cpp:215-217 | a whole expression |
| StmtParserProofs.DeclarationAccepts | src/ast.cpp:169-193 | every way to write a declaration parses to it |
| StmtParserProofs.AssignmentAccepts | src/ast.cpp:195-213 | every way to write an assignment parses to it |
| StmtParserProofs.FunctionAccepts | src/ast.cpp:415-478 | every way to write a function parses to it, with commas between its parameters or without |
| StmtParserProofs.AnyName | src/ast.cpp:420-424 | any token behind `func` is taken for the name its text is |
| StmtParserProofs.BranchesAccept | src/ast.cpp:480-535 | every way to write an if / else-if / else chain parses to it |
| StmtParserProofs.ForAccepts | src/ast.cpp:537-584 | every way to write a for loop, each header part present or not, parses to it |
| StmtParserProofs.ReturnAccepts | src/ast.cpp:89-106 | a return with any number of values of which only the first may start with a minus |
| StmtParserProofs.TypedefAccepts | src/ast.cpp:654-678 | a typedef, struct or alias |
| StmtParserProofs.FieldsAccept | src/ast.cpp:680-715 | the fields of a struct, with any number of newlines after each |
| StmtParserProofs.NodeAccepts | src/ast.cpp:108-149 | every way to write a well-shaped statement parses to it and stops there, if what follows does not run on from it |
| StmtParserProofs.NodesAccept | src/ast.cpp:108-149 | every way to write a list of them parses to exactly that list |
| StmtParserProofs.RootAccepts | src/ast.cpp:151-167 | every way to write a file parses to exactly its statements |
| StmtLoose.FileWritten | src/ast.cpp:125-145 | one statement to a line is one way to write a file |
| StmtParserProofs.RootComplete | src/ast.cpp:151-167 | so a file printed that way parses to exactly its statements |
| StmtSound.ExprSound | src/ast.cpp:215-413 | an accepted expression is read from a way to write its tree, and no minus follows it |
| StmtSound.NodeSound | src/ast.cpp:129-138 | whatever statement is accepted is well shaped and read from a way to write it |
| StmtSound.NoMerge | src/ast.cpp:125-145 | a statement read right behind another is not one that would run on from it |
| StmtSound.NodesSound | src/ast.cpp:108-149 | the same for every block, newlines where they are needed |
| StmtSound.RootSound | src/ast.cpp:151-167 | an accepted file is a way to write its statements |
| StmtSound.ExactlyTheFiles | src/ast.cpp:151-167 | a token list is read as a file if and only if the file is well shaped and the list is a way to write it: all newlines and commas accounted for |
| StmtSound.ReadAgain | src/ast.cpp:151-167 | printing an accepted file one statement to a line and reading it again gives the same file |
| StmtSound.OneFile | src/ast.cpp:151-167 | no token list is a way to write two files |
| StmtParser.ParseNode | src/ast.cpp:129-138 | on every token list a statement parser ends, and a success consumes at least one token |
| StmtParser.ParseNodes | src/ast.cpp:125-145 | so a block ends on every token list, never behind where it started |
| StmtParsing.ParseVarType | src/ast.cpp:623-644 | the method on the stream: a struct, a name, or no type |
| StmtParsing.ParseFields | src/ast.cpp:680-715 | the loop over a struct's fields |
| StmtParsing.ParseStruct | src/ast.cpp:680-715 | a struct, or the stream as before |
| StmtParsing.ParseDeclaration | src/ast.cpp:169-193 | on success as the function says, on error the stream as before |
| StmtParsing.ParseAssignment | src/ast.cpp:195-213 | the same |
| StmtParsing.ParseReturn | src/ast.cpp:89-106 | the same, with its loop over expressions |
| StmtParsing.ParseTypedef | src/ast.cpp:654-678 | the same |
| StmtParsing.ParseParams | src/ast.cpp:429-446 | the loop over parameters |
| StmtParsing.ParseResults | src/ast.cpp:451-461 | the loop over result types |
| StmtParsing.ParseFunction | src/ast.cpp:415-478 | a function, with its guard |
| StmtParsing.ParseBranches | src/ast.cpp:480-535 | the loop over branches |
| StmtParsing.ParseIf | src/ast.cpp:480-535 | an if statement, with its guard |
| StmtParsing.ParseFor | src/ast.cpp:537-584 | a for statement, with its guard |
| StmtParsing.ParseNode | src/ast.cpp:129-138 | the alternatives in order, a fatal error stops them |
| StmtParsing.ParseBlock | src/ast.cpp:108-149 | the loop over statements; it ends on every token sequence |
| StmtParsing.ParseRoot | src/ast.cpp:151-167 | a whole file, or a syntax error |
| EndToEnd.FlatRuns | src/compiler.cpp:314-410 | tokens to memory: a flat expression parses, compiles and runs to its value with swapped operands, and to its value as written if it has no binary - or / |
| EndToEnd.SourceRuns | src/compiler.cpp:164-177 | text to memory: every source of a file of one straight function, however it is written, parses to it and runs to exactly what its statements mean, variables included |
| EndToEnd.FileBehaves | src/compiler.cpp:164-177 | every source that parses to a file of straight functions prints what they mean given enough ticks, the beginning of that given fewer, is undefined when they are, and is undefined when the file is not well typed |
| EndToEnd.AsymmetricFileDiffers | src/compiler.cpp:366-404 | with a binary - or / in some function, some file that differs only in literals and signs has a meaning as written and undefined behaviour |
| EndToEnd.WrongOutput | src/compiler.cpp:378-384 | `print(3 - 1)` as the only function of any well-typed file prints -2 |
| EndToEnd.SourceBehaves | src/compiler.cpp:164-177 | both readings from text, for every way to write the file |
| EndToEnd.LoopPrintsOnce | src/compiler.cpp:463-465 | a `for` over `print(n)`, whatever its header, as the only statement of a file's only function prints n once |
| EndToEnd.LeadingSpace | src/token_stream.cpp:39-55 | a source that starts with a space or tab is a syntax error |
| EndToEnd.PrintedFileBehaves | src/compiler.cpp:164-177 | in particular the file printed token by token |
| EndToEnd.CompileAndRun | src/compiler.cpp:164-177 | the objects connected (stream, parser, compiler with its type table, machine) do what the functions connected say, for every lexable source, walk order and number of ticks |
| EventLoop.LoopConserves | src/loop/loop.cpp:42-63 | every step of the loop moves a task between queue, hand, unfinished list and retired without losing or doubling one, and the set of tasks and their kinds stay |
| EventLoop.RunsKeep | src/loop/loop.cpp:42-63 | under every interleaving of posts and loop steps no step fails, in particular no pop of an empty queue, the invariants hold, and the tasks are those at the start and those posted |
| EventLoop.EveryRun | src/loop/loop.cpp:42-63 | after any events the tasks are exactly the posted ones, each in exactly one place, none has run twice in a round, and a run-once function has been called at most once |
| EventLoop.RoundComplete | src/loop/loop.cpp:48-55 | when a round finds its queue empty, every posted task that is unfinished has run exactly once in it and is on the unfinished list, and every other is retired |
| EventLoop.InOrder | src/loop/loop.cpp:49-59 | over every run tasks leave the queue in the order in which they were posted and put back, run in that order, and are put back in the order in which they ran |
| EventLoop.TaskHistory | src/loop/loop.cpp:9-40 | after any events: a one-shot timer is retired exactly when it has been called, which is once, in its last run; a repeating timer is never retired; a timer's calls are its runs after the first whose flag was raised, counted over the events; a run-once task is called and retired by its first run |
| EventLoop.RunsMake | src/loop/loop.cpp:9-40 | the same from any state, with the runs before it |
| EventLoop.RunKeepsTask | src/loop/task.h:56-67 | one run calls a task's function at most once, keeps a run-once task's count tied to its state, and leaves exactly timers alive that repeat, have just been started, or find their flag down |
| EventLoop.PostKeeps | src/loop/loop.h:29-37 | a post at any moment keeps the invariants |
| EventLoop.Channel.Push | src/channel.h:22-25 | at the end |
| EventLoop.Channel.Pop | src/channel.h:10-15 | from the front |
| EventLoop.Channel.Size | src/channel.h:17-20 | the number of queued tasks |
| EventLoop.Loop.PostTask | src/loop/loop.h:29-37 | the object's post is the post event, wherever the loop stands |
| EventLoop.Loop.PostAll | src/loop/loop.h:29-37 | several posts are those events one after the other |
| EventLoop.Loop.Drain | src/loop/loop.cpp:48-55 | the first loop of a round, with tasks posted while others run, is a run of loop and post steps that ends with the queue empty |
| EventLoop.Loop.PutBack | src/loop/loop.cpp:57-59 | the second loop is a run of loop steps that leaves exactly the unfinished tasks queued, in order |
| EventLoop.Loop.RunRound | src/loop/loop.cpp:45-59 | one round of the object is a run that first comes to an empty queue and then ends with exactly what was unfinished there as the queue, keeping the invariants and losing no task |

## Left out

- 8-bit, 64-bit and double arithmetic, the `To` conversions, jumps on floats, and the prints other than of I32 and F32: the model's machine has no defined result for them.
- EndToEnd.SourceRuns: the memory a run leaves is stated for files of one function; for several, what is printed (`FileBehaves`).
- Alignment: word accesses at any address inside the buffer count as defined, though C++ leaves unaligned ones open (an `int` declared after a `bool` is one).
- Float meaning: float arithmetic is a parameter on 32-bit patterns, float tokens keep their digits, and the word of a float literal is a parameter of the compiler.
- Running a compiled `if`: what its code consists of is proved, but the machine has no `Label` and cannot translate the label operands.
- Inside a block's meaning (`StmtCorrect.Meaning`) expressions are arithmetic and prints have one argument; names, comparisons, float literals and other calls have `CallCorrect` alone.
- `heap_`, `static_`, `base_addr_`, freeing of memory, logging, all `debug` text, error texts other than the compiler's, backtraces, and the locations and lengths stored in tree nodes.
- The table of globals, which nothing reads; only its assertion is modelled.
- The parser's fixed loop limits: assertions after 99 to 100000 rounds.
- StmtParsing.ParseParams: the loop over parameters stops after 1000 without an assertion, so a longer list is a fatal error; here lists have no limit.
- Input on which no token is found (an unset optional is then dereferenced): streams are over sources that lex to their end, and an integer literal above the largest int is taken as no token.
- libuv: timers' flags are an input of each run, and waiting for events is not part of a round. TCP tasks, the server, `src/mygo.cpp` and `src/value.cpp` are not part of this model.
- EventLoop.Loop.RunRound: in the method tasks arrive only while others run, and finitely many in a round; the interleaved steps (`RunsKeep`) have no such limit.
- TypeTable.TypeTable.CompileTypes: type numbers and sizes are unbounded.
- StmtSound.RootSound: speaks of token lists in which every symbol has a text, as the scanner gives them, and in which `func` is followed by a name, which the parser does not check; `AnyName` says what another token there is taken for.
- Scanner.FloatFromChars: the value of a float token is its digits.
- Vm.ByteCodeVM.Run: has no defined result for the 8-bit, 64-bit and double instructions and prints and the conversions.
- Vm.ByteCodeVM.Execute: the same for one instruction.
- Vm.ByteCodeVM.ExecuteCompute: only I32 and F32.
- Vm.ByteCodeVM.ExecuteJump: only I32.
- Vm.ByteCodeVM.ExecuteCall: of the prints only those of I32 and F32.
- CountedLoop.LoopRuns: the exact number of ticks is for bodies of stores and F32 arithmetic; `AnyLoopRuns` has any body.
