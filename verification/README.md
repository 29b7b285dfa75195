# MicroJava compiler core in Dafny

This project models the back half of a MicroJava compiler. Four parts are covered.

- **Semantic analyzer.** One typing or scoping rule per visited syntax node.
- **Code generator.** The instruction sequence each visited node appends to the code buffer.
- **Runtime routines.** The six routines the generator synthesizes before any user code: printBool, findAny, findAll and three array guards. Also the small emission helpers.
- **Local-variable counter.** It sizes a method's frame.

How each part is modelled:

- The symbol table appears as a stack of scopes (`seq<map<string, Sym>>`).
- The code buffer is a list of instructions. Each instruction carries its byte address, and `pc` is the address of the next one.
- A small interpreter for one activation of the MicroJava VM runs the synthesized routines.

Modules:

| file | module | contents |
|---|---|---|
| types.dfy | `Types` | type descriptors, symbols, literals, constant encoding |
| semantic.dfy | `Semantic` | the analyzer's rules and its state |
| analysis_run.dfy | `AnalysisRun` | a whole analysis as a sequence of visits; error and main-method properties |
| bytecode.dfy | `Bytecode` | instructions and their sizes, the code buffer, fixups, the interpreter |
| runtime.dfy | `Runtime` | `CommonUtils`: emission helpers and the six routines with their layout |
| runtime_proofs.dfy | `RuntimeProofs` | what the string printer, printBool and the three guards do when run |
| execution.dfy | `Execution` | composing runs, and the effect of one step of each instruction the routines use |
| search_proofs.dfy | `SearchProofs` | what findAny and findAll return when run |
| placement.dfy | `Placement` | a routine's run carries over to any buffer that holds it at the same addresses |
| init_runs.dfy | `InitRuns` | where `initCodeGenerator` leaves each routine, and the run lemmas applied there |
| counter.dfy | `Counter` | `CounterVisitor.LocalVarCounter` and a corrected frame-size count |
| codegen.dfy | `CodeGen` | `CodeGenerator`'s emission rules and a whole traversal |

Conventions:

- Integers are unbounded. Where the source writes a byte or a 16-bit word, the model wraps explicitly: `Runtime.Byte`, `Runtime.Word`.
- The VM's division and remainder are Java's truncating ones (`Bytecode.JavaDiv`, `Bytecode.JavaRem`).
- A jump holds its absolute target address. The interpreter finds the instruction at that address through the buffer's address list.
- `Code.load` and `Code.store` of a symbol appear as `LoadSym` and `StoreSym`. The opcode they choose belongs to the code library.
- `Runtime.InitCodeGenerator` is `Runtime.InitCodeGeneratorWith` applied to the three guard messages of the source. The lemmas about where the routines land are stated for any messages, so they hold for that one.
- `Struct.assignableTo` and `Struct.compatibleWith` are library code. They are parameters of the rules (`Types.Rels`). `Types.DesignRels` is one instance of them: equal types, or either side the error type.

## Model

| member | source | states |
|---|---|---|
| Types.ArrayOf | src/rs/ac/bg/etf/pp1/util/CommonUtils.java:401-403 | the result is an array type whose element type is the argument |
| Types.LiteralType | src/rs/ac/bg/etf/pp1/SemanticAnalyzer.java:594-606 | int, char and bool literals are typed Int, Char and Bool respectively, each case an if-and-only-if |
| Types.ConstValue | src/rs/ac/bg/etf/pp1/util/CommonUtils.java:360-371 | an int literal encodes as its value, a char as its non-negative code, a bool as 1 for true and 0 for false |
| Types.ConstSym | src/rs/ac/bg/etf/pp1/util/CommonUtils.java:381-393 | the entry is a constant at level 0 whose address is the given value, with the given name and type |
| Semantic.Universe | src/rs/ac/bg/etf/pp1/util/CommonUtils.java:49-51 | the starting scope holds exactly the types int, char and bool, the constants eol (character 10) and null, and the one-argument methods chr, ord and len |
| Semantic.Initial | src/rs/ac/bg/etf/pp1/SemanticAnalyzer.java:15-28 | analysis starts with only the universe scope, no errors, no main, no current method and no pending declarations |
| Semantic.PredeclaredResolves | src/rs/ac/bg/etf/pp1/SemanticAnalyzer.java:467-476 | a predeclared name that no inner scope redeclares resolves without error to its universe entry, so `print(eol)` needs no declaration |
| Semantic.PredeclaredConstReported | src/rs/ac/bg/etf/pp1/SemanticAnalyzer.java:96-116 | declaring a constant with a predeclared name, such as `const char eol = 'x';`, reports one error and changes nothing |
| Semantic.ProgName | src/rs/ac/bg/etf/pp1/SemanticAnalyzer.java:58-62 | a new empty scope is opened and no error is reported; a name the current scope lacks then resolves to the program entry, and a name it already holds keeps its entry, as `Tab.insert` hands back the existing one; every other name resolves as before |
| Semantic.ProgNameKeepsPredeclared | src/rs/ac/bg/etf/pp1/SemanticAnalyzer.java:58-62 | a program named after a predeclared name, such as `program len`, leaves that name's universe entry in place |
| Semantic.ProgNamedInt | src/rs/ac/bg/etf/pp1/SemanticAnalyzer.java:58-62 | after `program int`, `int` still resolves to the type int without error |
| Semantic.ProgNameFresh | src/rs/ac/bg/etf/pp1/SemanticAnalyzer.java:58-62 | a program whose name is not predeclared resolves to its program entry, and a designator naming it resolves without error |
| Semantic.ProgramEnd | src/rs/ac/bg/etf/pp1/SemanticAnalyzer.java:72-85 | an error is reported exactly when no void main was recorded; the global variable count is taken and the program scope closed |
| Semantic.DeclareConst | src/rs/ac/bg/etf/pp1/SemanticAnalyzer.java:96-116 | a name visible in any scope, or a literal type not assignable to the declared type, gives one error and no change; otherwise the name resolves to a constant holding the literal's encoding and every other name resolves as before |
| Semantic.DeclareConsts | src/rs/ac/bg/etf/pp1/SemanticAnalyzer.java:96-116 | declaring a list reports at most one error per constant and keeps the scope depth and the method state |
| Semantic.ConstAssignmentSeen | src/rs/ac/bg/etf/pp1/SemanticAnalyzer.java:123-125 | a constant assignment is queued, with no error and no scope change |
| Semantic.ConstDecl | src/rs/ac/bg/etf/pp1/SemanticAnalyzer.java:96-116 | the pending constants are cleared afterwards, with at most one error each |
| Semantic.VarSym | src/rs/ac/bg/etf/pp1/SemanticAnalyzer.java:164-177 | a declared name becomes a variable of the declared type, or an array of it when bracketed |
| Semantic.DeclareVar | src/rs/ac/bg/etf/pp1/SemanticAnalyzer.java:164-177 | a name already in the current scope gives one error and no change; otherwise it resolves to the new variable, other names are unaffected, and outer scopes are untouched |
| Semantic.DeclareVars | src/rs/ac/bg/etf/pp1/SemanticAnalyzer.java:141-162 | declaring a list reports at most one error per name and touches only the current scope |
| Semantic.PendingNames | src/rs/ac/bg/etf/pp1/SemanticAnalyzer.java:141-162 | the names declared are the queued ones in order, followed by the last one if present |
| Semantic.VarDecl | src/rs/ac/bg/etf/pp1/SemanticAnalyzer.java:141-162 | the pending names are cleared afterwards, with at most one error per name and only the current scope touched |
| Semantic.ShadowingAllowed | src/rs/ac/bg/etf/pp1/SemanticAnalyzer.java:164-177 | a name of an outer scope may be declared again in the current one without error, and then resolves to the new variable |
| Semantic.RedeclarationReportedOnce | src/rs/ac/bg/etf/pp1/SemanticAnalyzer.java:141-177 | `int x, x;` reports exactly one error and keeps the first declaration |
| Semantic.ResolveType | src/rs/ac/bg/etf/pp1/SemanticAnalyzer.java:202-215 | a type name resolves, with no error, exactly when it is found with kind Type; otherwise one error and NoType |
| Semantic.MethodEnter | src/rs/ac/bg/etf/pp1/SemanticAnalyzer.java:229-257 | a name already in the current scope gives one error and noObj as the current method; either way exactly one new empty scope is opened |
| Semantic.MethodExit | src/rs/ac/bg/etf/pp1/SemanticAnalyzer.java:260-277 | an error is reported exactly for a non-void method without a return; main is recorded exactly for a void method named "main"; the scope is closed and the per-method state reset |
| Semantic.ReturnStmt | src/rs/ac/bg/etf/pp1/SemanticAnalyzer.java:299-324 | an error is reported exactly for a value in a void method, no value in a non-void method, or an incompatible value; the return is recorded |
| Semantic.PrintErrors | src/rs/ac/bg/etf/pp1/SemanticAnalyzer.java:285-291 | print reports nothing exactly when its argument is int, char or bool |
| Semantic.ReadErrors | src/rs/ac/bg/etf/pp1/SemanticAnalyzer.java:327-342 | read reports nothing exactly for a variable or element of a scalar type, and two errors when both conditions fail |
| Semantic.IncDecErrors | src/rs/ac/bg/etf/pp1/SemanticAnalyzer.java:347-381 | increment and decrement report nothing exactly for an int variable or element, and two errors when both conditions fail |
| Semantic.AssignErrors | src/rs/ac/bg/etf/pp1/SemanticAnalyzer.java:384-402 | an assignment reports nothing exactly when the destination is a variable or element and the value is assignable to it |
| Semantic.FindType | src/rs/ac/bg/etf/pp1/SemanticAnalyzer.java:415-455 | findAny is typed bool and findAll int, even on error; no error exactly when the target is an array and the value is compatible with its element type |
| Semantic.Designator | src/rs/ac/bg/etf/pp1/SemanticAnalyzer.java:467-497 | no error exactly when the name is declared and, if indexed, is an array indexed by an int; an error yields noObj; an indexed access yields an element entry of the element type |
| Semantic.ArithType | src/rs/ac/bg/etf/pp1/SemanticAnalyzer.java:519-558 | addition and multiplication are typed int without error exactly when both operands are int; otherwise one error and NoType |
| Semantic.NegType | src/rs/ac/bg/etf/pp1/SemanticAnalyzer.java:538-544 | negation is typed int without error exactly when its operand is int; otherwise one error and NoType |
| Semantic.NewArrayType | src/rs/ac/bg/etf/pp1/SemanticAnalyzer.java:578-586 | `new T[e]` is typed as an array of T without error exactly when e is int; otherwise one error and NoType |
| AnalysisRun.Step | src/rs/ac/bg/etf/pp1/SemanticAnalyzer.java:58-606 | no visit lowers the error count, and only program and method ends touch the main flag |
| AnalysisRun.PassedIffNoReport | src/rs/ac/bg/etf/pp1/SemanticAnalyzer.java:613-615 | `semanticAnalysisPassed` holds after a run exactly when it held before and no visit of the run reported an error |
| AnalysisRun.StepMainFound | src/rs/ac/bg/etf/pp1/SemanticAnalyzer.java:260-277 | a visit sets the main flag exactly when it was set already or the visit closes a void method named "main" |
| AnalysisRun.MainFoundAt | src/rs/ac/bg/etf/pp1/SemanticAnalyzer.java:260-277 | along a run, the main flag is set exactly when some earlier visit closed a void "main" |
| AnalysisRun.MissingMainReported | src/rs/ac/bg/etf/pp1/SemanticAnalyzer.java:72-85 | the missing-main error is reported exactly when no visit of the run closed a void method named exactly "main" |
| Bytecode.Inverse | src/rs/ac/bg/etf/pp1/util/CommonUtils.java:86-87 | the condition a false jump tests holds exactly when the given one fails |
| Bytecode.EmitAll | src/rs/ac/bg/etf/pp1/util/CommonUtils.java:104-117 | emitted instructions are appended at the pc, one after the other, and the pc advances by their total size |
| Runtime.MethodInitialCode | src/rs/ac/bg/etf/pp1/util/CommonUtils.java:405-409 | appends exactly `enter p, p+l` at the pc when both fit in a byte |
| Runtime.MethodFinalCode | src/rs/ac/bg/etf/pp1/util/CommonUtils.java:411-417 | appends exactly `exit, return` |
| Runtime.MethodCall | src/rs/ac/bg/etf/pp1/util/CommonUtils.java:419-424 | appends a call whose offset leads from the call's own address to the target exactly when the distance fits in 16 bits |
| Runtime.PrintString | src/rs/ac/bg/etf/pp1/util/CommonUtils.java:104-117 | appends three instructions per character |
| Runtime.PrintBoolLayout | src/rs/ac/bg/etf/pp1/util/CommonUtils.java:74-102 | printBool appends its code with both jumps already pointing at their labels |
| Runtime.PrintBoolLabels | src/rs/ac/bg/etf/pp1/util/CommonUtils.java:74-102 | the true branch's jump lands on the code that prints "true", and the jump after "false" lands on the final code |
| Runtime.FindAnyLayout | src/rs/ac/bg/etf/pp1/util/CommonUtils.java:119-184 | findAny appends its code with every jump pointing at its label |
| Runtime.FindAnyLabels | src/rs/ac/bg/etf/pp1/util/CommonUtils.java:119-184 | the failure exit, the success exit, the loop's back edge and the jump to the final code each land on their intended instruction |
| Runtime.FindAllLayout | src/rs/ac/bg/etf/pp1/util/CommonUtils.java:186-256 | findAll appends its code with every jump pointing at its label |
| Runtime.FindAllLabels | src/rs/ac/bg/etf/pp1/util/CommonUtils.java:186-256 | the failure exit, the counting branch, both back edges and the jump to the final code each land on their intended instruction |
| Runtime.GuardLabels | src/rs/ac/bg/etf/pp1/util/CommonUtils.java:258-313 | a one-argument guard's jump skips its message and trap and lands on the final code |
| Runtime.IndexGuardLabels | src/rs/ac/bg/etf/pp1/util/CommonUtils.java:318-350 | both failed checks of the index guard land on the same message |
| Runtime.EntriesIncrease | src/rs/ac/bg/etf/pp1/util/CommonUtils.java:60-72 | each routine's recorded entry is the pc at its start; entries strictly increase and stay below the final pc |
| Runtime.InitCodeGeneratorOrder | src/rs/ac/bg/etf/pp1/util/CommonUtils.java:60-72 | the recorded addresses satisfy printBool < findAny < findAll < length guard < access guard < index guard, with printBool at the starting pc |
| InitRuns.CreateAllHosts | src/rs/ac/bg/etf/pp1/util/CommonUtils.java:60-72 | each routine of a sequence created one after the other is built where the routines before it end, the final buffer extends what its builder produced, and its entry address names its first instruction |
| InitRuns.InitHosts | src/rs/ac/bg/etf/pp1/util/CommonUtils.java:60-72 | routine k of `initCodeGenerator` is built after the k routines before it, the returned buffer extends that routine's builder, and the address recorded for it indexes its first instruction |
| InitRuns.InitPrintBool | src/rs/ac/bg/etf/pp1/util/CommonUtils.java:60-79 | printBool is first in the returned buffer, at the recorded address, with the instructions and labels `PrintBoolRun` needs |
| InitRuns.InitFindAny | src/rs/ac/bg/etf/pp1/util/CommonUtils.java:60-66 | findAny sits 34 instructions after the starting buffer at its recorded address, and a call entered there returns 1 exactly when the value occurs in the array and 0 otherwise |
| InitRuns.InitFindAll | src/rs/ac/bg/etf/pp1/util/CommonUtils.java:60-67 | findAll sits 55 instructions after the starting buffer at its recorded address, and a call entered there returns the number of elements equal to the value |
| InitRuns.InitLengthCheck | src/rs/ac/bg/etf/pp1/util/CommonUtils.java:60-70 | the length guard sits 81 instructions after the starting buffer at its recorded address, with the instructions and message `LengthCheckRun` needs |
| InitRuns.InitAccessCheck | src/rs/ac/bg/etf/pp1/util/CommonUtils.java:60-71 | the null-array guard follows the length guard and its message, at its recorded address, with the instructions and message `AccessCheckRun` needs |
| InitRuns.InitIndexCheck | src/rs/ac/bg/etf/pp1/util/CommonUtils.java:60-72 | the index guard is last, at its recorded address, with both failed checks jumping to its message, as the index-guard run lemmas need |
| InitRuns.FindAnyPlaced | src/rs/ac/bg/etf/pp1/util/CommonUtils.java:119-184 | findAny built after any buffer answers a call the same way in every buffer that extends the builder's, at the builder's pc |
| InitRuns.FindAllPlaced | src/rs/ac/bg/etf/pp1/util/CommonUtils.java:186-256 | findAll built after any buffer answers a call the same way in every buffer that extends the builder's, at the builder's pc |
| Runtime.InitCodeGeneratorValid | src/rs/ac/bg/etf/pp1/util/CommonUtils.java:60-72 | after the six routines the buffer is still laid out contiguously |
| RuntimeProofs.RunPrintString | src/rs/ac/bg/etf/pp1/util/CommonUtils.java:104-117 | running a string's code prints its characters in order as characters, the first with the width in local 1 and the rest with width 1 |
| RuntimeProofs.PrintBoolInPlace | src/rs/ac/bg/etf/pp1/util/CommonUtils.java:74-102 | printBool built after any buffer keeps its instructions, its "true" text and its final code at the builder's addresses in every buffer that extends it |
| RuntimeProofs.PrintBoolRun | src/rs/ac/bg/etf/pp1/util/CommonUtils.java:74-102 | printBool prints "true" exactly when the value is 1 and "false" otherwise, the first character with the caller's width and the rest with width 1, and returns with both arguments popped |
| RuntimeProofs.GuardInPlace | src/rs/ac/bg/etf/pp1/util/CommonUtils.java:258-313 | a one-argument guard built after any buffer keeps its checks, message and trap in every buffer that extends it, its jump skipping to the final code |
| RuntimeProofs.IndexInPlace | src/rs/ac/bg/etf/pp1/util/CommonUtils.java:318-350 | the index guard built after any buffer keeps its checks, message and trap in every buffer that extends it, both failed checks jumping to the message |
| SearchProofs.FindAnyRun | src/rs/ac/bg/etf/pp1/util/CommonUtils.java:119-184 | a call of findAny with an array and a value returns 1 exactly when the value occurs in the array and 0 otherwise, with both arguments popped |
| SearchProofs.FindAnyAnswers | src/rs/ac/bg/etf/pp1/util/CommonUtils.java:119-184 | findAny in place answers every call that way |
| SearchProofs.CountToMultiset | src/rs/ac/bg/etf/pp1/util/CommonUtils.java:186-256 | the counter findAll keeps after i elements is the number of occurrences of the value among the first i |
| SearchProofs.FindAllRun | src/rs/ac/bg/etf/pp1/util/CommonUtils.java:186-256 | a call of findAll returns the number of elements equal to the value, with both arguments popped |
| SearchProofs.FindAllAnswers | src/rs/ac/bg/etf/pp1/util/CommonUtils.java:186-256 | findAll in place answers every call that way |
| RuntimeProofs.LengthCheckRun | src/rs/ac/bg/etf/pp1/util/CommonUtils.java:258-283 | the length guard traps with code 0 after its message exactly when the length is negative, and otherwise returns having consumed the length |
| RuntimeProofs.AccessCheckRun | src/rs/ac/bg/etf/pp1/util/CommonUtils.java:288-313 | the access guard traps with code 2 after its message exactly when the array reference is 0, and otherwise returns |
| RuntimeProofs.IndexCheckAbove | src/rs/ac/bg/etf/pp1/util/CommonUtils.java:318-350 | with an index at least the array's length, the index guard prints its message, the first character with the index as width, and traps with code 1 |
| RuntimeProofs.IndexCheckBelow | src/rs/ac/bg/etf/pp1/util/CommonUtils.java:318-350 | with a negative index, the index guard prints its message and traps with code 1 after both checks |
| RuntimeProofs.IndexCheckPasses | src/rs/ac/bg/etf/pp1/util/CommonUtils.java:318-350 | with an index inside the array, the index guard pops both arguments and returns |
| Counter.New | src/rs/ac/bg/etf/pp1/CounterVisitor.java:8 | a fresh counter reports 0 |
| Counter.Visit | src/rs/ac/bg/etf/pp1/CounterVisitor.java:11-17 | visiting a VarDecl node adds exactly 1; any other node leaves the counter unchanged |
| Counter.TraverseCounts | src/rs/ac/bg/etf/pp1/CounterVisitor.java:13-16 | a top-down traversal adds one per VarDecl node met, counted over the subtree's preorder listing |
| Counter.CountIsVarDeclNodes | src/rs/ac/bg/etf/pp1/CounterVisitor.java:20-22 | `getCount` after traversing a subtree is the number of VarDecl nodes in it |
| Counter.FrameTooSmall | src/rs/ac/bg/etf/pp1/CounterVisitor.java:13-16 | `int a, b;` counts as one though it declares two locals |
| Counter.CountLocalNamesCounts | src/rs/ac/bg/etf/pp1/SemanticAnalyzer.java:141-162 | the corrected traversal adds one per declared name met |
| Counter.FrameSize | src/rs/ac/bg/etf/pp1/SemanticAnalyzer.java:141-162 | the corrected frame size is the number of declared names in the method |
| CodeGen.ProgName | src/rs/ac/bg/etf/pp1/CodeGenerator.java:18-20 | the routines are created at the pc of the program node, before any method, and printBool's address is that pc; the strings they print make "$" a char constant unless "$" already exists |
| CodeGen.MethodTypeName | src/rs/ac/bg/etf/pp1/CodeGenerator.java:40-60 | the method's address is the pc; mainPC becomes the pc when the name equals "main" ignoring case; `enter 0, n` follows, where n is the counter's VarDecl count |
| CodeGen.MainOverridden | src/rs/ac/bg/etf/pp1/CodeGenerator.java:47-49 | with methods `main` and then `Main`, mainPC ends at `Main`'s address and no longer at `main`'s |
| CodeGen.MethodEntry | src/rs/ac/bg/etf/pp1/CodeGenerator.java:40-60 | the corrected entry: mainPC is set only for a method named exactly "main", and the frame has one slot per declared name |
| CodeGen.MethodEntryTracksMain | src/rs/ac/bg/etf/pp1/CodeGenerator.java:44-49 | entering any method keeps mainPC equal to the address of "main" |
| CodeGen.MethodDecl | src/rs/ac/bg/etf/pp1/CodeGenerator.java:62-66 | a method's end appends `exit, return` |
| CodeGen.PrintStmt | src/rs/ac/bg/etf/pp1/CodeGenerator.java:79-95 | the width (explicit or 5) is pushed first; then `print` exactly for int, `bprint` exactly for char, and a call reaching printBool exactly for other types |
| CodeGen.PrintBoolConsumes | src/rs/ac/bg/etf/pp1/util/CommonUtils.java:74-79 | the call to printBool takes both the value and the width off the caller's stack |
| CodeGen.ReadStmt | src/rs/ac/bg/etf/pp1/CodeGenerator.java:102-107 | `bread` exactly for a char target and `read` otherwise, followed by the store to the target |
| CodeGen.IncStmt | src/rs/ac/bg/etf/pp1/CodeGenerator.java:112-142 | an increment appends the read-bump-store code with `add` |
| CodeGen.DecStmt | src/rs/ac/bg/etf/pp1/CodeGenerator.java:145-164 | a decrement appends the same code with `sub` |
| CodeGen.IncDecDiffer | src/rs/ac/bg/etf/pp1/CodeGenerator.java:112-164 | increment and decrement code differ only in `add` against `sub` before the final store |
| CodeGen.IncDecShape | src/rs/ac/bg/etf/pp1/CodeGenerator.java:117-131 | a variable gets `load, const 1, op, store`; an element gets `dup2` first |
| CodeGen.Assignment | src/rs/ac/bg/etf/pp1/CodeGenerator.java:177-180 | an assignment appends the store to its destination |
| CodeGen.FindCall | src/rs/ac/bg/etf/pp1/CodeGenerator.java:187-194 | findAny and findAll append one call that reaches the matching routine |
| CodeGen.Designator | src/rs/ac/bg/etf/pp1/CodeGenerator.java:204-210 | a load is appended exactly when the parent is a findAny value, a findAll value or a factor; otherwise nothing changes |
| CodeGen.ArrayIndexPlaceholder | src/rs/ac/bg/etf/pp1/CodeGenerator.java:234-237 | the array's address is loaded before the index |
| CodeGen.ArrayIndex | src/rs/ac/bg/etf/pp1/CodeGenerator.java:218-231 | an element access appends `dup2, pop, call access guard, dup2, call index guard`, with the calls at pc+2 and pc+6 |
| CodeGen.ArrayIndexCallsGuards | src/rs/ac/bg/etf/pp1/CodeGenerator.java:218-231 | both calls reach their guards whenever the guards are within 16-bit reach |
| CodeGen.GuardParams | src/rs/ac/bg/etf/pp1/util/CommonUtils.java:258-323 | the length and access guards take one argument and the index guard two; printBool, created first, takes two |
| CodeGen.ArrayIndexKeepsOperands | src/rs/ac/bg/etf/pp1/CodeGenerator.java:218-231 | the array and the index are back on top of the stack after both guard calls |
| CodeGen.AddOpCode | src/rs/ac/bg/etf/pp1/CodeGenerator.java:242-249 | plus selects `add` and minus `sub`, each an if-and-only-if |
| CodeGen.MulOpCode | src/rs/ac/bg/etf/pp1/CodeGenerator.java:258-267 | `*` selects `mul`, `/` `div` and `%` `rem`, each an if-and-only-if |
| CodeGen.AddOpStmt | src/rs/ac/bg/etf/pp1/CodeGenerator.java:242-249 | an additive expression appends its operator's instruction |
| CodeGen.MulOpStmt | src/rs/ac/bg/etf/pp1/CodeGenerator.java:258-267 | a multiplicative term appends its operator's instruction |
| CodeGen.Negate | src/rs/ac/bg/etf/pp1/CodeGenerator.java:252-255 | a negated term appends `neg` |
| CodeGen.NewArrayExpr | src/rs/ac/bg/etf/pp1/CodeGenerator.java:270-281 | an array creation appends `dup`, a call to the length guard and `newarray` with the element tag |
| CodeGen.ElemTag | src/rs/ac/bg/etf/pp1/CodeGenerator.java:280 | the tag is 0 exactly for char elements and 1 exactly for the others |
| CodeGen.NewArrayCallsGuard | src/rs/ac/bg/etf/pp1/CodeGenerator.java:273-274 | the call reaches the length guard whenever it is within 16-bit reach |
| CodeGen.NewArrayKeepsLength | src/rs/ac/bg/etf/pp1/CodeGenerator.java:273-277 | the length is still on top of the stack for `newarray` after the guard call |
| CodeGen.FactorConst | src/rs/ac/bg/etf/pp1/CodeGenerator.java:284-293 | a literal is loaded through the anonymous global constant "$" with the literal's encoding as its address; the entry's type is the type "$" already has, or the literal's type when "$" is new, and stays the entry's type afterwards |
| CodeGen.FactorConstEncodes | src/rs/ac/bg/etf/pp1/CodeGenerator.java:292 | whatever type the shared entry has, the load encodes like a push of the literal's value |
| CodeGen.GenStepDollar | src/rs/ac/bg/etf/pp1/util/CommonUtils.java:381-393 | the program node's visit makes "$" a char constant when it is new; no visit changes the type of an existing "$" |
| CodeGen.GenerateKeepsDollar | src/rs/ac/bg/etf/pp1/util/CommonUtils.java:381-393 | once "$" exists, a whole traversal keeps its type |
| CodeGen.LiteralsShareCharEntry | src/rs/ac/bg/etf/pp1/util/CommonUtils.java:104-109 | after the program node, every literal, of any type, is loaded through the char-typed "$" entry the string printer created, with the literal's encoding as address |
| CodeGen.GenStep | src/rs/ac/bg/etf/pp1/CodeGenerator.java:17-293 | every visit appends at the pc, keeps the buffer contiguous and never rewrites earlier code; only ProgName changes the routine addresses, only method entry changes mainPC and the method table, and only the program node and literals touch the "$" entry |
| CodeGen.Generate | src/rs/ac/bg/etf/pp1/CodeGenerator.java:17-293 | a whole traversal only appends to the buffer |
| CodeGen.GenerateAddresses | src/rs/ac/bg/etf/pp1/CodeGenerator.java:44 | after a traversal, exactly the methods entered have addresses |
| CodeGen.GenerateTracksMain | src/rs/ac/bg/etf/pp1/CodeGenerator.java:47-49 | mainPC stays on the address of the method named "main" throughout a traversal |
| CodeGen.EntryIsMain | src/rs/ac/bg/etf/pp1/CodeGenerator.java:47-49 | from a fresh generator, a program with a method "main" starts at that method's address |

## Left out

- Logging: log messages, line numbers and `report_info` are not modelled. Only whether an error is reported counts.
- `AnalysisRun.Step`: pass-through annotations are not modelled as their own visits. These are expression and factor wrappers, literal nodes and `AssignmentValueExpr`. They copy a child's type to the parent, and the model passes that type in the next visit's event.
- `AnalysisRun.Step`: a visit that needs an open scope or a current method leaves the state unchanged when there is none. The Java code would dereference null, but the grammar never produces that order.
- `visit(ArrayIndexPlaceholder)` in the analyzer is not modelled. It repeats the same lookup until the name is an array, so it does not terminate when the name is not one.
- `Types.Rels`: `assignableTo` and `compatibleWith` are parameters, because they are symbol-table library code.
- `Tab.insert` internals are not modelled beyond two facts: it adds an entry to the current scope, and it hands back the existing entry when the name is already there. The `nVars` address allocation and `Tab.dump` / `chainLocalSymbols` are not modelled.
- `Code.load`/`Code.store` opcode selection is left abstract (`LoadSym`/`StoreSym`). Their byte sizes follow the VM's encoding.
- `Runtime.MethodInitialCode`: operands are reduced modulo 256, as `Code.put` writes one byte. The exact-instruction ensures holds only when both fit.
- `Runtime.MethodCall`: the offset is wrapped to 16 bits, as `Code.put2` writes two bytes. The call reaches its target only when the distance fits.
- `InitRuns.InitFindAny`, `InitRuns.InitFindAll`: the routine is entered by setting the instruction index to its first instruction with the arguments on the stack. A `call` from user code is not run, because the interpreter models one activation.
- `Semantic.Universe`: `Tab.init` is not part of this model. The entries follow MicroJava's predeclared names, and a method's level holds its parameter count; the parameter entries of chr, ord and len are not modelled.
- Bytecode interpreter: it models one activation. A `call`, and `read`, `newarray` and designator loads and stores, stop the machine with a fault; the callers' view of calls is the stack-effect model `CodeGen.Shuffle`.
- Bytecode interpreter: `enter` zeroes the new frame's slots beyond the parameters. This is an assumption about the VM.
- `CodeGen.GenStep` uses the corrected method entry `CodeGen.MethodEntry`. The code as written is `CodeGen.MethodTypeName`.
- The compiler driver is not modelled: command-line handling, file input and output, and the object-file header. Its rule that code is generated only when parsing and analysis pass is not modelled either.

## Findings

| source | as written | input that shows it | evidently intended | confidence | as-written member | corrected member |
|---|---|---|---|---|---|---|
| src/rs/ac/bg/etf/pp1/CodeGenerator.java:47 | mainPC is set for any method whose name equals "main" ignoring letter case | a program declaring `void main()` and then `void Main()`; the analyzer accepts it for `main`, but mainPC ends on `Main` | the entry point is the method named exactly "main", the one the analyzer requires | medium, not executed | CodeGen.MainOverridden | CodeGen.EntryIsMain |
| src/rs/ac/bg/etf/pp1/CounterVisitor.java:13-16 | the frame size is the number of VarDecl nodes, and one node may declare several names | a method body `int a, b;` gets `enter 0, 1` for two locals | one frame slot per declared local | medium, not executed | Counter.FrameTooSmall | Counter.FrameSize |
