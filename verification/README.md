# Block-based JavaScript to LLVM IR: a verified model of the core

The repository is a block-based programming environment. The user arranges blocks on a
canvas. The blocks generate JavaScript, the browser parses it with acorn into an
abstract syntax tree, and the tree is lowered to textual LLVM IR. This project models
the parts of that pipeline that compute something and proves what they guarantee:

- **The LLVM IR generator** (`public/llvm_gen.js`, class `LLVMIRGenerator`).
  - The class `LlvmGen.LLVMIRGenerator` keeps the generator's fields: `output`, the three
    counters (labels, variables, string constants), the variable map and the string-constant table (a `Map`, kept as an ordered
    association list). Every method is proved equal to a specification function of
    module `Lowering` over the whole state.
  - `getUTF8Length` keeps its counting loop.
  - Module `LoweringProps` proves the properties:
    - fresh names never collide and the constant table holds each string once;
    - lowering only appends instructions and labels;
    - lowering fails exactly on the constructs that have no visitor;
    - the generated module has the layout `generate` promises.
  - Module `IrStrings` models the UTF-16 code units JavaScript indexes, the byte count
    `getUTF8Length` computes and the chain of escaping `replace` calls.
- **The front end's tree transforms**, in both revisions (`public/script.js` and
  `script.js`).
  - `stripMetadata`, `transformAlertToConsoleLog` and `transformConsoleLogToPrint` work
    over a JSON value (`JsonValue.Json`) whose objects keep their keys in insertion
    order.
  - `getAst` composes the three. The parser is a parameter.
- **`countNodes`** of the server (`server.js`).
- **The editor's undo history** (`app.js`). `saveState`, `undo` and `redo` act on the
  three globals `history`, `redoStack` and `currentStateIndex`. They are modelled as a
  class `UndoHistory.Editor` whose methods equal the step functions. Lemmas prove the
  invariant the three steps keep.
- **`Block.darkenColor`** (`app.js`). It covers `substring` over UTF-16 code units, `parseInt(…, 16)`, the scaling and
  `toString(16).padStart(2, '0')`.

A JavaScript exception is modelled as `None`, and so is a `NaN` where one can arise.

Where the code and its documented intent differ, the model follows the code. These
places are stated as lemmas:

- A string literal in a print statement is decayed to a pointer twice. The lowered
  argument emits one `getelementptr`, and the `puts` call emits another
  (`LoweringProps.PrintStringDecaysTwice`), not a single one.
- The `printf` format `'%d\\n'` holds a backslash and an `n`, not a newline. Its constant
  is declared as 5 bytes, but it is passed through a `[4 x i8]` pointer
  (`LoweringProps.FormatConstant`).
- `redo` appends the restored snapshot to `history` again. So fifty saves, an undo and a
  redo leave 51 entries, above the limit `saveState` enforces
  (`UndoHistory.RedoExceedsLimit`).
- The older `getAst` stores the rewritten tree with its positions as `ast`. Only the tree
  it displays is stripped (`FrontEnd.LegacyKeepsRootPositions`).

## Model

| member | source | states |
|---|---|---|
| LlvmGen.LLVMIRGenerator.constructor | public/llvm_gen.js:4-13 | a new generator has empty output, zero counters, no variables and an empty constant table |
| LlvmGen.LLVMIRGenerator.NewLabel | public/llvm_gen.js:16-18 | returns `label<n>` for the old label counter and increments that counter only |
| LlvmGen.LLVMIRGenerator.NewVariable | public/llvm_gen.js:21-23 | returns `%<n>` for the old variable counter and increments that counter only |
| LlvmGen.LLVMIRGenerator.NewStringConstant | public/llvm_gen.js:26-33 | returns the global already recorded for the string and changes nothing; otherwise records `@.str.<n>` at the end of the table and increments the string counter |
| LlvmGen.LLVMIRGenerator.Emit | public/llvm_gen.js:36-38 | appends exactly one line to the output |
| LlvmGen.LLVMIRGenerator.Generate | public/llvm_gen.js:41-60 | resets every field, then emits the prologue, `main` and the constants; succeeds exactly when the lowering does, and returns the output joined by newlines |
| LlvmGen.LLVMIRGenerator.AddStandardLibrary | public/llvm_gen.js:63-71 | appends the seven declaration lines and changes nothing else |
| LlvmGen.LLVMIRGenerator.AddStringConstants | public/llvm_gen.js:74-88 | appends nothing for an empty table; otherwise appends the header and one definition per entry, in table order |
| LlvmGen.LLVMIRGenerator.EmitConstant | public/llvm_gen.js:78-85 | appends the definition of one constant: the byte length plus one, and the escaped text followed by `\00` |
| LlvmGen.LLVMIRGenerator.GetUTF8Length | public/llvm_gen.js:90-100 | the loop over code units returns the UTF-8 length plus 2 for every character outside the Basic Multilingual Plane |
| LlvmGen.LLVMIRGenerator.VisitProgram | public/llvm_gen.js:102-119 | emits the header of `main`, lowers the body statements in order, and closes `main`; fails exactly when a statement fails |
| LlvmGen.LLVMIRGenerator.VisitStatement | public/llvm_gen.js:122-151 | dispatches on the statement type; a `for` loop has no visitor and fails; an unknown type emits a comment |
| LlvmGen.LLVMIRGenerator.VisitVariableDeclaration | public/llvm_gen.js:154-169 | for each declarator: allocates a slot, records the variable, and stores the lowered initializer if there is one (the new state is `LowerDeclarators`; its lines are those of `LoweringShape.DeclaratorShape`) |
| LlvmGen.LLVMIRGenerator.VisitExpressionStatement | public/llvm_gen.js:172-174 | lowers the expression and discards its value |
| LlvmGen.LLVMIRGenerator.VisitPrintStatement | public/llvm_gen.js:187-206 | lowers the argument, then uses `puts` for a string literal and `printf` with the interned format otherwise; a missing argument fails (the new state is `LowerPrint`; its lines are those of `LoweringShape.PrintShape`) |
| LlvmGen.LLVMIRGenerator.VisitIfStatement | public/llvm_gen.js:208-238 | lowers the test, the labels, the compare and branch, the consequent, the optional alternate and the end label (the new state is `LowerIf`; its block layout is `LoweringShape.IfShape`) |
| LlvmGen.LLVMIRGenerator.BranchOnTest | public/llvm_gen.js:210-222 | allocates the then label, the else label only when there is an alternate, and the end label; emits the compare and the conditional branch |
| LlvmGen.LLVMIRGenerator.VisitWhileStatement | public/llvm_gen.js:241-262 | emits the condition, body and end blocks, with the back edge to the condition (the new state is `LowerWhile`; its block layout is `LoweringShape.WhileShape`) |
| LlvmGen.LLVMIRGenerator.VisitBlockStatement | public/llvm_gen.js:265-269 | lowers the statements of the block in order |
| LlvmGen.LLVMIRGenerator.VisitReturnStatement | public/llvm_gen.js:272-279 | returns the lowered argument, or 0 when there is none (the new state is `LowerReturn`; its lines are those of `LoweringShape.ReturnShape`) |
| LlvmGen.LLVMIRGenerator.VisitExpression | public/llvm_gen.js:282-302 | dispatches on the expression type; a unary expression has no visitor and fails; an unknown type emits a comment and yields `0` |
| LlvmGen.LLVMIRGenerator.VisitLiteral | public/llvm_gen.js:305-318 | a number yields its decimal text; a string is interned and decayed to a fresh pointer; a boolean yields `1` or `0`; anything else yields `0` |
| LlvmGen.LLVMIRGenerator.VisitIdentifier | public/llvm_gen.js:321-330 | a declared variable is loaded into a fresh register; an undeclared one emits a comment and yields `0` (both cases are stated by `LoweringShape.IdentifierShape`) |
| LlvmGen.LLVMIRGenerator.VisitBinaryExpression | public/llvm_gen.js:333-384 | lowers the left operand, then the right, takes a result register, and emits the instruction for one of the thirteen operators, or a comment and `0` (the order and the line are stated by `LoweringShape.BinaryShape`) |
| LlvmGen.LLVMIRGenerator.VisitAssignmentExpression | public/llvm_gen.js:387-400 | lowers the right side and stores it into a declared identifier target; yields the value (the three target cases are stated by `LoweringShape.AssignmentShape`) |
| LlvmGen.LLVMIRGenerator.VisitUpdateExpression | public/llvm_gen.js:403-424 | for a declared identifier: load, add or subtract 1, store, and yield the new or old value by `prefix`; otherwise `0` (the three lines and the value are stated by `LoweringShape.UpdateShape`) |
| LlvmAst.IsStringExpression | public/llvm_gen.js:178-184 | a string literal, and nothing else, is a string expression; the print dispatch it selects is stated by `LoweringShape.PrintShape` |
| LlvmGen.LLVMIRGenerator.VisitCallExpression | public/llvm_gen.js:427-430 | emits a comment naming the callee and yields `0` |
| LoweringProps.RegInjective | public/llvm_gen.js:21-23 | distinct counter values give distinct register names |
| LoweringProps.LabelNameInjective | public/llvm_gen.js:16-18 | distinct counter values give distinct label names |
| LoweringProps.GlobalNameInjective | public/llvm_gen.js:30 | distinct counter values give distinct global names |
| LoweringProps.FreshVariablesDistinct | public/llvm_gen.js:21-23 | two registers taken one after the other differ |
| LoweringProps.LookupIff | public/llvm_gen.js:27-28 | a lookup in the table fails exactly when no entry has the key; when it succeeds, the table holds that key with that name |
| LoweringProps.LookupAppendNew | public/llvm_gen.js:30-31 | after an absent key is set, it is found with its new name |
| LoweringProps.InternValid | public/llvm_gen.js:26-33 | interning keeps the table invariant (distinct keys, the i-th entry named `@.str.i`, the counter equal to the size), adds at most one entry at the end, and leaves the string recorded under the returned name |
| LoweringProps.InternIdempotent | public/llvm_gen.js:27-29 | interning the same string again returns the same global and changes nothing |
| LoweringProps.InternDistinct | public/llvm_gen.js:26-33 | distinct strings are given distinct globals |
| LoweringProps.EmitGrows | public/llvm_gen.js:36-38 | emitting an indented line only appends to the output |
| LoweringProps.InternGrows | public/llvm_gen.js:26-33 | interning only appends to the table and emits nothing |
| LoweringProps.LiteralGrows | public/llvm_gen.js:305-318 | lowering a literal only appends indented instruction lines |
| LoweringProps.IdentifierGrows | public/llvm_gen.js:321-330 | lowering an identifier only appends indented instruction lines |
| LoweringProps.CombineGrows | public/llvm_gen.js:336-383 | the instruction of a binary operator is one indented line appended |
| LoweringProps.StoreAssignedGrows | public/llvm_gen.js:390-397 | the store of an assignment only appends indented lines |
| LoweringProps.UpdateGrows | public/llvm_gen.js:403-424 | lowering `++`/`--` only appends indented lines |
| LoweringProps.ExprGrows | public/llvm_gen.js:282-302 | lowering any expression only appends indented lines, keeps the table invariant, and never lowers a counter |
| LoweringProps.DeclaratorGrows | public/llvm_gen.js:155-168 | one declarator only appends indented lines |
| LoweringProps.DeclaratorsGrow | public/llvm_gen.js:154-169 | a declaration only appends indented lines |
| LoweringProps.PrintGrows | public/llvm_gen.js:187-206 | a print statement only appends indented lines |
| LoweringProps.PutsGrows | public/llvm_gen.js:192-198 | the `puts` branch only appends indented lines |
| LoweringProps.PrintfGrows | public/llvm_gen.js:199-205 | the `printf` branch only appends indented lines |
| LoweringProps.ReturnGrows | public/llvm_gen.js:272-279 | a return only appends indented lines |
| LoweringProps.IfHeadGrows | public/llvm_gen.js:209-222 | the head of an `if` only appends lines, and its end and else labels are label lines |
| LoweringProps.WhileHeadGrows | public/llvm_gen.js:242-253 | the head of a `while` only appends instruction and label lines |
| LoweringProps.WhileBranchGrows | public/llvm_gen.js:251-253 | the compare and branch of a `while` only append indented lines |
| LoweringProps.StmtGrows | public/llvm_gen.js:122-151 | lowering any statement only appends instruction and label lines, keeps the table invariant, and never lowers a counter |
| LoweringProps.IfGrows | public/llvm_gen.js:208-238 | an `if` only appends instruction and label lines |
| LoweringProps.IfEndGrows | public/llvm_gen.js:227-237 | the part of an `if` after its consequent only appends instruction and label lines |
| LoweringProps.WhileGrows | public/llvm_gen.js:241-262 | a `while` only appends instruction and label lines |
| LoweringProps.StmtsGrow | public/llvm_gen.js:265-269 | a run of statements only appends instruction and label lines |
| LoweringProps.ExprFailsIff | public/llvm_gen.js:282-302 | lowering an expression throws exactly when a unary expression is reached through binary operands and assignment right sides, the only subexpressions that are lowered |
| LoweringProps.DeclaratorsFailIff | public/llvm_gen.js:154-169 | a declaration throws exactly when an initializer throws |
| LoweringProps.StmtFailsIff | public/llvm_gen.js:122-151 | a statement throws exactly when it reaches a `for` loop, a unary expression or a print without argument |
| LoweringProps.IfFailsIff | public/llvm_gen.js:208-238 | an `if` throws exactly when its test or one of its branches does |
| LoweringProps.WhileFailsIff | public/llvm_gen.js:241-262 | a `while` throws exactly when its test or body does |
| LoweringProps.StmtsFailIff | public/llvm_gen.js:265-269 | a run of statements throws exactly when one of them does |
| LoweringProps.GenerateFailsIff | public/llvm_gen.js:437-457 | generation fails, and `generateLLVMIR` reports the failure, exactly when some top-level statement throws |
| LoweringProps.ConstantLinesIndex | public/llvm_gen.js:77-86 | the i-th line of the constant section defines the i-th entry of the table |
| LoweringProps.ProgramLayout | public/llvm_gen.js:102-119 | `main` opens with its header, holds only instructions and labels, and closes with `ret i32 0` and `}` |
| LoweringProps.GenerateLayout | public/llvm_gen.js:41-60 | the generated module is the declarations, then `main`, then the constant section; the table behind that section is valid |
| LoweringProps.CombineTakesOneRegister | public/llvm_gen.js:333-384 | a binary expression takes exactly one register and emits one line; the result is that register exactly when the operator is supported, and `0` otherwise |
| LoweringProps.SelfInitializerReadsNewSlot | public/llvm_gen.js:156-166 | in `let x = x` the initializer loads from the slot just allocated for `x` |
| LoweringProps.PrintStringDecaysTwice | public/llvm_gen.js:189-198 | a printed string literal is interned once but decayed by two `getelementptr` lines before `puts` |
| LoweringProps.FormatConstant | public/llvm_gen.js:78-85 | the `printf` format is declared as 5 bytes holding `%d\5Cn` |
| LoweringProps.FormatEscaped | public/llvm_gen.js:79-84 | escaping the format turns its backslash into `\5C` |
| LoweringProps.FormatBytes | public/llvm_gen.js:90-100 | the format counts 4 bytes |
| LoweringProps.WhileHeadShape | public/llvm_gen.js:242-249 | the three labels of a `while` are distinct, and control enters the condition block by a branch |
| LoweringProps.IfHeadShape | public/llvm_gen.js:210-225 | the labels of an `if` are distinct; a false test branches to the else label when there is one and to the end label otherwise |
| LoweringShape.ExprKeepsVariables | public/llvm_gen.js:282-302 | lowering an expression leaves the variable map and the label counter unchanged |
| LoweringShape.IdentifierShape | public/llvm_gen.js:321-330 | an identifier appends one line and keeps the variables, labels and table: for a declared variable a load from its slot into the next register, which it yields; otherwise the undefined-variable comment, yielding `0` and taking no register |
| LoweringShape.BinaryShape | public/llvm_gen.js:333-384 | a binary expression fails exactly when an operand does; the left operand's lines come first, then the right's, then one line: the instruction for the operator on the two values into the register taken after both, or the unsupported-operator comment; the result is that register or `0` |
| LoweringShape.AssignmentShape | public/llvm_gen.js:387-400 | an assignment fails exactly when its right side does, yields the right side's value, keeps the variables, and after the right side's lines appends a store into a declared identifier's slot, the undefined-variable comment for an undeclared one, and nothing for any other target |
| LoweringShape.UpdateShape | public/llvm_gen.js:403-424 | `++`/`--` on a declared variable appends the load, the add or subtract of 1 and the store into its slot, takes two registers and yields the new value when prefix and the old one otherwise; on any other target it changes nothing and yields `0` |
| LoweringShape.DeclaratorShape | public/llvm_gen.js:155-168 | a declarator appends an `alloca` into the next register and rebinds the name to it before lowering the initializer; with an initializer it then appends the initializer's lines and a store of its value into the new slot; it fails exactly when the initializer does |
| LoweringShape.ReturnShape | public/llvm_gen.js:272-279 | a return fails exactly when its argument does; it appends the argument's lines and then `ret i32` of its value, or only `ret i32 0` without an argument, and binds no variable |
| LoweringShape.PrintShape | public/llvm_gen.js:187-206 | a print fails exactly when its argument does; after the argument's lines it appends the `getelementptr` of the interned text (a string literal's, sized by its length plus one) or of the interned `printf` format (as `[4 x i8]`), and the `puts` or `printf` call on that pointer; the text is then recorded in the table under the global used |
| LoweringShape.IfShape | public/llvm_gen.js:208-238 | the labels of an `if` are the next two or three counter values, distinct; the output is the test's instructions, the compare and branch, the then label, the consequent, the jump to the end, the else block ending in the jump to the end when there is an alternate, and the end label last |
| LoweringShape.WhileShape | public/llvm_gen.js:241-262 | the labels of a `while` are the next three counter values, distinct; the output is the jump into the condition block, its label, the test's instructions, the compare and branch, the body label, the body, the jump back to the condition and the end label last |
| LoweringLabels.StmtLabels | public/llvm_gen.js:122-151 | the lines a statement appends are instructions and labels, each label numbered from the counter's value before up to its value after, and no label defined twice |
| LoweringLabels.StmtsLabels | public/llvm_gen.js:265-269 | the same for a run of statements |
| LoweringLabels.IfLabels | public/llvm_gen.js:208-238 | the same for an `if` |
| LoweringLabels.WhileLabels | public/llvm_gen.js:241-262 | the same for a `while` |
| LoweringLabels.ProgramLabels | public/llvm_gen.js:102-119 | in the body of `main` no label is defined twice, and every label was taken from the counter during `visitProgram` |
| LoweringProps.AssignmentIgnoresOperator | public/llvm_gen.js:387-400 | the operator of an assignment is ignored: `x += e` lowers like `x = e` |
| LoweringProps.CallIgnoresArguments | public/llvm_gen.js:427-430 | the arguments of a call are never lowered |
| LoweringProps.UpdateOtherOperatorStoresUndefined | public/llvm_gen.js:412-418 | an update whose operator is neither `++` nor `--` stores a register that no instruction defines |
| IrStrings.CharUnits | public/llvm_gen.js:92-93 | a character is one or two 16-bit code units; it is two exactly above U+FFFF, and then both are surrogates |
| IrStrings.Utf16UnitsInRange | public/llvm_gen.js:93 | `charCodeAt` is always below 0x10000 |
| IrStrings.Utf16LengthCounts | public/llvm_gen.js:92 | `str.length` is the number of characters plus the number above U+FFFF |
| IrStrings.UnitsBytesIsUtf8Length | public/llvm_gen.js:90-100 | the counted bytes are the UTF-8 length plus 2 per character above U+FFFF |
| IrStrings.BmpUnitsBytesExact | public/llvm_gen.js:90-100 | without characters above U+FFFF the count is the UTF-8 length |
| IrStrings.Utf8Excess | public/llvm_gen.js:94-97 | the count is at least the number of characters, with equality exactly for ASCII text |
| IrStrings.GepSizeMatchesConstantIffAscii | public/llvm_gen.js:78 | the array size in a string pointer (`length + 1`) equals the declared size of its constant exactly when the string is ASCII |
| IrStrings.ReplaceAll | public/llvm_gen.js:80-84 | a global replacement whose replacement text lacks the character leaves none of it |
| IrStrings.ReplaceAllAppend | public/llvm_gen.js:80-84 | a global replacement distributes over concatenation |
| IrStrings.EscapeAppend | public/llvm_gen.js:79-84 | the escaping chain distributes over concatenation |
| IrStrings.EscapeSingle | public/llvm_gen.js:79-84 | the chain maps each special character to its escape and leaves others alone |
| IrStrings.EscapeIsCharwise | public/llvm_gen.js:79-84 | the five chained replacements act character by character |
| IrStrings.UnescapeEscape | public/llvm_gen.js:79-84 | escaping loses nothing: reading the escapes back gives the original string |
| IrStrings.EscapedIsOneLine | public/llvm_gen.js:79-85 | an escaped constant has no line feed or carriage return, so its definition is one line |
| Text.NatToString | public/llvm_gen.js:17 | a counter is written as a non-empty run of decimal digits |
| Text.ParseNatToString | public/llvm_gen.js:17 | reading the digits back gives the counter |
| Text.PrefixedNumberInjective | public/llvm_gen.js:22 | a fixed prefix followed by a counter names that counter uniquely |
| JsonValue.LookupPut | public/script.js:82-83 | after a key is assigned, it reads the new value and every other key reads as before |
| JsonValue.KeysPut | public/script.js:82-83 | assigning an existing key keeps the key order; a new key is appended last |
| JsonValue.LookupRemove | public/script.js:84 | after `delete`, the key reads `undefined` and every other key reads as before |
| JsonValue.KeysRemove | public/script.js:84 | `delete` removes exactly that key |
| JsonValue.GetSetIn | public/script.js:63-64 | assigning a field of an object changes only that field |
| JsonValue.GetDeleteIn | public/script.js:84 | deleting a field of an object changes only that field |
| JsonValue.PutSize | public/script.js:82-83 | replacing a field changes the size of the tree by the difference of the values |
| JsonValue.RemoveSizeBound | public/script.js:84 | deleting a field does not enlarge the tree |
| AstStrip.Strip | public/script.js:38-51 | a value that is not an array or object is returned unchanged; objects stay objects; an array stays an array of the same length whose element i is element i stripped, so order is kept |
| AstStrip.StripLookup | public/script.js:43-46 | in a stripped object `start` and `end` read `undefined`, and every other key reads its stripped value |
| AstStrip.StripKeys | public/script.js:43-46 | the stripped object keeps the other keys in their order |
| AstStrip.StripRemovesMetadata | public/script.js:38-51 | no `start` or `end` key is left at any depth |
| AstStrip.StripFixpointIff | public/script.js:38-51 | stripping changes a tree exactly when it has a `start` or `end` key somewhere |
| AstStrip.StripIdempotent | public/script.js:38-51 | stripping twice is stripping once |
| AstRewrite.RenameCalleeSize | public/script.js:63-64 | renaming the callee keeps the size of the node |
| AstRewrite.MakePrintSize | public/script.js:82-84 | turning a call into a print makes the node strictly smaller |
| AstRewrite.Visit | public/script.js:57-65 | the local rewrite keeps the kind of node, does not enlarge it, and leaves a node that does not match unchanged |
| AstRewrite.Rewrite | public/script.js:54-70 | a value that is not an array or object is left alone; arrays stay arrays and objects stay objects |
| AstRewrite.RewriteGet | public/script.js:67-69 | after the walk, every field of a node is the walked field of the locally rewritten node |
| AstRewrite.VisitGet | public/script.js:63-64 | the local rewrite leaves every key it does not assign or delete unchanged |
| AstRewrite.MatchAfterRewrite | public/script.js:66-69 | the walk below a node neither creates nor destroys a call statement at that node |
| AstRewrite.RenameCalleeMatches | public/script.js:57-64 | a renamed `window.alert` call statement is a `console.log` call statement and no other |
| AstRewrite.RewriteLeavesNoTarget | public/script.js:54-90 | after either walk no statement calls its target at any depth |
| AstRewrite.RewriteUnchanged | public/script.js:54-90 | a tree with no target call is left unchanged |
| AstRewrite.LogToPrintAddsNoCall | public/script.js:73-90 | the second walk creates no call statement of any kind |
| AstRewrite.AlertBecomesLog | public/script.js:57-69 | a `window.alert` statement becomes a `console.log` statement with the same, walked, arguments |
| AstRewrite.LogBecomesPrint | public/script.js:76-89 | a `console.log` statement becomes a `PrintStatement` whose `argument` is the walked first argument and which has no `expression` |
| AstRewrite.RewriteFirstItem | public/script.js:83 | the walk commutes with taking the first argument |
| FrontEnd.GetAst | public/script.js:138-172 | with no code `ast` is unchanged; when parsing throws `ast` becomes `''`; otherwise `ast` is the parsed tree with `window.alert` rewritten, then `console.log` rewritten, then positions stripped, and so has no positions and no `window.alert` or `console.log` statement at any depth |
| FrontEnd.LegacyGetAst | script.js:92-109 | when parsing throws `ast` is unchanged and no tree is shown (the failure message is DOM output, left out); otherwise `ast` is the parsed tree with the two rewrites applied in the same order, and the shown tree is `ast` stripped |
| FrontEnd.StripMatch | public/script.js:38-51 | stripping neither creates nor destroys a call statement at the root |
| FrontEnd.StripAddsNoCall | public/script.js:38-51 | stripping creates no call statement at any depth |
| FrontEnd.TransformedIsClean | public/script.js:151-153 | the transformed tree has no positions and no `window.alert` or `console.log` statement |
| FrontEnd.AlertBecomesPrint | public/script.js:151-153 | a `window.alert(x)` statement ends up as a `PrintStatement` whose argument is the transformed `x` and which has no `expression` |
| FrontEnd.ReversedOrderKeepsCall | public/script.js:151-152 | run in the other order, the walks would leave a `window.alert` statement as a `console.log` call |
| FrontEnd.RevisionsAgree | script.js:92-109 | both revisions show the same tree, and the current revision keeps as `ast` exactly the tree the older one shows |
| FrontEnd.LegacyKeepsRootPositions | script.js:94-101 | the older revision keeps in `ast` the positions of the program root |
| NodeCount.CountNodes | server.js:37-50 | a value that is not a non-null object counts 0, and an object counts at least 1 |
| NodeCount.SumCountsAppend | server.js:39-41 | counting an array is counting its elements one after the other |
| NodeCount.CountIsObjects | server.js:37-50 | the count is the number of object nodes in the tree |
| NodeCount.Objects | server.js:43-48 | the reference enumeration lists only objects |
| NodeCount.CountAfterStrip | server.js:37-50 | stripping positions never adds nodes, and removes none when all positions are numbers |
| UndoHistory.InitialValid | app.js:45-47 | the initial globals satisfy the history invariant |
| UndoHistory.SaveSpec | app.js:1038-1074 | a save keeps the invariant, makes the snapshot current and last, empties the redo stack, keeps the latest entries up to the old current one, and keeps a history of at most 50 entries within 50 |
| UndoHistory.UndoSpec | app.js:1122-1131 | an undo keeps the invariant and the history; it steps back and loads the earlier entry, pushing the one it left; at the first entry it changes nothing |
| UndoHistory.RedoSpec | app.js:1133-1143 | a redo keeps the invariant, loads the entry after the current one and makes it current, and appends it to the history again; with nothing to redo it changes nothing |
| UndoHistory.UndoRedo | app.js:1122-1143 | undo then redo comes back to the same entry and redo stack, with that entry duplicated at the end |
| UndoHistory.SaveAll | app.js:1038-1074 | any run of saves keeps the invariant |
| UndoHistory.SaveAllFills | app.js:1064-1072 | below the limit, each save adds one entry and makes it current |
| UndoHistory.RedoExceedsLimit | app.js:1068-1072 | fifty saves, an undo and a redo leave 51 entries |
| UndoHistory.Editor.constructor | app.js:45-47 | the globals start empty with index -1 |
| UndoHistory.Editor.SaveState | app.js:1059-1073 | truncates after the current entry and clears the redo stack when the index is not last, pushes, and drops the oldest entry above 50 |
| UndoHistory.Editor.Undo | app.js:1122-1131 | performs one undo step and returns the snapshot given to `loadState` |
| UndoHistory.Editor.Redo | app.js:1133-1143 | performs one redo step and returns the snapshot given to `loadState` |
| BlockColor.DarkenColor | app.js:523-535 | the result starts with `#` and holds three channels of at least two characters each; its channels are stated by `BlockColor.DarkenSpec` and `BlockColor.DarkenShape` |
| BlockColor.BmpSubstring | app.js:525-527 | on text without characters above U+FFFF, `substring` over UTF-16 code units cuts the same characters as a cut by characters |
| BlockColor.SupplementaryColour | app.js:524-527 | channels are cut by code units: `#\U{1F600}ab` darkened by 20 gives `#NaN88NaN`, the surrogate pair filling the red channel |
| BlockColor.HexRun | app.js:526-528 | the digits `parseInt` reads are a run of hexadecimal digits that cannot be extended |
| BlockColor.HexStringDigits | app.js:534 | `toString(16)` writes lowercase digits with no leading zero |
| BlockColor.HexStringValue | app.js:534 | `toString(16)` writes the value it is given |
| BlockColor.ToHexRoundTrip | app.js:526-534 | `parseInt(…, 16)` reads back what `toString(16).padStart(2, '0')` writes |
| BlockColor.ChannelParses | app.js:526-528 | each channel of a `#rrggbb` colour parses to its value, below 256 |
| BlockColor.DarkChannelSpec | app.js:526-534 | one darkened channel is two lowercase digits holding the scaled value, never above the original |
| BlockColor.DarkenShape | app.js:524-536 | darkening a `#rrggbb` colour gives a lowercase `#rrggbb` colour |
| BlockColor.DarkenSpec | app.js:524-536 | every channel of the result is the channel scaled by `(100 - percent) / 100`, rounded down, and never above the original |
| BlockColor.DarkenFully | app.js:530-532 | darkening by 100 percent gives `#000000` whenever the three channels parse |
| BlockColor.ShorthandColour | app.js:525-535 | a shorthand colour is not expanded: `#fff` darkened by 20 gives `#cc0cNaN` |

## Left out

- The DOM, the canvas, events, `alert`/`console` output, `fetch` and the server's HTTP
  layer: they are I/O. `sendLLVMIRToServer` and the display in `generateLLVMIR` are left
  out; the result of `generate` is returned instead.
- acorn is not part of this model. Its result is a parameter of `FrontEnd.GetAst`, and
  `None` stands for a parse error.
- `loadState` and the `JSON.stringify` of the blocks in `saveState`: a snapshot is an
  opaque string, and the snapshot `loadState` would receive is returned.
- Floating point: numbers are integers. A fractional literal, `percent` outside 0 to 100
  and non-integer results of `darkenColor` are not modelled.
- Strings are sequences of Unicode scalar values. A lone surrogate in a JavaScript
  string cannot be represented, so `getUTF8Length` and `darkenColor` are modelled on
  well-formed strings. Where JavaScript indexes code units (`length`, `charCodeAt`,
  `substring`), the model indexes `IrStrings.Utf16Units`.
- The transforms of the front end mutate the parsed tree in place. They are modelled as
  functions on a value that return the new tree. Aliasing between nodes does not arise
  in a parsed tree and is not modelled.
- `node.expression.arguments[0]` throws when `arguments` is missing. The model reads it
  as `undefined`; acorn always supplies the array.
- An object with the same key twice cannot come from the parser. The model's lookups
  read the first occurrence of a key.
- `UndoHistory.Editor.Undo`: requires `currentStateIndex < history.length`, which every
  state reachable from the initial globals satisfies (`UndoHistory.Valid`); beyond it,
  JavaScript would load `undefined`.
- `UndoHistory.Editor.SaveState`: requires `currentStateIndex >= -1`, which every
  reachable state satisfies.
- The generator's `functions` map and `currentFunction` field: the constructor sets
  them and `generate` clears `functions`, but no method reads either, so they do not
  affect the output.
- The `Date`-based and random block ids, the UI of the editor and the other `Block`
  methods are outside the modelled core.
- The state a JavaScript exception leaves behind in the generator (partial output) is
  not modelled: a failing method reports failure and its final state is unconstrained.
