# A verified model of the muon-js engine core

muon-js is a small JavaScript engine. This project models its core in Dafny and proves that the parts do what they
are for. Each file is one module, beside the source file it models:

- **Compiler and machine** (`src/compiler.rs`, `src/vm.rs`, `src/bytecode.rs`). `Compiler` is the one-pass compiler
  with its cursor, code buffer, constant pool, slots and patched jumps, as classes. It is proved equal, on the UTF-8
  bytes of any text, to `Grammar` (what a text denotes, as a tree) followed by `CodeGen` (structural compilation of
  the tree). `Machine` is the stack machine as a step function, with the interpreter loop proved equal to it.
  `Reference` says what a program means by names and trees only; what a `for` update means, it takes from `Updates`,
  which says how the updates are spelled. `Simulation` and `StmtSimulation` prove that compiled code does what the
  reference says, for any host, any stack and any number of loop rounds, whether it ends or not. `Safety` proves the
  bytecode well formed and every run safe. `Calls` joins these for whole calls, and `CountedLoop` and `Returns` follow
  small functions from their texts to what the compiled code returns: how many rounds a counting loop takes, what
  conditionals, calls, stores and updates give. `Operators` tells the operators on integers and truth values by their
  answers. `Printer` proves that printing and reading a tree are inverse, `Precedence` the same for prints without
  needless parentheses, which is how tightly every operator holds its operands; `NumberTokens` says which texts are
  number literals. `Utf8`, `Literals` and `LiteralCode` say what becomes of string literals outside ASCII, and
  `Keywords` of variables whose names are words of their own. `UpdateForms` proves which texts become one increment
  instruction, `UpdateTexts` what those texts mean as expressions, and `FastForms` exactly when the increment, and the
  integer paths of the operators, do what the general forms do.
- **Heap** (`src/context.rs`, `src/value.rs`). `PropertyModel` and `PropertyStore`: the linked property list and the
  hash map that shadows it. `Arena`: tagged words, the bump allocator, growable arrays in it. `Atoms`: the interning
  table under any hash function. `Marker`: the worklist marker on any graph.
- **Algorithms**. `JsonText`, `JsonParser`, `JsonRoundTrip` (`src/json.rs`), with `JsonNumbers` and `JsonDocs` for the
  grammar of RFC 8259 and `PropertyNames` for keys that are indexes (`src/context.rs`); `Comments` and `CommentPieces`
  (`src/evals.rs`, `src/context.rs`); `ArrayBuiltins` and `TypedArrays` (`src/api/eval_expr.rs`,
  `src/api/typed_array.rs`); `Radix` (`src/api/number_fmt.rs`, `src/api/eval_expr.rs`).

Code that works in place is modelled in place: classes with `modifies` clauses and loops with invariants, each proved
against a function, and the laws are proved about the functions. `Values`, `Bytecode`, `Syntax`, `Texts`,
`Lexer` and `Arithmetic` hold the shared vocabulary.

Calls, property reads, slow paths of operators, number texts and floating-point results are parameters: `Values.Host`
for the machine, `JsonText.Numbers` for JSON. All theorems hold for every choice of them, with the assumptions named
where they are used: that results too large for a word are boxed (`FastForms.Boxes`), that digits are read as the number
they are and boxed integers are negated exactly (`FastForms.ExactHost`), that the numerals 0 and 1 are read as these
integers (`CountedLoop.ReadsBits`), and that the text of an integer is read as that integer
(`JsonRoundTrip.ReadsIntegers`).

## Where the engine does less than one would expect

Each of these is a lemma with the exact condition, or with an input that shows it.

- After a delete takes an object from nine properties to eight, its hash map stays behind and is not rebuilt when the
  object grows again. From then on new properties are invisible, overwritten ones give their old values and deleted ones
  are found again (`PropertyModel.DeleteKeeps`, `StaleIndexHides`, `StaleIndexOverwritten`, `StaleIndexDeleted`;
  `StaleIndexReachable` gives a run). The same file proves the law without this restriction for a repaired delete, which
  is not in the engine.
- A property write on an object with a map writes the map before it allocates the list node, so a failed allocation
  leaves the two different (`PropertyModel.SetKeeps`). The conditions are exact for each step and for whole runs: list and
  map agree throughout exactly when no step breaks one (`SafeExactly`), and lookups are those of a plain map throughout
  exactly when no write loses its node or grows the object to nine under a map that says something else (`RightExactly`).
- The compiler takes a text byte by byte, so a character outside ASCII in a string literal becomes several characters:
  `"é"` is a string of two (`Literals.AccentSplits`). A printed tree is read back as itself exactly when its string
  literals are ASCII (`Literals.RoundTrip`, `LiteralCode.PrintedCompiles`); with escapes every string can be written
  (`EveryStringHasALiteral`).
- Arguments beyond the parameters fill the slots of local variables, and a repeated parameter name shifts the arguments
  after it by one (`Calls.EntryBinds`, `RepeatsMisplace`, `SurplusArgumentSeen`, `RepeatedParameterSeen`).
- A `for` update by `IncLocal` wraps at 32 bits where the general form widens: the two agree exactly when the exact result
  fits (`FastForms.StrengthReduction`). Integer fast paths lose minus zero (`FastPathExact`, `NegateExact`), and dividing
  the least integer by -1 panics (`PanicsOnlyAtMinimum`).
- The words `true`, `false`, `null`, `undefined` and `Number` are read as themselves even where a parameter or a `var` has
  that name, although writes reach the local (`Keywords.NameReads`, `ParameterReturned`): `function (Number) { return
  Number }` returns the global (`NumberParameterSeen`).
- `x++` and `x--` are refused as expressions, and so is `x -= e` where `x` is not local (`Precedence.DoubledRefused`,
  `DecrementRefused`).
- An assignment holds its operands tighter than a comparison: `a = b < c` is read as `(a = b) < c`
  (`Precedence.AssignmentsSeen`). All comparisons have one rank: `a == b < c` is `(a == b) < c` (`LeftSeen`).
- A backslash before a character that begins no escape stays in the string (`Literals.UnknownEscape`).
- `&&` and `||` evaluate both operands; a name is local only once its `var` has been compiled; a prefix `+` does nothing.
  The reference follows the code in all three.
- Sorting without a comparator orders an array exactly when every element has a number or no two differ: `[2, NaN, 1]`
  stays as it is (`ArrayBuiltins.DefaultOrders`, `NoNumberBlocks`).
- Numbers past 64 bits do not wrap in typed arrays of 8 and 16 bits: the nearer end of the 64-bit range is stored instead
  (`TypedArrays.ReadBack` with the exact condition, `SaturationSeen`, `DoublesThatWrap`).
- JSON text with control characters other than tab, line feed and carriage return is written raw and refused on reading
  (`JsonRoundTrip.RoundTrip`), and keys are written without escapes (`KeyComesBack`). A name of digits is an index:
  `{"01":null}` is read as an object with the property `1` (`KeyRead`, `PropertyNames.OneProperty`).

## Model

| member | source | states |
|---|---|---|
| Values.Wrap32 | src/vm.rs:85-102 | the 32-bit word left by a wrapping addition: congruent to the exact sum, and equal to it when it fits |
| Values.DivExactFits | src/vm.rs:230-246 | an exact integer quotient fits a word except for the least integer over -1 |
| Values.RemFits | src/vm.rs:248-266 | an integer remainder always fits a word |
| Bytecode.IndexOf | src/compiler.rs:368-379 | the first position of a name, or the length when it is absent; a constant pool and the slots are searched this way |
| Bytecode.IndexOfFirst | src/compiler.rs:368-379 | that position is the only one with no equal entry before it |
| CodeGen.PatchOnly | src/compiler.rs:464-469 | patching sets the target of one instruction to the end of the code; its operation and amount, and every other instruction, stay |
| CodeGen.CompileExpr | src/compiler.rs:471-841 | compiling an expression declares no name |
| CodeGen.CompileArgs | src/compiler.rs:741-765 | compiling arguments declares no name |
| CodeGen.Declare | src/compiler.rs:368-375 | a declared name is local afterwards, earlier slots keep their names, and no name gets a second slot |
| CodeGen.LiteralMeaning | src/compiler.rs:769-841 | the words `true` and `false` are what `!` answers, and a test takes exactly the other words, the empty string, unreadable numbers and zeros for false |
| CodeGen.LiteralsApart | src/compiler.rs:769-841 | different literals that are not numbers have different values |
| UpdateForms.Recognised | src/compiler.rs:224-306 | every spelling of `x++`, `x--`, `++x`, `--x`, `x += N` and `x -= N` on a local becomes one `IncLocal` of its slot by its amount, in 32 bits |
| UpdateForms.IncrementFormIs | src/compiler.rs:224-306 | a text becomes an increment of a slot by an amount if and only if it is one of these six, spelled with any white space, of the local in that slot, with that amount |
| UpdateTexts.GeneralText | src/compiler.rs:567-626 | as an expression, the text `x += N` or `x -= N` is the update tree of that name, sign and numeral |
| CodeGen.AttachCode | src/compiler.rs:694-767 | the code of an operand with a suffix is the code of the operand, then that of the suffix |
| Compiler.StmtCompiler.AddParams | src/compiler.rs:68-72 | parameters take slots in order, a repeated one none |
| Compiler.StmtCompiler.FindLocal | src/compiler.rs:377-379 | the slot of a name, if it is local |
| Compiler.StmtCompiler.EnsureLocal | src/compiler.rs:368-375 | the slot of a name, made if absent |
| Compiler.StmtCompiler.SharedConst | src/compiler.rs:381-418 | the pool index of an equal constant, or of a new last one |
| Compiler.StmtCompiler.Emit | src/compiler.rs:440-446 | one instruction more |
| Compiler.StmtCompiler.EmitShared | src/compiler.rs:448-456 | an instruction whose operand is a pooled constant |
| Compiler.StmtCompiler.EmitLiteral | src/compiler.rs:769-841 | the code of a literal |
| Compiler.StmtCompiler.EmitLoad | src/compiler.rs:828-835 | a name is read from its slot if it is local by now, else as a global |
| Compiler.StmtCompiler.EmitStore | src/compiler.rs:567-626 | a name is written to its slot, or as a global, and its value stays on the stack |
| Compiler.StmtCompiler.EmitJump | src/compiler.rs:458-462 | a jump with its target still open |
| Compiler.StmtCompiler.PatchJump | src/compiler.rs:464-469 | the open jump now leads to the end of the code |
| Compiler.StmtCompiler.CompileFullExpr | src/compiler.rs:356-366 | accepts exactly the texts whose bytes are one expression to their end, and appends the code of that expression; each byte of a character outside ASCII is a character of its own |
| Compiler.StmtCompiler.CompileStmt | src/compiler.rs:90-156 | one statement: same acceptance and same code as the structural compiler |
| Compiler.StmtCompiler.CompileIf | src/compiler.rs:308-354 | `if`, `else if`, `else` with both jumps patched in place |
| Compiler.StmtCompiler.CompileLoop | src/compiler.rs:158-222 | the loop with its test, its body, its update, the jump back and the patched exit |
| Compiler.StmtCompiler.TryCompileIncUpdate | src/compiler.rs:224-306 | emits one `IncLocal` exactly for the texts that `UpdateForms.IncrementFormIs` names, and nothing for the others |
| Compiler.StmtCompiler.CompileUpdate | src/compiler.rs:200-222 | the update: an increment form, or an expression that is dropped |
| Compiler.StmtCompiler.CompileStmts | src/compiler.rs:75-83 | statements in order |
| Compiler.CompileBody | src/compiler.rs:75-88 | a whole function: declarations, statements and the final `return undefined` are those of the structural compiler, for any texts |
| Compiler.ExprCompiler.SkipWs | src/compiler.rs:976-980 | stands where the grammar says white space ends |
| Compiler.ExprCompiler.ParseIdentifier | src/compiler.rs:951-968 | reads the identifier the grammar sees |
| Compiler.ExprCompiler.ParseNumber | src/compiler.rs:922-949 | reads the number token the grammar sees |
| Compiler.ExprCompiler.ParseStringLiteral | src/compiler.rs:843-920 | reads the literal with its escapes, byte by byte, or finds it unterminated |
| Compiler.ExprCompiler.ParseEscape | src/compiler.rs:852-912 | one escape: named, `\xHH`, `\uHHHH` or `\u{...}`, or a backslash that stands for itself |
| Compiler.ExprCompiler.ParseComma | src/compiler.rs:471-483 | one pass is parsing then compiling, at the comma level |
| Compiler.ExprCompiler.ParseConditional | src/compiler.rs:485-502 | the same with the test of a conditional and its two branches |
| Compiler.ExprCompiler.ParseBranches | src/compiler.rs:485-502 | the branches with both jumps patched |
| Compiler.ExprCompiler.ParseLogicalOr | src/compiler.rs:504-516 | the same for `||` |
| Compiler.ExprCompiler.ParseLogicalAnd | src/compiler.rs:518-530 | the same for `&&` |
| Compiler.ExprCompiler.ParseComparison | src/compiler.rs:532-565 | the same for the comparison operators |
| Compiler.ExprCompiler.ParseAssignment | src/compiler.rs:567-626 | the same for `=`, `+=` and `-=`, or none of them |
| Compiler.ExprCompiler.ParseUpdate | src/compiler.rs:575-604 | the code of `x += e`: `x` is loaded before `e` runs |
| Compiler.ExprCompiler.ParseExpr | src/compiler.rs:628-649 | the same for `+` and `-` |
| Compiler.ExprCompiler.ParseTerm | src/compiler.rs:651-669 | the same for `*`, `/` and `%` |
| Compiler.ExprCompiler.ParseFactor | src/compiler.rs:671-692 | the same for prefix operators; `+` emits nothing |
| Compiler.ExprCompiler.ParsePostfix | src/compiler.rs:694-767 | the same for any chain of suffixes |
| Compiler.ExprCompiler.ParseProperty | src/compiler.rs:698-732 | a property read, or a method call that keeps its receiver |
| Compiler.ExprCompiler.ParseArguments | src/compiler.rs:741-765 | arguments in order, with their number |
| Compiler.ExprCompiler.ParsePrimary | src/compiler.rs:769-841 | the same for literals, names and parentheses |
| Keywords.WordReads | src/compiler.rs:793-836 | a text that is one word is `true`, `false`, `null`, `undefined`, the global `Number`, or else the variable of that name, whatever is in scope |
| Keywords.NameReads | src/compiler.rs:793-836 | the text of a name in scope reads the local in every environment if and only if it is none of these five words |
| Utf8.BytesInjective | src/compiler.rs:430-438 | different texts have different bytes |
| Utf8.AsReadSame | src/compiler.rs:913-918 | a text taken byte by byte is the same text if and only if it is ASCII |
| Utf8.EncodedSeen | src/compiler.rs:432-438 | encodings of two, three and four bytes |
| Printer.ReadsBack | src/compiler.rs:356-366 | for every tree with non-keyword names, reading its parenthesised print, as the compiler's input, consumes all of it and gives the tree |
| Literals.PrintReads | src/compiler.rs:843-920 | for every such tree, reading the bytes of its print gives the tree with each string literal taken byte by byte |
| Literals.RoundTrip | src/compiler.rs:843-920 | which is the tree itself if and only if its string literals are ASCII |
| Literals.AccentSplits | src/compiler.rs:913-918 | the literal `"é"` is read as the two characters U+00C3 and U+00A9 |
| Literals.EveryStringHasALiteral | src/compiler.rs:852-912 | every string, ASCII or not, is what some ASCII literal is read as, by way of the named and code point escapes |
| Literals.FixedEscape | src/compiler.rs:866-909 | `\xHH` and `\uHHHH` stand for the character of that number, and for nothing when it is a surrogate |
| Literals.LetterEscape | src/compiler.rs:852-872 | the escapes of one letter, by the code of the character each stands for |
| Literals.UnknownEscape | src/compiler.rs:911 | a backslash stands for itself if and only if the character after it begins no escape |
| Literals.UnknownEscapeKept | src/compiler.rs:911 | the literal `"\q"` is read as a string of two characters, for every such ASCII character |
| Printer.ReadBody | src/compiler.rs:471-841 | the print of a tree is read back wherever it stands in a text, up to the parenthesis after it |
| Printer.InfixAt | src/compiler.rs:504-669 | a parenthesised operand, an operator and another are read as that operation, at every level of precedence |
| LiteralCode.PrintedCompiles | src/compiler.rs:356-366 | compiling the printed form of a tree emits the instructions and constants of the tree if and only if its string literals are ASCII |
| Precedence.ShownReads | src/compiler.rs:471-842 | for every tree, its print with only the parentheses that the ranks of its operators ask for is read back as that tree: ranks and associativity of all operators, signs, conditionals, assignments, suffixes and arguments |
| Precedence.ShownReadsFull | src/compiler.rs:356-366 | the same from the bytes of the print, when that is ASCII |
| Precedence.Chain | src/compiler.rs:504-670 | for every three trees and every two infix operators in a row: the first goes first unless the second has the higher rank |
| Precedence.SignFirst | src/compiler.rs:671-692 | a prefix operator goes before any infix operator after its operand |
| Precedence.LeftSeen | src/compiler.rs:532-670 | `a - b - c` is `(a - b) - c`, and so for `a / b * c` and `a == b < c` |
| Precedence.RanksSeen | src/compiler.rs:504-670 | products before sums, sums before comparisons, those before `&&`, that before `||` |
| Precedence.ConditionalsSeen | src/compiler.rs:485-502 | conditionals nest to the right |
| Precedence.SignsSeen | src/compiler.rs:671-767 | `-a.b * c` is `(-(a.b)) * c` |
| Precedence.AssignmentsSeen | src/compiler.rs:532-626 | `a = b < c` is read as `(a = b) < c` |
| Precedence.CommasSeen | src/compiler.rs:471-483 | a comma separates more than a conditional does |
| Precedence.DoubledRefused | src/compiler.rs:628-649 | after any operand two plus or two minus signs in a row are refused, so `x++` is no expression |
| Precedence.DecrementRefused | src/compiler.rs:567-626 | `x -= ...` is refused where `x` is not local, whatever follows |
| NumberTokens.NumberTextIs | src/compiler.rs:922-949 | the number literals are exactly the texts of digits, a fraction and an exponent, each with what may be missing, that the host can read |
| NumberTokens.TokenSpan | src/compiler.rs:922-949 | such a literal is read to its end wherever it stands |
| Machine.RunModule | src/vm.rs:31-751 | the interpreter loop is the given number of single steps from the entry state |
| Machine.ExecSplit | src/vm.rs:59-751 | runs compose |
| Machine.OneEnd | src/vm.rs:59-751 | a run has at most one end |
| Machine.EndOrSurvive | src/vm.rs:59-751 | a run ends if and only if it does not survive some number of steps |
| Simulation.SimExpr | src/compiler.rs:471-841 | expression compilation preserves meaning in any context: between any code, over any stack, the reference value lands on top and the effects are the reference effects |
| Simulation.SimCond | src/compiler.rs:485-502 | the same for conditionals, through their patched jumps |
| Simulation.SimUpdate | src/compiler.rs:575-604 | the same for `+=` and `-=`, with the old value read first |
| Simulation.SimInvoke | src/compiler.rs:698-732 | the same for method calls, with the receiver passed on |
| Simulation.ExprGrows | src/compiler.rs:471-841 | an expression only appends code and constants, and never touches jumps before it |
| StmtSimulation.SimStmt | src/compiler.rs:90-134 | statement compilation preserves meaning, for any number of loop rounds |
| StmtSimulation.SimIf | src/compiler.rs:308-354 | the same for `if` and its `else` |
| StmtSimulation.SimLoop | src/compiler.rs:158-222 | the same for `for`: whichever round it ends in, or if it never ends |
| StmtSimulation.BodyCorrect | src/compiler.rs:75-88 | a compiled function ends as the reference ends, with the same value, globals and host state; while the reference goes on, so does the machine |
| StmtSimulation.SameEnds | src/vm.rs:31-751 | machine and reference end together: one ends with a result if and only if the other does |
| StmtSimulation.ScopeStaysDistinct | src/compiler.rs:368-375 | no name ever has two slots |
| Safety.TypeExpr | src/compiler.rs:471-841 | an expression nets one value, and jumps only ahead |
| Safety.TypeStmts | src/compiler.rs:90-134 | a statement nets nothing, and jumps backward only along the edges of its loops |
| Safety.BodyWellFormed | src/compiler.rs:212-219 | a compiled function has one stack depth per program point, operands in range, jumps inside the code and a `Return` at the end; an instruction jumps backward if and only if it is the last of a loop, and then to where that loop begins |
| Safety.NoEdges | src/compiler.rs:158-222 | code without `for` has no backward jump |
| Safety.StepStands | src/vm.rs:59-751 | a step keeps the depth, the slots and the program counter in range, or ends cleanly |
| Safety.BodySafe | src/vm.rs:13-20 | whatever the host does, no run underflows the stack, reads a missing constant or slot, or leaves the code |
| Safety.LoopFreeEnds | src/compiler.rs:212-219 | without `for` a run ends within as many steps as the function has instructions |
| Calls.EntryBinds | src/vm.rs:42-48 | for any parameter list, repeated names included, the entry state binds each parameter to its argument if and only if each slot gets the argument of the last parameter of its name and every surplus argument that meets a slot is undefined |
| Calls.RepeatsMisplace | src/compiler.rs:68-72 | without surplus arguments, every call lands if and only if no parameter name is repeated |
| Calls.CallCorrect | src/vm.rs:31-751 | under that condition a call ends exactly as the reference call ends |
| Calls.SurplusArgumentSeen | src/vm.rs:42-48 | a surplus argument does reach a local: a function and its calls that show it |
| Calls.RepeatedParameterSeen | src/compiler.rs:68-72 | a repeated parameter moves the arguments after it: a function and its calls that show it |
| Keywords.ParameterReturned | src/compiler.rs:793-836 | `function (x) { return x }` returns its argument in every call if and only if `x` is none of the five words |
| Keywords.NumberParameterSeen | src/compiler.rs:814-827 | `function (Number) { return Number }` returns the global in every call |
| CountedLoop.Rounds | src/compiler.rs:158-222 | the loop with the test `x < n` and the update `x++` takes exactly as many rounds as `x` is below `n`, and what its body keeps from round to round holds at its end |
| CountedLoop.CountToMeans | src/compiler.rs:158-222 | what `function (n) { var c = 0; for (var i = 0; i < n; i++) { c = c + 1 } return c }` means, and that it is cut off with one round less |
| CountedLoop.CountsToArgument | src/vm.rs:31-751 | compiled from its texts and run, that function returns `n`, or 0 for a negative `n` |
| CountedLoop.EndlessRuns | src/compiler.rs:158-222 | compiled, `for (;;) {}` reaches no end |
| Returns.TextReturned | src/compiler.rs:107-118 | a compiled `return` of any text ends as the tree of the text does in the environment of the arguments |
| Returns.LiteralReturns | src/compiler.rs:769-841 | a literal returns what it stands for: the number the host reads, the string, `true`, `false`, `null`, undefined |
| Returns.SignsReturn | src/compiler.rs:671-692 | `+a` returns `a` as it is; `-a`, `!a`, `~a` and `Number(a)` what the operator answers |
| Returns.ConditionalReturns | src/compiler.rs:485-502 | `return a ? b : c` gives the second argument, or the third when the first is false |
| Returns.IfReturns | src/compiler.rs:308-354 | `if (a) { return b } else { return c }` does the same |
| Returns.DifferenceReturns | src/compiler.rs:628-649 | `return a - b - c` takes both from the first |
| Returns.CallReturned | src/compiler.rs:694-767 | `return a(b, c)` calls the first argument with the two others in order, without receiver |
| Returns.MethodReturned | src/compiler.rs:694-767 | `return a.f(b, c)` reads the property first and calls it on the object |
| Returns.ReadsReturn | src/compiler.rs:694-767 | `return a.f` and `return a[b]` are the reads of that object with that name or index |
| Returns.StoresReturn | src/vm.rs:70-149 | a store to a parameter is seen by the next read and not outside; a store to another name makes that global |
| Returns.UpdateReturns | src/compiler.rs:567-626 | `a += (a = b)` adds to the value `a` had before |
| Returns.NothingReturned | src/compiler.rs:82-107 | a function without `return`, or with an empty one, returns undefined |
| FastForms.StrengthReduction | src/compiler.rs:224-306 | for every update text that becomes an increment, on a local that holds an integer: the increment does what the load, the addition or subtraction of its constant and the store do, if and only if the exact result fits 32 bits |
| FastForms.StrengthReductionText | src/compiler.rs:224-306 | for `x += N` and `x -= N` the same, against the value of that very text as an expression |
| FastForms.FastPathExact | src/vm.rs:151-266 | each integer fast path gives the double result if and only if that is not minus zero |
| FastForms.NegateExact | src/vm.rs:266-279 | integer negation gives the double result if and only if the operand is not zero |
| FastForms.PanicsOnlyAtMinimum | src/vm.rs:230-266 | the only integer operands on which the machine panics |
| Operators.LessIs | src/vm.rs:309-321 | `a < b` answers true for integers if and only if something positive is missing from `a` to `b` |
| Operators.Trichotomy | src/vm.rs:295-321 | of `a < b`, `a === b` and `b < a` exactly one answers true, and `===` exactly for the same integer |
| Operators.OtherComparisons | src/vm.rs:281-363 | `>` is `<` the other way round, `==` is `===` on integers, and `<=`, `>=`, `!=`, `!==` answer the negations of `>`, `<`, `==`, `===` |
| Operators.AlwaysAnswers | src/vm.rs:281-363 | a comparison of integers always answers true or false |
| Operators.FalsyValues | src/evals.rs:544-563 | a test takes exactly these values for false: undefined, null, `false`, 0, the empty string, and the doubles the host calls zero |
| Operators.LogicalAnswers | src/vm.rs:371-383 | `&&` and `||` answer one of their operands, the one `!` tells, and their answers are true when both or one of them are |
| Operators.BitNotIs | src/vm.rs:734-742 | `~n` is the integer that gives -1 with `n`, and `~` undoes itself |
| Operators.RemainderIs | src/vm.rs:248-264 | `a % b` is the one integer with the sign of `a`, smaller in size than `b`, that differs from `a` by a multiple of `b` |
| Operators.QuotientIs | src/vm.rs:230-246 | `a / b` is the integer `q` if and only if `a` is `q` times `b` |
| Operators.ZeroDivisor | src/vm.rs:230-264 | by zero the answers are the host's quotient and its not-a-number |
| Operators.OtherOperands | src/vm.rs:85-363 | operands that are not both integers go to the host, with the operator, in order; `Number` leaves an integer |
| Operators.GlobalsAreOwn | src/vm.rs:104-149 | a stored global is loaded again whatever builtin has its name, other globals stay, and a name without binding is the builtin |
| PropertyModel.PackInjective | src/context.rs:1135-1139 | two properties share an index key if and only if they are the same |
| PropertyModel.FindIsLookup | src/context.rs:1396-1412 | lookup is lookup in the mapping the list stands for, through the index or the list |
| PropertyModel.SetKeeps | src/context.rs:1414-1489 | a write keeps list and index in agreement if and only if it does not run out of memory in between; then it is an insertion, an old key keeps its place and a new one is last |
| PropertyModel.DeleteKeeps | src/context.rs:1491-1519 | a delete keeps the agreement if and only if it does not take the object from nine properties to eight; it always removes the key |
| PropertyModel.SafeExactly | src/context.rs:1396-1519 | list and index agree after every step of a run if and only if no step loses a node or leaves an index behind |
| PropertyModel.RightExactly | src/context.rs:1396-1519 | after every step of a run each lookup is that of a plain map, if and only if no step loses a node or grows the list to nine under an index that says something else |
| PropertyModel.RunAgrees | src/context.rs:1396-1519 | from the empty object, every run without the two failing steps is coherent and answers like a plain map |
| PropertyModel.StaysPlausible | src/context.rs:1414-1519 | before there is an index, keys are distinct after any run |
| PropertyModel.StaleIndexHides | src/context.rs:1493-1497 | after that delete the next new property is lost to lookup |
| PropertyModel.StaleIndexOverwritten | src/context.rs:1493-1497 | and a key overwritten among eight properties gives its old value again |
| PropertyModel.StaleIndexDeleted | src/context.rs:1493-1497 | and a key deleted among eight properties is found again |
| PropertyModel.StaleIndexReachable | src/context.rs:1414-1519 | nine writes from the empty object, a delete and a write, after which lookup misses what was written |
| PropertyModel.RepairedDeleteKeeps | src/context.rs:1491-1519 | a delete that drops the index with the ninth property keeps the agreement always (this repair is not in the engine) |
| PropertyStore.HeapObject.FindPropValue | src/context.rs:1396-1412 | the lookup of the model, on linked nodes |
| PropertyStore.HeapObject.SetPropValue | src/context.rs:1414-1489 | the write of the model, on linked nodes: order, tail, count and index included |
| PropertyStore.HeapObject.SetIndexed | src/context.rs:1417-1451 | the branch that writes the index first |
| PropertyStore.HeapObject.SetListed | src/context.rs:1453-1489 | the branch that searches the list and may build the index |
| PropertyStore.HeapObject.BuildIndex | src/context.rs:1475-1487 | the index built is the mapping of the list |
| PropertyStore.HeapObject.DeletePropValue | src/context.rs:1491-1519 | the delete of the model, on linked nodes |
| PropertyStore.HeapObject.Unlink | src/context.rs:1500-1514 | taking out one node keeps the chain, the tail and the count |
| PropertyStore.SetAmong | src/context.rs:1414-1489 | a write to one object, with or without room for a node, leaves every other object as it was |
| PropertyStore.DeleteAmong | src/context.rs:1491-1519 | so does a delete |
| Marker.MarkKeeps | src/context.rs:1657-1698 | marking one word keeps: marked and waiting words lead only to reachable objects, and what a marked object holds is marked or waits |
| Marker.ClosedHolds | src/context.rs:566-568 | when nothing waits, everything along a path from a root is marked |
| Marker.Collector.MarkValue | src/context.rs:1657-1698 | marks one word and pushes what its cell holds, once |
| Marker.Collector.Collect | src/context.rs:545-569 | on any graph, cycles included, the marks are exactly the objects reachable from the roots |
| Marker.Collector.GcCollect | src/context.rs:545-569 | from all root holders: what is marked is what is reachable, every holder's word and all that a marked cell holds among it |
| Marker.LinkedIs | src/context.rs:1670-1697 | a cell leads to another if and only if it holds it as its prototype, its parameters, the value of a property, or one of its live elements |
| Marker.HeldMarked | src/context.rs:1657-1702 | when marking is done everything a marked cell holds in these places is marked |
| Marker.MarkedHeld | src/context.rs:545-572 | and whatever is marked is a root or is held by a marked cell |
| Marker.PastLiveInert | src/context.rs:1688-1693 | what stands past the live elements of an array makes nothing reachable |
| Marker.RootsAre | src/context.rs:545-572 | the roots are what the holders hold, one by one, an atom only while it is referenced |
| Arena.IntRoundTrip | src/value.rs:36-57 | every 32-bit integer survives tagging, as an integer and nothing else |
| Arena.PtrRoundTrip | src/value.rs:90-97 | a pointer survives tagging if and only if it is 8-aligned |
| Arena.SpecialApart | src/value.rs:30-33 | special words are neither integers nor pointers and keep kind and payload |
| Arena.ArenaPointers | src/context.rs:1103-1112 | with an 8-aligned arena every block has a taggable address |
| Arena.AlignUpFits | src/context.rs:1154-1159 | rounding up gives the next multiple |
| Arena.GrowthBound | src/context.rs:1630-1651 | what every operation keeps of an array bounds its blocks by four slots per element of its greatest length |
| Arena.Region.Alloc | src/context.rs:1103-1112 | a block inside the arena past everything used, or no change |
| Arena.Region.Relocate | src/context.rs:1637-1649 | the new block holds the old elements |
| Arena.Region.Grow | src/context.rs:1630-1651 | room for more with the same contents, other blocks untouched, the arena use accounted for |
| Arena.Region.Set | src/context.rs:1578-1602 | an indexed write is a write to the sequence, holes undefined; failure changes nothing |
| Arena.WrittenReads | src/context.rs:1578-1602 | every place after a write: the new value, the old one, or undefined |
| Arena.ResizedReads | src/context.rs:1604-1629 | every place after a change of length: the old value or undefined |
| Arena.Region.SetLength | src/context.rs:1604-1628 | setting the length cuts the sequence or pads it with undefined |
| Arena.Region.Push | src/context.rs:986-996 | a push appends |
| Arena.Region.Pop | src/context.rs:998-1013 | a pop gives the last element and drops it, or gives undefined |
| Arena.Perform | src/context.rs:986-1013 | an edit of one array leaves the sequence of every other array as it was |
| Arena.PerformAll | src/context.rs:1578-1651 | any interleaving of edits on many arrays: each stays the sequence the edits say, every block is still disjoint and in bounds, and all blocks of an array together take at most four slots per element of its greatest length |
| Arena.NothingReappears | src/context.rs:998-1013 | what an array holds after a run was there before, is undefined, or was stored by the run |
| Atoms.AtomTable.Find | src/context.rs:1203-1221 | for any hash function, collisions included, the indexed search is the plain search |
| Atoms.AtomTable.Push | src/context.rs:1223-1241 | a new last entry, indexed |
| Atoms.AtomTable.Intern | src/context.rs:911-919 | a known string gets its id and one more reference, a new one the next id; without room nothing changes |
| Atoms.AtomTable.Dup | src/context.rs:1259-1266 | one more reference, up to the 32-bit limit |
| Atoms.AtomTable.Free | src/context.rs:1268-1274 | one reference less, down to none; the name stays |
| Atoms.AtomTable.AtomBytes | src/context.rs:921-932 | the bytes of an id, and interning them again gives that id |
| Atoms.AtomTable.PerformAll | src/context.rs:1203-1274 | over a run every answer is the plain search in the names of that moment |
| Atoms.NamesGrow | src/context.rs:1223-1241 | over any run the names stay injective and an id never changes its meaning |
| Atoms.AnswerStays | src/context.rs:921-932 | an id once given names its string in the final table |
| Atoms.SameIdSameBytes | src/context.rs:911-919 | over any run two interned strings have the same id if and only if they are equal |
| Atoms.FailsOnlyWithoutRoom | src/context.rs:911-919 | interning fails if and only if the string is new and there is no room |
| JsonText.ValueAt | src/json.rs:166-202 | reading a value moves ahead inside the text |
| JsonText.UnicodeIs | src/json.rs:307-330 | a Unicode escape stands for a character if and only if its digits are the UTF-16 units of that character, one or both; never a lone surrogate |
| JsonText.Hex4Means | src/json.rs:341-349 | four hexadecimal digits are read as the number they are, and nothing else is read |
| JsonDocs.Documents | src/json.rs:10-395 | a text is read as a value if and only if it is a document of the JSON grammar, white space, escapes and numbers included, with that value |
| JsonDocs.NumberAlone | src/json.rs:351-395 | for every sign, integer part without leading zero, fraction and exponent, their text is read as the number of that text |
| JsonDocs.NumbersOnly | src/json.rs:351-395 | a text that begins with a digit or `-` is read if and only if it is such a number and white space |
| JsonDocs.WithPropIs | src/json.rs:269-271 | a repeated key keeps its first place and takes the new value, a new one comes last |
| JsonDocs.PieceRead | src/json.rs:288-339 | each way to write a character in a string stands for that character: itself, a letter escape by its code, one or two Unicode escapes |
| JsonNumbers.NumberStands | src/json.rs:351-395 | a number is read to its end wherever it stands, if nothing continues it |
| JsonParser.Parser.ReadNumber | src/json.rs:351-394 | the number token of the grammar |
| JsonParser.Parser.ReadHex4 | src/json.rs:341-349 | four hexadecimal digits gathered four bits at a time |
| JsonParser.Parser.ReadString | src/json.rs:288-339 | a string with its escapes, or a refusal |
| JsonParser.Parser.ReadArray | src/json.rs:216-247 | the elements up to the closing bracket |
| JsonParser.Parser.ReadObject | src/json.rs:249-286 | the properties up to the closing brace, a repeated key in place |
| JsonParser.Parser.ReadValue | src/json.rs:166-202 | a value after white space |
| JsonParser.ParseJson | src/json.rs:10-18 | a text is one value to its end, or refused |
| JsonParser.Stringify | src/json.rs:25-125 | the text of a value, built left to right |
| JsonParser.StringifyObject | src/json.rs:97-124 | undefined properties leave no text and no comma |
| JsonRoundTrip.RoundTrip | src/json.rs:10-125 | parsing what was printed rebuilds every value without floats and with plain keys, in the form and as distinct as an object has them, if and only if its strings hold no control character but tab, line feed and carriage return; any other such text is refused |
| JsonRoundTrip.NormalIsSelf | src/json.rs:70-73 | without undefined in it a value comes back as itself |
| JsonRoundTrip.UndefinedSeen | src/json.rs:25-130 | undefined has no text of its own, is `null` in an array, and leaves no property of an object |
| PropertyNames.ParseIndex | src/context.rs:1161-1174 | the names that are indexes, found digit by digit: all digits, with a number that 32 bits hold |
| PropertyNames.NamedSame | src/context.rs:942-968 | a name is the key of its property if and only if it is no index, or is `0` or one without leading zero |
| PropertyNames.OneProperty | src/context.rs:869-887 | two names are of one property if and only if they are equal, or indexes with the same number |
| JsonRoundTrip.KeyComesBack | src/json.rs:110-121 | an object with one property prints its key without escapes, an index in its shortest form, and the text gives the object back if and only if the name holds no quote, backslash or control character |
| JsonRoundTrip.KeyRead | src/json.rs:249-286 | a plain name in a text sets the property of that name, however an index is spelled |
| JsonRoundTrip.KeysStay | src/json.rs:249-286 | a property once read stays in the object |
| JsonRoundTrip.CharsTaken | src/json.rs:288-339 | a string takes at least as many characters as it gives, and just as many only where nothing was escaped |
| Comments.StripCommentsChecked | src/evals.rs:338-420 | the jumping loop is the byte-by-byte automaton |
| Comments.StrippedKeeps | src/evals.rs:338-420 | length and newlines stay, bytes outside comments stay, the rest becomes spaces |
| Comments.StripTwice | src/evals.rs:338-420 | stripping again changes nothing |
| Comments.OpenExactly | src/evals.rs:338-420 | stripping fails at an offset if and only if a block comment opens there and nothing closes it |
| Comments.NonAsciiTogether | src/evals.rs:338-420 | two bytes outside ASCII that stand side by side are both blanked or both kept |
| Comments.StripKeepsUtf8 | src/evals.rs:338-420 | stripping the UTF-8 bytes of a text gives the UTF-8 bytes of a text: characters outside comments stay, others become as many spaces as they have bytes |
| Comments.Context.SetCurrentSource | src/context.rs:186-200 | the line starts of the text |
| Comments.Context.ComputeLineCol | src/context.rs:280-300 | the binary search is a walk over the text; line start plus column leads back to the clamped offset |
| Comments.WalkFromStarts | src/context.rs:186-200 | the walk is told by the line starts |
| Comments.StrippedPositions | src/context.rs:280-300 | every offset has the same line and column in both texts |
| CommentPieces.StripOfPieces | src/evals.rs:338-420 | of a text given as code, strings and comments, the code and strings stay and the comments become spaces but for their newlines; what may be left open at the end, and the offset of the error for a block comment |
| CommentPieces.LineIsCount | src/context.rs:187-199 | the line of an offset is one more than the newlines before it, the one that ends the text not counted |
| CommentPieces.ColumnIsDistance | src/context.rs:280-300 | the column is the distance from the start of the line |
| ArrayBuiltins.Splice | src/api/eval_expr.rs:1953-2038 | in place, with overlapping shifts either way: what was before the stretch, the items, what was after it; the stretch is returned |
| ArrayBuiltins.StartFromEnd | src/api/eval_expr.rs:1956-1969 | a start counts from the front, or from the end when negative, and stops at the other end |
| ArrayBuiltins.TakesTail | src/api/eval_expr.rs:1953-2038 | `splice(-k)` takes off the last `k` elements, `splice(k)` all but the first `k` |
| ArrayBuiltins.RemovesCount | src/api/eval_expr.rs:1974-1984 | a given count removes that many elements as far as there are so many, a negative one none |
| ArrayBuiltins.SpliceDefaults | src/api/eval_expr.rs:1953-1990 | without arguments nothing goes; a start that is no integer is 0, and without an integer count all goes from the start |
| ArrayBuiltins.ShiftLeft | src/api/eval_expr.rs:2005-2011 | moving down from the left loses nothing |
| ArrayBuiltins.ShiftRight | src/api/eval_expr.rs:2012-2024 | making room and moving up from the right loses nothing |
| ArrayBuiltins.SpliceConserves | src/api/eval_expr.rs:1953-2038 | nothing is lost or made up |
| ArrayBuiltins.SpliceBack | src/api/eval_expr.rs:1953-2038 | splicing the removed stretch back undoes a splice |
| ArrayBuiltins.Sort | src/api/eval_expr.rs:3417-3471 | the array is that of the bubble passes; for any comparator a permutation with undefined last; when the comparator orders the elements that are not undefined, sorted and stable |
| ArrayBuiltins.KeyOrders | src/api/eval_expr.rs:3441-3457 | a comparator that compares keys orders the elements, whatever it says of other values |
| ArrayBuiltins.IntegersAscend | src/api/eval_expr.rs:3417-3471 | when the comparator answers `a > b` on integers, an array of integers and undefined becomes the integers, ascending, then undefined |
| ArrayBuiltins.DefaultOrders | src/api/eval_expr.rs:3441-3457 | without a comparator the elements are ordered if and only if each has a number, or no two have different ones |
| ArrayBuiltins.NoNumberBlocks | src/api/eval_expr.rs:3441-3463 | an element without a number keeps its two neighbours where they are, in whatever order |
| ArrayBuiltins.Pass | src/api/eval_expr.rs:3422-3466 | one pass settles one more place, stably when the comparator orders the elements |
| ArrayBuiltins.SwapKeepsTies | src/api/eval_expr.rs:3460-3463 | an exchange never reorders ties among the elements |
| ArrayBuiltins.StableSortIsUnique | src/api/eval_expr.rs:3417-3471 | a sequence has only one stable sort, when the comparator orders its elements |
| TypedArrays.GetElement | src/api/typed_array.rs:114-164 | element `i` over the shared bytes, or none |
| TypedArrays.SetElement | src/api/typed_array.rs:166-237 | a write patches the bytes of element `i`, or does nothing |
| TypedArrays.ElementIs | src/api/typed_array.rs:114-164 | element `i` by the bytes of the buffer: where they are for each kind, least significant first, the sign in the top byte |
| TypedArrays.RangesAre | src/api/typed_array.rs:11-44 | the least and greatest number of each kind |
| TypedArrays.ClampNearest | src/api/typed_array.rs:93-112 | clamping takes the nearest byte |
| TypedArrays.ReadBack | src/api/typed_array.rs:166-237 | reading back gives a number of the range: the nearest one for the clamped kind, and for the others the one congruent to what was written, if and only if that fits 64 bits, is of a 32-bit kind, or ends like the end of the 64-bit range it is cut to |
| TypedArrays.SaturationSeen | src/api/typed_array.rs:189-214 | 2 to the 64 written to a byte reads 255, and 2 to the 63 written to a 16-bit element reads -1 |
| TypedArrays.DoublesThatWrap | src/api/typed_array.rs:189-214 | among the doubles past 64 bits, no positive one is congruent; every negative one is in a byte, and in two bytes exactly the multiples of the width |
| TypedArrays.ReadBackExact | src/api/typed_array.rs:166-237 | it is what was written if and only if that was in range |
| TypedArrays.WriteSeen | src/api/typed_array.rs:114-237 | a write is seen through every view with an element of that kind at that place |
| TypedArrays.WriteApart | src/api/typed_array.rs:166-237 | an element that shares no byte with the write is as it was |
| TypedArrays.WriteOne | src/api/typed_array.rs:166-237 | within one view a write changes one element |
| TypedArrays.Subarray | src/api/eval_expr.rs:1142-1167 | the clamped and possibly negative ends |
| TypedArrays.SubTail | src/api/eval_expr.rs:1149-1155 | `subarray(-k)` is the last `k` elements, one by one |
| TypedArrays.SubDrop | src/api/eval_expr.rs:1149-1155 | `subarray(b, -k)` leaves out the last `k` |
| TypedArrays.SubFrom | src/api/eval_expr.rs:1147-1155 | a begin and end that are not negative are element numbers, an end past the length the length |
| TypedArrays.SubPast | src/api/eval_expr.rs:1149-1153 | an end counted past the front is the front, one past the length the length, and crossed ends leave nothing |
| TypedArrays.SubInside | src/api/eval_expr.rs:1142-1167 | a subarray stays inside its parent |
| TypedArrays.SubElement | src/api/eval_expr.rs:1142-1167 | element `i` of a subarray is element `begin + i` of its parent |
| TypedArrays.SubOfSub | src/api/eval_expr.rs:1142-1167 | a subarray of a subarray is a subarray of the first view |
| TypedArrays.SubWrite | src/api/eval_expr.rs:1142-1167 | a write through a subarray is seen in the parent at the matching element and nowhere else |
| Radix.FormatRadixInt | src/api/number_fmt.rs:61-86 | the backward loop writes the digits of the value |
| Radix.FormatIsCanonical | src/api/number_fmt.rs:61-86 | the text is canonical and means the value, for every 64-bit integer and radix |
| Radix.CanonicalIsFormat | src/api/number_fmt.rs:61-86 | a canonical text is the one written for its value |
| Radix.ParseInt | src/api/eval_expr.rs:2640-2701 | white space, sign, prefix and radix, then the leading digits |
| Radix.ParseDigits | src/api/eval_expr.rs:2640-2701 | the saturating loop gives the magnitude of the leading digits, cut at 64 bits |
| Radix.ParsesNumeral | src/api/eval_expr.rs:2640-2693 | white space, a sign, digits of the radix and anything after them: the number of the digits, cut at 64 bits; without a radix it is 10 |
| Radix.ParsesHexadecimal | src/api/eval_expr.rs:2664-2673 | a prefix `0x` or `0X` makes the radix 16, when none is given or it is 16 |
| Radix.ParsesNothing | src/api/eval_expr.rs:2674-2693 | a radix out of range gives no number, nor does a text without a digit after its sign |
| Radix.DigitsSeen | src/api/eval_expr.rs:2680 | the figures are digits from 0 on, the letters of either case from 10 on |
| Radix.DigitsRise | src/api/eval_expr.rs:2680 | each next figure or letter is worth one more, where the radix has it |
| Radix.RadixRoundTrip | src/api/eval_expr.rs:2640-2701 | what is written in a radix reads back with the same sign and magnitude |
| Radix.DecimalRoundTrip | src/api/eval_expr.rs:2640-2701 | in decimal without naming the radix |

## Left out

- Statement splitting: statements come as trees that hold their expressions as text, so `src/compiler.rs:1018-1174` and the choice between statement forms by prefix are not modelled; one declarator per `var`, no `break` or `continue`.
- The texts in a statement tree are trimmed and not blank, as the compiler leaves them: a blank condition, update or initialiser of a `for` (`src/compiler.rs:174-209`) is an absent one in the tree.
- The string-literal shortcut of `compile_program` (`src/compiler.rs:22-30`).
- Opcodes that the compiler never emits.
- Calls, C functions, builtin markers and property reads inside the machine: one opaque step each, a function of its operands and the world.
- The identity of strings and boxed doubles: values are compared by content, so two equal boxes count as one constant.
- Floating-point arithmetic, NaN and the number formats other than radix: host parameters, or absent.
- Allocation failure, except in the arena, the atom table and the property store.
- FastForms.StrengthReductionText: speaks of blanks between the tokens; the expression grammar refuses other Unicode white space there, while the increment forms trim it. The expression grammar reads `++x` as two prefix signs and refuses `x++`, so the general form of those is a tree.
- Utf8: only encoding; how a text gets to be valid UTF-8 is the caller's.
- 32-bit limits of instruction operands, code length, property counts and atom ids; sizes are unbounded. `-N` for the least integer in a `for` update wraps, as it does without overflow checks.
- Machine.RunModule: takes a step limit, because a program need not end.
- The table of overflow maps keyed by object address is a field of each object; object addresses and their reuse are not modelled.
- `alloc_array` with an initial length, and array slots read through the elements pointer of another object.
- Arena.Region.Alloc: takes any positive alignment; the source's alignments are powers of two, for which its bit mask is the same rounding.
- Marker.Collector.Collect: works on a map from addresses to cells that does not change while it runs; nothing is freed, as in the source.
- JsonText.Text: a non-ASCII character is one character here and several bytes in the source; quotes, escapes and brackets are ASCII, so both split the text alike. Properties with getters or setters, and names starting with `__get__` or `__set__`, are not modelled.
- Comments.StripCommentsChecked: the final check that the output is UTF-8 is not run; `StripKeepsUtf8` is why it cannot fail.
- ArrayBuiltins.Sort: the comparator is a function of its two arguments; one that changes the array or throws is not modelled. The length fits 32 bits.
- TypedArrays.SetElement: takes an integer of any size; fractions, NaN, and the 32- and 64-bit float kinds are not modelled. Construction from arrays and buffers is not modelled.
- Radix.ParseInt: gives sign and magnitude; turning them into a double, exact up to 2^53, is not modelled.
- The string-rewriting interpreter, environments, exceptions, the call-frame cache and the script cache.
- Regular expressions, dates, console, locale, UTF-16 views of strings, and everything outside the engine (cache server, web, tools, samples).
