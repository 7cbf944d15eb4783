# Qy, verified

Qy is a small Lisp compiler: readers in Python and Go, macro expansion, two intermediate
representations (MIR and LIR), a register VM and a WebAssembly backend, and a resolver for
package versions. This project models eleven of its parts in Dafny and proves what each is
for. `dafny verify dfyconfig.toml` checks all of it.

| part | files |
|---|---|
| constants, scopes and control flow of the WebAssembly backend | `ByteOrder`, `ConstantPool`, `Wasm`, `Lir`, `Emitter`, `Scopes`, `Names`, `Dispatcher`, `Acceptance`, `OpenScope`, `ConstantSafety` |
| MIR liveness, live intervals | `Cfg`, `Liveness`, `Intervals` |
| the tail-call pass | `TailCall` |
| Minimum Version Selection | `Versions`, `Resolve`, `ResolveOrder`, `ResolveCycle` |
| the lossless CST parser | `Cst`, `CstGrammar`, `CstParser`, `CstRoundTrip`, `CstExact`, `CstRefusal`, `CstExamples` |
| the Go reader and writer | `GoForm`, `GoLexer`, `GoParser`, `GoExact`, `GoRoundTrip` |
| quasiquote, twice | `Syntax`, `Quasiquote`, `TemplateEval`, `TemplateLevels`, `TemplateAgreement`, `TemplateExact` |
| macro expansion | `MacroExpand`, `MacroTraces`, `MacroFree`, `MacroVisible`, `MacroNormal`, `MacroCalls` |
| the nesting check over LIR | `Nesting` |
| symbol spaces with aliases | `SymbolSpace` |
| bytecode formats, binary and JSON | `BytecodeBinary`, `BytecodeCodec`, `Interchange`, `InterchangeProgram` |
| the words, bytes and keys that other programs read | `Layouts` |
| fixed-width integers | `Numeric` |

Where the code changes things step by step the model does too: classes with the same fields
and methods with the same loops, each proved to compute a specification function or
property. Code made of recursion stays recursion. Operations outside a part (builtins, calls,
pickle, the JSON writer, macros) are parameters that the theorems hold for whatever they are.

## What the proofs say about the code

The main theorems are equivalences. Where a documented promise does not hold of the code, the
exact condition under which it does is part of the theorem, and a lemma gives an input on which
it fails.

- **WebAssembly.** Code emitted for a function whose scopes agree on every control-flow edge
  returns exactly what the LIR machine returns, with the same calls in the same order. The
  lowering may leave out `EXIT_SCOPE` in tail position; then scopes need not agree, and
  `OpenScopeMiscompiles` is a function whose emitted code returns the wrong value.
- **Constants.** Decoding a word gives the constant back and later interning never changes it.
  Constants may grow into the argument stack at 1 MiB, which `ScratchWritesSpareConstants` rules
  out exactly when they do not reach it; then no run of emitted code changes what a word of the
  pool stands for.
- **What is emitted at all.** A name stands for its innermost binding, else for the function
  itself, a truth literal, an operator or an integer, in this order, and its word is the one
  that stands for that. With room for its constants, a function is refused only if it is
  variadic or holds an unsupported instruction, a name without a meaning or a constant without
  a word.
- **Tail calls.** After the pass no block returns the result of its last call, and in no run does
  a frame wait for a value only to return it; results are those of the original program.
- **Liveness** is exact, and live intervals contain every point where a register is live and
  every write whose value is live. Which other writes they contain is `WriteInsideInterval`: a
  value that is never read may be written outside its register's interval.
- **Version selection** is closed and maximal, but may depend on the order of dependencies, since
  a version that is raised before its turn is never expanded. It does not where each newer version
  brings about what the older ones ask for, and then the build list is the one that the requests
  alone determine; in package graphs without cycles it is independent of the order only there.
  With cycles it may be so for other reasons (`CyclesNeedNoUpgrades`).
- **CST.** `collect_text` undoes `parse_cst` exactly on sources whose lists follow the
  documented dotted-list grammar. What it accepts, and the place and error at which it stops
  otherwise, is said by where atoms, strings, dots and trivia stand. The parser also accepts `(a . b c)`, whose forms are then
  printed in another order, and `(a . b . c)`, of which a form is lost (`LateChildMoves`,
  `FirstTailIsLost`); the doc comment promises the round trip for every accepted input.
- **Go reader.** `ReadRaw` undoes `WriteProgram` exactly when no list holds a dot symbol and no
  two-item list is headed by `quote` or `quasiquote`. It reads a source exactly if its tokens
  spell trees. It ends strings where the Python reader does, except raw ones: to the Go reader
  `r"\"` is not closed (`RawStringsEndApart`).
- **Quasiquote.** The direct instantiation refuses dotted lists with two heads or more, and
  unquotes, quasiquotes and splices without their one argument; the expanded one refuses a splice
  in a dotted list. Templates without nested quasiquotes and malformed unquotes agree in every
  environment exactly when both refuse or neither does. All other templates agree only when both
  refuse. Were `unquote` and `quasiquote` variables that stand for themselves, the two would
  agree at every depth of nesting (`LevelsAgree`).
- **Macro expansion** ends. It leaves no visible call, that is no list headed by a macro's name
  unless parameters, `let` names or earlier definitions hide that name there, and it runs macros
  exactly where one was visible. This is for code and macros that define and import no macros and
  keep calls out of the places where the result of a call would be taken for a name: a call in
  front of arguments may leave a macro's name there that is not expanded again
  (`HeadCallEscapes`), and a parameter list that starts with a macro's name is run as a call
  (`ParameterListIsCalled`). Where no macro is in play it leaves code alone except that it makes
  dotted lists proper (or refuses them), drops `()` from bodies and replaces quasiquotes.
- **Nesting.** The check reports nothing on balanced code, and its silence means balance exactly
  when the paths to each pop and each return agree on whether a push is open; otherwise it may
  miss an underflow.
- **Symbol spaces.** A lookup finds what aliases lead to, unless the way comes back to a symbol
  that was followed before, which it takes for a cycle even when an outer layer binds it.
- **Bytecode.** The binary format gives back everything but spans, layouts and rest parameters
  and refuses every truncated file; the JSON format gives a program back exactly when each
  operand has an encoding at its position, effects carry no documentation and no rest parameter
  has the empty name.
- **Integers.** `bit-and` without arguments leaves an unsigned space, and the one-argument `/`
  rounds down where the two-argument one rounds towards zero.

## Model

| member | source | states |
|---|---|---|
| ByteOrder.LittleEndianRoundTrip | qy/backend/wasm/emit.py:57-58 | a number that fits its width is read back from its little-endian bytes |
| ByteOrder.LittleEndianDigits | qy/backend/wasm/emit.py:57-58 | each byte is that digit of the number to the base 256, the least one first |
| Layouts.ImmediateWords | qy/backend/wasm/abi.py:3-16 | the words of nil, T, integers, characters and callables, in numbers |
| Layouts.StringLayout | qy/backend/wasm/abi.py:10-11 | a string's word points at its length in four bytes and its text, the first one at 1024 |
| Layouts.FloatLayout | qy/backend/wasm/abi.py:11-12 | a float's word points at its eight bytes |
| Layouts.SymbolLayout | qy/backend/wasm/abi.py:12-13 | a symbol's word points at the kind 1 and the address of its text |
| Layouts.ConsLayout | qy/backend/wasm/abi.py:12-14 | a pair's word points at the kind 2, four unused bytes and the words of its head and tail |
| ConstantPool.InternExtends | qy/backend/wasm/emit.py:135-139 | interning keeps segments disjoint and 8-aligned, keeps every byte stored before, and stores the payload at the old offset |
| ConstantPool.DecodeExtends | qy/backend/wasm/emit.py:118-153 | what a word decodes to survives any later interning |
| ConstantPool.EncodeCorrect | qy/backend/wasm/emit.py:252-297 | decoding the word of any constant, from the memory it was laid out in, gives the constant back, with nil, none and false, and symbols and their literals, identified as the code identifies them |
| ConstantPool.ScratchWritesSpareConstants | qy/backend/wasm/emit.py:70-72 | writes to the argument stack leave every constant alone if and only if no constant reaches it |
| ConstantPool.LargeStringReachesScratch | qy/backend/wasm/emit.py:125-139 | a string of one MiB is accepted and reaches the argument stack |
| ConstantSafety.EmittedKeepsBelow | qy/backend/wasm/emit.py:212-243 | every run of an emitted function, whatever LIR it was made of, leaves memory below the scratch stack as it was and returns with the stack pointer above it, if its callees do |
| ConstantSafety.ConstantsSurvive | qy/backend/wasm/emit.py:212-297 | when an emitted function returns, each word of a pool below the scratch stack still decodes to its constant |
| Emitter.StringPool.InternBytes | qy/backend/wasm/emit.py:135-139 | the method returns the old offset and leaves the pool that the specification gives |
| Emitter.StringPool.Intern | qy/backend/wasm/emit.py:125-130 | the length-prefixed text is interned, or its length cannot be packed |
| Emitter.StringPool.InternSymbol | qy/backend/wasm/emit.py:141-144 | the cell of a symbol points at its text |
| Emitter.StringPool.InternCons | qy/backend/wasm/emit.py:146-153 | the cell of a pair holds the two words |
| Emitter.FunctionEmitter.EncodeValue | qy/backend/wasm/emit.py:252-273 | the method returns the word and leaves the pool that the specification of encoding gives |
| Emitter.FunctionEmitter.EncodeChain | qy/backend/wasm/emit.py:285-297 | collecting a chain and then building its cells from the back is the recursive encoding, errors included |
| Emitter.FunctionEmitter.BindName | qy/backend/wasm/emit.py:181-187 | a binder takes the next slot and enters it in the innermost scope |
| Emitter.FunctionEmitter.Resolve | qy/backend/wasm/emit.py:192-210 | the method gives the expression of the specification: the slot of the innermost binding, else the word whose meaning is `Names.UnboundName` |
| Names.InnermostBinding | qy/backend/wasm/emit.py:194-196 | a lookup finds the innermost scope that binds the name, and nothing only if none does |
| Names.ParameterBinding | qy/backend/wasm/emit.py:373-383 | a parameter is bound to its argument, of two with one name to that of the last |
| Names.BoundName | qy/backend/wasm/emit.py:194-196 | a bound name is compiled to the slot of its innermost binding |
| Names.UnboundName | qy/backend/wasm/emit.py:197-210 | a name that no scope binds is compiled if and only if it denotes something: the function itself, a truth literal, nothing, an operator or an integer, each before the next; its word then reaches that table entry or decodes to that value |
| Names.FunctionWord | qy/backend/wasm/abi.py:99-105 | the LIR machine's word for a made function reaches the function's entry behind the builtins |
| Emitter.FunctionEmitter.CallSequence | qy/backend/wasm/emit.py:212-247 | the emitted lines are those of the call code |
| Emitter.FunctionEmitter.EmitInstruction | qy/backend/wasm/emit.py:301-371 | the emitted lines and the scan state are those of the translation of the instruction, errors included |
| Emitter.FunctionEmitter.Emit | qy/backend/wasm/emit.py:373-408 | the emitted lines are those of the compiled function: parameters, one loop, nested blocks and a branch table |
| Wasm.ParseLines | qy/backend/wasm/emit.py:373-408 | the emitted lines read as exactly the nested instruction tree that is executed |
| Wasm.ExecuteConcat | qy/backend/wasm/emit.py:301-371 | executing one piece of code behind another is executing them in turn |
| Scopes.PrefixScans | qy/backend/wasm/emit.py:162-187 | the emitter's scopes and slot counter at an instruction are those of a linear scan of the function |
| Scopes.SlotHasOnePlace | qy/backend/wasm/emit.py:166-187 | the slot of a binder is written for one name at one scope depth only, on every path |
| Scopes.TransferPlaced | qy/backend/wasm/emit.py:181-187 | one instruction keeps every slot of the scope chain at its place |
| Scopes.MirrorsLookup | qy/backend/wasm/emit.py:192-210 | a name found in the static scopes holds, in its slot, the value that the dynamic scope chain gives it |
| Scopes.MirrorsBind | qy/backend/wasm/emit.py:181-187 | writing a binder's slot is binding its name in the dynamic scope, and disturbs no other binding |
| Dispatcher.InsideLands | qy/backend/wasm/emit.py:384-408 | in the nested blocks, the branch table lands exactly on the code of the instruction that the program counter names |
| Dispatcher.CallMatches | qy/backend/wasm/emit.py:212-247 | the emitted call passes the same arguments to the same callee, and the result lands in the same register |
| Dispatcher.StepMatches | qy/backend/wasm/emit.py:301-408 | the code of each instruction does what one step of the LIR machine does |
| Dispatcher.NamedWord | qy/backend/wasm/emit.py:192-210 | loading a name that no scope binds gives, in emitted code, the one word that stands for what it denotes |
| Dispatcher.DispatcherFollows | qy/backend/wasm/emit.py:373-408 | the dispatch loop follows the LIR machine, for any number of turns |
| Dispatcher.EmittedFunctionSimulates | qy/backend/wasm/emit.py:373-408 | for every function whose scopes agree on its control-flow edges, in an environment that gives names the words for what they denote, compilation succeeds and the emitted function simulates it from its entry |
| Dispatcher.ResultPreserved | qy/backend/wasm/emit.py:373-408 | when the LIR machine returns a value, the emitted function returns that value after the same calls |
| Dispatcher.ResultReflected | qy/backend/wasm/emit.py:373-408 | what the emitted function returns is what the LIR machine returns, and it traps only where that machine is stuck |
| Acceptance.EncodeAccepts | qy/backend/wasm/emit.py:252-297 | with room left below 4 GiB, a constant is encoded if and only if it holds no host object, no integer beyond 61 bits and no text of 4 GiB |
| Acceptance.CompileAccepts | qy/backend/wasm/emit.py:301-408 | then a function is compiled if and only if it is not variadic and each instruction is supported, its name denoted and its constant encodable |
| OpenScope.OpenScopeMiscompiles | qy/backend/wasm/emit.py:181-210 | a function that leaves a scope open on one path has no agreeing scopes, and its emitted code returns another value |
| Cfg.DeadRegistersAreInvisible | qy/analysis/liveness.py:46-82 | two register files that agree on the live registers of a point give the same observable run from it, over any number of steps |
| Liveness.GenKill | qy/analysis/liveness.py:114-142 | gen is what a block reads before writing it, kill is what it writes |
| Liveness.Visit | qy/analysis/liveness.py:61-70 | one block is brought up to date, sets only grow, and nothing is in them that is not live |
| Liveness.ComputeLiveness | qy/analysis/liveness.py:46-82 | the iteration ends, and a register is in a live set if and only if a path uses it before defining it |
| Liveness.SolutionIsExact | qy/analysis/liveness.py:53-72 | a solution of the equations that holds only live registers is exactly liveness |
| Liveness.LiveInDeterminesRun | qy/analysis/liveness.py:46-82 | two register files that agree on the computed live-in set of a block give the same run from it |
| Intervals.ComputeIntervals | qy/analysis/liveness.py:217-256 | each interval spans from the first place that opens its register to the last that closes it |
| Intervals.FlatCounts | qy/analysis/liveness.py:224-254 | positions number the points of the layout from 0, the terminators included |
| Intervals.LiveInsideInterval | qy/analysis/liveness.py:217-256 | a register live just before a position has an interval that contains it, whatever the layout and the back edges |
| Intervals.ColouringSeparatesLive | qy/analysis/liveness.py:217-256 | a colouring that separates overlapping intervals gives different colours to registers that are live together |
| Intervals.WriteInsideInterval | qy/analysis/liveness.py:217-256 | a write is never before its register's interval, and inside it if and only if the register is read or live at a block's end at or behind it, or is so nowhere and starts nowhere in front of it |
| Intervals.LiveWriteInside | qy/analysis/liveness.py:217-256 | a write whose value is live just after it is inside the interval, before its end |
| Intervals.DeadWriteOutsideInterval | qy/analysis/liveness.py:240-254 | a function with a dead write outside its register's interval |
| TailCall.OptimizeFunction | qy/passes/control/tailcall.py:38-68 | every block whose terminator returns the result of its last instruction, a call, becomes its front with a tail call of the same callee and arguments; every other block and all ids stay; no such block is left |
| TailCall.RunPass | qy/passes/control/tailcall.py:27-35 | the same of every function of the program, and nothing else changes |
| TailCall.ConvertIsConverted | qy/passes/control/tailcall.py:43-63 | the code's test is the shape: a call last, whose register the terminator returns |
| TailCall.NoIdleFrames | qy/passes/control/tailcall.py:38-68 | in every state that a converted program reaches, no frame waits for a value just to return it |
| TailCall.StepMatches | qy/passes/control/tailcall.py:38-68 | a step of the original is matched by the transformed program, frames that only return being left out |
| TailCall.StackNeverTaller | qy/passes/control/tailcall.py:38-68 | at matching points the transformed stack is no taller |
| TailCall.ConvertedFollows | qy/passes/control/tailcall.py:38-68 | every run of the original is followed by the transformed program |
| TailCall.OriginalFollows | qy/passes/control/tailcall.py:38-68 | every run of the transformed program is followed by the original |
| TailCall.SameResult | qy/passes/control/tailcall.py:38-68 | the original ends with a value and events if and only if the transformed program ends with the same |
| Versions.ParseVersion | qy/project/resolve.py:107-118 | the numbers of the version's dotted segments: the number that the leading digits spell, or 0 without any |
| Versions.ParsedOnce | qy/project/resolve.py:107-118 | there is just one way to cut a version at its dots and read the numbers in front of each piece, and it is the parsed one |
| Versions.LessMeans | qy/project/resolve.py:50-58 | one version is older if and only if, at the first place where they differ, it has the smaller number or has ended |
| Versions.CompareVersions | qy/project/resolve.py:50-58 | -1, 0 or 1 as the first precedes the second by the first place where they differ, is equal, or is preceded |
| Versions.MaxVersion | qy/project/resolve.py:61-65 | the first of the two unless the second comes later in that order |
| Versions.LessTotal | qy/project/resolve.py:50-58 | the order of versions is total and strict |
| Versions.AtMostTransitive | qy/project/resolve.py:50-58 | being no newer is transitive |
| Versions.MaxIsLeastUpperBound | qy/project/resolve.py:61-65 | the maximum is one of the two and no older than either |
| Resolve.CollectAchieves | qy/project/resolve.py:85-104 | one expansion, whatever is being expanded around it, satisfies its own dependencies and every newly visited manifest, and lowers nothing |
| Resolve.CollectIsAsked | qy/project/resolve.py:85-104 | no selected version is invented: it was there before, or an expanded manifest asked for it |
| Resolve.ResolutionIsClosed | qy/project/resolve.py:68-104 | the root and every selected version find each dependency selected at its minimum or above, over cyclic graphs too |
| Resolve.ResolutionIsMaximum | qy/project/resolve.py:68-104 | each selected version is the maximum of the minimums that expanded manifests ask for |
| Resolve.Collector.CollectRequirements | qy/project/resolve.py:85-104 | the recursion over the two shared dictionaries ends and computes the specified walk |
| Resolve.SortedModules | qy/project/resolve.py:79-82 | the build list holds each selected path once, with its version, and a path comes earlier if at the first difference its character is the smaller or it has ended |
| Resolve.BeforeMeans | qy/project/resolve.py:79-81 | the order of paths in the build list is that of the first character in which they differ |
| Resolve.ResolveVersions | qy/project/resolve.py:68-82 | the resolver returns the sorted list of the resolution |
| ResolveOrder.CollectIsRequested | qy/project/resolve.py:85-104 | whatever is selected or visited was asked for at the end of a chain of manifests from the root |
| ResolveOrder.UpgradesFixBuildList | qy/project/resolve.py:68-104 | where newer versions bring about what older ones ask for, a path is selected if and only if it is requested, at a requested version no older than any other |
| ResolveOrder.UpgradesHideOrder | qy/project/resolve.py:68-104 | then reordering the root's and all manifests' dependencies gives the same paths at versions that compare equal |
| ResolveOrder.OlderLast | qy/project/resolve.py:92-100 | a dependency that is older than what is selected changes nothing when it comes last |
| ResolveOrder.UnmetChangesBuild | qy/project/resolve.py:92-104 | in any package graph, moving an older dependency from the last place to the first changes the build if what it asks for was not met |
| ResolveOrder.SettledWalk | qy/project/resolve.py:85-104 | a root that lists its packages behind their dependencies selects just what it lists |
| ResolveOrder.OrderIsIrrelevantExactly | qy/project/resolve.py:68-104 | the order never matters if newer versions bring about what older ones ask for, and without cycles among packages only if |
| ResolveCycle.CyclesNeedNoUpgrades | qy/project/resolve.py:85-104 | a cyclic package graph whose builds never depend on the order although newer versions do not bring about what older ones ask for |
| ResolveOrder.OrderOfDependenciesMatters | qy/project/resolve.py:92-104 | swapping two dependencies of the root changes which packages are selected |
| Cst.TextCollector.CollectNode | qy/frontend/cst.py:104-125 | the shared parts list grows by the text of the node |
| Cst.CollectText | qy/frontend/cst.py:95-101 | the joined parts are the text of the program |
| CstParser.Parser.Advance | qy/frontend/cst_parser.py:306-316 | the line and column counters stay those of the cursor |
| CstParser.Parser.ConsumeTrivia | qy/frontend/cst_parser.py:281-293 | blanks and comments are consumed, all of them and nothing else |
| CstParser.Parser.LookingAtMultiline | qy/frontend/cst_parser.py:233-255 | the lookahead is true exactly when the first quote ahead, before any delimiter, is a triple one |
| CstParser.Parser.ConsumePrefix | qy/frontend/cst_parser.py:146-148 | the loop without an end-of-input test ends, at the quote that the lookahead saw |
| CstParser.Parser.ParseQuotedAtom | qy/frontend/cst_parser.py:142-187 | the string atom, its kind, text and span, or the error at the end of the input |
| CstParser.Parser.ParseMultilineAtom | qy/frontend/cst_parser.py:189-231 | the same for triple-quoted strings |
| CstParser.Parser.ParseBareAtom | qy/frontend/cst_parser.py:121-140 | the bare atom; the error for an empty one cannot be raised |
| CstParser.Parser.ParseList | qy/frontend/cst_parser.py:70-112 | the list node is what the grammar's items leave, a later dot overwriting an earlier one |
| CstParser.Parse | qy/frontend/cst_parser.py:30-119 | the parser returns the tree, or the first error, that the grammar gives |
| CstRoundTrip.ParseItemsText | qy/frontend/cst_parser.py:80-112 | the items of a list, in source order, are the source text, dots and trivia included |
| CstRoundTrip.GrammarKeepsText | qy/frontend/cst.py:104-125 | a form that follows the dotted-list grammar is printed as it was read |
| CstRoundTrip.SecondDotLosesText | qy/frontend/cst_parser.py:98-109 | two dots in a list make the printed text shorter than the source |
| CstRoundTrip.FormAfterTailMoves | qy/frontend/cst_parser.py:98-112 | a form after the dotted one is printed before it, and the text differs |
| CstExamples.LateChildMoves | qy/frontend/cst_parser.py:98-112 | `(a . b c)` is accepted and printed as `(a c . b)` |
| CstExamples.FirstTailIsLost | qy/frontend/cst_parser.py:98-109 | `(a . b . c)` is accepted and printed as `(a . c)` |
| CstRoundTrip.KeptTextFollowsGrammar | qy/frontend/cst.py:104-125 | a form whose text is kept follows the grammar, in all its parts |
| CstRoundTrip.TextComesBack | qy/frontend/cst_parser.py:10-57 | for every accepted source, collecting the tree's text gives the source back if and only if all its lists follow the grammar |
| CstRoundTrip.ParseAndCollect | qy/frontend/cst.py:95-101 | the same of the two programs as they run |
| CstRoundTrip.ProgramIsLocated | qy/frontend/cst_parser.py:306-336 | every form's own text stands in the source at the offsets whose line and column its span gives |
| CstRoundTrip.SpanNamesOnePiece | qy/frontend/cst_parser.py:306-327 | two pieces of a source with the same span are the same piece |
| CstExact.TriviaExact | qy/frontend/cst_parser.py:281-293 | trivia ends at the one place behind which stand only blanks and comments and that is in neither |
| CstExact.StringExact | qy/frontend/cst_parser.py:156-187 | a string ends at the first quote with an even number of backslashes directly in front of it, a raw one at the first quote, and nowhere if there is none |
| CstExact.MultilineExact | qy/frontend/cst_parser.py:203-231 | a multiline string ends at the first three quotes in a row |
| CstExact.AtomExact | qy/frontend/cst_parser.py:114-231 | an atom is read if and only if one stands there, with the kind that its tag and quotes give |
| CstExact.ProgramExact | qy/frontend/cst_parser.py:44-112 | parsing gives exactly the forms, dots and trivia that stand in the source one behind the other |
| CstExact.SourceExact | qy/frontend/cst_parser.py:30-112 | a source is accepted if and only if a program stands in it, and its tree is what is returned |
| CstExact.PositionIs | qy/frontend/cst_parser.py:306-327 | the line counts the line ends in front, the column the characters from the start of the line |
| CstRefusal.AtomFailsExact | qy/frontend/cst_parser.py:142-231 | an atom is refused if and only if it opens a string that nothing closes, with the error of its kind and the span to the end |
| CstRefusal.RefusalExact | qy/frontend/cst_parser.py:44-112 | a source is refused with an error if and only if forms stand up to a place where a parenthesis closes nothing, a list does not end, no form follows a dot or a string is not closed, in this very place |
| GoForm.Write | go-reader/writer.go:10-24 | the writer returns the specified text |
| GoForm.WriteChain | go-reader/writer.go:26-44 | collecting items and joining them is the recursive text of the list, shorthands included |
| GoForm.WriteProgram | go-reader/writer.go:47-53 | forms on lines of their own |
| GoLexer.Lexer.SkipWhitespaceAndComments | go-reader/lexer.go:76-89 | the cursor moves over blanks and comments and no further |
| GoLexer.Lexer.LexBareOrTagged | go-reader/lexer.go:198-229 | a bare symbol, the dot or a tagged literal; the error for an unexpected character cannot be raised |
| GoLexer.Lexer.NextToken | go-reader/lexer.go:91-121 | the next token of what is left, with the cursor behind it |
| GoLexer.Tokenize | go-reader/lexer.go:248-262 | all tokens of the source, or the first error |
| GoParser.Parser.ParseList | go-reader/parser.go:98-163 | the list built from the items and the index of the last dot, or the error for its place |
| GoParser.ReadSource | go-reader/parser.go:180-187 | tokens are parsed into forms up to the end of input |
| GoExact.SpaceExact | go-reader/lexer.go:76-89 | what is left behind spaces and comments begins at the one place where they end |
| GoExact.StringsEndAlike | go-reader/lexer.go:160-190 | a string that is not raw ends where the Python parser ends it |
| GoExact.RawStringsEndApart | go-reader/lexer.go:160-196 | a raw string that ends in a backslash is refused by the Go lexer and closed by the Python parser |
| GoExact.TokenExact | go-reader/lexer.go:91-246 | the next token is the one that stands there: a parenthesis, a string with the kind of its tag and quotes, or a bare symbol up to the first terminator |
| GoExact.TokensExact | go-reader/lexer.go:248-262 | a source is tokenized if and only if tokens stand in it between gaps up to the end |
| GoExact.RefusalExact | go-reader/lexer.go:130-190 | it is refused if and only if its tokens lead to a string that nothing closes |
| GoExact.TaggedExact | go-reader/parser.go:165-178 | a tag and its string become the call of the tag on the quoted string |
| GoExact.TaggedTokens | go-reader/lexer.go:265-271 | every tagged token splits into a tag without a quote and a string |
| GoExact.FormExact | go-reader/parser.go:66-163 | a form is read from tokens if and only if they begin with a tree that stands for it |
| GoExact.ListRefused | go-reader/parser.go:98-149 | dots that do not fit, a list without an end and a stray parenthesis are refused, each with its error |
| GoExact.ProgramExact | go-reader/parser.go:54-64 | tokens are accepted if and only if trees stand in them up to the end marker |
| GoExact.SourceExact | go-reader/parser.go:180-187 | the reader reads a source if and only if its tokens spell trees, and gives their forms |
| GoExact.NameIsWritten | go-reader/writer.go:55-82 | a name is written as it is exactly without blanks, control characters, parentheses, quotes and semicolons |
| GoRoundTrip.FormLexes | go-reader/writer.go:10-44 | lexing written text gives the form's tokens, quote signs sticking to what follows them, and then what the rest gives |
| GoRoundTrip.FormParses | go-reader/parser.go:66-163 | the tokens of a form that can come back are parsed into that form and no further |
| GoRoundTrip.PairLosesWord | go-reader/writer.go:36-42 | a quote shorthand takes a word out of the tokens that nothing puts back |
| GoRoundTrip.FormAtWords | go-reader/parser.go:66-163 | parsing makes no quote or quasiquote symbol that is not among the tokens |
| GoRoundTrip.FormAtNoDot | go-reader/parser.go:98-129 | the parser never makes a dot symbol inside a list |
| GoRoundTrip.WrittenReadsBack | go-reader/writer.go:47-53 | a written program reads back as itself if and only if each form is a symbol, or has no dot symbol and no shorthand pair in it |
| GoRoundTrip.WriteThenRead | go-reader/parser.go:180-187 | the same of the writer and the reader as they run |
| Syntax.ProperItems | qy/core/quasiquote.py:66-76 | the items of a proper list, and nothing for any other form |
| Quasiquote.ArgumentIsCall1 | qy/core/quasiquote.py:33-38 | a form has an argument to expand exactly when it is a proper list of two |
| TemplateEval.Evaluator.EvalQuasiquote | qy/macro/evaluator.py:222-236 | the evaluator instantiates the template as specified, with every evaluation in order, errors included |
| TemplateEval.Evaluator.EvalQuasiquoteChain | qy/macro/evaluator.py:246-260 | the loop over a chain collects the items, splices included, and keeps its tail |
| TemplateLevels.SequenceExactly | qy/macro/evaluator.py:263-277 | what a splice accepts is a tuple or list value, or a proper list, of just the items it puts in |
| TemplateLevels.AppendExactly | qy/std/data.py:329-353 | append joins the items of both sides, into a list if either side is one |
| TemplateLevels.InertStays | qy/macro/evaluator.py:222-260 | a template in which every unquote is undone by a quasiquote of its own comes back unchanged and evaluates nothing |
| TemplateLevels.LevelsCancel | qy/macro/evaluator.py:226-233 | an unquote inside a quasiquote leads back to the level around both, and at the template's own level it is replaced by its value |
| TemplateLevels.ListIsInstance | qy/macro/evaluator.py:246-260 | a list is instantiated item by item from the left, each contributing its instance or the items of its splice, in front of the same tail |
| TemplateLevels.LevelsAgree | qy/core/quasiquote.py:33-105 | where `list` builds lists and the two words stand for themselves, expanded and direct instantiation agree at every depth of nesting |
| TemplateLevels.LevelledBuilds | qy/core/quasiquote.py:45-64 | every environment can be made one of these |
| TemplateAgreement.FormsAgree | qy/core/quasiquote.py:33-105 | expanded and direct instantiation of a well-formed template that neither refuses succeed together, with the same datum and the same evaluations in the same order |
| TemplateAgreement.DirectRefuses | qy/macro/evaluator.py:222-305 | a dotted list with two heads or more, or an unquote, quasiquote or splice without its one argument, makes the direct evaluator raise in every environment, at any depth |
| TemplateAgreement.ExpandedRefuses | qy/core/quasiquote.py:91-101 | a splice in a dotted list makes the expanded code raise, in every environment |
| TemplateAgreement.TemplatesAgree | qy/macro/evaluator.py:222-284 | on well-formed templates the two agree whenever both refuse or neither does |
| TemplateExact.FormsDiffer | qy/core/quasiquote.py:38-105 | a template that neither side refuses and that is not well formed gives two different data in one environment |
| TemplateExact.TemplatesAgreeExactly | qy/core/quasiquote.py:33-105 | for all templates: well-formed ones agree in every environment if and only if both sides refuse or neither does, others if and only if both refuse |
| TemplateExact.OthersOnlyRefuse | qy/macro/evaluator.py:222-284 | a template that is not well formed agrees only by being refused on both sides in every environment |
| TemplateExact.NestedQuasiquoteDisagrees | qy/core/quasiquote.py:53-64 | a template that is a quasiquote form never agrees |
| TemplateExact.BareUnquoteDisagrees | qy/core/quasiquote.py:41-44 | nor does an unquote form without its one argument |
| MacroExpand.ExpandKeepsQuasiquotes | qy/core/quasiquote.py:33-105 | expanding a quasiquote never adds a quasiquote symbol, which with the depth limit and the size of forms makes expansion end for all macros |
| MacroTraces.FormGrows | qy/macro/expand.py:378-485 | expansion only adds traces, none beyond the depth limit, and never expands a name that the context hides |
| MacroTraces.BodyGrows | qy/macro/expand.py:488-519 | the same for bodies, whose own names are given up behind them |
| MacroTraces.LetGrows | qy/macro/expand.py:522-553 | the same for let |
| MacroFree.FormSettles | qy/macro/expand.py:378-485 | without macros, expansion defines none, adds no quasiquote, and changes a form unless it is of the unchanged kind |
| MacroFree.MacroFreeIsUnchanged | qy/macro/expand.py:378-553 | without macros a form is given back as it was if and only if expansion meets no dotted list, no quasiquote with an argument and no empty list in a body |
| MacroNormal.FormNormal | qy/macro/expand.py:378-485 | at any depth, expansion leaves no list headed by a macro's name that nothing hides there, keeps the macros in scope and the heads of lists that are no calls |
| MacroNormal.CallsAreRun | qy/macro/expand.py:378-653 | a successful expansion ran no macro if and only if the form held no visible call, hiding by parameters, `let` names and definitions included |
| MacroCalls.ExpansionIsNormal | qy/macro/expand.py:378-653 | both together; what is left is then expanded again without running a macro |
| MacroCalls.CallIsRun | qy/macro/expand.py:455-478 | a visible call within the depth limit runs that macro on exactly the call's arguments and state, and expands what it makes one level deeper behind its trace |
| MacroCalls.CallIsTraced | qy/macro/expand.py:461-472 | on success the call's trace comes first and stays |
| MacroCalls.ItemsInOrder | qy/macro/expand.py:482-485 | the items of a list are expanded from the left, each once in the context that the one before left, and in no other way |
| MacroCalls.FormsInOrder | qy/macro/expand.py:506-517 | so are the forms of a body, with the names of earlier definitions hidden and forms that became nil left out |
| MacroCalls.BindingsInOrder | qy/macro/expand.py:529-537 | so are the values of a `let`, whose names are left as they are |
| MacroCalls.ShadowedExactly | qy/macro/expand.py:567-592 | the names that a body hides are its parameters, the heads of its pairs and, for `defun`, its own name |
| MacroCalls.BoundExactly | qy/macro/expand.py:531-538 | a `let` hides the names of its pairs of two |
| MacroCalls.DefinedExactly | qy/macro/expand.py:595-610 | a form hides from the next ones the name that it defines, unless it defines a component |
| MacroCalls.DefinitionBinds | qy/macro/expand.py:405-452 | what macro definitions, imports and components do to the scope around them |
| MacroCalls.BodyIsAScope | qy/macro/expand.py:498-519 | whatever macros a body defines or imports, behind it the scope is as it was |
| MacroCalls.LetIsAScope | qy/macro/expand.py:539-553 | the same for the body of a `let` |
| MacroCalls.HeadCallEscapes | qy/macro/expand.py:482-485 | a call in front of arguments may leave the name of another macro there, which is not expanded |
| MacroCalls.ParameterListIsCalled | qy/macro/expand.py:501-502 | a parameter list that starts with a macro's name is run as its call |
| Nesting.Worklist.RelaxDepth | qy/ir/lir/predicates.py:303-312 | the first depth seen at a node is kept |
| Nesting.NestingCfg | qy/ir/lir/predicates.py:315-374 | the analysis ends and reports the underflows in the order of its visits, then the first return with an open push; the guard against a second report is never needed |
| Nesting.EdgesExactly | qy/ir/lir/predicates.py:275-300 | the edges of the graph: to the next instruction unless it jumps away or ends, to a jump's last operand, and to a push's handler, within the code |
| Nesting.VisitKeepsInv | qy/ir/lir/predicates.py:341-362 | one turn of the loop keeps every instruction either waiting or done, once, at a depth that a path realises |
| Nesting.VisitsReachableOnce | qy/ir/lir/predicates.py:336-362 | exactly the reachable instructions are visited, each once |
| Nesting.DepthsAreRealised | qy/ir/lir/predicates.py:303-312 | each recorded depth is that of a path to the instruction |
| Nesting.BalancedIsSilent | qy/ir/lir/predicates.py:315-374 | code on which no path pops below zero or returns with an open push is not reported |
| Nesting.BalancedExactly | qy/ir/lir/predicates.py:315-374 | code is balanced if and only if it is not reported and the paths to each reached pop or return agree on whether a push is open |
| Nesting.SilentIsBalanced | qy/ir/lir/predicates.py:315-374 | in particular, when depths do not depend on the path, no report means balanced and the other way round |
| Nesting.FirstDepthHidesUnderflow | qy/ir/lir/predicates.py:303-312 | a function that is not reported and pops below zero on one path |
| SymbolSpaces.SymbolSpace.LookupHere | qy/core/symbol_space.py:161-175 | bindings before hidden bindings before the resolver, in one layer |
| SymbolSpaces.SymbolSpace.ResolveSymbol | qy/core/symbol_space.py:177-198 | the loop ends on every chain with finitely many aliased symbols, equals the recursive resolver, and returns no alias |
| SymbolSpaces.SymbolSpace.DefineOnce | qy/core/symbol_space.py:217-229 | a bound symbol is refused and nothing changes, else this layer alone gains it |
| SymbolSpaces.ResolveExactly | qy/core/symbol_space.py:177-198 | a value is found if and only if aliases and parents lead to it without coming back to a followed symbol |
| SymbolSpaces.ResolveIsSound | qy/core/symbol_space.py:177-198 | every answer is one of the plain alias semantics |
| SymbolSpaces.ResolveIsComplete | qy/core/symbol_space.py:177-198 | when aliases have no cycle across layers, every answer of the plain semantics is found |
| SymbolSpaces.RevisitIsMissing | qy/core/symbol_space.py:185-194 | two layers in which an answer of the plain semantics is missed |
| BytecodeBinary.ProgramReadsBack | qy/backend/vm/bytecode.py:243-375 | a serialized program is read back, less what the format does not carry, and reading stops exactly behind it |
| BytecodeBinary.FunctionReadsBack | qy/backend/vm/bytecode.py:255-277 | the same for one function |
| BytecodeBinary.ProgramExtends | qy/backend/vm/bytecode.py:311-375 | what was read stays the same when more bytes follow |
| BytecodeBinary.TruncatedIsRefused | qy/backend/vm/bytecode.py:311-317 | no proper prefix of a serialized program is accepted |
| BytecodeCodec.Writer.PutFunction | qy/backend/vm/bytecode.py:255-277 | the parts list grows by the function's bytes, or a number cannot be packed |
| BytecodeCodec.SerializeBytecode | qy/backend/vm/bytecode.py:205-290 | the bytes of the program if and only if all its counts and lengths can be packed |
| BytecodeCodec.Reader.ReadProgram | qy/backend/vm/bytecode.py:329-375 | the cursor reads the specified program, or fails with the specified error |
| BytecodeCodec.DeserializeBytecode | qy/backend/vm/bytecode.py:293-375 | the same from the start of the data, with the number of bytes consumed |
| BytecodeCodec.RoundTrip | qy/backend/vm/bytecode.py:205-375 | serializing and deserializing gives the program less its spans, layouts and rest parameters, whatever follows the data |
| Layouts.BinaryLayout | qy/backend/vm/bytecode.py:205-290 | the bytes of a program with one function, one instruction, one operand and one diagnostic |
| Interchange.ValuesRoundTrip | qy/backend/vm/bytecode.py:389-430 | a value comes back from its JSON tree if and only if it holds nothing without an encoding, no documented effect, and only semantic values of known classes |
| Interchange.UndocumentedRoundTrip | qy/backend/vm/bytecode.py:411-415 | the documentation of effects is all that other values with an encoding lose |
| Interchange.ChainsRoundTrip | qy/backend/vm/bytecode.py:432-437 | proper and improper chains come back |
| Interchange.SemanticRoundTrip | qy/backend/vm/bytecode.py:646-683 | a semantic value comes back exactly when the loader knows its class with these fields and the fields come back |
| InterchangeProgram.OperandsExactly | qy/backend/vm/bytecode.py:445-495 | an operand comes back if and only if its position can carry it |
| InterchangeProgram.HandlersDecode | qy/backend/vm/bytecode.py:463-476 | handler specifications come back exactly when each is a pair of a symbol and an index |
| InterchangeProgram.FunctionComesBack | qy/backend/vm/bytecode.py:841-862 | a function comes back exactly when its instructions do and its rest parameter, if any, has a name |
| InterchangeProgram.ProgramsExactly | qy/backend/vm/bytecode.py:686-871 | loading a serialized program gives it back, less spans and diagnostics and with its layout in every function, if and only if every function comes back |
| Layouts.CompoundKeys | qy/backend/vm/bytecode.py:389-437 | the type names and keys of chains, effects and addresses |
| Layouts.InstructionKeys | qy/backend/vm/bytecode.py:439-495 | the keys of an instruction, and how registers are written |
| Layouts.ProgramKeys | qy/backend/vm/bytecode.py:540-580 | the keys of functions, layouts and programs |
| Numeric.RemaindersAgree | qy/std/numeric_spaces.py:163-221 | rem is the session's remainder: with the quotient it gives the dividend back, is smaller than the divisor and has the dividend's sign |
| Numeric.DivisionOverflows | qy/std/numeric_spaces.py:163-191 | the quotient of two members overflows only for the least one by -1, and the remainder never |
| Numeric.BitwiseAt | qy/std/numeric_spaces.py:247-272 | the unbounded bit operations work on each bit |
| Numeric.BitwiseStays | qy/std/numeric_spaces.py:247-272 | the unchecked bit operations stay in their space |
| Numeric.BitNotIs | qy/std/numeric_spaces.py:274-283 | complement stays in its space and is its own inverse |
| Numeric.DeMorgan | qy/std/numeric_spaces.py:247-283 | the complement of a conjunction is the disjunction of the complements, in every space |
| Numeric.ShiftStays | qy/std/numeric_spaces.py:297-307 | the unchecked right shift by any number of places stays in its space |
| Numeric.ShiftRightBy | qy/std/numeric_spaces.py:297-307 | the shifted number, in its space, or Python's refusal of a negative number of places |
| Numeric.BitOperation | qy/std/numeric_spaces.py:247-272 | the fold of the arguments, in the space unless it is the empty conjunction in an unsigned one |
| Numeric.Divide | qy/std/numeric_spaces.py:168-191 | division by zero, the floored reciprocal, or the checked running quotient |
| Numeric.Remainder | qy/std/numeric_spaces.py:206-221 | the session's remainder, or division by zero, and no overflow |
| Numeric.ReciprocalIsNotTruncated | qy/std/numeric_spaces.py:171-180 | the reciprocal is the truncated quotient of one exactly from -1 upwards |

## Left out

- Lir.Step: reading a register that was never written leaves the LIR machine stuck (the VM gives nil, emitted code gives 0), and `EXIT_SCOPE` on the outermost scope does nothing, as in the Go VM.
- Dispatcher.ResultReflected: says nothing about what emitted code does where the LIR machine is stuck; that it then still leaves the constants alone is `ConstantSafety.EmittedKeepsBelow`.
- Dispatcher.EmittedFunctionSimulates: the words of constants are taken as given for the LIR machine; that they decode to the constants is `ConstantPool.EncodeCorrect`.
- Acceptance.CompileAccepts: only while the constants have room below 4 GiB, counted from above; beyond that `struct.pack` refuses addresses, depending on what else is in the pool.
- MacroNormal.FormNormal: code and macro results that define or import macros or components, parameter lists with lists in them or that start with a macro's or a special form's name, lists among `let` pairs that are no pairs, calls and quasiquotes in front of arguments, and a macro named `defeffect` are outside; `MacroCalls.HeadCallEscapes` and `MacroCalls.ParameterListIsCalled` show why.
- MacroNormal.CallsAreRun: within the same bounds, and of successful expansions.
- TemplateLevels.LevelsAgree: of templates whose unquote, quasiquote and splice forms have their one argument and whose lists neither side refuses; all others are `TemplateExact.TemplatesAgreeExactly`.
- TemplateAgreement.FormsAgree: on failure only the failure is the same; when a spliced value is no sequence the expanded code has evaluated the forms behind it first.
- TemplateExact.TemplatesAgreeExactly: outside are templates with a list that ends in a tuple or list value, which no reader produces, and those that evaluate code that fails of itself in the environment that tells templates apart.
- GoRoundTrip.WrittenReadsBack: names that the writer has to quote through JSON come back as string symbols and are outside, as are names with Unicode spaces that the writer leaves bare.
- ResolveOrder.OrderIsIrrelevantExactly: the `only if` half is for package graphs without cycles; `ResolveCycle.CyclesNeedNoUpgrades` shows that it is false with cycles, where `ResolveOrder.UnmetChangesBuild` still says when a reordering changes the build.
- WebAssembly memory is addressed by whole words below 4 MiB; unaligned overlapping accesses and 32-bit address wrap-around are not modelled.
- `BRANCH_NIL` branches like `JUMP_IF_FALSE`, to its last operand or to the next instruction.
- Effects, modules, parallel opcodes, closures and variadic functions in the WebAssembly model: the emitter rejects them.
- `none` and nil have one encoding in WebAssembly words and are identified there, as are Python's `None` and the empty chain in the JSON format.
- The emitter's rule for literal symbols and Python's `int()` on a literal are parameters.
- The per-opcode register tables of MIR: an instruction is its uses, an optional definition and an uninterpreted operation.
- The iteration order of Python's sets.
- Versions: decimal digits other than the ASCII ones.
- Text is a sequence of characters; UTF-8 decoding errors are not modelled.
- Token spans in the Go reader, and reading with the surface dialect expanded, which needs them to see adjacent quote signs.
- Pickle and JSON text: operands have an abstract invertible codec, and the JSON format is modelled as trees. Names are UTF-8 bytes in the binary format.
- `load_bytecode_json` on trees that the serializer does not write, and the tables of hygiene bindings and macro exports that it writes when it has an environment.
- Macro expansion is modelled on values, its context handed from call to call: aliasing of shared context objects, hygiene renaming and the messages of diagnostics are not captured. Running, defining and importing macros, components and what a module does when it closes are total functions of the host.
- `SymbolSpace.fold_from`, `contains` with its membership predicate, and the shared cache.
- Float spaces, `qy.num`'s own division through floats, and the type checks of numeric operators.
- The register VM, the lowering passes, the LLVM backend, the session, the command line and the language server.
