# Owlexpr, verified

Owlexpr compiles an expression language — lexical closures, `let`, `??`, short-circuit operators,
conditionals — to bytecode and runs it on a trampolined stack machine; a *sheet* of named
expressions is ordered by dependency and run on top of it. This project models that system in Dafny
and proves what it promises its users, end to end: `Pipeline.CompileAndRun` goes from tokens through
the parser, the folder, the compiler and the engine and returns exactly the meaning of the syntax tree.

How the pieces fit together:

- `Values`, `Mapping`: run-time values, the primitive operations and the *host* (everything outside
  the language: builtins, host values, floats, the regex engine). A value type is generic in what a
  closure carries as its code, and a `Mapper` replaces that code; a host that cannot look inside
  closures commutes with every Mapper (`Natural`). All the program transformations below — compiling,
  folding, dropping names that cannot be loaded — are Mappers, so each theorem covers closures that
  outlive the expression that made them.
- `Syntax`, `Semantics`: syntax trees and the reference meaning, a lexically scoped evaluator with a
  budget of suspended activations, whose exhaustion is an ordinary error.
- `Bytecode`, `CompilerSpec`, `Compiler`: the instruction set, the code each expression is compiled
  to, and the compiler at work (appending, patching jumps, one fresh compiler per nested body).
- `Machine`, `Compiled`: the machine as a recursion, with the three places a frame's values can live
  (its own slice, the operand stack, a reused buffer), and compiler correctness for it.
- `Trampoline`, `Correctness`, `Pump`: the loop with its explicit frame stack, the proof that it does
  what the recursion does, and the `Vm` and `ReusableCall` classes whose methods refine one step each.
- `StackSafety`, `SafeRuns`: a static stack height for every emitted instruction and an address
  discipline for every emitted stream, and the proof that every reachable state of the loop, its
  suspended frames included, agrees with both.
- `Fold`, `Names`, `FreeNames`: constant folding preserves meaning; the reported names are the only
  ones that matter, and they are the free names of the source.
- `SheetRefs`, `SheetLoads`, `SheetOrder`, `SheetCells`, `Sheet`, `SheetRun`, `Callbacks`: static
  dependency analysis, ordering, and runs of a sheet. The results map that cells share by reference is
  a host value here, a handle whose contents the host supplies, and all of the host's answers may depend
  on those contents, since builtins call closures back that read them.
- `Laws`, `OperatorLaws`, `Meaning`: what every construct and every operator evaluates to, told on syntax
  nodes and values without the evaluator's own tables, and other consequences of the semantics.
- `Grammar`, `Parsing`, `ParserSound`, `ParserExact`, `Parser`: concrete syntax trees, the Pratt
  parser as a function, its exactness, and the parser as a class with its save-and-restore lookahead.
- `Readings`: what text is read as, told on tokens and syntax trees without the binding-power table: how
  tightly every operator holds its operands, what it stands for, and the spelling of every construct.
- `Rejections`, `FoldComplete`, `SheetLaws`: which expressions the compiler accepts, what folding works
  out, and what the cells of a sheet see, each told without the functions that decide it.
- `Dispatch`, `PrehashedMap`, `Power`, `Windows`, `IterChains`: the operator table and its cache, the
  prehashed index, wrapping power and byte arithmetic, `time.windows`, lazy iterator chains.
- `Ordering`, `Pipeline`: sorted name lists, the whole path.

Four points where the code and its documentation part, with what is proved instead:

- `matches` with a right operand that only folding turns into a literal changes meaning, against
  the promise that folding is always safe (fold.go:10-16). `FoldingPreservesMeaning` holds for every
  expression without such an operand; `LatePatternChangesMeaning` says exactly when one matters, and
  `FoldAccepted` exactly when folding makes the compiler reject what it would have accepted.
- An `if` without else is refused by the sheet's reference scan as an unknown node although it is
  legal everywhere else: `ScanFailsExactly`, `MissingElseRefused`.
- `time.windows` promises at most 10000 windows, but the sum that its test divides can overflow:
  `LimitMissesHugeSize`, `LimitExact`.
- `PrehashedMap.Get` returns a lone entry without comparing keys: `Index.Get` states exactly which
  absent keys are reported present.

## Model

| member | source | states |
|---|---|---|
| `Compiled.LookupAddress` | compiler.go:117-127 | the address the compiler resolves at compile time holds, in every run-time chain of that shape, the innermost and last-duplicate binding that the scoping rule finds, and a name gets no address exactly when it has no binding |
| `Compiled.CodeRuns` | compiler.go:141-443 | compiler correctness: the code emitted for an expression, run at any offset, on any stack, in any scopes and locals it was compiled for, leaves what was there and pushes exactly the expression's value, or fails with exactly its error |
| `Compiled.NameRuns` | vm/vm.go:1010-1028 | a variable's one instruction pushes what lexical lookup, then the environment, then the host gives, or fails as they fail |
| `Compiled.LambdaRuns` | vm/vm.go:1167-1169 | a closure instruction pushes the compiled form of the source closure, capturing exactly the current scopes and frames |
| `Compiled.BindingRuns` | vm/vm.go:1171-1187 | a let binds its value for the body only and leaves the body's value in its place |
| `Compiled.BranchJoins` | compiler.go:427-443 | with its parts running as their outcomes say, a conditional's two jumps select one arm, rejoin past the other, and give that arm's outcome or the condition's failure |
| `Compiled.CallRuns` | vm/vm.go:1223-1295 | a call gives what applying the callee means, flattened or not, for closures, host functions and wrong argument counts alike |
| `Compiled.FlatReturns` | vm/vm.go:978-981 | compacting a flattened call's result onto the callee's slot leaves what a plain call leaves |
| `Compiled.BodyRuns` | vm/vm.go:403-436 | a lambda body run in a frame of its own, in a view of the operand stack or in a reused buffer has the same outcome, the last two when its code creates no closure |
| `Compiled.ReadSees` | vm/vm.go:1022-1028 | reading an address through a chain whose frames may be borrowed gives what the frames it stands for hold |
| `Compiled.SeesPrefix` | vm/vm.go:1240-1259 | argument slots that are views of the stack keep their values while everything above them changes |
| `CompilerSpec.ClosureLiterals` | vm/bytecode.go:277-293 | the scan of emitted code finds a closure literal exactly when the expression contains a lambda |
| `Compiler.Compiler.Compile` | compiler.go:141-402 | the compiler at work appends exactly the specified code to what it had emitted, reports exactly the first failure in traversal order, and keeps an earlier one |
| `Compiler.Compiler.ResolveLocal` | compiler.go:117-127 | the two backward loops find the specified address |
| `Compiler.Compiler.CompileLambda` | compiler.go:412-425 | a lambda becomes one closure instruction whose NoEscape flag is the absence of closure literals in the finished body, or its body's failure is passed on |
| `Compiler.Compiler.CompileLet` | compiler.go:234-248 | the value is compiled in the outer scope and the body in a stream of its own with the name bound |
| `Compiler.Compiler.CompileConditional` | compiler.go:427-443 | both jumps, emitted blank and patched later, end at the specified indices; an absent else is nil |
| `Compiler.Compiler.CompileOr` | compiler.go:252-267 | `or` emits the specified branch with the constant true as its first arm |
| `Compiler.Compiler.CompileAnd` | compiler.go:270-285 | `and` emits the specified branch with the constant false as its second arm |
| `Compiler.Compiler.CompileCoalesce` | compiler.go:296-308 | the left operand gets its own stream, the right one is inline, and the patched end is just past it |
| `Compiler.Compiler.CompileMatches` | compiler.go:322-343 | string literals become regex constants, hopeless literals are rejected before the left operand is compiled |
| `Compiler.Compiler.CompileEntries` | compiler.go:205-210 | a map literal's keys and values are compiled alternately in source order |
| `Compiler.Compiler.PatchJump` | compiler.go:259-265 | a patched jump points to the end of the code as it is now and nothing else moves |
| `Rejections.AcceptedExactly` | compiler.go:322-343 | the compiler accepts an expression exactly when all its regex literals and all strings right of `matches` are valid patterns and no other literal, list, map or lambda stands there |
| `Trampoline.Simulates` | vm/vm.go:947-1332 | from any point of any activation that the recursion does not find stuck, the loop reaches the end of that activation with the recursion's stack, or with its error and everything below its floor intact |
| `Trampoline.CallSimulates` | vm/vm.go:1223-1295 | saving a continuation, running the callee on the same loop and resuming does what a recursive call does |
| `Trampoline.CoalesceSimulates` | vm/vm.go:1189-1207 | from a `??` on, the loop reaches the end of its activation as the recursion does, whether the left operand raised, gave nil or gave a value |
| `Trampoline.CoalesceIsolates` | vm/vm.go:978-998 | from any `??` the loop comes, through whatever its left operand did, to one of two states: at the right operand with stack, bindings, scopes and saved frames exactly as they were if it failed or gave nil, past it with its value pushed otherwise |
| `Correctness.CoalesceIsolation` | vm/vm.go:1189-1207 | so in emitted code, with the left operand's meaning deciding which, at any depth of lets, calls and inner `??` |
| `Trampoline.UnwindsToNearest` | vm/vm.go:1298-1324 | an error pops exactly the sequences above the nearest one that is the left of a `??`, in as many steps, and what that `??` interrupted resumes with the stack cut to its base |
| `Trampoline.UncaughtFails` | vm/vm.go:1310-1316 | an error that no `??` of this run encloses ends the run with the stack and frames of its beginning |
| `Trampoline.Unwinds` | vm/vm.go:1310-1323 | an error that leaves a sequence which is not the left of a `??` truncates the stack to that sequence's base and goes on in the one it interrupted |
| `Correctness.ProgramRuns` | vm/vm.go:879-888 | every run of a compiled program ends, never panics, and returns the expression's value or error with the stack and frames as it found them |
| `Correctness.BodyEnds` | vm/vm.go:635-643 | so does every lambda body run from outside the loop, in a fresh or a borrowed frame |
| `Correctness.FlatteningUnobservable` | vm/vm.go:1226-1259 | a machine that flattens calls and one that never does end every program alike |
| `Correctness.ReuseUnobservable` | vm/vm.go:413-436 | a NoEscape closure called in a frame that later calls overwrite gives what it gives in a frame of its own |
| `Correctness.StepBounds` | vm/vm.go:898-912 | no step of any program suspends more activations than the limit or touches those suspended before the run |
| `Correctness.RunBounds` | vm/vm.go:871-912 | over any number of steps of any program, compiled or not, the frame stack stays within the limit and a finished run leaves it at the height it found |
| `StackSafety.CodeBalanced` | compiler.go:250-308 | the code of any expression, at any index and over any stack, has one static height per instruction on which all jumps agree, needs nothing beneath it and ends exactly one value higher |
| `StackSafety.CodeFits` | compiler.go:94-127 | every address in emitted code, nested streams included, is that of the innermost frame binding its name and the last slot there, for the names bound where it will run |
| `StackSafety.CodeSafe` | compiler.go:412-443 | so every emitted stream starts with nothing, ends with exactly its result, and is made of such streams |
| `SafeRuns.StepKept` | vm/vm.go:947-1332 | every step keeps the agreement of stack height, run-time chain and suspended frames with the compiled code, never panics, and ends a run only with the stack and frames it found |
| `SafeRuns.ProgramSafe` | vm/vm.go:871-912 | after any number of steps of any compiled program the state is one of these, or the run has ended with its result on top of the unchanged stack, or with an error and the unchanged stack |
| `SafeRuns.ClosureSafe` | vm/vm.go:403-436 | the same for the body of any compiled closure the host calls, in its own frame or in a reused one |
| `SafeRuns.PlainSafe` | vm/vm.go:1022-1028 | in such a state no load of a local is out of range and no closure is ever created over a frame that lives on the stack or in a reused buffer |
| `SafeRuns.AddressSound` | vm/vm.go:1022-1028 | the chain an address is read through binds exactly the names of compile time, and the address is there that of the innermost, last binding of its name |
| `SafeRuns.SuspendedSound` | vm/vm.go:793-912 | the same holds in every saved frame, and what interrupted it never pops below what it will find again |
| `SafeRuns.ErrorCaught` | vm/vm.go:1298-1324 | in any run of emitted code an error reaches the nearest enclosing `??`, which finds the stack at least as high as it left it and resumes there |
| `SafeRuns.ErrorUncaught` | vm/vm.go:1310-1316 | and where there is none the run fails with it, on exactly the stack and frames it began with |
| `Pump.Vm.SaveContinuation` | vm/vm.go:898-912 | a continuation is saved exactly when fewer than the limit are, and otherwise nothing changes |
| `Pump.Vm.ExecuteCall` | vm/vm.go:1223-1295 | the call opcode takes the state to the step relation's next state, whether it flattens, switches, or asks the host |
| `Pump.Vm.ExecuteCoalesce` | vm/vm.go:1189-1207 | the coalesce opcode suspends the parent past itself and makes the left operand active |
| `Pump.Vm.ExecuteLet` | vm/vm.go:1171-1187 | the let opcode moves the value from the stack to a new frame and switches to the body |
| `Pump.Vm.CompleteActive` | vm/vm.go:954-1000 | running off the end of a sequence settles its result and resumes what it interrupted as the step relation says |
| `Pump.Vm.UnwindToCatch` | vm/vm.go:1298-1324 | the unwinding loop reports a catch exactly when some sequence of this run is the left of a `??`, then leaves the state in which the nearest such `??` resumes, and takes no step the step relation does not |
| `Pump.Vm.Pump` | vm/vm.go:947-1332 | the loop ends where the iterated step relation ends |
| `Pump.Vm.RunFrame` | vm/vm.go:879-888 | a frame's result is popped or its error returned, on a machine restored to its former stack and frames |
| `Pump.Vm.RunScopes` | vm/vm.go:789-791 | a compiled program run against any scopes returns exactly the value or error of its expression and leaves the machine ready for the next run |
| `Pump.Vm.CallFunction` | vm/vm.go:1339-1346 | calling any value from outside gives its application, an argument-count error or the host's answer |
| `Pump.ReusableCall.CallReusing` | vm/vm.go:430-436 | a call through the shared frame has the outcome of a call in a fresh one, whatever earlier calls left in the buffer |
| `Pump.ReusableCall.Call1` | vm/reusable_call.go:48-54 | so with one argument through the reused argument buffer |
| `Pump.ReusableCall.Call2` | vm/reusable_call.go:58-64 | so with two |
| `Pump.ReusableCall.Call3` | vm/reusable_call.go:68-74 | so with three |
| `Pump.MapList` | builtin_funcs.go:316-359 | mapping a list through one reused call collects the results of independent calls and stops at the first failure |
| `Mapping.OperateNatural` | vm/vm.go:1030-1165 | no strict opcode can tell what code the closures among its operands carry |
| `Laws.LiteralLaw` | compiler.go:145-163 | a literal evaluates to itself and a lambda to a closure over the scopes and bindings where it is written |
| `Laws.BoundName` | vm/vm.go:1022-1028 | a name is the last binding with that name in the innermost frame that has one |
| `Laws.FreeName` | vm/vm.go:645-652 | a name bound nowhere is looked up in the caller's scopes, innermost first, and then asked of the host |
| `Laws.LetLaw` | vm/vm.go:1171-1187 | a let evaluates its value, fails with it or at the limit, and gives its body's outcome one activation further in |
| `Laws.LetNames` | compiler.go:234-248 | `let x = v; x` is v, and any other name means what it meant outside |
| `Laws.CallOrder` | compiler.go:387-400 | the callee comes first, then the arguments from left to right, and the first failure is the call's |
| `Laws.ClosureCall` | vm/vm.go:1223-1295 | a closure's body is evaluated where its lambda was written with its parameters bound in order; a wrong number of arguments and the limit are errors |
| `Laws.HostCall` | vm/vm.go:1339-1346 | anything else that is called is the host's to call, with the evaluated arguments in order |
| `Laws.ConditionalLaw` | vm/vm.go:1209-1221 | a conditional takes the arm its bool says, nil for a missing else, and refuses any other condition |
| `Laws.LogicalLaw` | compiler.go:250-286 | `or` and `and` stop at a left operand that decides, refuse one that is no bool, and otherwise give the right one as it is |
| `Laws.CoalesceLaw` | vm/vm.go:1189-1207 | `??` gives its left operand, evaluated one activation further in, unless that fails, is nil or is a typed nil, and then its right one |
| `Laws.MemberLaw` | vm/vm.go:1030-1048 | `t.n` and `t?.n` fail as t fails, ask the host about other values, and differ only where t is nil: there `?.` gives nil and `.` the host's answer about nil |
| `Laws.MapMember` | vm/vm.go:1880-1886 | a member of a map is the value under that name, or the key is not found |
| `Laws.IndexLaw` | vm/vm.go:1122-1140 | the target is evaluated before the index; a nil target gives nil under `?.[i]` once the index has been evaluated, and what is no list, map or string is the host's to index |
| `Laws.ListIndex` | vm/vm.go:1681-1691 | `xs[i]` is element i of the list counted from 0, out of range for any other integer, and an error for anything else |
| `Laws.MapIndex` | vm/vm.go:1693-1702 | `m[k]` is the value under k, key not found if there is none, and an error if k is no string |
| `Laws.StringIndex` | vm/vm.go:1733-1742 | `s[i]` is the string of the character at i, out of range for any other integer |
| `Laws.ListLaw` | vm/vm.go:1097-1103 | a list literal holds its elements' values in the order written, or fails as its first failing element does |
| `Laws.ElementLaw` | vm/vm.go:1681-1691 | indexing a list literal at i gives exactly what its i-th element evaluates to, and any integer outside it is out of range |
| `Laws.MapLaw` | vm/vm.go:1105-1120 | a member, or a string index, of a map literal is what its first entry with that key evaluates to |
| `Laws.MapAbsent` | vm/vm.go:1105-1120 | a key that is not written in a map literal is not found in it |
| `Laws.MapFails` | compiler.go:205-210 | a map literal fails as its first failing entry does |
| `Laws.ListSlice` | vm/vm.go:1796-1804 | `xs[lo:hi]` holds the elements from lo up to hi, a bound left out or nil standing for the end it is at, and is out of range exactly for bounds outside the list or crossed |
| `Laws.StringSlice` | vm/vm.go:1807-1813 | so for the characters of a string |
| `Laws.IndexOfSlice` | vm/vm.go:1841-1865 | `xs[lo:hi][i]` is `xs[lo + i]` inside the slice and out of range elsewhere |
| `Laws.SliceOrder` | compiler.go:217-229 | target, low bound and high bound are evaluated in that order and the first failure is the slice's |
| `Laws.SliceRefusal` | vm/vm.go:1841-1865 | a bound that is neither an integer nor nil is refused; host values make the slice the host's |
| `OperatorLaws.OperandOrder` | compiler.go:345-346 | the left operand of a strict operator is evaluated before the right one and the first failure is the operator's |
| `OperatorLaws.IntegerRing` | vm/operations.go:113-132 | integer sums, differences and products are exact up to a multiple of 2^64 and lie in int64 |
| `OperatorLaws.IntegerDivision` | vm/operations.go:119-128 | quotients truncate toward zero, remainders take the dividend's sign, and a zero divisor is an error |
| `OperatorLaws.IntegerPower` | vm/operations.go:178-181 | a zero exponent gives 1 and a negative one is an error |
| `OperatorLaws.IntegerPowerStep` | vm/operations.go:178-191 | an exponent larger by one is one factor more, modulo 2^64 |
| `OperatorLaws.IntegerOrder` | vm/operations.go:133-144 | the six comparisons of integers |
| `OperatorLaws.StringLaw` | vm/operations.go:47-68 | `+` joins strings and comparisons follow the first character in which they differ |
| `OperatorLaws.OtherCoreLaw` | vm/operations.go:18-28 | bools are compared for equality only, and strings have no other arithmetic |
| `OperatorLaws.FloatLaw` | vm/operations.go:193-243 | float operators hand the Machine their operands left to right, and a zero divisor is an error |
| `OperatorLaws.NilEquality` | vm/vm.go:1050-1073 | nil and typed nils equal each other and nothing else, without asking the host |
| `OperatorLaws.MixedLaw` | vm/vm.go:1075-1080 | operands of different types are the dispatcher's to combine, in the order written |
| `OperatorLaws.UnaryLaw` | vm/vm.go:1082-1095 | minus negates integers modulo 2^64 and floats and asks about the rest, `!` negates bools and refuses the rest, plus changes nothing |
| `OperatorLaws.InLikeList` | vm/in.go:20-53 | a value of one core type with all elements of a list is in it exactly if it is one of them |
| `OperatorLaws.InMixedList` | vm/in.go:35-50 | an element of another type is the dispatcher's to compare: its failure ends the scan and only true is a match |
| `OperatorLaws.InListStep` | vm/in.go:35-50 | an element of the same type ends the scan if it is equal and is passed over otherwise |
| `OperatorLaws.InLaw` | vm/in.go:20-33 | exactly its string keys are in a map, nothing is in an empty list, and anything else is the host's to search |
| `OperatorLaws.InMapLiteral` | vm/in.go:20-28 | `k in {...}` is true exactly when an entry is written with that key |
| `OperatorLaws.PatternLaw` | compiler.go:322-343 | a string or regex literal right of `matches` is the pattern, and the left operand must be a string |
| `OperatorLaws.ComputedPattern` | vm/matches.go:18-31 | a computed right operand must be a regex, whatever the left one is |
| `Meaning.LogicalOperators` | compiler.go:252-285 | only the left operand of `or` and `and` must be a bool; the right one is the result unchecked |
| `Meaning.MissingElse` | compiler.go:437-441 | a false condition without an else gives nil |
| `Meaning.DepthErrorCaught` | vm/vm.go:898-901 | exhausting the activation limit is an ordinary error that an enclosing `??` turns into its right operand |
| `Meaning.FirstEntryWins` | vm/vm.go:1105-1120 | of several entries with one key a map literal keeps the first |
| `Meaning.LastParameterWins` | compiler.go:105-127 | of several parameters with one name the body sees the last |
| `Fold.FoldMatchesHandlers` | fold.go:204-375 | the folder folds two literals exactly when the default handlers would combine them without error and without consulting the coercion setting, and to the same value |
| `Fold.LiteralValue` | fold.go:40-72 | what folds to a literal has that literal as its value in every environment, at every depth |
| `Fold.FoldingPreservesMeaning` | fold.go:8-143 | an expression in which no right operand of `matches` becomes a literal only by folding has the same outcome folded and not, on every Machine, in every environment, closures in it and in its result folded likewise |
| `Fold.LatePatternChangesMeaning` | fold.go:56-66 | when such an operand exists, compiling and running the folded and the unfolded expression have the same result, rejection by the compiler included, exactly when the literal is a valid pattern and the left operand fails at compile time or at run time, or both are rejected alike |
| `Fold.FoldAccepted` | compiler.go:322-343 | for every expression: the compiler accepts it folded exactly when it accepts it unfolded and folding makes no literal right of `matches` that is not a valid pattern |
| `Fold.LateRejectionExample` | compiler.go:331-333 | `("abc" matches (1 + 2)) ?? 5` compiles and gives 5 unfolded and is rejected folded |
| `Fold.LatePatternExample` | matches_test.go:111-112 | the concrete expression of the test suite: an error unfolded, a regex match folded |
| `Fold.SettledSame` | fold.go:56-66 | the condition is exact: leaving such operands alone makes a difference to the tree precisely when there is one |
| `Fold.FoldTwice` | fold.go:40-143 | folding is idempotent, so closures of compiled programs are fixed by it |
| `FoldComplete.FoldsExactlyRedexes` | fold.go:40-143 | folding leaves an expression as it is exactly when no operator in it, in lambda bodies and map values too, has literals it can combine without error on every Machine |
| `FoldComplete.NothingLeft` | fold.go:40-143 | and one pass leaves no such operator anywhere |
| `Fold.FoldKeepsProblems` | compiler.go:23-28 | folding neither causes nor hides a compile-time failure under the same condition |
| `Fold.FoldedProgramRuns` | compiler.go:18-30 | running the compiled, folded program returns what the expression as written means |
| `Names.NameCollector.Collect` | vm/program.go:54-80 | the recursive scan adds exactly the names loaded by the code and every stream nested in it |
| `Names.ProgramNames` | vm/program.go:38-47 | the report lists exactly those names, each once, in ascending order |
| `Names.StepAlike` | vm/vm.go:947-1332 | two machine states that differ only in what their code cannot load step to two such states, for every instruction |
| `Names.NamesSuffice` | vm/program.go:19-22 | environments that agree, absence included, on the reported names give the same error or results equal up to names no closure in them can load, after any number of steps of any program |
| `Names.UnreportedCanBeLeftOut` | vm/program.go:19-22 | in particular an environment cut down to the reported names serves as well |
| `FreeNames.ReportsFreeNames` | vm/program.go:23-28 | a compiled expression reports exactly its free names: a binding hides a name only where it is in scope |
| `SheetRefs.RefCollector.Collect` | sheet_refs.go:113-222 | the walk adds exactly the specified references and keeps the first failure |
| `SheetRefs.RefCollector.IndexReference` | sheet_refs.go:100-111 | a bracketed access of the unshadowed namespace is handled here, by its folded key or as a failure, and any other is left alone |
| `SheetRefs.SheetReferences` | sheet_refs.go:66-73 | the scan's answer: the references, or the first problem |
| `SheetRefs.ScanExact` | sheet_refs.go:113-222 | a scan that succeeds reports exactly the cells read at occurrences where the compiler resolves the namespace by name and the key is written as a member or folds to a string |
| `SheetRefs.ScanFailsExactly` | sheet_refs.go:100-222 | it fails exactly when some index of the unshadowed namespace is not a constant string or some `if` lacks its else |
| `SheetRefs.MissingElseRefused` | sheet_refs.go:172-175 | the second refusal is the scan's own: the two spellings mean the same |
| `SheetLoads.ScopesAgree` | compiler.go:165-170 | the emitted code of an expression, nested streams included, loads the namespace by name exactly when the scan's scoping rule sees an unshadowed occurrence, and does so whenever the scan reports a cell |
| `SheetLoads.OccurrenceCode` | compiler.go:165-170 | a single occurrence of a name is emitted as a load by name when the scan takes it for unshadowed and as a local address otherwise |
| `SheetCells.KeyValue` | sheet_refs.go:105-108 | the key a constant index folds to is the one computed when the cell runs |
| `SheetOrder.Sorter.Visit` | sheet.go:226-252 | a visit either completes its cell and everything below it, keeping every dependency earlier, or returns a genuine cycle; it ends because each entry uses up an unvisited cell |
| `SheetOrder.Sorter.CycleTo` | sheet.go:238-243 | the reported path is a closed walk along dependency edges |
| `SheetOrder.TopoSort` | sheet.go:218-263 | ordering succeeds exactly when the graph has no cycle, with all the cells, each once, each after its dependencies |
| `SheetOrder.SortedAcyclic` | sheet.go:211-215 | a dependency-first arrangement excludes every cycle |
| `SheetCells.OnlyCellsMatter` | sheet.go:310-318 | evaluating an expression that reads the namespace only by known names depends on the results map only through those cells, through every closure it calls and every closure that builtins call back |
| `Sheet.ScannedConfined` | sheet.go:164-179 | an expression the scan accepts, and that never uses the namespace as a whole, reads only the cells the scan reported, wherever its lambdas are called |
| `Sheet.RunIsSolution` | sheet.go:333-352 | a run returns a map exactly when that map gives every cell the value of its expression with the namespace bound to the complete map |
| `Sheet.OrderIrrelevant` | sheet.go:190-208 | any two dependency-respecting orders of the same cells give the same results and fail together |
| `SheetRun.CompileSheet` | sheet.go:131-210 | a sheet is refused exactly when its cells are at fault, for a true reason, and is otherwise compiled cell by cell in an order in which each follows the cells it reads, with an index inverse to the slots |
| `SheetRun.FindDeps` | sheet.go:164-179 | every cell's dependencies are its references, sorted, and all exist; or the first offending cell is named |
| `SheetRun.RunSheetInto` | sheet.go:333-352 | the engine fills slot i with cell i's value in the run, which for a name of the caller's environment is its value there and for `ns.n` the value in n's slot; or reports the first failing cell with its error, or refuses without running; its stack and frames are restored |
| `SheetLaws.EnvironmentCells` | sheet.go:341-351 | in any run a cell that is a name of the caller's environment has its value there, one that is a name defined nowhere what the host answers about it, and one that is the bare namespace the handle of the results map |
| `SheetLaws.UndefinedCell` | sheet.go:341-347 | a cell naming what neither the environment nor the host knows ends the run with the host's error |
| `SheetLaws.MemberCells` | sheet.go:341-351 | a cell that is `ns.n` has the value of the cell n |
| `SheetLaws.ReferenceCells` | sheet.go:341-351 | so for `ns?.n` and for the bracketed spellings |
| `SheetRun.SheetComputesSolution` | sheet.go:320-328 | what a compiled sheet computes is the one solution of its cells' equations, whichever admissible order was chosen |
| `Callbacks.WithCallDiscreet` | vm/vm.go:1339-1346 | a host whose builtins call closures back, on the same machine with the results map as it is, still meets the condition the sheet theorems put on hosts |
| `Callbacks.WithCallNatural` | vm/vm.go:635-641 | and what such a callback gives on the machine is the compiled form of what its closure means |
| `Callbacks.CallbackReads` | sheet.go:308-318 | a closure over the namespace that a builtin calls back reads the cell's value as it is by then |
| `Parser.PrattParser.ParseExpression` | parser.go:604-756 | the loop over infix and postfix operators returns the specified tree and stops with the specified tokens left |
| `Parser.PrattParser.TryParseParenLambdaParams` | parser.go:979-1013 | the guess at a parameter list either reads it up to the arrow or restores position and both lookahead tokens exactly |
| `Parser.PrattParser.ParseParen` | parser.go:829-863 | a parenthesis is a parameter list if one can be read and otherwise a bracketed expression read from where the guess began |
| `Parser.PrattParser.ParseItems` | parser.go:886-914 | elements are collected up to the closing token or the list is an error |
| `Parser.ParseInput` | parser.go:1152-1171 | the whole input is the specified tree or an error |
| `ParserSound.SoundParse` | parser.go:604-756 | what the parser accepts it read exactly: the consumed tokens are the tree's own, every operand respects the table, and it stopped at a token that neither continues the tree nor exceeds the floor |
| `ParserExact.ParseExact` | parser.go:512-756 | and conversely: at any floor the parser takes a tree off the front of the input precisely under those conditions |
| `ParserExact.ParseAllExact` | parser.go:1152-1171 | a whole input is accepted precisely as the one tree respecting the table that spells it |
| `ParserExact.Unambiguous` | parser.go:512-555 | no token sequence spells two trees that respect the table |
| `ParserExact.RoundTrip` | parser.go:604-756 | any expression printed with brackets exactly where the table asks for them parses back to itself |
| `ParserExact.Associativity` | parser.go:519-555 | a chain of one operator nests to the right for `**` and `??` and to the left for all others |
| `Readings.TwoOperators` | parser.go:464-555 | of any two infix operators between three operands, on eight levels written out symbol by symbol, the tighter one takes the operand between them, equally tight ones go to the left except `??` and `**`, and each makes the expression its symbol stands for |
| `Readings.OneOperator` | parser.go:604-643 | one infix operator between two operands applies what its symbol stands for, with prefixes and suffixes of either operand applied first |
| `Readings.OperandReads` | parser.go:556-570 | suffixes (`.n`, `?.n`, `[i]`, `?.[i]`, slices, arguments) apply before prefix operators, the nearest innermost, to literals, names, brackets, lists and maps |
| `Readings.ConditionalReads` | parser.go:1022-1037 | `c ? y : n` takes everything between its signs and after them, so that operators bind tighter and a second conditional nests to the right |
| `Readings.OperatorCondition` | parser.go:514-532 | an infix operator before the question mark belongs to the condition |
| `Readings.LambdaReads` | parser.go:790-805 | `x => body` takes everything after the arrow as its body |
| `Readings.LambdaParamsReads` | parser.go:826-841 | so does a lambda with any number of parameters in brackets |
| `Readings.LetReads` | parser.go:1102-1132 | `let x = v; body` binds x to v in body |
| `Readings.IfReads` | parser.go:1068-1091 | `if c { y }` has no else |
| `Readings.IfElseReads` | parser.go:1068-1150 | `if c { y } else { n }` has n as its else |
| `Readings.ElseReads` | parser.go:1068-1150 | so has `if c { y } else n` for an n without braces, another `if` for example |
| `Readings.TokenReads` | parser.go:761-788 | number, bool and nil tokens are the literals they spell |
| `Readings.WordReads` | parser.go:768-808 | string and regex tokens are their literals and an identifier is a name |
| `ParserExact.NotParams` | parser.go:979-1013 | a bracketed expression is never taken for a parameter list |
| `Pipeline.Compile` | compiler.go:18-30 | source text compiles to the code of its folded tree, or is a syntax error or the compiler's failure |
| `Pipeline.CompileAndRun` | vm/vm.go:763-769 | text to result: exactly what the syntax tree means, on a machine left as it was |
| `Dispatch.Registry.OperationDispatcher` | vm/vm.go:250-358 | the cache and the early-stopping scan decide exactly as plain scans of the table would: of one type its own handler whatever the coercion setting, of two types a refusal exactly when coercion is off, else the left entry's handler if it lists the right type, else the right's if it lists the left |
| `Dispatch.ScanRoutes` | vm/vm.go:311-357 | which handler an operation reaches and which refusal it meets, told on the entries of the table |
| `Dispatch.RegistrationServes` | vm/vm.go:506-558 | a newly registered handler serves its own type, and the types it lists on its right always and on its left unless their own handler already does |
| `Dispatch.Registry.RegisterOperationalHandler` | vm/vm.go:506-558 | registering overwrites in place or appends, leaving one entry per code and the dense array in step |
| `Dispatch.Registry.RegisterOperation` | vm/vm.go:506-558 | every type involved has a code afterwards, types that had one keep it, and codes minted for different types differ from each other |
| `Dispatch.Registry.RegisterTypeCoder` | vm/vm_config.go:153-165 | a coder is installed once per ID, speaks only for types that neither the core switch nor an earlier coder recognizes, and takes precedence over minted codes |
| `Dispatch.Registry.ResolveOrAssignTypeCode` | vm/vm.go:490-504 | a recognized type keeps its code and a new one gets a code larger than all before |
| `Dispatch.Registry.ClearOperations` | vm/vm_config.go:63-72 | clearing leaves a coherent empty registry in which only types known to the core switch or to a custom coder have codes |
| `Dispatch.RegisteredFind` | vm/vm.go:529-546 | after a registration the table answers with the new entry for its code and as before for every other |
| `Dispatch.RegistrationIsLocal` | vm/vm.go:250-358 | a registration changes no operation that does not involve its type |
| `PrehashedMap.Index.Put` | vm/prehashed_map.go:82-94 | under any hash function the index holds each key once with its latest value |
| `PrehashedMap.Index.Get` | vm/prehashed_map.go:99-113 | a stored key gives its latest value; an absent one is reported absent exactly when its bucket is not another key's lone entry |
| `PrehashedMap.LoneEntryAnswers` | vm/prehashed_map.go:101-105 | two names with one hash: looking up the one never stored returns the other's value |
| `PrehashedMap.Updated` | vm/prehashed_map.go:86-91 | overwriting a slot in place keeps every bucket's keys distinct and every lookup current |
| `Power.IntPow` | vm/operations.go:178-191 | squaring with wrapping products gives the exact power reduced into int64, for every base and non-negative exponent |
| `Power.FoldIntPow` | fold.go:288-301 | the folder's copy agrees on all inputs and declines exactly the negative exponents |
| `Power.SquareStep` | vm/operations.go:183-189 | one round keeps result times base to the remaining exponent, modulo 2^64 |
| `Power.ByteOperations` | stdlib/byte_builtins.go:167-186 | byte `+`, `-`, `*` and `**` are arithmetic modulo 256 on the operands' low bytes, and comparisons compare the operands as they are |
| `Power.LowBytePow` | stdlib/byte_builtins.go:251-264 | a power modulo 256 depends only on the base modulo 256 |
| `Windows.TimeWindows` | stdlib/time_builtins.go:416-457 | the starts returned are, oldest first, exactly the boundaries whose window contains the instant, between floor and ceiling of size over slide of them, and more than 10000 exactly when size+slide-1 overflows int64 and so many windows contain it; refusals in the order they are checked |
| `Windows.RefusalExact` | stdlib/time_builtins.go:416-436 | the exact inputs of each refusal: size or slide not positive, slide above size, size above 10000 slides where their sum fits int64, an instant no duration can express |
| `Windows.StartsExact` | stdlib/time_builtins.go:445-456 | stepping back from the latest boundary while the window still reaches the instant misses and invents nothing |
| `Windows.PastBoundary` | stdlib/time_builtins.go:436-442 | the distance to the latest boundary, computed from two remainders, is right and stays within int64 |
| `Windows.FloorMod` | stdlib/time_builtins.go:460-466 | the adjusted remainder lies in [0, m) and differs from its argument by a multiple of m |
| `Windows.OffsetModSlide` | stdlib/time_builtins.go:435-442 | only the offset modulo the slide matters |
| `Windows.LimitMissesHugeSize` | stdlib/time_builtins.go:424-427 | for every size and slide whose size+slide-1 leaves int64 the count compared with the limit is not positive and the limit refuses nothing |
| `Windows.LimitExact` | stdlib/time_builtins.go:424-451 | more windows than the limit come back exactly then and when the window one past the limit still contains the instant |
| `Windows.LimitMissedExample` | stdlib/time_builtins.go:424-427 | a size and slide for which both hold |
| `IterChains.ToList` | stdlib/iter_builtins.go:431-455 | driving any chain over a list gives the composed list functions' result, which goes through what each stage makes of the one before, element by element, and pulls the specified number of elements |
| `IterChains.ChainMakes` | stdlib/iter_builtins.go:249-423 | between the stages of any chain: map gives its callback's results in place, filter exactly the elements it says yes to in their order, take the first n, skip all but those, each up to the first failure |
| `IterChains.Drive.Yield` | stdlib/iter_builtins.go:249-423 | one element pushed through the closures and their counters does what the chain still to run says |
| `IterChains.PushComposes` | stdlib/iter_builtins.go:249-423 | what a chain makes of a sequence is what it makes of its first element followed by what the chain that is left makes of the rest, and nothing more once it has asked to stop |
| `IterChains.TakePulls` | stdlib/iter_builtins.go:374-398 | wherever a take(n) stands in a chain, if what is before it makes n elements of the first k of the source, no more than those k are ever pulled |
| `IterChains.TakePullsEnough` | stdlib/iter_builtins.go:379-385 | and with nothing after the take, the pulled elements are just enough for n, unless what is before it ended by itself |
| `IterChains.PulledDecides` | stdlib/iter_builtins.go:249-423 | nothing after the last element pulled has any influence on the result |
| `IterChains.FailurePulledLast` | stdlib/iter_builtins.go:249-330 | a callback's failure surfaces exactly when the failing element is pulled: the drive fails with the elements up to the last one pulled and with no fewer |
| `IterChains.NothingTaken` | stdlib/iter_builtins.go:382-385 | a take of nothing anywhere in a chain makes the whole drive empty without driving what is before it |

## Left out

- Reflection: struct fields and methods, typed Go slices and maps, `deferredMember`, `callReflectFunc`, `WrapCallable`. Host values are opaque handles and host functions pure answers of the host.
- Go's plain `int`, `time.Time`, decimals, byte slices and other types that operators may meet are host values; mixed-type operators and coercion are the host's answers. Only operands of one core type use the modelled default handlers.
- A host may hold and pass on closures but not look inside them; a host function that calls back into the machine while it runs does so inside the host's answer (`Callbacks` shows such hosts), at a frame count fixed for that host, so the frame limit speaks of the frames the loop itself saves, not of Go's own stack.
- Panics that cross the loop from host code, error message texts, `RunSheet`'s result map, and the concurrency rules for shared programs.
- SafeRuns.ProgramSafe: the host must not make up closures with hand-built code, and neither may the environment contain any.
- Floats are one uninterpreted type with operations shared by folder and machine; the regex engine is two uninterpreted functions (validity and matching).
- The lexer: parsing starts from tokens, so number ranges, escapes, comments and identifier characters are not modelled. A literal token whose text spells an operator stops the parser's loop here as it does there.
- `&&` and `and`, `||` and `or`, `!` and `not`, and the two spellings of a conditional are one node each in the syntax tree (the concrete trees of the parser keep them apart).
- Folding's writes into argument slices: the pass here builds a new tree.
- Go slices sharing backing arrays: the stack is a sequence, so a flattened call's frame is a range of indices into it, read at the time of the read; that an append may move the stack away from such a view is not modelled.
- A lookup of an environment name, builtin or namespace answers by name; the collision `PrehashedMap.Index.Get` describes is not carried into the machine's name loading.
- Correctness.FlatteningUnobservable: compares machines on compiled programs; hand-built instruction sequences can observe the difference and are covered only by the bounds and name theorems.
- Sheet.RunIsSolution: for cells that use the namespace only through member access or a constant index; cells that pass it whole see whatever has run, which the source disclaims.
- SheetRun.CompileSheet: starts from parsed cells; the check that the namespace is a single identifier belongs to the lexer.
- Windows.TimeWindows: instants are integer nanoseconds; rounding off the monotonic clock and calendar types are outside.
- IterChains.ToList: sources are lists; paired sources and `toMap` add only a shape conversion. Callbacks are functions that return a value or an error.
- Dispatch.Registry.RegisterOperationalHandler: negative type codes, which a custom coder could return and which index the array out of range in the source, are excluded as its callers must exclude them.
- `list.*` and `string.*` functions, JSON, encodings, decimals, time zones and the rest of the standard packs: thin wrappers over libraries.
