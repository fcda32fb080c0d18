# rupair core, modelled in Dafny

rupair finds and repairs buffer overflows in Rust source. This project models its decision logic.

- **Detectors.** Two detectors walk the `syn` syntax tree and produce overflow *candidates*.
  - The tree analyzer (`src/analyzer.rs`) tracks which names are vectors and which are raw pointers into them. It reports every `.add(..)` on such a name.
  - The older visitor (`src/frontend.rs`) records `unsafe` blocks and `vec!` allocations. It reports `.add(..)` statements of an unsafe block with a fixed size 10 and offset 15.
- **Feasibility check.** `src/solver.rs` decides whether a candidate's offset reaches its buffer size. Z3 stands in for an integer comparison. Unknown or zero values count as an overflow.
- **Rectifier.** `src/rectifier.rs` does four things:
  - it classifies a verdict into a fix kind and writes the fix text;
  - it writes an error report;
  - it rewrites unsafe regions of the file line by line;
  - it is meant to rewrite the syntax tree so that every arithmetic node of an expression statement becomes a checked operation bound to a fresh temporary. As written, that rewrite panics on every function body with an expression statement that is not block-like (see Findings).
- **Validator.** `src/validator.rs` compiles and runs the original and the fixed program. It accepts the fix when standard output and exit code agree.

The model layout:

- The syntax tree is an immutable datatype (`Syntax`) that keeps `syn`'s visiting order.
- The candidate record is one seven-field datatype (`Candidates`). The analyzer's candidates carry no size and no offset.
- Each component is a module of pure functions:
  - `Analyzer` and `Frontend`;
  - `Solver` (the Z3 assertion stack is a stack of integer comparisons);
  - `Rectifier` (fix decisions, templates, the line rewrite, error reports);
  - `TreeRewrite` (`lift_and_guard_expr`, `rectify_block`, `rectify`);
  - `Validator`.
- `Pipeline` follows candidates from each detector through the solver and the rectifier.
- `Scenarios` states what the detectors report for small programs, over arbitrary names and lines.
- File contents are passed in as `Result<seq<string>>` (the error is a failed read). Compilation and process outcomes are likewise `Result` parameters.

Behaviour the model follows that a reader might not expect:

- The analyzer's name map is created once per file and never cleared between functions. It is not per-function.
- Analyzer candidates carry no offset and no size. Neither is extracted from the `.add(..)` argument.
- The validator runs the `.rs` path itself as the program. It does not run a compiled binary.

## Model

| member | source | states |
|---|---|---|
| Text.NatToString | src/analyzer.rs:125 | the decimal text of a number is nonempty, all digits, and has no leading zero |
| Text.ParseNatToString | src/rectifier.rs:168 | parsing the decimal text of `n` gives back `n` |
| Text.NatToStringInjective | src/rectifier.rs:171-176 | different numbers have different decimal texts |
| Text.DigitRun | src/rectifier.rs:165 | the `\d+` run at the start of a string is all digits, and it is maximal |
| Text.FirstAddLiteral | src/rectifier.rs:165-168 | the result is the match at the leftmost position where `*ptr.add(<digits>)` matches, and `None` iff it matches nowhere |
| Text.AddLiteralRoundTrip | src/rectifier.rs:165-168 | the capture of `*ptr.add(<n>)` followed by anything is exactly `n` |
| Text.LeadingNumberOf | src/rectifier.rs:168 | the digits of `n`, followed by a non-digit, read back as `n` |
| Syntax.PathIdent | src/analyzer.rs:114-115 | `get_ident` succeeds exactly on one-segment paths, and returns that segment |
| Analyzer.PointerOrigin | src/analyzer.rs:84-100 | a pointer origin comes exactly from an `as_ptr`/`as_mut_ptr` call on a one-segment path, and it is that path's name |
| Analyzer.BindLocal | src/analyzer.rs:48-103 | a `let` changes at most the entry of its own name, and only for a plain identifier pattern with an initializer. `vec!`/`Vec` initializers map the name to itself as a buffer. `as_ptr`/`as_mut_ptr` map it to the receiver as a pointer. Other entries are kept and keys never disappear. Buffers keep naming themselves |
| Analyzer.OnMethodCall | src/analyzer.rs:109-134 | one candidate is appended iff the method is `add` and the receiver is a one-segment path whose name is in the map. The candidate carries `<fn>:<line>`, the recorded buffer, `pointer_offset`, the method token's position, and no size or offset. Otherwise nothing changes |
| Analyzer.VisitExpr | src/analyzer.rs:109-137 | walking an expression only appends candidates and only adds map keys. It keeps every candidate a pointer offset with unknown size and offset |
| Analyzer.VisitStmt | src/analyzer.rs:48-106 | walking a statement only appends candidates and only adds map keys, and it keeps the invariant that buffers name themselves and every candidate is an analyzer candidate |
| Analyzer.VisitItem | src/analyzer.rs:39-45 | the same for an item |
| Analyzer.VisitItems | src/analyzer.rs:20-29 | the same for a sequence of items walked in order with one shared state |
| Analyzer.FindBufferOverflows | src/analyzer.rs:20-29 | every candidate is a pointer offset with unknown size and offset. There are at most as many candidates as `.add(..)` calls in the file. If the items after the first `k` call `.add(..)` only on names bound by the first `k`, each of those calls adds exactly one candidate |
| Analyzer.ExprBound | src/analyzer.rs:113-131 | an expression adds at most one candidate per `.add(..)` call it contains |
| Analyzer.ItemsBound | src/analyzer.rs:113-131 | the same bound for a whole file |
| Analyzer.ExprExact | src/analyzer.rs:113-131 | if every `.add(..)` in an expression is called on a one-segment name already in the map, it adds exactly one candidate per such call, because map keys are never removed |
| Analyzer.ItemsExact | src/analyzer.rs:113-131 | the same exact count for a sequence of items |
| Analyzer.LaterAddsReported | src/analyzer.rs:48-131 | statements that call `.add(..)` only on names bound by earlier statements have every such call reported |
| Analyzer.VisitStmtsAppend | src/analyzer.rs:37-106 | walking `a + b` is walking `a` and then `b` from the resulting state |
| Analyzer.VisitItemsAppend | src/analyzer.rs:20-29 | walking the items `a + b` is walking `a` and then `b`, so bindings carry across functions |
| Analyzer.NoAddNoCandidate | src/analyzer.rs:113 | statements without any `.add(..)` call emit nothing |
| Frontend.ScanUnsafeStmts | src/frontend.rs:120-137 | exactly one candidate per statement of the block that is itself an `add` method call, each with buffer `buffer`, size 10 and offset 15. Unsafe blocks and allocations are untouched |
| Frontend.VisitExpr | src/frontend.rs:113-160 | an unsafe block appends one entry to `unsafe_blocks` plus its direct `add` candidates. A `vec!` macro appends one allocation and one allocation candidate with no size or offset. Every other expression changes nothing |
| Frontend.VisitStmt | src/frontend.rs:90-111 | a `vec!` statement adds an allocation but no candidate; a `let` without initializer does nothing |
| Frontend.StmtCounted | src/frontend.rs:90-111 | one statement adds exactly its expected entries. An expression statement and a `let` initializer are walked as expressions. A function declared as a statement has its body walked. A `vec!` statement adds one allocation |
| Frontend.StmtsCounted | src/frontend.rs:79-111 | a body adds the sum of its statements' expected entries to each list |
| Frontend.ItemCounted | src/frontend.rs:79-88 | a function item adds its body's expected entries; any other item adds none |
| Frontend.ItemsCounted | src/frontend.rs:73-77 | a sequence of items adds the sum of the items' expected entries |
| Frontend.VisitItem | src/frontend.rs:79-88 | items other than functions contribute nothing |
| Frontend.VisitFile | src/frontend.rs:73-77 | every candidate is either the fixed `buffer`/10/15 pointer offset or a `vec` allocation with no size or offset. Each of the three lists has exactly the number of entries the file's reachable unsafe blocks, `add` statements and `vec!` macros call for |
| Frontend.VisitItemsAppend | src/frontend.rs:73-77 | items are visited left to right with one shared result |
| Frontend.NestedUnsafeUnseen | src/frontend.rs:113-159 | an `if`, loop, block or other compound expression statement is not descended into |
| Solver.AsI64 | src/solver.rs:46-47 | the `as i64` cast gives the value in the signed range that is congruent modulo 2^64. It is the identity below 2^63 and negative from 2^63 up |
| Solver.AddBuffer | src/solver.rs:29-32 | registering a buffer records its size and leaves the assertion stack alone |
| Solver.CheckOverflow | src/solver.rs:34-61 | an unknown or zero size or offset is an overflow without a query. For representable values on a consistent solver, the verdict is `offset >= size`. The echoed values are the inputs with unknown read as 0. The solver comes back unchanged |
| Solver.SatInScope | src/solver.rs:51-54 | push, assert, pop leaves the stack as it was, and the scoped check is the old check plus the comparison |
| Solver.AddBufferIrrelevant | src/solver.rs:29-61 | registering buffers never changes a verdict |
| Solver.RegisteredSolverDecides | src/solver.rs:34-61 | a fresh solver with any buffers registered answers exactly `offset >= size` for known nonzero values |
| Solver.ChecksIndependent | src/solver.rs:51-54 | an earlier check does not influence a later one |
| Solver.OneBufferVerdict | tests/buffer_overflow_tests.rs:5-35 | with one registered buffer, the test candidate overflows exactly when the offset reaches the size |
| Solver.SingleBufferScenarios | tests/buffer_overflow_tests.rs:5-35 | size 10 gives: offset 5 safe, 15 overflow, 10 overflow |
| Solver.TwoBufferScenario | tests/buffer_overflow_tests.rs:37-50 | size 5 with offset 6 overflows, then size 15 with offset 6 does not |
| Solver.ZeroOffsetIsOverflow | src/solver.rs:38-44 | a literal offset 0 is reported as an overflow |
| Solver.HugeOffsetWraps | src/solver.rs:46-53 | offset 2^64-1 against size 10 is judged safe as written, and an overflow by the unsigned comparison |
| Solver.CheckOverflowUnsigned | src/solver.rs:34-61 | the check with an unsigned comparison: every known nonzero pair is judged by `offset >= size` |
| Solver.CastAgreesBelowBound | src/solver.rs:46-47 | below 2^63 the check as written and the unsigned check agree |
| Rectifier.DetermineFixType | src/rectifier.rs:86-98 | `UnsafeToSafe` iff the operation contains `unsafe`. Otherwise `SafeAccess` only for no overflow, `VecResize` only for an overflow with offset above size, and `BoundCheck` only for an overflow with offset at most size |
| Rectifier.GenerateFixedCode | src/rectifier.rs:100-133 | bound checks and unsafe-to-safe fixes get the same guard text. A resize allocates exactly `offset + 1` elements, one more than the index it writes. A safe access gets the `get_mut` text |
| Rectifier.ResizeFixReadsBack | src/rectifier.rs:110-116 | the resize text starts with `let mut buffer = vec![0; ` and the number right after it is the allocated length |
| Rectifier.GetMutFixReadsBack | src/rectifier.rs:117-123 | the checked-accessor text starts with `if let Some(value) = buffer.get_mut(` and the number right after it is the index |
| Rectifier.FixedCodeReadsBack | src/rectifier.rs:100-133 | each fix kind's text can be read back: a guard or a checked accessor names the offset, a resize names `offset + 1` |
| Rectifier.GuardFixReadsBack | src/rectifier.rs:102-108 | the guarded index can be read back from the guard text |
| Rectifier.GuardFixInjective | src/rectifier.rs:102-108 | different indices give different guard texts |
| Rectifier.GenerateFix | src/rectifier.rs:62-84 | a read error passes through. The original code is line `line` when it is in range, otherwise the candidate's location. The fix type and text come from the decisions above, and the location is `Line <n>` |
| Rectifier.GenerateFixReadsBack | src/rectifier.rs:62-133 | the offset can be read back from every generated fix. For a resize the length read back is `offset + 1`, which exceeds the buffer size |
| Rectifier.GenerateErrorReport | src/rectifier.rs:196-213 | the risk is `Critical` iff a pointer offset, `Medium` iff an allocation, and `Unknown` otherwise. The issue, location and description carry the operation, line and offset |
| Rectifier.FindLineWithContext | src/rectifier.rs:215-222 | returns the 1-based number and text of the first line containing `*ptr.add`, or `(0, "")` iff there is none |
| Rectifier.GenerateCompleteFix | src/rectifier.rs:135-194 | the loop computes the line-by-line rewrite `CompleteFix`, and a read error passes through |
| Rectifier.RunFromAppend | src/rectifier.rs:145-191 | the rewrite processes lines one after another, so it splits over concatenation |
| Rectifier.OutputOnlyGrows | src/rectifier.rs:145-191 | output is only ever appended to |
| Rectifier.CopiesOutsideRegions | src/rectifier.rs:187-190 | lines with no `unsafe`, seen outside a region, are copied verbatim, each followed by a newline |
| Rectifier.AccumulatesInsideRegion | src/rectifier.rs:153-159 | inside a region, lines without `unsafe` or `}` are only collected into the region text |
| Rectifier.OpenRegionDropped | src/rectifier.rs:145-194 | a region still open at the end of input contributes nothing |
| Rectifier.EnterRegion | src/rectifier.rs:148-159 | a line with `unsafe` opens a region holding that line |
| Rectifier.CloseRegionLine | src/rectifier.rs:161-186 | a line with `}` closes the region and emits its replacement |
| Rectifier.RegionRewritten | src/rectifier.rs:145-186 | a whole region is replaced at once. With no `*ptr.add(` line it is copied unchanged. Otherwise it becomes the guard for its first `*ptr.add(<digits>)` literal, or nothing |
| Rectifier.OneRegionFile | src/rectifier.rs:145-194 | a file with one region: the text outside is copied and the region becomes its replacement |
| TreeRewrite.BinaryStep | src/rectifier.rs:306-332 | (intended rewrite) for a binary node, the sides' temporaries come first, then exactly three new `let`s numbered on from the counter. `x{next-2}` is bound to the left side's guarded form and `x{next-1}` to the right side's. The node becomes `y{next}`, bound to `x{next-2}.checked_op(x{next-1})` |
| TreeRewrite.LiftAndGuard | src/rectifier.rs:304-343 | the counter advances by 3 per arithmetic node. The temporaries are numbered consecutively from the counter. No arithmetic is left in the result. Expressions without arithmetic are returned unchanged with no temporaries. A call keeps its callee and gets its lifted arguments |
| TreeRewrite.BinaryBecomesLastTemp | src/rectifier.rs:306-332 | (intended rewrite) a binary node becomes its last temporary, which applies the operator's checked method to the two before it. Those two bind the left and the right side's guarded forms, and come after the left side's and then the right side's temporaries |
| TreeRewrite.LiftCall | src/rectifier.rs:334-340 | a call's temporaries are its arguments' temporaries, and the call keeps its callee over the lifted arguments |
| TreeRewrite.LiftArgs | src/rectifier.rs:334-340 | call arguments keep their number and lose all arithmetic. The counter advances by 3 per arithmetic node. The first argument is lifted first, from the incoming counter, and its temporaries come first |
| TreeRewrite.LiftArgsAppend | src/rectifier.rs:336-338 | lifting `a + b` lifts `a`, then `b` from the counter `a` left, concatenating temporaries and arguments in that order |
| TreeRewrite.LiftArgsOne | src/rectifier.rs:336-338 | a single argument gives its own temporaries and guarded form |
| TreeRewrite.RectifyStmts | src/rectifier.rs:345-360 | (intended rewrite) one shared counter per block. The result has the block's length plus 3 temporaries per arithmetic node, numbered consecutively from the counter. No expression statement with arithmetic remains |
| TreeRewrite.RectifyOne | src/rectifier.rs:349-358 | (intended rewrite) a statement that is not an expression statement is kept as it is. An expression statement becomes its temporaries, then its guarded expression with its own semicolon |
| TreeRewrite.RectifyStmtsAppend | src/rectifier.rs:347-358 | (intended rewrite) the block is rewritten statement by statement, left to right, with one counter: rewriting `a + b` rewrites `a`, then `b` from the counter `a` left |
| TreeRewrite.RectifyKeepsExpressionStatements | src/rectifier.rs:349-358 | (intended rewrite) the result has as many expression statements as the block. Its other statements number the block's non-expression statements plus the generated temporaries |
| TreeRewrite.GeneratedNamesDistinct | src/rectifier.rs:347-352 | all temporaries generated in one block have distinct names |
| TreeRewrite.GuardedBlockFixed | src/rectifier.rs:345-360 | (intended rewrite) a block that is already guarded is left unchanged |
| TreeRewrite.RectifyBlockIdempotent | src/rectifier.rs:345-360 | rewriting a rewritten block changes nothing |
| TreeRewrite.FixOverflow | src/rectifier.rs:225-231 | (intended rewrite) every top-level function body is rewritten and every other item is kept, whatever the candidate |
| TreeRewrite.RectifyStmtsAsWritten | src/rectifier.rs:345-360 | the block loop as written gets through exactly when every expression statement is block-like (`if`, loop, block, `unsafe`, `match`). It then only drops their semicolons |
| TreeRewrite.AsWrittenAgreesWhereDefined | src/rectifier.rs:345-360 | wherever the code as written gets through, its result is the intended rewrite with the semicolons of expression statements dropped |
| TreeRewrite.ArithmeticStatementPanics | src/rectifier.rs:317-330 | a block holding only `a <op> b;` makes the code as written panic, while the intended rewrite gives three temporaries per arithmetic node plus the guarded statement |
| TreeRewrite.CallStatementPanics | src/rectifier.rs:353-354 | a block holding only a call statement `f(..);` makes the code as written panic, while the intended rewrite keeps it unchanged when its arguments hold no arithmetic |
| TreeRewrite.FixOverflowAsWritten | src/rectifier.rs:225-231 | `fix_overflow` as written panics iff some top-level function body has an expression statement that is not block-like. Otherwise it rewrites each function body as the block loop as written does and keeps other items |
| TreeRewrite.FixOverflowIdempotent | src/rectifier.rs:225-231 | applying the fix a second time, for any candidate, changes nothing |
| TreeRewrite.RectifyIsOnePass | src/rectifier.rs:48-60 | no candidates leave the tree unchanged; any number of candidates amount to one rewriting pass |
| TreeRewrite.RectifyIgnoresCandidates | src/rectifier.rs:48-60 | the result depends only on whether there are candidates, not on which |
| Validator.TraceOf | src/validator.rs:55-64 | a trace keeps both outputs and records a missing exit code as -1 |
| Validator.CompareTracesIsEquivalence | src/validator.rs:66-68 | trace comparison is reflexive, symmetric and transitive, and ignores standard error |
| Validator.Validate | src/validator.rs:19-45 | errors starting a compilation pass through, the original's first. A failed compilation gives `success = false`, the compile-failure message and no traces. An error starting either run passes through, the original's first. A success has both runs' traces, in order, that compare equal. The message is the success text iff `success` |
| Validator.VerdictIsComparison | src/validator.rs:31-44 | when both compile and run, success is exactly equal standard output and exit code, and the traces are `[original, fixed]` |
| Validator.CompileFailureIgnoresRuns | src/validator.rs:20-29 | after a failed compilation the run outcomes do not matter |
| Validator.SameOutputValidates | src/validator.rs:118-153 | identical standard output and exit status 0 validate, whatever standard error says |
| Validator.SignalLooksLikeMinusOne | src/validator.rs:62 | a process killed by a signal compares equal to one that exits with -1 |
| Validator.ReportAsWritten | src/validator.rs:100-108 | the printed lines as written: a failure prints the standard output of both traces |
| Validator.CompileFailureBreaksReport | src/validator.rs:23-29 | a compile failure yields a failed result with no traces, outside what the report as written can index |
| Validator.Report | src/validator.rs:100-108 | the report printing traces only when they exist: it agrees with the written one wherever that is defined |
| Validator.ReportCoversValidate | src/validator.rs:98-108 | every result of `validate` can be reported; the compile-failure result reports only its message |
| Pipeline.DetectorOperationNotUnsafe | src/rectifier.rs:87 | neither detector operation contains `unsafe`, so no detector candidate is classified `UnsafeToSafe` |
| Pipeline.KnownValuesFixType | src/rectifier.rs:86-98 | with known nonzero representable values, the fix is `SafeAccess` iff offset < size, `BoundCheck` iff equal, and `VecResize` iff greater |
| Pipeline.UnknownSizeMeansResize | src/solver.rs:38-44 | an unknown or zero size with a known nonzero offset is fixed by a resize |
| Pipeline.UnknownOffsetMeansGuardAtZero | src/solver.rs:38-44 | an unknown or zero offset is fixed by a bound check guarding index 0 |
| Pipeline.AnalyzerCandidatesGetGuardAtZero | src/analyzer.rs:124-130 | every analyzer candidate is judged an overflow of size 0 at offset 0. It gets the bound check for index 0 and a `Critical` report |
| Pipeline.FrontendCandidatesFixes | src/frontend.rs:126-154 | the older visitor's pointer offsets always get a resize to 16 elements and a `Critical` report. Its allocations get a guard at index 0 and a `Medium` report |
| Scenarios.AnalyzerFindsWriteThroughPointer | src/analyzer.rs:48-131 | a vector, a pointer into it and one write through the pointer give exactly one candidate, naming the vector |
| Scenarios.UseBeforeLetFindsNothing | src/analyzer.rs:48-136 | a write through a pointer before its `let` finds no binding |
| Scenarios.BindingsOutliveFunctions | src/analyzer.rs:39-45 | a pointer bound in one function is still known in the next, and the candidate is located in the later function |
| Scenarios.FrontendSeesOnlyBareAdds | src/frontend.rs:120-134 | `*ptr.add(8) = 42;` gives no candidate; `ptr.add(8);` gives the fixed 10/15 one at the call's position |
| Scenarios.NestedUnsafeSeenOnlyByAnalyzer | src/frontend.rs:113-159 | an unsafe block inside a loop is not recorded by the older visitor, while the analyzer reports the write inside it |

## Left out

- `src/mir_analyzer.rs` (the regex scanner over `.mir` files and directory walking): it is a separate legacy path, and its pattern is not a valid regex.
- `src/main.rs`, `src/lib.rs` and `build.rs`: command line, module list and Z3 link setup.
- The repository's sample programs: they are analysed inputs and drivers, not part of the tool.
- File reading in `generate_fix`, `generate_complete_fix` and `Frontend::analyze`: the file's lines are a parameter. `str::lines` splitting is assumed to have happened.
- Z3: replaced by integer comparison over an explicit push/assert/pop stack.
- `syn` parsing and `quote` printing: the tree is given. `RenderExpr` is an approximation of token printing that matters only for the text of frontend entries.
- TreeRewrite.RequiresTerminator: `syn`'s rule that a macro expression in braces needs no `;` is not modelled, because a lone macro statement is a `MacroStmt` here.
- FixOverflowAsWritten: only one `fix_overflow` pass is given an as-written version. After a pass that gets through, further candidates change nothing, as with the intended rewrite.
- BinaryStep: states the intended `let`, `x.checked_op(y)` with the method as an identifier. As written, the method name is a string literal and the `let` does not parse (see Findings).
- BinaryBecomesLastTemp: states the intended rewrite; the code as written panics on the same input (see Findings).
- RectifyStmts: states the intended rewrite, which keeps each statement's semicolon. As written, `rectify_block` panics unless every expression statement is block-like (`RectifyStmtsAsWritten`).
- RectifyKeepsExpressionStatements: about the intended rewrite; the code as written panics instead whenever an expression statement is not block-like.
- GuardedBlockFixed: about the intended rewrite; the code as written panics on a guarded block with a tail such as `y3` (`RectifyStmtsAsWritten`).
- FixOverflow: states the intended rewrite; the code as written is `FixOverflowAsWritten`.
- Process spawning and `rustc` in the validator: compile and run outcomes are parameters.
- All `println!` and `eprintln!` output, except the final report of `validate`.
- The dead helpers `fix_function`, `fix_block`, `fix_expr`, `is_target_call` and `create_safe_add_call`, and the `SafeLib` trait (src/rectifier.rs:233-302, 362-366): nothing calls them.
- `generate_test_case` and the two-argument `check_overflow` used by the tests: they do not exist in `src/solver.rs`. The test scenarios are read as candidates with the registered size and the given offset.
- Text.DigitRun: `\d` is taken as the ASCII digits; the regex crate's Unicode digits are not modelled.
- Text.LeadingNumber: the 0 fallback when the digit string overflows `usize` is not modelled; numbers are unbounded.
- Rectifier.GenerateFixedCode: the `u64` sum `offset + 1` is unbounded here; the overflow at offset 2^64-1 is not modelled.
- Rectifier.GenerateCompleteFix: searches the line instead of its `trim`. Every pattern searched for has no surrounding whitespace, so the result is the same.
- Syntax: a `let` with an `else` branch is a plain `Local` whose `else` block is dropped, so the walks do not see statements inside it. Closures, `match` and attributes are not distinct node kinds: they fall under `Other`, which keeps its operands in source order.

## Findings

| source | as written | input that shows it | evidently intended | confidence | as-written member | corrected member |
|---|---|---|---|---|---|---|
| src/validator.rs:100-105 | on failure, `validate` prints `execution_traces[0]` and `[1]` | both programs start compiling but one fails, so `Validator::validate` returns `success = false` with an empty trace list | print the traces only when there are any | high, not executed | Validator.CompileFailureBreaksReport | Validator.Report |
| src/solver.rs:46-47 | the `u64` offset and size are cast `as i64` before comparing | size 10, offset 2^64-1: the offset becomes -1 and the access is judged in bounds | compare the unsigned values | medium, not executed | Solver.HugeOffsetWraps | Solver.CheckOverflowUnsigned |
| src/rectifier.rs:349-355 | `rectify_block` re-parses every generated token stream with `syn::parse2(..).unwrap()`. The checked-call `let` quotes the method name, a `&str`, as a string literal (`x1 . "checked_add" (x2)`). The guarded expression is parsed as a `Stmt` without its `;` | any function body with `a + b;` or `f();`, given one candidate: `rectify` panics | bind `checked_fn` as an identifier, and keep each statement's semicolon when putting the guarded expression back | high, not executed | TreeRewrite.ArithmeticStatementPanics | TreeRewrite.RectifyStmts |
