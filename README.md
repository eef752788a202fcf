# Railyard in Dafny

Railyard is an operator-precedence expression toolkit. A caller registers
infix operators (name, precedence, associativity) and functions (name,
arity), each with an optional implementation: an intrinsic tag or a host
closure. Railyard then does three things with a list of string tokens:

- converts it to postfix order with a shunting-yard parser;
- reduces the postfix stream with a generic value-stack reducer, which builds
  a tree, renders an S-expression or evaluates directly;
- partially evaluates the tree. It resolves the literals the lookup knows,
  folds fully resolved operators and applies algebraic identity rules for
  intrinsic operators, then reports the free variables and free operators
  that are left.

The repository also keeps an older monolithic copy, `src/index.ts`. Its
parser is the same; its `partial` folds while the stream is being reduced and
has no identity rules.

The model follows the source file by file:

- `types.dfy` (`Types`) holds the data model:
  - the 14 intrinsic tags;
  - the infix and function descriptors;
  - tokens;
  - the three tree nodes (`Res`, `Val` and `Opr` are the constructors
    `res`, `val` and `opr`);
  - every error the pipeline throws, with its message text.
- `Semantics` holds what stays uninterpreted: the numeric meaning of each
  tag, the host closures, and the constants 0, 1 and ~0.
- `parser.dfy` (`Parser`) holds:
  - the stack helpers `handle_op`, `handle_implicit` and `match_paren` as
    methods with pop loops, each proved against a function;
  - the body of `parseToRPN`'s loop as a method, `ReadToken`;
  - the class `Railyard`. Its fields are the operator and function tables,
    the lookup, the implicit operator and the prefix flag. Its builder
    methods update those fields, and the methods `ParseToRPN`, `ParseToAST`,
    `ParseToSExpr`, `Interpret`, `Partial` and `PartialDuringReduction`
    (the `partial` of `src/index.ts`) read them.
- The parser's output is an `Emission`: every token yielded, in order, then
  the error thrown, if any. This keeps the generator's laziness observable:
  a reducer error on tokens already yielded wins over a parse error that
  comes after them.
- `interpret.dfy` (`Interpret`) is the postfix reducer: a loop over a value
  stack, proved against a functional fold. It also holds the tree builder
  and the proof that reducing a tree's postfix order gives back the tree.
- `evaluate.dfy` (`Evaluate`) is `eval_node`. Its failed-name cache and its
  log of lookups are explicit. It also gives trees a meaning (`Denote`) used
  to state that simplification preserves meaning.
- `intrinsics.dfy` (`Intrinsics`) holds the identity-rewrite table `pFns`,
  the algebraic laws it presumes, and the text emitters `cFns`.
- `legacy.dfy` (`Legacy`) holds the folding reducers of `src/index.ts`,
  both as functions and as the in-place loop of its `partial`.
- `parser_props.dfy`, `entry_props.dfy` and `scenarios.dfy` state properties
  of the parser and of the entry points, and work through the formulas the
  tests pin down.
- `findings.dfy` (`Findings`) models how `src/parser.ts` actually wires its
  reducers, and what that does to `parseToAST`, `parseToSExpr`, `interpret`
  and `partial`; see "Findings".

Values are a type parameter `V`. A lookup is a function
`string -> Option<V>`, where `None` means the lookup threw.

## Model

| member | source | states |
|---|---|---|
| Intrinsics.Rewrite | src/intrinsics.ts:52-68 | `pFns`: the result is the node itself, one of its operands, a constant, or (for SUB) `neg b`. REM, XNR, NEG, INV and NOT never rewrite. A division is rewritten only for a zero dividend or a unit divisor, so `x / 0` stays. Nothing is rewritten unless some operand is 0, 1 or ~0. |
| Evaluate.RewriteSound | src/intrinsics.ts:44-68 | Under the laws the table presumes of the intrinsics (`Lawful`), every rewrite preserves the node's value. |
| Intrinsics.Emit | src/intrinsics.ts:24-39 | `cFns`: the text is one outer pair of parentheses around the operands, in order, each appearing verbatim at its offset after the tag's fixed text. |
| Evaluate.EvalNode | src/evaluate.ts:6-41 | `eval_node`: the failed-name set only grows, and the log of lookups only gets longer (the old log is a prefix of the new). |
| Evaluate.EvalArgs | src/evaluate.ts:21 | `params.map(eval_node)`: one result per argument; the failed set and the lookup log only grow, threaded left to right. |
| Evaluate.EvalNodeIsSimplify | src/evaluate.ts:6-41 | With a cache that agrees with the lookup, `eval_node` computes the cache-free simplification, and the failed set grows by exactly the tree's failing names. |
| Evaluate.EvalArgsIsSimplifyAll | src/evaluate.ts:19-22 | The same, for the arguments of an operator. |
| Evaluate.PartialIsSimplify | src/evaluate.ts:4-44 | `partial` equals the cache-free simplification, and the names it records as failed are exactly the failing literals of the tree. |
| Evaluate.NoRetry | src/evaluate.ts:9-14 | Every lookup `eval_node` makes is of a literal of the tree. A name already failed is never looked up again. Every failing lookup is recorded, and no failing name is looked up twice. |
| Evaluate.NoRetryAll | src/evaluate.ts:21 | The same discipline across a list of arguments sharing one cache. |
| Evaluate.SimplifySound | src/evaluate.ts:6-41 | Under the intrinsic laws, the simplified tree has the same meaning as the original in every environment, for trees whose intrinsic nodes have exactly their tag's number of operands. |
| Evaluate.SimplifyAllSound | src/evaluate.ts:21 | The same, argument by argument. |
| Evaluate.SimplifyFits | src/evaluate.ts:19-38 | Simplification keeps every intrinsic node supplied with the operands its rule reads, so it can be run again. |
| Evaluate.SimplifyAllFits | src/evaluate.ts:21 | The same for a list, and simplifying a list is simplifying each element. |
| Evaluate.SimplifyIdempotent | src/evaluate.ts:6-41 | Simplifying a simplified tree changes nothing: no fold, lookup or rewrite is left to do. |
| Evaluate.SimplifyAllIdempotent | src/evaluate.ts:21 | The same for a list of arguments. |
| Evaluate.DenoteDependsOnFree | src/parser.ts:202-223 | A tree's value depends on the environment only through its free variables and free operators: two environments agreeing on them give the same value. |
| Evaluate.DenoteAllDependsOnFree | src/parser.ts:207-220 | The same for a list of trees. |
| Evaluate.FreeAfterSimplify | src/evaluate.ts:9-38 | After simplification the free variables are among the tree's failing literals, and the free operators are among its unimplemented operators. |
| Evaluate.FreeAfterSimplifyAll | src/evaluate.ts:21 | The same for a list of arguments. |
| Interpret.Interpret | src/interpret.ts:3-29 | The reducer loop returns the functional fold `Consume` of the stream: the first reducer or lift error, else the yielded parse error, else "Empty Formula", "Missing Operators" or the single entry. |
| Interpret.ReduceHeights | src/interpret.ts:5-18 | With a reducer that never throws, reduction fails exactly when some operator finds fewer entries than its arity, and then with "Missing Values". Otherwise the stack has the replayed height. |
| Interpret.ReduceOkHeights | src/interpret.ts:6-14 | Any reducer that gets through the stream has replayed the heights: no operator underflowed. |
| Interpret.ConsumeVerdict | src/interpret.ts:9-28 | With a total reducer, a complete stream succeeds iff nothing underflows and exactly one entry remains. Otherwise it fails with "Missing Values", "Empty Formula" or "Missing Operators", as the case may be. |
| Interpret.ReduceAllAppend | src/interpret.ts:5-18 | Reducing `a + b` is reducing `a`, then `b` from the resulting stack; an error in `a` stops the fold. |
| Interpret.ReduceIsFold | src/interpret.ts:5-18 | Replaying a tree's postfix order pushes exactly the reducer's bottom-up fold of that tree, or stops with the fold's first error. |
| Interpret.ReduceAllIsFoldAll | src/interpret.ts:5-18 | The same for a sequence of trees. |
| Interpret.ConsumeIsFold | src/interpret.ts:3-29 | Any reducer run on a tree's postfix order computes that reducer's fold of the tree. |
| Interpret.BuildFoldIdentity | src/types.ts:72-74 | Folding a parsed tree with `opr` and `val` gives the tree back. |
| Interpret.BuildFoldAllIdentity | src/types.ts:73-74 | The same for a list of trees. |
| Interpret.PostfixRoundTrip | src/parser.ts:184-187 | Round trip: building a tree from a parsed tree's postfix order gives that tree. |
| Interpret.PushInverts | src/interpret.ts:6-16 | One token pushed by the tree builder keeps every entry well formed, with every operator node having as many children as its arity, and extends the stack's postfix order by exactly that token. |
| Interpret.BuildInverts | src/interpret.ts:5-18 | A successful tree-building reduction leaves a stack whose postfix order is the old stack's followed by the tokens replayed. |
| Interpret.BuildIsPostfix | src/parser.ts:184-187 | If the tree builder accepts a stream, the stream had no parse error, the tree is well formed and the tokens are exactly its postfix order. |
| Interpret.ConsumersFoldTheTree | src/interpret.ts:3-29 | Every consumer of a stream the tree builder accepts computes its fold of that one tree. |
| Interpret.ShapeErrors | src/interpret.ts:9-26 | A stream the tree builder rejects is rejected by every consumer. A total consumer fails exactly when the builder does, with the same error. |
| Legacy.LegacyFoldIsFoldOnly | src/index.ts:329-356 | Reducing a tree's postfix order with the folding reducers of `src/index.ts` gives the tree folded bottom-up without identity rules. |
| Legacy.LegacyFoldAllIsFoldOnly | src/index.ts:329-356 | The same for a list of trees. |
| Legacy.FoldOnlySound | src/index.ts:339-343 | Folding without identity rules preserves meaning with no algebraic laws assumed. |
| Legacy.FoldOnlyFree | src/index.ts:329-356 | The free operators of the folded tree are exactly the unimplemented operators of the original, and its free variables exactly the failing literals. |
| Legacy.FoldNodeFree | src/index.ts:329-344 | One reduction step keeps its arguments' free names and adds the operator's name iff it has no implementation. |
| Legacy.AgreeWithoutIntrinsics | src/evaluate.ts:26-38 | On a tree without intrinsic tags, the evaluator of `src/evaluate.ts` and the fold of `src/index.ts` give the same tree. |
| Parser.Unstack | src/parser.ts:174-181 | Popping pending operators yields them top first, one token per entry. |
| Parser.PopWhileSpec | src/parser.ts:13-32 | `handle_op` pops exactly the maximal run of entries on top that bind, yields them top first, and leaves the stack below untouched. An entry binds if it is a function, or an infix whose precedence is at least the incoming one, plus one when the incoming operator is right-associative. The entry left on top, if any, does not bind. |
| Parser.HandleOp | src/parser.ts:13-32 | The pop loop computes `PopWhile` at the incoming operator's threshold. |
| Parser.HandleImplicit | src/parser.ts:34-38 | With no implicit infix operator it throws the given error and yields nothing; otherwise it pops like `handle_op` and pushes the operator. |
| Parser.PopToParenYields | src/parser.ts:40-47 | `match_paren` yields the pending operators above the topmost `(`, top first, and keeps the stack below them. |
| Parser.PopToParenFinds | src/parser.ts:41-45 | The stack runs out, and the error is thrown, exactly when it holds no `(`; otherwise the `(` is left on top. |
| Parser.PopToParenSpec | src/parser.ts:40-47 | Both of the above together. |
| Parser.MatchParen | src/parser.ts:40-47 | The pop loop computes `PopToParen` and throws the given error exactly when the stack runs out. |
| Parser.ReadToken | src/parser.ts:97-168 | The loop body for one token computes the step function `StepToken`. |
| Parser.PopWhileFits | src/parser.ts:13-32 | Popping keeps the stack's operators, and yields only operators, whose intrinsic tags have the operands their rules read. |
| Parser.PopToParenFits | src/parser.ts:40-47 | The same for `match_paren`. |
| Parser.ImplicitFits | src/parser.ts:34-38 | The same for `handle_implicit`. |
| Parser.StepFits | src/parser.ts:97-168 | With a registry whose functions all fit their tags, one token keeps every stacked operator fitting and yields only fitting operators. |
| Parser.ClosingFits | src/parser.ts:107-132 | The same for `,` and `)`. |
| Parser.NameFits | src/parser.ts:135-167 | The same for names and literals. |
| Parser.RunFits | src/parser.ts:91-182 | Every operator token a whole parse yields fits. |
| Parser.ParsedFits | src/parser.ts:184-187 | A well-formed tree whose postfix order holds only fitting operators meets the partial evaluator's shape requirement. |
| Parser.ParsedTreeFits | src/parser.ts:202-203 | The tree built from a parse with a fitting registry meets that requirement. |
| Parser.Walk | src/parser.ts:207-220 | The walk adds exactly the tree's literal names to `vars`, and the names of its operators without `fn` to `ops`. |
| Legacy.LegacyImpl | src/index.ts:329-344 | The folding reducer of `src/index.ts` returns the folded node. It records the operator's name as missing iff it has no implementation, and the node's free names are its arguments' plus that name. |
| Legacy.LegacyVal | src/index.ts:346-356 | The caching lifter of `src/index.ts` gives the uncached lifter's node, records the literal iff its lookup throws, and keeps every recorded name a failing one. |
| Legacy.LegacyReduce | src/index.ts:277-292 | The reduction loop with the folding reducers computes the functional fold. On success the recorded names are exactly the free operators and free variables left on the stack. |
| Parser.Railyard.constructor | src/parser.ts:60-65 | A fresh parser has empty tables, no implicit operator, prefix mode on and a number-parsing lookup. |
| Parser.Railyard.Register | src/parser.ts:67-74 | Files an infix descriptor in the operator table and a function in the function table, under its name, replacing any earlier one; the other fields are unchanged. |
| Parser.Railyard.Lookup | src/parser.ts:76-79 | Replaces the lookup; the other fields are unchanged. |
| Parser.Railyard.SetImplicitOp | src/parser.ts:81-84 | Sets the implicit operator's name; the other fields are unchanged. |
| Parser.Railyard.UnaryFnAsPrefix | src/parser.ts:86-89 | Sets the prefix flag; the other fields are unchanged. |
| Parser.Railyard.ParseToRPN | src/parser.ts:91-182 | The loop over the tokens with its mutable stack and `expect` state yields `Parse`: the tokens yielded and the error thrown, if any. |
| Parser.Railyard.ParseToAST | src/parser.ts:184-187 | Reducing the parse with the uncurried tree builder; see Findings. |
| Parser.Railyard.ParseToSExpr | src/parser.ts:189-192 | Reducing the parse with the uncurried S-expression renderer; see Findings. |
| Parser.Railyard.Interpret | src/parser.ts:194-196 | Reducing the parse by applying each operator's implementation; see Findings. |
| Parser.Railyard.Partial | src/parser.ts:202-223 | Builds the tree, simplifies it with `partial` and returns it with the walk's free-name sets; see Findings. |
| Parser.Railyard.PartialDuringReduction | src/index.ts:325-365 | `partial` of `src/index.ts`: the parse reduced with the folding reducers and checked like any reduction, together with the recorded names. |
| ParserProperties.PopsNoValues | src/parser.ts:13-47 | Popping the stack never yields a literal. |
| ParserProperties.StepValues | src/parser.ts:162-167 | A step that does not throw yields the token itself as its only literal iff the token is a literal, and then an operator is expected. A step that throws yields no literal. |
| ParserProperties.RunValues | src/parser.ts:97-168 | The literals yielded by a run are a prefix of the input's literals, in input order, and all of them when nothing is thrown. |
| ParserProperties.LiteralsInInputOrder | src/parser.ts:162-167 | The same for `parseToRPN`. |
| ParserProperties.FinishOutcomes | src/parser.ts:170-181 | End of input, three outcomes. A value still expected throws "Missing values" and yields nothing. A `(` on the stack throws "Unbalanced Open Parentheses" after yielding the operators above the topmost one. Otherwise every stacked operator is yielded, top first. |
| ParserProperties.ImplicitStep | src/parser.ts:34-38 | Reading `(`, a function or a literal where an operator is expected does what reading the implicit operator's name and then that token does. |
| ParserProperties.ImplicitIsExplicit | src/parser.ts:151-152 | So a whole run with the implicit operator equals the run with its name written in. |
| ParserProperties.NoImplicitOperator | src/parser.ts:100-101 | Without an implicit operator, such a token throws "Expected operator, found …" (or "… left paren.") and yields nothing. |
| ParserProperties.FunctionStep | src/parser.ts:154-160 | A function name pushes its descriptor and expects an argument list iff its arity exceeds 1 or prefix mode is off; otherwise it expects a value. |
| ParserProperties.FunctionNeedsArgumentList | src/parser.ts:158-164 | Hence such a function followed by a bare literal throws "Expected argument list, found …", whatever follows. |
| ParserProperties.InfixInValuePosition | src/parser.ts:135-139 | An infix name where a value is expected throws "Expected value, found operator …" unless the name is also a function, and then it is read exactly as that function. |
| ParserProperties.CloseParen | src/parser.ts:115-132 | `)` throws "Mismatched Parentheses", after yielding the whole stack, iff there is no `(`. Otherwise it yields the operators above the topmost `(`, drops it, also yields a function found just below, and leaves `expect` unchanged. |
| ParserProperties.Comma | src/parser.ts:107-113 | `,` throws in value position, and outside any parenthesis after yielding the stack. Otherwise it yields the operators above the `(`, keeps the `(`, and expects a value. |
| EntryProperties.SExprFoldIsRender | src/parser.ts:189-192 | The S-expression fold of a tree is its rendering `(name arg …)`. |
| EntryProperties.SExprFoldAllIsRender | src/parser.ts:190 | The same for a list of trees. |
| EntryProperties.SExprRendersTheTree | src/parser.ts:184-192 | `parseToSExpr` renders the tree `parseToAST` builds, and fails exactly when it fails, with the same error. |
| EntryProperties.InterpretSucceedsIff | src/parser.ts:49-56 | Direct interpretation of a tree succeeds iff every operator has an implementation and every literal's lookup succeeds. |
| EntryProperties.InterpretIsSimplify | src/evaluate.ts:31-35 | What direct interpretation computes is what partial evaluation folds the tree to. |
| EntryProperties.InterpretIsDenote | src/parser.ts:194-196 | What direct interpretation computes is the tree's meaning, in any environment. |
| EntryProperties.InterpretAgreesWithPartial | src/parser.ts:194-223 | On any token list: if the tree cannot be built, `interpret` fails. If it can, `interpret` succeeds iff the tree has no free operator and no failing literal. On success the value is the tree's meaning, and `partial` returns that value with empty free sets; see Findings. |
| EntryProperties.PartialOfSpec | src/parser.ts:202-223 | `partial` fails iff the tree cannot be built, with its error. Otherwise it returns the simplified tree, which is a fixpoint of simplification, with free sets contained in the tree's failing literals and unimplemented operators; see Findings. |
| EntryProperties.PartialOfSound | src/parser.ts:202-203 | Under the intrinsic laws, the tree `partial` returns means what the parsed tree means; see Findings. |
| EntryProperties.LegacyPartialOfSpec | src/index.ts:325-365 | `partial` of `src/index.ts` fails iff the tree cannot be built. Otherwise it returns the tree folded without identity rules, which has the same meaning, and its free operators and free variables are exactly the tree's unimplemented operators and failing literals. |
| EntryProperties.LegacyNothingFreeIffInterpret | src/index.ts:321-365 | Direct interpretation succeeds iff that `partial` succeeds with both free sets empty. |
| EntryProperties.PartialsAgreeWithoutIntrinsics | src/index.ts:325-365 | With no intrinsic tags in the tree, both versions of `partial` return the same result. |
| Scenarios.ThreeTimesSumPostfix | test/no-implicit-test.ts:26-32 | `3 * ( 2 + 1 )` yields exactly `3 2 1 + *`. |
| Scenarios.UnclosedParenthesis | test/no-implicit-test.ts:34-35 | `3 * ( 2 + 1` throws "Unbalanced Open Parentheses" after yielding `3 2 1 +`. |
| Scenarios.TrailingOperator | test/no-implicit-test.ts:39-40 | `3 *` throws "Missing values" after yielding `3`. |
| Scenarios.AdjacentOperandsRejected | test/no-implicit-test.ts:44-45 | `3 2` throws "Expected operator, found 2" without an implicit operator. |
| Scenarios.AdjacentOperandsMultiplied | test/implicit-op-test.ts:41-42 | `3 2` yields `3 2 *` with `*` as the implicit operator. |
| Scenarios.UnaryMinus | test/no-implicit-test.ts:73-75 | `b * - a` yields `b a - *` with the unary function `-`. |
| Scenarios.JuxtaposedSumPostfix | test/implicit-op-test.ts:23-29 | `3 ( 2 + 1 )` yields `3 2 1 + *`, the implicit `*` last. |
| Scenarios.JuxtaposedSumTree | test/partial-test.ts:19-36 | Its tree is `*` over `3` and `+` over `2` and `1`. |
| Scenarios.JuxtaposedSumSimplified | src/evaluate.ts:26-35 | With `+` the intrinsic ADD and `*` unimplemented, simplification folds the sum and keeps `*` over two results. |
| Scenarios.JuxtaposedSumPartial | src/parser.ts:202-223 | The corrected `partial` of `src/parser.ts` on `3 ( 2 + 1 )` gives that tree, one free operator `*`, and no free variable; see Findings. |
| Scenarios.JuxtaposedSumFolded | src/index.ts:329-344 | Folding that tree during reduction, as `src/index.ts` does, also folds the sum and keeps `*` over two results. |
| Scenarios.JuxtaposedSumLegacyPartial | test/partial-test.ts:19-36 | `partial` of `src/index.ts` on `3 ( 2 + 1 )` gives `*` over two results, one free operator `*`, and no free variable. |
| Findings.AsWrittenParseToASTRoot | src/parser.ts:184-187 | As written, `parseToAST` fails like the corrected builder. On success it returns the lifted literal for a one-literal formula, and otherwise the closure for the root operator instead of a tree. |
| Findings.AsWrittenParseToSExprRoot | src/parser.ts:189-192 | The same for `parseToSExpr`: a closure instead of the rendered string. |
| Findings.UncurriedFold | src/interpret.ts:14 | Folding with the uncurried calling convention fails exactly like the intended one. It yields the same value for a leaf and the root operator's closure otherwise. |
| Findings.UncurriedFoldAll | src/interpret.ts:12-14 | The same failure for a list of arguments. |
| Findings.AsWrittenInterpretRoot | src/parser.ts:194-196 | As written, `interpret` fails exactly when the intended one does. It agrees on one-literal formulas, and otherwise returns the root operator's unapplied implementation. |
| Findings.AsWrittenLifted | src/parser.ts:184-187 | What `parseToAST` as written returns as a value rather than a closure is a literal's leaf. |
| Findings.AsWrittenPartialRoot | src/parser.ts:202-220 | As written, `partial` throws the parse's error where the corrected one does and agrees with it on a one-literal formula. On every formula with an operator it throws a TypeError in `walk`, where the corrected one succeeds. |
| Findings.JuxtaposedSumPartialAsWritten | src/parser.ts:202-208 | On `3 ( 2 + 1 )`, the corrected `partial` returns `*` over two results with `*` free; as written it throws a TypeError. |
| Findings.ThreeTimesSumApplied | test/no-implicit-test.ts:57-58 | The intended reduction of `3 2 1 + *` applies `+` and then `*`. |
| Findings.ThreeTimesSumClosure | src/parser.ts:194-196 | The reduction as written of `3 2 1 + *` returns the implementation of `*`. |
| Findings.ThreeTimesSumAsWritten | src/parser.ts:194-196 | On `3 * ( 2 + 1 )`, the intended `interpret` gives `*(3, +(2, 1))`; as written it gives the implementation of `*` itself. |

## Left out

- `compile` (src/parser.ts:198-200, src/index.ts:367-482) is not part of this model. It generates JavaScript source text and runs it through `new Function`. Only its intrinsic text emitters `cFns` are modelled (`Intrinsics.Emit`).
- The numeric meaning of the intrinsic implementations `iFns` and the default `parseFloat` lookup are uninterpreted: `Semantics.intrinsic`, and a `parseNumber` parameter of the constructor. They involve IEEE doubles, 32-bit bitwise coercion and `!a`. The identity rules are proved sound under stated algebraic laws (`Lawful`), which IEEE doubles do not all obey (`Infinity * 0` is NaN).
- Types.OpInfo: precedences are integers and arities natural numbers, where the source allows any JavaScript number (src/types.ts:26, src/types.ts:34). With a fractional precedence, the `precedence++` of a right-associative operator (src/parser.ts:14-20) would no longer mean "strictly greater". A negative or fractional arity would make the operand slice of src/interpret.ts:12-13 misbehave.
- Host closures (`fn` and lookup functions) are uninterpreted total functions. A lookup that throws is `None`, and what it threw is not kept.
- `Evaluate.EvalNode`: the in-place write `value.args = args` (src/evaluate.ts:22) is modelled on values. The tree `partial` receives in `src/parser.ts` is freshly built, so the aliasing is not observable there.
- `Parser.Railyard.Register`: requires that a function tagged with an intrinsic declares at least the operands that intrinsic's rewrite rule reads. The source accepts any descriptor; with fewer operands, its rule reads `undefined`.
- `Parser.Railyard.Partial`: requires the same of every registered function, through `Valid()`, for the same reason.
- `Evaluate.SimplifySound`: stated for trees whose intrinsic nodes have exactly their tag's number of operands. With extra operands, the source's rules ignore them while folding applies the tag to all of them.
- Token input is a sequence, not a lazy `Iterable`. The laziness of the output is kept as an `Emission`.
- The `'Missing function arguments'` check (src/parser.ts:171) compares `expect` with a state it never takes; the model has no such state.
- The text emitters of src/index.ts (src/index.ts:41-56) are not modelled separately. They differ from `cFns` only in the `AND` emitter, which also parenthesises each operand (src/index.ts:48).
- The test formulas with `^` and with nested function calls (`sin ( 2 ) + mul ( 4 , 5 )`) are covered by the general lemmas on `handle_op`, `match_paren` and the function step, not worked as concrete scenarios.

## Findings

| source | as written | input that shows it | evidently intended | confidence | as-written member | corrected member |
|---|---|---|---|---|---|---|
| src/parser.ts:184-196 | `parseToAST`, `parseToSExpr` and `interpret` pass curried reducers `(op) => (...args) => …` (and `extract_impl`, which returns the implementation unapplied) to `interpret` of src/interpret.ts, which calls `impl(opInfo, ...args)` once. Every operator therefore pushes a closure instead of applying it. | `3 * ( 2 + 1 )`: the result is the implementation of `*` instead of 9 | apply the reducer to the operator and then to its arguments, as `_interpret` of src/index.ts:288 does | high, not executed | Findings.ThreeTimesSumAsWritten | Parser.Railyard.Interpret |
| src/parser.ts:202-220 | `partial` hands the result of `parseToAST`, which as written is the root operator's closure for any formula with an operator, to `partial` of src/evaluate.ts. `eval_node`'s switch has no case for a function, so it returns `undefined`, and `walk(undefined)` then reads `type` of `undefined`. | `3 ( 2 + 1 )` with `*` implicit: a TypeError instead of `*` over two results with `*` free | simplify the tree the corrected `parseToAST` builds | high, not executed | Findings.JuxtaposedSumPartialAsWritten | Parser.Railyard.Partial |
