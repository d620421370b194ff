# Lambda-calculus kernel in Dafny

A model of a small lambda-calculus kernel: named terms (`Expr`), de Bruijn
index terms (`Bruijn`, with `Lit` as a free-variable marker), the resolver
`expr_to_bruijn` that turns the first into the second by threading a map
from names to binder depth, the evaluator `eval` with its substitution
`subst`, and the two `Display` renderings.

Modules, one per source file or concern:

- `Options`: Rust's `Option`, failure-compatible so that `:-` models `?`.
- `Text`, `Decimal`: character counting, and the decimal form Rust gives an `i32`.
- `Bruijn` (src/lambda/bruijn.rs): the index term, `Subst`, `Eval`, `Render`.
- `Named` (src/lambda/named.rs): the named term and `Render`.
- `Lambda` (src/lambda.rs): `ShiftContext`, `MatchExpr`, `ExprToBruijn`.
  `MatchExpr` enters each abstraction through `Enter` (shift every depth by one,
  then bind the head at 0), built on `Shifted`, which `ShiftContext` is proved
  equal to.
- `Reduction`: reference definitions to judge the evaluator by: the textbook
  shifting beta step and weak-head reduction built from it.
- `Demo` (src/main.rs): the sample term and the behaviours it shows, as
  concrete lemmas.

Main results:

- The resolver always returns `Some`, keeps the tree's shape, and produces a
  closed term. It is characterised completely by `Lambda.Corresponds`: a
  produced `Val(i)` names the `i`-th enclosing binder (0 = innermost) and no
  nearer binder has that name, and `Lit(x)` appears only where no binder
  binds `x`. The flat context is shown to encode a binder stack (`Agrees`).
  This is the lookup every depth shift plus `insert(head, 0)` implements.
- `Eval` keeps closed terms closed. On closed terms every result of `Eval`
  can be reached by textbook weak-head beta steps, because the unshifted
  `subst` equals the textbook beta step once the argument is closed. With an
  open argument the two can differ: for the body `\ 1` and the argument `0`,
  the copied `0` is captured (`\ 0` against the textbook `\ 1`).
- `Eval` under-reduces: it does not evaluate a substitution result again.
  The sample term evaluates to `((\ 0) #v)`, which still takes one
  weak-head step to `#v`.

Evaluator behaviour kept as the code has it:

- Stuck application. When the head does not evaluate to an abstraction,
  `eval` returns the original application with the unevaluated head
  (src/lambda/bruijn.rs:20). It does not return the application with the
  evaluated head. `Bruijn.EvalStuck` and `Bruijn.EvalDiscardsEvaluatedHead`
  state this.
- Sample result. The sample term evaluates to `((\ 0) #v)`, one weak-head
  step short of `#v` (`Demo.SampleEvaluates`).

## Model

| member | source | states |
|---|---|---|
| `Bruijn.Subst` | src/lambda/bruijn.rs:27-46 | substituting for an index that does not occur (relative to depth) leaves the term unchanged |
| `Bruijn.SubstRules` | src/lambda/bruijn.rs:30-44 | `Val(k)` becomes `param` exactly when `k == cutoff`; `App` and `Lit` are kept; `Abs` is kept and its body gets `cutoff + 1` |
| `Bruijn.SubstDoesNotShift` | src/lambda/bruijn.rs:30-43 | the replacement is copied without renumbering, so under a binder it is captured |
| `Bruijn.SubstKeepsScope` | src/lambda/bruijn.rs:27-46 | substituting a closed term for index `c` in a term scoped at `c + 1` gives a term scoped at `c` |
| `Bruijn.SubstEliminates` | src/lambda/bruijn.rs:30-36 | after substituting a closed term, the substituted index no longer occurs |
| `Bruijn.Eval` | src/lambda/bruijn.rs:12-25 | evaluation is total (structural recursion on the head) and maps closed terms to closed terms |
| `Bruijn.EvalValue` | src/lambda/bruijn.rs:23 | `Val`, `Abs` and `Lit` evaluate to themselves; nothing under `Abs` is reduced |
| `Bruijn.EvalRedex` | src/lambda/bruijn.rs:15-18 | a direct redex `App(Abs(b), a)` evaluates to `subst(b, 0, a)`, not evaluated further |
| `Bruijn.EvalStuck` | src/lambda/bruijn.rs:15-21 | if the head does not evaluate to `Abs`, the original application is returned |
| `Bruijn.EvalDiscardsEvaluatedHead` | src/lambda/bruijn.rs:16-20 | a head that evaluates to `#f` is still returned unevaluated inside the stuck application |
| `Bruijn.Render` | src/lambda/bruijn.rs:49-58 | `Abs`/`App` renderings are parenthesised, `Lit` starts with `#`, a `Val` renders as the canonical decimal literal (no leading zero, no `-0`) that parses back to its index |
| `Bruijn.RenderRules` | src/lambda/bruijn.rs:53-56 | the four rendering rules: decimal index, `(\ body)`, `(f a)`, `#name` |
| `Bruijn.RenderBalanced` | src/lambda/bruijn.rs:53-56 | with parenthesis-free literal names a rendering opens and closes parentheses equally often |
| `Decimal.NatToString` | src/lambda/bruijn.rs:53 | the decimal digits of a natural number: non-empty, all digits, no leading zero |
| `Decimal.IntToString` | src/lambda/bruijn.rs:53 | an index renders as a canonical decimal literal: optional `-`, then digits with no leading zero, and `-` exactly for negative values |
| `Decimal.IntRoundTrip` | src/lambda/bruijn.rs:53 | the decimal rendering of an index is a canonical literal that reads back to the index |
| `Decimal.IntToStringInjective` | src/lambda/bruijn.rs:53 | distinct indices render differently |
| `Reduction.BetaAgreesOnClosed` | src/lambda/bruijn.rs:15-46 | for a body scoped under one binder and a closed argument, the unshifted `subst(body, 0, arg)` equals the textbook shifting beta step |
| `Reduction.BetaDiffersOnOpenArgument` | src/lambda/bruijn.rs:27-46 | with an open argument the two can differ: for the body `\ 1` and the argument `0`, the copied `0` is captured (`\ 0` against the textbook `\ 1`) |
| `Reduction.EvalIsWeakHeadReduction` | src/lambda/bruijn.rs:12-25 | on closed terms, the result of `eval` is reached from the input by some number of weak-head beta steps |
| `Reduction.EvalUnderReduces` | src/lambda/bruijn.rs:15-18 | `(\a -> a) ((\b -> b) v)` evaluates to `(\b -> b) v`, which still has a head redex |
| `Named.Render` | src/lambda/named.rs:10-19 | a variable renders as its name; abstractions and applications begin with `(` and end with `)` |
| `Named.RenderRules` | src/lambda/named.rs:15-16 | the rules `(\h -> body)` and `(f a)` |
| `Named.RenderBalanced` | src/lambda/named.rs:14-16 | with parenthesis-free names a rendering opens and closes parentheses equally often |
| `Lambda.ShiftContext` | src/lambda.rs:12-20 | the loop builds a map with exactly the keys of the context, each value raised by the shift amount |
| `Lambda.MatchExpr` | src/lambda.rs:23-47 | the result has the input's shape: `Abs` to `Abs`, `App` to `App`, `Var` to `Val` or `Lit` |
| `Lambda.MatchExprSome` | src/lambda.rs:23-47 | every branch yields `Some`, so `?` never propagates `None` |
| `Lambda.ExprToBruijn` | src/lambda.rs:11-50 | always `Some`, of the same shape, closed, and resolving each name to its nearest binder |
| `Lambda.ResolveVar` | src/lambda.rs:25-31 | `Var(x)` becomes `Val(ctx[x])` when `x` is bound and `Lit(x)` otherwise |
| `Lambda.ResolveApp` | src/lambda.rs:40-45 | both sides of an application are resolved under the identical context |
| `Lambda.EnterKeepsBelow` | src/lambda.rs:32-34 | entering an abstraction at depth `d` with all values in `[0, d)` gives all values in `[0, d + 1)` |
| `Lambda.MatchExprScoped` | src/lambda.rs:21-47 | with all context values in `[0, d)`, every produced `Val(i)` satisfies `0 <= i <` its number of enclosing binders plus `d` |
| `Lambda.EnterAgrees` | src/lambda.rs:32-34 | shifting by one and inserting the binder at 0 turns a context encoding a binder stack into one encoding the stack with the new binder pushed |
| `Lambda.MatchExprNearest` | src/lambda.rs:23-47 | resolution under a context encoding a binder stack gives each `Val(i)` the nearest binder of that name and `Lit` only to unbound names |
| `Lambda.CorrespondsUnique` | src/lambda.rs:23-47 | the nearest-binder meaning determines the index term uniquely |
| `Lambda.ExprToBruijnIsReference` | src/lambda.rs:11-50 | a term is the resolver's result if and only if it has the nearest-binder meaning at top level |
| `Demo.SampleRendersNamed` | src/main.rs:9-19 | the sample renders as `(((\a -> (\b -> (a b))) (\a -> a)) v)` |
| `Demo.SampleResolves` | src/main.rs:21 | the sample resolves to `App(App(Abs(Abs(App(Val 1, Val 0))), Abs(Val 0)), Lit v)` |
| `Demo.SampleIndexedRenders` | src/main.rs:23 | the resolved sample renders as `(((\ (\ (1 0))) (\ 0)) #v)` |
| `Demo.SampleEvaluates` | src/main.rs:24 | the resolved sample evaluates to `((\ 0) #v)`, one weak-head step short of `#v` |
| `Demo.FreeVariableBecomesLit` | src/lambda.rs:26-30 | at top level `Var("x")` becomes `Lit("x")` |
| `Demo.InnermostBinderWins` | src/lambda.rs:32-34 | `\x -> \x -> x` resolves to `Abs(Abs(Val 0))` |
| `Demo.ApplicationSharesContext` | src/lambda.rs:40-44 | `x x` under `{x: 0}` resolves to `App(Val 0, Val 0)` |
| `Demo.IdentityReduces` | src/lambda/bruijn.rs:15-18 | the identity applied to `#v` evaluates to `#v` |
| `Demo.StuckApplication` | src/lambda/bruijn.rs:19-21 | `#f #x` evaluates to itself |

## Left out

- Formatting plumbing: `fmt::Formatter` and `write!` are modelled as pure functions returning strings.
- Integer width: `i32` is modelled as unbounded `int`. The overflow of `cutt_off + 1` (src/lambda/bruijn.rs:43) and of `val + shift_amount` (src/lambda.rs:16) would need about 2^31 nested binders.
- `HashMap` details: hashing and iteration order are not modelled. `Lambda.ShiftContext` visits the keys in an arbitrary order, and its result does not depend on that order.
- Ownership: `Box`, `clone` and the `Debug`/`PartialEq` derives become datatype values with structural equality.
- The demo driver: src/main.rs prints to standard output. Only its sample term is modelled, in `Demo`.
