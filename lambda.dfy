/** The resolver `expr_to_bruijn` (src/lambda.rs): named terms to index
    terms, threading a context from names to binder depth. */
module Lambda {
  import opened Options
  import N = Named
  import B = Bruijn

  type Context = map<string, int>

  /** The context with every depth raised by `amount`. */
  function Shifted(ctx: Context, amount: int): Context {
    map k | k in ctx :: ctx[k] + amount
  }

  /** `shift_context`: a fresh map built by one insertion per key. */
  method ShiftContext(ctx: Context, amount: int) returns (shifted: Context)
    ensures shifted.Keys == ctx.Keys
    ensures forall k :: k in shifted ==> shifted[k] == ctx[k] + amount
    ensures shifted == Shifted(ctx, amount)
  {
    shifted := map[];
    var pending := ctx.Keys;
    while pending != {}
      invariant pending <= ctx.Keys
      invariant shifted.Keys == ctx.Keys - pending
      invariant forall k :: k in shifted ==> shifted[k] == ctx[k] + amount
      decreases |pending|
    {
      var key :| key in pending;
      shifted := shifted[key := ctx[key] + amount];
      pending := pending - {key};
    }
    ghost var expected := Shifted(ctx, amount);
    assert expected.Keys == shifted.Keys;
    assert forall k :: k in expected ==> expected[k] == shifted[k];
  }

  /** The context `match_expr` uses for the body of an abstraction binding
      `head`: all outer depths shifted by one, `head` at depth 0. */
  function Enter(ctx: Context, head: string): Context {
    Shifted(ctx, 1)[head := 0]
  }

  /** `Abs` maps to `Abs`, `App` to `App`, and a `Var` to a `Val` or a `Lit`. */
  predicate SameShape(e: N.Expr, b: B.Bruijn) {
    match e
    case Var(_) => b.Val? || b.Lit?
    case Abs(_, body) => b.Abs? && SameShape(body, b.body)
    case App(f, a) => b.App? && SameShape(f, b.func) && SameShape(a, b.arg)
  }

  /** `match_expr`, with `:-` for `?`: the tree keeps its shape. */
  function MatchExpr(e: N.Expr, ctx: Context): (r: Option<B.Bruijn>)
    ensures r.Some? ==> SameShape(e, r.value)
  {
    match e
    case Var(x) =>
      if x in ctx then Some(B.Val(ctx[x])) else Some(B.Lit(x))
    case Abs(head, body) =>
      var newBody :- MatchExpr(body, Enter(ctx, head));
      Some(B.Abs(newBody))
    case App(f, a) =>
      var newF :- MatchExpr(f, ctx);
      var newA :- MatchExpr(a, ctx);
      Some(B.App(newF, newA))
  }

  /** `expr_to_bruijn`: resolution from the empty context. */
  function ExprToBruijn(e: N.Expr): (r: Option<B.Bruijn>)
    ensures r.Some?
    ensures r.Some? && SameShape(e, r.value)
    ensures r.Some? && B.Closed(r.value)
    ensures r.Some? && Corresponds(e, r.value, [])
  {
    MatchExprSome(e, map[]);
    MatchExprScoped(e, map[], 0);
    MatchExprNearest(e, map[], []);
    MatchExpr(e, map[])
  }

  /** Every branch of `match_expr` yields `Some`, so `?` never propagates
      `None`. */
  lemma {:induction false} MatchExprSome(e: N.Expr, ctx: Context)
    ensures MatchExpr(e, ctx).Some?
  {
    match e
    case Var(_) =>
    case Abs(head, body) => MatchExprSome(body, Enter(ctx, head));
    case App(f, a) => MatchExprSome(f, ctx); MatchExprSome(a, ctx);
  }

  // ---- what a variable resolves to ----

  /** A variable is its context depth when bound and a literal otherwise. */
  lemma ResolveVar(x: string, ctx: Context)
    ensures MatchExpr(N.Var(x), ctx) == Some(if x in ctx then B.Val(ctx[x]) else B.Lit(x))
  {
  }

  /** Both sides of an application see the same context. */
  lemma ResolveApp(f: N.Expr, a: N.Expr, ctx: Context)
    ensures MatchExpr(f, ctx).Some? && MatchExpr(a, ctx).Some?
    ensures MatchExpr(N.App(f, a), ctx) == Some(B.App(MatchExpr(f, ctx).value, MatchExpr(a, ctx).value))
  {
    MatchExprSome(f, ctx);
    MatchExprSome(a, ctx);
  }

  // ---- scope: every produced index is below the depth ----

  predicate ValuesBelow(ctx: Context, depth: int) {
    forall x :: x in ctx ==> 0 <= ctx[x] < depth
  }

  lemma EnterKeepsBelow(ctx: Context, head: string, depth: nat)
    requires ValuesBelow(ctx, depth)
    ensures ValuesBelow(Enter(ctx, head), depth + 1)
  {
    var ctx' := Enter(ctx, head);
    forall x | x in ctx' ensures 0 <= ctx'[x] < depth + 1 {
      if x != head {
        assert x in ctx && ctx'[x] == ctx[x] + 1;
      }
    }
  }

  /** At depth `d` every context value lies in `[0, d)`, so every produced
      `Val(i)` has `0 <= i < d` plus the binders crossed below. */
  lemma {:induction false} MatchExprScoped(e: N.Expr, ctx: Context, depth: nat)
    requires ValuesBelow(ctx, depth)
    ensures MatchExpr(e, ctx).Some? && B.WellScoped(MatchExpr(e, ctx).value, depth)
  {
    MatchExprSome(e, ctx);
    match e
    case Var(_) =>
    case Abs(head, body) =>
      EnterKeepsBelow(ctx, head, depth);
      MatchExprScoped(body, Enter(ctx, head), depth + 1);
    case App(f, a) =>
      MatchExprScoped(f, ctx, depth);
      MatchExprScoped(a, ctx, depth);
  }

  // ---- nearest binder ----

  /** The reference meaning of a resolved term against the names of its
      enclosing binders, innermost first: `Val(i)` names the `i`-th binder
      and no nearer binder has that name; `Lit(x)` stands for a name no
      binder binds. */
  predicate Corresponds(e: N.Expr, b: B.Bruijn, binders: seq<string>) {
    match e
    case Var(x) =>
      || (b.Val? && 0 <= b.index < |binders| && binders[b.index] == x && x !in binders[..b.index])
      || (b.Lit? && b.name == x && x !in binders)
    case Abs(head, body) => b.Abs? && Corresponds(body, b.body, [head] + binders)
    case App(f, a) => b.App? && Corresponds(f, b.func, binders) && Corresponds(a, b.arg, binders)
  }

  /** The flat context encodes the binder stack: a name is in the context
      exactly when some binder binds it, at the depth of the nearest one. */
  ghost predicate Agrees(ctx: Context, binders: seq<string>) {
    && (forall x :: x in ctx <==> x in binders)
    && (forall x :: x in ctx ==> 0 <= ctx[x] < |binders| && binders[ctx[x]] == x && x !in binders[..ctx[x]])
  }

  lemma EnterAgrees(ctx: Context, binders: seq<string>, head: string)
    requires Agrees(ctx, binders)
    ensures Agrees(Enter(ctx, head), [head] + binders)
  {
    var ctx', binders' := Enter(ctx, head), [head] + binders;
    forall x | x in ctx'
      ensures 0 <= ctx'[x] < |binders'| && binders'[ctx'[x]] == x && x !in binders'[..ctx'[x]]
    {
      if x != head {
        assert binders'[..ctx[x] + 1] == [head] + binders[..ctx[x]];
      }
    }
  }

  lemma {:induction false} MatchExprNearest(e: N.Expr, ctx: Context, binders: seq<string>)
    requires Agrees(ctx, binders)
    ensures MatchExpr(e, ctx).Some? && Corresponds(e, MatchExpr(e, ctx).value, binders)
  {
    MatchExprSome(e, ctx);
    match e
    case Var(x) =>
    case Abs(head, body) =>
      EnterAgrees(ctx, binders, head);
      MatchExprNearest(body, Enter(ctx, head), [head] + binders);
    case App(f, a) =>
      MatchExprNearest(f, ctx, binders);
      MatchExprNearest(a, ctx, binders);
  }

  /** The reference meaning determines the resolved term: `Corresponds` is a
      complete specification of the resolver. */
  lemma {:induction false} CorrespondsUnique(e: N.Expr, b1: B.Bruijn, b2: B.Bruijn, binders: seq<string>)
    requires Corresponds(e, b1, binders) && Corresponds(e, b2, binders)
    ensures b1 == b2
  {
    match e
    case Var(x) =>
    case Abs(head, body) =>
      CorrespondsUnique(body, b1.body, b2.body, [head] + binders);
    case App(f, a) =>
      CorrespondsUnique(f, b1.func, b2.func, binders);
      CorrespondsUnique(a, b1.arg, b2.arg, binders);
  }

  /** Resolution is exactly the reference meaning: whatever term satisfies
      it is what `expr_to_bruijn` returns. */
  lemma ExprToBruijnIsReference(e: N.Expr, b: B.Bruijn)
    ensures Corresponds(e, b, []) <==> ExprToBruijn(e) == Some(b)
  {
    if Corresponds(e, b, []) {
      CorrespondsUnique(e, b, ExprToBruijn(e).value, []);
    }
  }
}
