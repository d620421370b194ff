/** The de Bruijn-index term, its evaluator and its rendering
    (src/lambda/bruijn.rs). */
module Bruijn {
  import Decimal
  import opened Text

  /** `Val` holds an `i32` that nothing validates, so it is an `int` here and
      may be negative; `Lit` marks a free variable by its name. */
  datatype Bruijn =
    | Val(index: int)
    | Abs(body: Bruijn)
    | App(func: Bruijn, arg: Bruijn)
    | Lit(name: string)

  /** Every `Val(i)` lies under at least `i + 1` binders, counting `depth`
      binders outside the term. */
  predicate WellScoped(e: Bruijn, depth: int) {
    match e
    case Val(i) => 0 <= i < depth
    case Abs(b) => WellScoped(b, depth + 1)
    case App(f, a) => WellScoped(f, depth) && WellScoped(a, depth)
    case Lit(_) => true
  }

  /** No `Val` refers past the root: the closed terms, which may still hold
      `Lit` free-variable markers. */
  predicate Closed(e: Bruijn) {
    WellScoped(e, 0)
  }

  /** Some `Val` refers to the binder `cutoff` levels above the root. */
  predicate OccursAt(e: Bruijn, cutoff: int) {
    match e
    case Val(k) => k == cutoff
    case Abs(b) => OccursAt(b, cutoff + 1)
    case App(f, a) => OccursAt(f, cutoff) || OccursAt(a, cutoff)
    case Lit(_) => false
  }

  /** `subst`: every `Val(cutoff)` becomes `param`, copied verbatim; the
      cutoff grows by one under each `Abs`; no index is ever shifted.
      Substituting for an index that does not occur changes nothing. */
  function Subst(e: Bruijn, cutoff: int, param: Bruijn): (r: Bruijn)
    ensures !OccursAt(e, cutoff) ==> r == e
  {
    match e
    case Val(k) => if k == cutoff then param else Val(k)
    case App(f, a) => App(Subst(f, cutoff, param), Subst(a, cutoff, param))
    case Abs(b) => Abs(Subst(b, cutoff + 1, param))
    case Lit(s) => Lit(s)
  }

  /** `eval`: reduces the function position of an application only; a
      redex yields the substituted body, which is not evaluated again, and
      an application whose head is not an abstraction is returned as it was
      given. Evaluation keeps closed terms closed. */
  function Eval(e: Bruijn): (r: Bruijn)
    ensures Closed(e) ==> Closed(r)
  {
    match e
    case App(f, a) =>
      var f' := Eval(f);
      if f'.Abs? then
        BetaKeepsClosed(f'.body, a);
        Subst(f'.body, 0, a)
      else
        App(f, a)
    case _ => e
  }

  /** `Display` for index terms. */
  function Render(e: Bruijn): (r: string)
    ensures e.Abs? || e.App? ==> |r| >= 2 && r[0] == '(' && r[|r| - 1] == ')'
    ensures e.Lit? ==> |r| >= 1 && r[0] == '#'
    ensures e.Val? ==> Decimal.IsCanonical(r) && Decimal.ParseInt(r) == e.index
  {
    match e
    case Val(i) => Decimal.IntRoundTrip(i); Decimal.IntToString(i)
    case Abs(b) => "(\\ " + Render(b) + ")"
    case App(f, a) => "(" + Render(f) + " " + Render(a) + ")"
    case Lit(s) => "#" + s
  }

  // ---- substitution ----

  lemma {:induction false} ScopedWeaken(e: Bruijn, d: int, d': int)
    requires WellScoped(e, d) && d <= d'
    ensures WellScoped(e, d')
  {
    match e
    case Val(_) =>
    case Abs(b) => ScopedWeaken(b, d + 1, d' + 1);
    case App(f, a) => ScopedWeaken(f, d, d'); ScopedWeaken(a, d, d');
    case Lit(_) =>
  }

  /** Substituting a closed term for the innermost free index removes one
      level of scope: beta reduction of closed terms stays closed. */
  lemma {:induction false} SubstKeepsScope(e: Bruijn, cutoff: nat, param: Bruijn)
    requires WellScoped(e, cutoff + 1) && Closed(param)
    ensures WellScoped(Subst(e, cutoff, param), cutoff)
  {
    match e
    case Val(k) => if k == cutoff { ScopedWeaken(param, 0, cutoff); }
    case Abs(b) => SubstKeepsScope(b, cutoff + 1, param);
    case App(f, a) => SubstKeepsScope(f, cutoff, param); SubstKeepsScope(a, cutoff, param);
    case Lit(_) =>
  }

  lemma BetaKeepsClosed(body: Bruijn, arg: Bruijn)
    ensures WellScoped(body, 1) && Closed(arg) ==> Closed(Subst(body, 0, arg))
  {
    if WellScoped(body, 1) && Closed(arg) {
      SubstKeepsScope(body, 0, arg);
    }
  }

  lemma {:induction false} ScopedNotOccurs(e: Bruijn, d: int, k: int)
    requires WellScoped(e, d) && k >= d
    ensures !OccursAt(e, k)
  {
    match e
    case Val(_) =>
    case Abs(b) => ScopedNotOccurs(b, d + 1, k + 1);
    case App(f, a) => ScopedNotOccurs(f, d, k); ScopedNotOccurs(a, d, k);
    case Lit(_) =>
  }

  /** With a closed replacement, no occurrence of the substituted index is
      left behind. */
  lemma {:induction false} SubstEliminates(e: Bruijn, cutoff: nat, param: Bruijn)
    requires Closed(param)
    ensures !OccursAt(Subst(e, cutoff, param), cutoff)
  {
    match e
    case Val(k) => if k == cutoff { ScopedNotOccurs(param, 0, cutoff); }
    case Abs(b) => SubstEliminates(b, cutoff + 1, param);
    case App(f, a) => SubstEliminates(f, cutoff, param); SubstEliminates(a, cutoff, param);
    case Lit(_) =>
  }

  /** The shape rules of `subst`: a `Val` is replaced exactly when its index
      is the cutoff, `App` and `Lit` are kept, and `Abs` is kept with the
      cutoff raised by one. */
  lemma SubstRules(e: Bruijn, cutoff: int, param: Bruijn)
    ensures e.Val? ==> Subst(e, cutoff, param) == (if e.index == cutoff then param else e)
    ensures e.Abs? ==> Subst(e, cutoff, param) == Abs(Subst(e.body, cutoff + 1, param))
    ensures e.App? ==> Subst(e, cutoff, param) == App(Subst(e.func, cutoff, param), Subst(e.arg, cutoff, param))
    ensures e.Lit? ==> Subst(e, cutoff, param) == e
  {
  }

  /** The substituted term is inserted without renumbering: under one binder
      the replacement `Val(0)` for index 1 is captured by that binder. */
  lemma SubstDoesNotShift()
    ensures Subst(Abs(Val(1)), 0, Val(0)) == Abs(Val(0))
  {
  }

  // ---- evaluation ----

  /** `Val`, `Abs` and `Lit` are returned unchanged; in particular nothing is
      reduced under an `Abs`. */
  lemma EvalValue(e: Bruijn)
    requires !e.App?
    ensures Eval(e) == e
  {
  }

  /** A direct redex reduces by one substitution, whose result is returned
      as it is. */
  lemma EvalRedex(body: Bruijn, arg: Bruijn)
    ensures Eval(App(Abs(body), arg)) == Subst(body, 0, arg)
  {
  }

  /** When the head does not evaluate to an abstraction the ORIGINAL
      application is returned, not one with the evaluated head. */
  lemma EvalStuck(f: Bruijn, a: Bruijn)
    requires !Eval(f).Abs?
    ensures Eval(App(f, a)) == App(f, a)
  {
  }

  /** Evaluation discards the work done on a head that does not become an
      abstraction: `((\ 0) #f) #x` stays as it is although its head
      evaluates to `#f`. */
  lemma EvalDiscardsEvaluatedHead()
    ensures Eval(App(Abs(Val(0)), Lit("f"))) == Lit("f")
    ensures Eval(App(App(Abs(Val(0)), Lit("f")), Lit("x"))) == App(App(Abs(Val(0)), Lit("f")), Lit("x"))
  {
  }

  // ---- rendering ----

  /** Index renderings open and close parentheses equally often when every
      literal name is free of parentheses. */
  predicate PlainLits(e: Bruijn) {
    match e
    case Lit(s) => Plain(s)
    case Abs(b) => PlainLits(b)
    case App(f, a) => PlainLits(f) && PlainLits(a)
    case Val(_) => true
  }

  lemma {:induction false} RenderBalanced(e: Bruijn)
    requires PlainLits(e)
    ensures Balanced(Render(e))
  {
    match e
    case Val(i) =>
    case Lit(s) =>
      BalancedConcat("#", s);
    case Abs(b) =>
      RenderBalanced(b);
      AbsBalanced(Render(b));
    case App(f, a) =>
      RenderBalanced(f);
      RenderBalanced(a);
      BalancedPair(Render(f), Render(a));
  }

  lemma AbsBalanced(body: string)
    requires Balanced(body)
    ensures Balanced("(\\ " + body + ")")
  {
    BalancedConcat("\\ ", body);
    BalancedWrap("\\ " + body);
    assert "(\\ " + body + ")" == "(" + ("\\ " + body) + ")";
  }

  /** The four rendering rules. */
  lemma RenderRules(e: Bruijn)
    ensures e.Val? ==> Render(e) == Decimal.IntToString(e.index)
    ensures e.Abs? ==> Render(e) == "(\\ " + Render(e.body) + ")"
    ensures e.App? ==> Render(e) == "(" + Render(e.func) + " " + Render(e.arg) + ")"
    ensures e.Lit? ==> Render(e) == "#" + e.name
  {
  }
}
