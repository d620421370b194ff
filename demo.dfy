/** The sample term of src/main.rs and the behaviours it exhibits, as
    concrete facts about the model. */
module Demo {
  import opened Options
  import N = Named
  import B = Bruijn
  import Lambda
  import Reduction

  /** `\a -> \b -> a b`. */
  const ApplyTerm: N.Expr := N.Abs("a", N.Abs("b", N.App(N.Var("a"), N.Var("b"))))

  /** `\a -> a`. */
  const IdTerm: N.Expr := N.Abs("a", N.Var("a"))

  /** `((\a -> \b -> a b) (\a -> a)) v`. */
  const SampleTerm: N.Expr := N.App(N.App(ApplyTerm, IdTerm), N.Var("v"))

  const SampleIndexed: B.Bruijn :=
    B.App(B.App(B.Abs(B.Abs(B.App(B.Val(1), B.Val(0)))), B.Abs(B.Val(0))), B.Lit("v"))

  lemma SampleRendersNamed()
    ensures N.Render(SampleTerm) == "(((\\a -> (\\b -> (a b))) (\\a -> a)) v)"
  {
  }

  lemma SampleResolves()
    ensures Lambda.ExprToBruijn(SampleTerm) == Some(SampleIndexed)
  {
    assert ["b", "a"][..1] == ["b"];
    assert Lambda.Corresponds(N.Var("a"), B.Val(1), ["b", "a"]);
    assert Lambda.Corresponds(N.Var("b"), B.Val(0), ["b", "a"]);
    assert ["b"] + ["a"] == ["b", "a"] && ["a"] + [] == ["a"];
    assert Lambda.Corresponds(N.Abs("b", N.App(N.Var("a"), N.Var("b"))), B.Abs(B.App(B.Val(1), B.Val(0))), ["a"]);
    assert Lambda.Corresponds(ApplyTerm, B.Abs(B.Abs(B.App(B.Val(1), B.Val(0)))), []);
    assert Lambda.Corresponds(IdTerm, B.Abs(B.Val(0)), []);
    assert Lambda.Corresponds(N.Var("v"), B.Lit("v"), []);
    assert Lambda.Corresponds(SampleTerm, SampleIndexed, []);
    Lambda.ExprToBruijnIsReference(SampleTerm, SampleIndexed);
  }

  lemma SampleIndexedRenders()
    ensures B.Render(SampleIndexed) == "(((\\ (\\ (1 0))) (\\ 0)) #v)"
  {
  }

  /** The sample evaluates to `((\ 0) #v)`, not `#v`: the substitution that
      produces the inner redex is not evaluated again. One further weak-head
      step would give `#v`. */
  lemma SampleEvaluates()
    ensures B.Eval(SampleIndexed) == B.App(B.Abs(B.Val(0)), B.Lit("v"))
    ensures B.Render(B.Eval(SampleIndexed)) == "((\\ 0) #v)"
    ensures Reduction.WeakHeadStep(B.Eval(SampleIndexed)) == Some(B.Lit("v"))
  {
  }

  /** At top level an unbound name becomes a literal. */
  lemma FreeVariableBecomesLit()
    ensures Lambda.ExprToBruijn(N.Var("x")) == Some(B.Lit("x"))
  {
  }

  /** The innermost binder wins: `\x -> \x -> x` is `\ \ 0`. */
  lemma InnermostBinderWins()
    ensures Lambda.ExprToBruijn(N.Abs("x", N.Abs("x", N.Var("x")))) == Some(B.Abs(B.Abs(B.Val(0))))
  {
    Lambda.ExprToBruijnIsReference(N.Abs("x", N.Abs("x", N.Var("x"))), B.Abs(B.Abs(B.Val(0))));
  }

  /** Application introduces no scope: `x x` under `{x: 0}` is `0 0`. */
  lemma ApplicationSharesContext()
    ensures Lambda.MatchExpr(N.App(N.Var("x"), N.Var("x")), map["x" := 0]) == Some(B.App(B.Val(0), B.Val(0)))
  {
  }

  /** The identity applied to a free variable reduces to that variable. */
  lemma IdentityReduces()
    ensures Lambda.ExprToBruijn(IdTerm) == Some(B.Abs(B.Val(0)))
    ensures B.Eval(B.App(B.Abs(B.Val(0)), B.Lit("v"))) == B.Lit("v")
  {
    Lambda.ExprToBruijnIsReference(IdTerm, B.Abs(B.Val(0)));
  }

  /** An application of a literal is stuck and returned unchanged. */
  lemma StuckApplication()
    ensures B.Eval(B.App(B.Lit("f"), B.Lit("x"))) == B.App(B.Lit("f"), B.Lit("x"))
  {
  }
}
