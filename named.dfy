/** The named-variable term and its rendering (src/lambda/named.rs). */
module Named {
  import opened Text

  datatype Expr =
    | Var(id: string)
    | Abs(head: string, body: Expr)
    | App(func: Expr, arg: Expr)

  /** `Display` for named terms: a variable is its name, an abstraction
      `(\h -> body)`, an application `(f a)`. */
  function Render(e: Expr): (r: string)
    ensures e.Var? ==> r == e.id
    ensures !e.Var? ==> |r| >= 2 && r[0] == '(' && r[|r| - 1] == ')'
  {
    match e
    case Var(x) => x
    case Abs(h, b) => "(\\" + h + " -> " + Render(b) + ")"
    case App(f, a) => "(" + Render(f) + " " + Render(a) + ")"
  }

  /** Every variable and binder name is free of parentheses. */
  predicate PlainNames(e: Expr) {
    match e
    case Var(x) => Plain(x)
    case Abs(h, b) => Plain(h) && PlainNames(b)
    case App(f, a) => PlainNames(f) && PlainNames(a)
  }

  /** Renderings of terms with plain names open and close parentheses
      equally often. */
  lemma {:induction false} RenderBalanced(e: Expr)
    requires PlainNames(e)
    ensures Balanced(Render(e))
  {
    match e
    case Var(x) => PlainBalanced(x);
    case Abs(h, b) =>
      RenderBalanced(b);
      AbsBalanced(h, Render(b));
    case App(f, a) =>
      RenderBalanced(f);
      RenderBalanced(a);
      BalancedPair(Render(f), Render(a));
  }

  lemma AbsBalanced(h: string, body: string)
    requires Plain(h) && Balanced(body)
    ensures Balanced("(\\" + h + " -> " + body + ")")
  {
    PlainBalanced(h);
    assert Balanced("\\") && Balanced(" -> ");
    BalancedConcat("\\", h);
    BalancedConcat("\\" + h, " -> ");
    BalancedConcat("\\" + h + " -> ", body);
    BalancedWrap("\\" + h + " -> " + body);
    assert "(\\" + h + " -> " + body + ")" == "(" + ("\\" + h + " -> " + body) + ")";
  }

  /** The rendering rules for abstraction and application. */
  lemma RenderRules(e: Expr)
    ensures e.Abs? ==> Render(e) == "(\\" + e.head + " -> " + Render(e.body) + ")"
    ensures e.App? ==> Render(e) == "(" + Render(e.func) + " " + Render(e.arg) + ")"
  {
  }
}
