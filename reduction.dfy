/** Reference definitions against which the evaluator of src/lambda/bruijn.rs
    is judged: the textbook de Bruijn beta step, which shifts indices, and
    weak-head reduction built from it. */
module Reduction {
  import opened Options
  import opened Bruijn

  /** Adds `d` to every index at or above `cutoff`. */
  function Shift(d: int, cutoff: int, e: Bruijn): Bruijn
    decreases e
  {
    match e
    case Val(k) => if k >= cutoff then Val(k + d) else Val(k)
    case Abs(b) => Abs(Shift(d, cutoff + 1, b))
    case App(f, a) => App(Shift(d, cutoff, f), Shift(d, cutoff, a))
    case Lit(s) => Lit(s)
  }

  /** Substitution that lifts the replacement under each binder it crosses. */
  function ShiftingSubst(e: Bruijn, j: int, s: Bruijn): Bruijn {
    match e
    case Val(k) => if k == j then s else Val(k)
    case Abs(b) => Abs(ShiftingSubst(b, j + 1, Shift(1, 0, s)))
    case App(f, a) => App(ShiftingSubst(f, j, s), ShiftingSubst(a, j, s))
    case Lit(n) => Lit(n)
  }

  /** `(\ body) arg` contracted the textbook way. */
  function Beta(body: Bruijn, arg: Bruijn): Bruijn {
    Shift(-1, 0, ShiftingSubst(body, 0, Shift(1, 0, arg)))
  }

  /** One leftmost-outermost step that stays out of abstraction bodies and
      arguments; `None` when the head is not a redex. */
  function WeakHeadStep(e: Bruijn): Option<Bruijn> {
    match e
    case App(f, a) =>
      if f.Abs? then Some(Beta(f.body, a))
      else (match WeakHeadStep(f)
            case Some(f') => Some(App(f', a))
            case None => None)
    case _ => None
  }

  /** The term reached after exactly `n` weak-head steps, if there is one. */
  function Steps(e: Bruijn, n: nat): Option<Bruijn>
    decreases n
  {
    if n == 0 then Some(e)
    else match WeakHeadStep(e)
      case Some(e') => Steps(e', n - 1)
      case None => None
  }

  // ---- the unshifted substitution agrees on closed arguments ----

  /** Shifting only touches indices that escape the term's scope. */
  lemma {:induction false} ShiftScoped(d: int, cutoff: int, e: Bruijn)
    requires WellScoped(e, cutoff)
    ensures Shift(d, cutoff, e) == e
    decreases e
  {
    match e
    case Val(_) =>
    case Abs(b) => ShiftScoped(d, cutoff + 1, b);
    case App(f, a) => ShiftScoped(d, cutoff, f); ShiftScoped(d, cutoff, a);
    case Lit(_) =>
  }

  lemma {:induction false} SubstAgreesOnClosed(e: Bruijn, j: int, s: Bruijn)
    requires Closed(s)
    ensures ShiftingSubst(e, j, s) == Subst(e, j, s)
  {
    match e
    case Val(_) =>
    case Abs(b) =>
      ShiftScoped(1, 0, s);
      SubstAgreesOnClosed(b, j + 1, s);
    case App(f, a) => SubstAgreesOnClosed(f, j, s); SubstAgreesOnClosed(a, j, s);
    case Lit(_) =>
  }

  /** For a closed argument and a body closed under its binder, the
      substitution `eval` performs is the textbook beta step. */
  lemma BetaAgreesOnClosed(body: Bruijn, arg: Bruijn)
    requires WellScoped(body, 1) && Closed(arg)
    ensures Beta(body, arg) == Subst(body, 0, arg)
  {
    ShiftScoped(1, 0, arg);
    SubstAgreesOnClosed(body, 0, arg);
    SubstKeepsScope(body, 0, arg);
    ShiftScoped(-1, 0, Subst(body, 0, arg));
  }

  /** With an open argument the two can differ: for the body `\ 1` and the
      argument `0`, the copied `Val(0)` is captured by the binder it is
      copied under. */
  lemma BetaDiffersOnOpenArgument()
    ensures Beta(Abs(Val(1)), Val(0)) == Abs(Val(1))
    ensures Subst(Abs(Val(1)), 0, Val(0)) == Abs(Val(0))
  {
  }

  // ---- evaluation is weak-head reduction on closed terms ----

  lemma {:induction false} StepsThen(e: Bruijn, n: nat, t: Bruijn)
    requires Steps(e, n) == Some(t)
    ensures Steps(e, n + 1) == WeakHeadStep(t)
    decreases n
  {
    if n > 0 {
      StepsThen(WeakHeadStep(e).value, n - 1, t);
    }
  }

  /** Steps of the head can be taken inside an application. */
  lemma {:induction false} StepsInHead(f: Bruijn, a: Bruijn, n: nat, t: Bruijn)
    requires Steps(f, n) == Some(t)
    ensures Steps(App(f, a), n) == Some(App(t, a))
    decreases n
  {
    if n > 0 {
      var f' := WeakHeadStep(f).value;
      assert WeakHeadStep(App(f, a)) == Some(App(f', a));
      StepsInHead(f', a, n - 1, t);
    }
  }

  /** Whatever `eval` returns for a closed term is reached from it by
      weak-head beta steps: it never performs a step the textbook strategy
      would not. */
  lemma {:induction false} EvalIsWeakHeadReduction(e: Bruijn)
    requires Closed(e)
    ensures exists n: nat :: Steps(e, n) == Some(Eval(e))
  {
    if e.App? {
      var f, a := e.func, e.arg;
      EvalIsWeakHeadReduction(f);
      var n: nat :| Steps(f, n) == Some(Eval(f));
      var f' := Eval(f);
      if f'.Abs? {
        StepsInHead(f, a, n, f');
        StepsThen(App(f, a), n, App(f', a));
        BetaAgreesOnClosed(f'.body, a);
        assert Steps(e, n + 1) == Some(Eval(e));
      } else {
        assert Steps(e, 0) == Some(Eval(e));
      }
    } else {
      assert Steps(e, 0) == Some(Eval(e));
    }
  }

  /** `eval` stops after one substitution even when that substitution
      creates a new redex at the head: `(\a -> a) ((\b -> b) v)` evaluates to
      `(\b -> b) v`, which still takes a weak-head step to `v`. */
  lemma EvalUnderReduces()
    ensures Eval(App(Abs(Val(0)), App(Abs(Val(0)), Lit("v")))) == App(Abs(Val(0)), Lit("v"))
    ensures WeakHeadStep(App(Abs(Val(0)), Lit("v"))) == Some(Lit("v"))
  {
  }
}
