/** Small facts about strings shared by the two renderers. */
module Text {

  /** Number of occurrences of `c` in `s`. */
  function Count(s: string, c: char): (n: nat)
    ensures n <= |s|
    ensures n == 0 <==> c !in s
  {
    if s == [] then 0 else (if s[0] == c then 1 else 0) + Count(s[1..], c)
  }

  lemma {:induction false} CountConcat(s: string, t: string, c: char)
    ensures Count(s + t, c) == Count(s, c) + Count(t, c)
  {
    if s != [] {
      assert (s + t)[1..] == s[1..] + t;
      CountConcat(s[1..], t, c);
    } else {
      assert s + t == t;
    }
  }

  /** A name that contains no parenthesis. */
  predicate Plain(s: string) {
    '(' !in s && ')' !in s
  }

  /** True when `s` opens and closes parentheses equally often. */
  predicate Balanced(s: string) {
    Count(s, '(') == Count(s, ')')
  }

  lemma BalancedConcat(s: string, t: string)
    requires Balanced(s) && Balanced(t)
    ensures Balanced(s + t)
  {
    CountConcat(s, t, '(');
    CountConcat(s, t, ')');
  }

  lemma PlainBalanced(s: string)
    requires Plain(s)
    ensures Balanced(s)
  {
  }

  /** Wrapping a balanced string in one pair of parentheses keeps it
      balanced. */
  lemma BalancedWrap(s: string)
    requires Balanced(s)
    ensures Balanced("(" + s + ")")
  {
    CountConcat("(", s, '(');
    CountConcat("(", s, ')');
    CountConcat("(" + s, ")", '(');
    CountConcat("(" + s, ")", ')');
  }

  /** The application form `(f a)` of both renderers keeps balance. */
  lemma BalancedPair(f: string, a: string)
    requires Balanced(f) && Balanced(a)
    ensures Balanced("(" + f + " " + a + ")")
  {
    BalancedConcat(f, " ");
    BalancedConcat(f + " ", a);
    BalancedWrap(f + " " + a);
    assert "(" + f + " " + a + ")" == "(" + (f + " " + a) + ")";
  }
}
