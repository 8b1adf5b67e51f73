/** Products of two unknown reals go through `Times`, so that their nonlinear
    facts stay in the lemmas below. */
module RealProducts {

  function Times(a: real, b: real): real { a * b }

  lemma TimesMono(a: real, b: real, q: real)
    requires a <= b && q >= 0.0
    ensures Times(a, q) <= Times(b, q) && Times(q, a) <= Times(q, b)
  {
  }

  lemma TimesSimple(k: real, q: real)
    ensures Times(k, q) == Times(q, k) && Times(0.0, q) == 0.0 && Times(1.0, q) == q
  {
  }

  lemma TimesDistributes(k: real, x: real, y: real)
    ensures Times(k, x + y) == Times(k, x) + Times(k, y) && Times(k, x - y) == Times(k, x) - Times(k, y)
  {
  }

  lemma TimesAssociates(a: real, b: real, c: real)
    ensures Times(Times(a, b), c) == Times(a, Times(b, c))
  {
  }

  lemma TimesSigns(x: real, y: real)
    ensures x > 0.0 && y > 0.0 ==> Times(x, y) > 0.0
    ensures x > 0.0 && y < 0.0 ==> Times(x, y) < 0.0
    ensures x == 0.0 || y == 0.0 <==> Times(x, y) == 0.0
  {
  }

  lemma TimesSquare(x: real)
    ensures Times(x, x) >= 0.0 && (x != 0.0 ==> Times(x, x) > 0.0)
  {
    TimesSigns(x, x);
    TimesSigns(-x, -x);
    assert Times(-x, -x) == Times(x, x);
  }
}
