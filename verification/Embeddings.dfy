/** Cosine similarity and the hashed bag of trigrams (`vector/embeddings.py`),
    over the reals; a square root is the number whose square is given. */
module Embeddings {
  import opened RealProducts

  // ---- Cosine --------------------------------------------------------------

  function Dot(a: seq<real>, b: seq<real>): real
    requires |a| == |b|
  {
    if a == [] then 0.0 else Times(a[0], b[0]) + Dot(a[1..], b[1..])
  }

  ghost predicate RootOf(d: real, x: real) { d >= 0.0 && Times(d, d) == x }

  /** `cosine`, given the two norms that it computes. */
  function Cosine(a: seq<real>, b: seq<real>, da: real, db: real): real {
    if a == [] || b == [] || |a| != |b| then 0.0
    else if da == 0.0 || db == 0.0 then 0.0
    else
      TimesSigns(da, db);
      Dot(a, b) / Times(da, db)
  }

  lemma {:induction false} DotCommutes(a: seq<real>, b: seq<real>)
    requires |a| == |b|
    ensures Dot(a, b) == Dot(b, a)
  {
    if a != [] {
      TimesSimple(a[0], b[0]);
      DotCommutes(a[1..], b[1..]);
    }
  }

  /** The dot product, entry by entry: changing one entry changes it by the
      difference times the other vector's entry, and zeros contribute nothing. */
  lemma {:induction false} DotByEntry(a: seq<real>, b: seq<real>, i: nat, x: real)
    requires |a| == |b| && i < |a|
    ensures Dot(a[i := x], b) - Dot(a, b) == (x - a[i]) * b[i]
    ensures (forall k :: 0 <= k < |a| ==> a[k] == 0.0) ==> Dot(a, b) == 0.0
  {
    if forall k :: 0 <= k < |a| ==> a[k] == 0.0 {
      DotWithZeros(b, a);
      DotCommutes(a, b);
    }
    if i > 0 {
      assert a[i := x][1..] == a[1..][i - 1 := x];
      DotByEntry(a[1..], b[1..], i - 1, x);
    } else {
      assert a[0 := x][1..] == a[1..];
      assert (x - a[0]) * b[0] == x * b[0] - a[0] * b[0];
    }
  }

  /** The score times both norms is the dot product. */
  lemma CosineIs(a: seq<real>, b: seq<real>, da: real, db: real)
    requires |a| == |b| && a != [] && da != 0.0 && db != 0.0
    ensures Times(Cosine(a, b, da, db), Times(da, db)) == Dot(a, b)
  {
    TimesSigns(da, db);
  }

  /** s a - t b. */
  function Combine(s: real, a: seq<real>, t: real, b: seq<real>): (c: seq<real>)
    requires |a| == |b|
    ensures |c| == |a| && forall i :: 0 <= i < |c| ==> c[i] == Times(s, a[i]) - Times(t, b[i])
  {
    if a == [] then [] else [Times(s, a[0]) - Times(t, b[0])] + Combine(s, a[1..], t, b[1..])
  }

  /** |s a - t b|^2 from |a|^2, |b|^2 and a b. */
  function Quadratic(s: real, p: real, r: real, t: real, q: real): real {
    Times(Times(s, s), p) - 2.0 * Times(Times(s, t), r) + Times(Times(t, t), q)
  }

  lemma SquareOfDifference(s: real, x: real, t: real, y: real)
    ensures var d := Times(s, x) - Times(t, y);
            Times(d, d) == Quadratic(s, Times(x, x), Times(x, y), t, Times(y, y))
  {
    var u, v := s * x, t * y;
    assert (u - v) * (u - v) == u * u - 2.0 * (u * v) + v * v;
    assert u * u == s * s * (x * x) && v * v == t * t * (y * y) && u * v == s * t * (x * y);
  }

  lemma {:induction false} CombineSquared(s: real, a: seq<real>, t: real, b: seq<real>)
    requires |a| == |b|
    ensures var c := Combine(s, a, t, b); Dot(c, c) == Quadratic(s, Dot(a, a), Dot(a, b), t, Dot(b, b))
  {
    if a == [] {
    } else {
      hide Times, Quadratic;
      var x, y := a[0], b[0];
      var a', b' := a[1..], b[1..];
      CombineSquared(s, a', t, b');
      assert Combine(s, a, t, b)[1..] == Combine(s, a', t, b');
      SquareOfDifference(s, x, t, y);
    }
  }

  lemma {:induction false} NormNonNegative(a: seq<real>)
    ensures Dot(a, a) >= 0.0
    ensures Dot(a, a) == 0.0 ==> forall i :: 0 <= i < |a| ==> a[i] == 0.0
  {
    if a != [] {
      hide Times;
      NormNonNegative(a[1..]);
      TimesSquare(a[0]);
      assert forall i :: 0 < i < |a| ==> a[i] == a[1..][i - 1];
    }
  }

  lemma {:induction false} DotWithZeros(a: seq<real>, b: seq<real>)
    requires |a| == |b| && forall i :: 0 <= i < |b| ==> b[i] == 0.0
    ensures Dot(a, b) == 0.0
  {
    if a != [] {
      TimesSigns(a[0], b[0]);
      DotWithZeros(a[1..], b[1..]);
    }
  }

  lemma QuadraticFactors(p: real, q: real, r: real)
    ensures Quadratic(q, p, r, r, q) == Times(q, Times(p, q) - Times(r, r))
  {
    assert q * q * p == q * (p * q) && q * r * r == q * (r * r) && r * r * q == q * (r * r);
    assert q * (p * q - r * r) == q * (p * q) - q * (r * r);
  }

  /** The squared dot product is at most the product of the squared norms. */
  lemma CauchySchwarz(a: seq<real>, b: seq<real>)
    requires |a| == |b|
    ensures Times(Dot(a, b), Dot(a, b)) <= Times(Dot(a, a), Dot(b, b))
  {
    hide Dot, Times, Quadratic;
    var p, q, r := Dot(a, a), Dot(b, b), Dot(a, b);
    NormNonNegative(b);
    if q == 0.0 {
      DotWithZeros(a, b);
      TimesSigns(r, r);
      TimesSigns(p, q);
    } else {
      CombineSquared(q, a, r, b);
      NormNonNegative(Combine(q, a, r, b));
      QuadraticFactors(p, q, r);
      TimesSigns(q, Times(p, q) - Times(r, r));
    }
  }

  lemma DifferenceOfSquares(x: real, y: real)
    ensures Times(y + x, y - x) == Times(y, y) - Times(x, x) == Times(y - x, y + x)
  {
  }

  lemma SquaresOrder(x: real, y: real)
    requires y >= 0.0 && Times(x, x) <= Times(y, y)
    ensures -y <= x <= y
  {
    hide Times;
    DifferenceOfSquares(x, y);
    TimesSigns(y + x, y - x);
    TimesSigns(y - x, y + x);
  }

  /** The product of two roots is the root of the product. */
  lemma RootsMultiply(da: real, p: real, db: real, q: real)
    requires RootOf(da, p) && RootOf(db, q)
    ensures RootOf(Times(da, db), Times(p, q))
    ensures da != 0.0 && db != 0.0 ==> Times(da, db) > 0.0
  {
    assert da * db * (da * db) == da * da * (db * db);
  }

  /** Every score lies in [-1, 1], degenerate or not. */
  lemma CosineBounded(a: seq<real>, b: seq<real>, da: real, db: real)
    requires |a| == |b| ==> RootOf(da, Dot(a, a)) && RootOf(db, Dot(b, b))
    ensures -1.0 <= Cosine(a, b, da, db) <= 1.0
  {
    hide Dot, Times;
    if |a| == |b| && da != 0.0 && db != 0.0 {
      RootsMultiply(da, Dot(a, a), db, Dot(b, b));
      CauchySchwarz(a, b);
      SquaresOrder(Dot(a, b), Times(da, db));
    }
  }

  lemma DivideBySelf(x: real)
    requires x != 0.0
    ensures x / x == 1.0
  {
  }

  /** A vector scores 1 with itself, unless it is zero. */
  lemma SelfScore(a: seq<real>, da: real)
    requires RootOf(da, Dot(a, a))
    ensures Cosine(a, a, da, da) == if forall i :: 0 <= i < |a| ==> a[i] == 0.0 then 0.0 else 1.0
  {
    hide Dot, Times;
    NormNonNegative(a);
    if forall i :: 0 <= i < |a| ==> a[i] == 0.0 { DotWithZeros(a, a); }
    TimesSquare(da);
    if Dot(a, a) != 0.0 {
      TimesSigns(da, da);
      DivideBySelf(Dot(a, a));
    }
  }

  lemma CosineSymmetric(a: seq<real>, b: seq<real>, da: real, db: real)
    ensures Cosine(a, b, da, db) == Cosine(b, a, db, da)
  {
    hide Dot, Times;
    if |a| == |b| { DotCommutes(a, b); }
    TimesSimple(da, db);
  }

  lemma ExtremeSquares(r: real, d: real)
    requires d != 0.0 && (r / d == 1.0 || r / d == -1.0)
    ensures Times(r, r) == Times(d, d)
  {
    assert r == d || r == -d;
  }

  lemma ExtremesAreEqualities(a: seq<real>, b: seq<real>, da: real, db: real)
    requires |a| == |b| && RootOf(da, Dot(a, a)) && RootOf(db, Dot(b, b))
    requires Cosine(a, b, da, db) == 1.0 || Cosine(a, b, da, db) == -1.0
    ensures Times(Dot(a, b), Dot(a, b)) == Times(Dot(a, a), Dot(b, b))
  {
    hide Dot, Times;
    RootsMultiply(da, Dot(a, a), db, Dot(b, b));
    ExtremeSquares(Dot(a, b), Times(da, db));
  }

  /** A score of 1 or -1 is reached by parallel vectors only. */
  lemma ExtremesAreParallel(a: seq<real>, b: seq<real>, da: real, db: real, i: nat)
    requires |a| == |b| && RootOf(da, Dot(a, a)) && RootOf(db, Dot(b, b)) && i < |a|
    requires Cosine(a, b, da, db) == 1.0 || Cosine(a, b, da, db) == -1.0
    ensures Times(Dot(b, b), a[i]) == Times(Dot(a, b), b[i])
  {
    hide Dot, Times, Cosine, RootOf, Quadratic;
    var p, q, r := Dot(a, a), Dot(b, b), Dot(a, b);
    ExtremesAreEqualities(a, b, da, db);
    CombineSquared(q, a, r, b);
    QuadraticFactors(p, q, r);
    TimesSigns(q, 0.0);
    NormNonNegative(Combine(q, a, r, b));
    assert Combine(q, a, r, b)[i] == 0.0;
  }

  /** The last step of `_fake_vector`, given the norm. */
  function Normalise(v: seq<real>, n: real): (w: seq<real>)
    ensures |w| == |v|
  {
    if n == 0.0 then v
    else if v == [] then []
    else [v[0] / n] + Normalise(v[1..], n)
  }

  lemma {:induction false} ScaledDot(a: seq<real>, m: real, b: seq<real>, n: real)
    requires |a| == |b| && m != 0.0 && n != 0.0
    ensures Times(Times(m, n), Dot(Normalise(a, m), Normalise(b, n))) == Dot(a, b)
  {
    var w, u := Normalise(a, m), Normalise(b, n);
    if a == [] {
      TimesSigns(Times(m, n), 0.0);
    } else {
      hide Times;
      ScaledDot(a[1..], m, b[1..], n);
      assert w[1..] == Normalise(a[1..], m) && u[1..] == Normalise(b[1..], n);
      TimesDistributes(Times(m, n), Times(w[0], u[0]), Dot(w[1..], u[1..]));
    }
  }

  lemma CancelFactor(k: real, x: real, y: real)
    requires k != 0.0 && Times(k, x) == y
    ensures x == y / k
  {
  }

  /** Normalising keeps every score, and the score of two stored vectors is
      simply their dot product. */
  lemma NormalisingKeepsScores(a: seq<real>, m: real, b: seq<real>, n: real)
    requires |a| == |b| && RootOf(m, Dot(a, a)) && RootOf(n, Dot(b, b)) && m != 0.0 && n != 0.0
    ensures var w, u := Normalise(a, m), Normalise(b, n);
            && Dot(w, w) == Dot(u, u) == 1.0
            && Cosine(w, u, 1.0, 1.0) == Dot(w, u) == Cosine(a, b, m, n)
  {
    hide Dot, Times, Normalise;
    var w, u := Normalise(a, m), Normalise(b, n);
    NormIsOne(a, m);
    NormIsOne(b, n);
    ScaledDot(a, m, b, n);
    TimesSigns(m, n);
    CancelFactor(Times(m, n), Dot(w, u), Dot(a, b));
    TimesSimple(1.0, 1.0);
    if a == [] { NothingToScore(w, u); }
  }

  lemma NothingToScore(w: seq<real>, u: seq<real>)
    requires w == [] && u == []
    ensures Dot(w, u) == 0.0
  {
  }

  lemma NormIsOne(a: seq<real>, m: real)
    requires RootOf(m, Dot(a, a)) && m != 0.0
    ensures Dot(Normalise(a, m), Normalise(a, m)) == 1.0
  {
    hide Dot, Times, Normalise;
    ScaledDot(a, m, a, m);
    TimesSigns(m, m);
    CancelFactor(Times(m, m), Dot(Normalise(a, m), Normalise(a, m)), Dot(a, a));
    DivideBySelf(Times(m, m));
  }

  // ---- The hashed bag ------------------------------------------------------

  type Hash = string -> nat

  /** The trigrams of " t ". */
  function Trigrams(padded: string): seq<string> {
    if |padded| < 3 then [] else [padded[..3]] + Trigrams(padded[1..])
  }

  function Grams(token: string): seq<string> { Trigrams(" " + token + " ") + [token] }

  function AllGrams(tokens: seq<string>): seq<string> {
    if tokens == [] then [] else AllGrams(tokens[..|tokens| - 1]) + Grams(tokens[|tokens| - 1])
  }

  function Sign(h: nat): (r: int)
    ensures r == 1 || r == -1
  {
    if h / 0x1_0000_0000 % 2 == 1 then 1 else -1
  }

  /** The entry that a gram counts for. */
  function Slot(hash: Hash, dim: nat, g: string): (k: nat)
    requires dim > 0
    ensures k < dim
  {
    hash(g) % dim
  }

  /** What one gram adds to entry k of a vector of length dim. */
  function Share(hash: Hash, dim: nat, g: string, k: nat): int
    requires dim > 0
  {
    if Slot(hash, dim, g) == k then Sign(hash(g)) else 0
  }

  function Entry(hash: Hash, dim: nat, grams: seq<string>, k: nat): int
    requires dim > 0
  {
    if grams == [] then 0 else Entry(hash, dim, grams[..|grams| - 1], k) + Share(hash, dim, grams[|grams| - 1], k)
  }

  function Bag(hash: Hash, dim: nat, grams: seq<string>): (v: seq<int>)
    requires dim > 0
    ensures |v| == dim
  {
    seq(dim, k requires 0 <= k < dim => Entry(hash, dim, grams, k))
  }

  /** The grams that count for entry k with the given sign: hashed to k, with bit
      32 of the hash set or not. */
  ghost function Voters(hash: Hash, dim: nat, grams: seq<string>, k: nat, set_: bool): set<nat>
    requires dim > 0
  {
    set j: nat | j < |grams| && hash(grams[j]) % dim == k && (hash(grams[j]) / 4294967296 % 2 == 1) == set_
  }

  lemma VotersStep(hash: Hash, dim: nat, grams: seq<string>, g: string, k: nat, set_: bool)
    requires dim > 0
    ensures Voters(hash, dim, grams + [g], k, set_)
            == Voters(hash, dim, grams, k, set_)
             + if hash(g) % dim == k && (hash(g) / 4294967296 % 2 == 1) == set_ then {|grams|} else {}
  {
    assert forall j :: 0 <= j < |grams| ==> (grams + [g])[j] == grams[j];
  }

  /** An entry is the number of grams that add to it less those that subtract. */
  lemma {:induction false} EntryIsVotes(hash: Hash, dim: nat, grams: seq<string>, k: nat)
    requires dim > 0
    ensures Entry(hash, dim, grams, k)
            == |Voters(hash, dim, grams, k, true)| - |Voters(hash, dim, grams, k, false)|
  {
    if grams != [] {
      var init, g := grams[..|grams| - 1], grams[|grams| - 1];
      assert grams == init + [g];
      EntryIsVotes(hash, dim, init, k);
      VotersStep(hash, dim, init, g, k, true);
      VotersStep(hash, dim, init, g, k, false);
      assert |init| !in Voters(hash, dim, init, k, true) && |init| !in Voters(hash, dim, init, k, false);
      hide Voters;
      assert Share(hash, dim, g, k) ==
        if hash(g) % dim != k then 0 else if hash(g) / 4294967296 % 2 == 1 then 1 else -1;
    }
  }

  lemma BagOne(hash: Hash, dim: nat, grams: seq<string>, g: string)
    requires dim > 0
    ensures var v, at := Bag(hash, dim, grams), Slot(hash, dim, g);
            Bag(hash, dim, grams + [g]) == v[at := v[at] + Sign(hash(g))]
  {
    hide Slot, Sign;
    assert (grams + [g])[..|grams|] == grams;
  }

  lemma BagEmpty(hash: Hash, dim: nat, v: seq<int>)
    requires dim > 0 && |v| == dim && forall k :: 0 <= k < dim ==> v[k] == 0
    ensures Bag(hash, dim, []) == v
  {
  }

  lemma {:induction false} TrigramsUpTo(s: string, i: nat)
    requires i + 3 <= |s|
    ensures Trigrams(s[..i + 3]) == Trigrams(s[..i + 2]) + [s[i..i + 3]]
  {
    if i > 0 {
      TrigramsUpTo(s[1..], i - 1);
      assert s[..i + 3][1..] == s[1..][..i + 2] && s[..i + 2][1..] == s[1..][..i + 1];
      assert s[..i + 3][..3] == s[..i + 2][..3];
      assert s[1..][i - 1..i + 2] == s[i..i + 3];
    } else {
      assert s[..3][..3] == s[0..3] && |s[..3][1..]| < 3;
    }
  }

  lemma NoGrams(s: string)
    requires |s| < 3
    ensures AllGrams([]) == [] && Trigrams(s) == []
  {
  }

  lemma GramsStep(tokens: seq<string>, n: nat)
    requires n < |tokens|
    ensures AllGrams(tokens[..n + 1]) == AllGrams(tokens[..n]) + (Trigrams(" " + tokens[n] + " ") + [tokens[n]])
  {
    assert tokens[..n + 1][..n] == tokens[..n];
  }

  /** `_fake_vector` before normalisation. */
  method FakeVector(hash: Hash, tokens: seq<string>, dim: nat) returns (vec: array<int>)
    requires dim > 0
    ensures fresh(vec) && vec[..] == Bag(hash, dim, AllGrams(tokens))
  {
    hide AllGrams, Trigrams, Bag, Slot, Sign;
    var grams := [];
    NoGrams("");
    for n := 0 to |tokens|
      invariant grams == AllGrams(tokens[..n])
    {
      var padded := " " + tokens[n] + " ";
      ghost var earlier := grams;
      NoGrams(padded[..2]);
      for i := 0 to |padded| - 2
        invariant grams == earlier + Trigrams(padded[..i + 2])
      {
        TrigramsUpTo(padded, i);
        grams := grams + [padded[i..i + 3]];
      }
      assert padded[..|padded|] == padded;
      grams := grams + [tokens[n]];
      GramsStep(tokens, n);
    }
    assert tokens[..|tokens|] == tokens;
    vec := new int[dim](_ => 0);
    BagEmpty(hash, dim, vec[..]);
    if grams == [] { return; }
    for j := 0 to |grams|
      invariant vec[..] == Bag(hash, dim, grams[..j])
    {
      BagOne(hash, dim, grams[..j], grams[j]);
      assert grams[..j] + [grams[j]] == grams[..j + 1];
      var at := Slot(hash, dim, grams[j]);
      vec[at] := vec[at] + Sign(hash(grams[j]));
    }
    assert grams[..|grams|] == grams;
  }

  function Sum(f: string -> int, tokens: seq<string>): int {
    if tokens == [] then 0 else Sum(f, tokens[..|tokens| - 1]) + f(tokens[|tokens| - 1])
  }

  lemma {:induction false} SumAppend(f: string -> int, a: seq<string>, b: seq<string>)
    ensures Sum(f, a + b) == Sum(f, a) + Sum(f, b)
  {
    if b == [] {
      assert a + b == a;
    } else {
      assert (a + b)[..|a + b| - 1] == a + b[..|b| - 1];
      SumAppend(f, a, b[..|b| - 1]);
    }
  }

  lemma TakeOut(b: seq<string>, w: string) returns (x: seq<string>, y: seq<string>)
    requires w in b
    ensures b == x + ([w] + y) && multiset(b) == multiset(x + y) + multiset{w}
  {
    var i :| 0 <= i < |b| && b[i] == w;
    x, y := b[..i], b[i + 1..];
    assert b == x + ([w] + y);
  }

  lemma {:induction false} SumOfPermutation(f: string -> int, a: seq<string>, b: seq<string>)
    requires multiset(a) == multiset(b)
    ensures Sum(f, a) == Sum(f, b)
  {
    if a == [] {
      assert |multiset(b)| == 0;
    } else {
      var init, last := a[..|a| - 1], a[|a| - 1];
      assert a == init + [last];
      assert last in multiset(b);
      var x, y := TakeOut(b, last);
      assert multiset(init) == multiset(a) - multiset{last};
      SumOfPermutation(f, init, x + y);
      SumAppend(f, x, [last] + y);
      SumAppend(f, [last], y);
      SumAppend(f, x, y);
      assert [last][..0] == [];
    }
  }

  lemma {:induction false} EntryAppend(hash: Hash, dim: nat, a: seq<string>, b: seq<string>, k: nat)
    requires dim > 0
    ensures Entry(hash, dim, a + b, k) == Entry(hash, dim, a, k) + Entry(hash, dim, b, k)
  {
    if b == [] {
      assert a + b == a;
    } else {
      assert (a + b)[..|a + b| - 1] == a + b[..|b| - 1];
      EntryAppend(hash, dim, a, b[..|b| - 1], k);
    }
  }

  lemma {:induction false} TokensSum(hash: Hash, dim: nat, tokens: seq<string>, k: nat, f: string -> int)
    requires dim > 0 && forall t :: f(t) == Entry(hash, dim, Grams(t), k)
    ensures Entry(hash, dim, AllGrams(tokens), k) == Sum(f, tokens)
  {
    if tokens != [] {
      var init, last := tokens[..|tokens| - 1], tokens[|tokens| - 1];
      TokensSum(hash, dim, init, k, f);
      EntryAppend(hash, dim, AllGrams(init), Grams(last), k);
    }
  }

  /** The vector depends only on which words occur how often. */
  lemma WordOrderDoesNotMatter(hash: Hash, dim: nat, a: seq<string>, b: seq<string>)
    requires dim > 0 && multiset(a) == multiset(b)
    ensures Bag(hash, dim, AllGrams(a)) == Bag(hash, dim, AllGrams(b))
  {
    forall k: nat | k < dim
      ensures Entry(hash, dim, AllGrams(a), k) == Entry(hash, dim, AllGrams(b), k)
    {
      var f := t => Entry(hash, dim, Grams(t), k);
      TokensSum(hash, dim, a, k, f);
      TokensSum(hash, dim, b, k, f);
      SumOfPermutation(f, a, b);
    }
  }

  function Abs(x: int): nat { if x < 0 then -x else x }

  function SumAbs(v: seq<int>): nat {
    if v == [] then 0 else Abs(v[0]) + SumAbs(v[1..])
  }

  lemma {:induction false} SumAbsUpdate(v: seq<int>, i: nat, x: int)
    requires i < |v|
    ensures SumAbs(v[i := x]) == SumAbs(v) - Abs(v[i]) + Abs(x)
  {
    if i > 0 {
      assert v[i := x][1..] == v[1..][i - 1 := x];
      SumAbsUpdate(v[1..], i - 1, x);
    } else {
      assert v[0 := x][1..] == v[1..];
    }
  }

  lemma {:induction false} SumAbsZeros(v: seq<int>)
    requires forall k :: 0 <= k < |v| ==> v[k] == 0
    ensures SumAbs(v) == 0
  {
    if v != [] { SumAbsZeros(v[1..]); }
  }

  /** The entries' absolute values sum to the number of grams less two for every
      pair that cancels out. */
  lemma {:induction false} MassOfBag(hash: Hash, dim: nat, grams: seq<string>) returns (pairs: nat)
    requires dim > 0
    ensures SumAbs(Bag(hash, dim, grams)) + 2 * pairs == |grams|
  {
    if grams == [] {
      SumAbsZeros(Bag(hash, dim, grams));
      return 0;
    }
    hide Bag, SumAbs, Slot, Sign;
    var init, g := grams[..|grams| - 1], grams[|grams| - 1];
    pairs := MassOfBag(hash, dim, init);
    assert grams == init + [g];
    BagOne(hash, dim, init, g);
    var v, at := Bag(hash, dim, init), Slot(hash, dim, g);
    SumAbsUpdate(v, at, v[at] + Sign(hash(g)));
    if SumAbs(Bag(hash, dim, grams)) < SumAbs(v) { pairs := pairs + 1; }
  }

  lemma {:induction false} TrigramCount(s: string)
    ensures |Trigrams(s)| == if |s| < 3 then 0 else |s| - 2
  {
    if |s| >= 3 { TrigramCount(s[1..]); }
  }

  lemma TrigramsStep(s: string)
    requires |s| >= 3
    ensures Trigrams(s) == [s[..3]] + Trigrams(s[1..])
  {
  }

  /** The trigrams are the three-character windows, from left to right. */
  lemma {:induction false} TrigramAt(s: string, i: nat)
    requires i + 3 <= |s|
    ensures i < |Trigrams(s)| && Trigrams(s)[i] == s[i..i + 3]
  {
    hide Trigrams;
    var tail := s[1..];
    TrigramsStep(s);
    if i > 0 {
      TrigramAt(tail, i - 1);
      assert tail[i - 1..i + 2] == s[i..i + 3];
    } else {
      assert s[0..3] == s[..3];
    }
  }

  /** A word yields the trigrams of itself between two spaces, then itself. */
  lemma GramsOfWord(t: string)
    ensures |Grams(t)| == |t| + 1 && Grams(t)[|t|] == t
    ensures forall i: nat :: i < |t| ==> Grams(t)[i] == (" " + t + " ")[i..i + 3]
    ensures AllGrams([t]) == Grams(t)
  {
    TrigramCount(" " + t + " ");
    forall i: nat | i < |t| ensures Grams(t)[i] == (" " + t + " ")[i..i + 3] { TrigramAt(" " + t + " ", i); }
    assert [t][..0] == [];
  }

  lemma {:induction false} GramsAppend(a: seq<string>, b: seq<string>)
    ensures AllGrams(a + b) == AllGrams(a) + AllGrams(b)
  {
    if b == [] {
      assert a + b == a;
    } else {
      var n := |b| - 1;
      assert (a + b)[..|a| + n] == a + b[..n];
      GramsAppend(a, b[..n]);
    }
  }

  function Letters(tokens: seq<string>): nat {
    if tokens == [] then 0 else Letters(tokens[..|tokens| - 1]) + |tokens[|tokens| - 1]|
  }

  lemma {:induction false} GramCount(tokens: seq<string>)
    ensures |AllGrams(tokens)| == Letters(tokens) + |tokens|
  {
    if tokens != [] {
      GramCount(tokens[..|tokens| - 1]);
      var t := tokens[|tokens| - 1];
      TrigramCount(" " + t + " ");
    }
  }

  lemma {:induction false} MassSomewhere(v: seq<int>) returns (k: nat)
    requires SumAbs(v) != 0
    ensures k < |v| && v[k] != 0
  {
    if v[0] != 0 { return 0; }
    k := MassSomewhere(v[1..]);
    k := k + 1;
  }

  /** Grams may cancel out, but never all of an odd number of them: such a text
      is not mapped to the zero vector, for which every score is 0. */
  lemma OddTextsAreNotZero(hash: Hash, dim: nat, tokens: seq<string>) returns (k: nat)
    requires dim > 0 && (Letters(tokens) + |tokens|) % 2 == 1
    ensures k < dim && Entry(hash, dim, AllGrams(tokens), k) != 0
  {
    hide SumAbs, AllGrams, Entry, Letters;
    var pairs := MassOfBag(hash, dim, AllGrams(tokens));
    GramCount(tokens);
    k := MassSomewhere(Bag(hash, dim, AllGrams(tokens)));
  }
}
