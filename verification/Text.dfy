/** Strings as the repository's Python code uses them: `str.replace` and
    decimal numerals. */
module Text {

  /** `s.replace(p, v)`: leftmost, non-overlapping; an empty p matches before
      every character and at the end. */
  function Replace(s: string, p: string, v: string): string
    decreases |s|
  {
    if s == "" then if p == "" then v else ""
    else if p == "" then v + [s[0]] + Replace(s[1..], p, v)
    else if p <= s then v + Replace(s[|p|..], p, v)
    else [s[0]] + Replace(s[1..], p, v)
  }

  lemma EmptyPattern(a: char, b: char, v: string)
    ensures Replace([a, b], "", v) == v + [a] + v + [b] + v && Replace("", "", v) == v
  {
    assert [a, b][1..] == [b] && [b][1..] == "";
    assert Replace([b], "", v) == v + [b] + v;
  }

  function Digit(d: nat): char
    requires d < 10
  {
    "0123456789"[d]
  }

  /** `str(n)`. */
  function Decimal(n: nat): (s: string)
    ensures s != ""
    ensures forall k :: 0 <= k < |s| ==> '0' <= s[k] <= '9'
  {
    if n < 10 then [Digit(n)] else Decimal(n / 10) + [Digit(n % 10)]
  }

  lemma {:induction false} DecimalInjective(a: nat, b: nat)
    requires Decimal(a) == Decimal(b)
    ensures a == b
  {
    var s, r := Decimal(a), Decimal(b);
    assert s[|s| - 1] == Digit(a % 10) && r[|r| - 1] == Digit(b % 10);
    assert a % 10 == b % 10;
    if a >= 10 && b >= 10 {
      assert s[..|s| - 1] == Decimal(a / 10) && r[..|r| - 1] == Decimal(b / 10);
      DecimalInjective(a / 10, b / 10);
    }
  }

  function Pow10(k: nat): nat { if k == 0 then 1 else 10 * Pow10(k - 1) }

  /** A number has at most k digits exactly when it is below 10^k. */
  lemma {:induction false} DecimalLength(n: nat, k: nat)
    requires k > 0
    ensures |Decimal(n)| <= k <==> n < Pow10(k)
  {
    if n >= 10 && k > 1 {
      DecimalLength(n / 10, k - 1);
    } else if n < 10 {
      Pow10Grows(k);
    }
  }

  lemma {:induction false} Pow10Grows(k: nat)
    ensures Pow10(k) >= 1 && (k > 0 ==> Pow10(k) >= 10)
  {
    if k > 0 { Pow10Grows(k - 1); }
  }

  /** A number that begins with an eight is at least 8 * 10^k, k its further digits. */
  lemma {:induction false} LeadingEight(n: nat, k: nat)
    requires |Decimal(n)| == k + 1 && Decimal(n)[0] == '8'
    ensures n >= 8 * Pow10(k)
  {
    if k > 0 { LeadingEight(n / 10, k - 1); }
  }

  lemma {:induction false} EightTimes(k: nat)
    ensures |Decimal(8 * Pow10(k))| == k + 1 && Decimal(8 * Pow10(k))[0] == '8'
  {
    if k > 0 {
      var n := 8 * Pow10(k - 1);
      EightTimes(k - 1);
      assert 8 * Pow10(k) == 10 * n && 10 * n / 10 == n;
      Pow10Grows(k - 1);
      assert Decimal(10 * n) == Decimal(n) + [Digit(10 * n % 10)];
    }
  }

  ghost predicate Infix(v: string, s: string) {
    exists i :: InfixAt(v, s, i)
  }

  ghost predicate InfixAt(v: string, s: string, i: nat) {
    i + |v| <= |s| && s[i..i + |v|] == v
  }

  lemma InfixTail(v: string, s: string)
    requires s != "" && Infix(v, s[1..])
    ensures Infix(v, s)
  {
    var i: nat :| InfixAt(v, s[1..], i);
    assert s[1..][i..i + |v|] == s[i + 1..i + 1 + |v|];
    assert InfixAt(v, s, i + 1);
  }

  function Count(s: string, c: char): nat {
    if s == "" then 0 else (if s[0] == c then 1 else 0) + Count(s[1..], c)
  }

  lemma {:induction false} CountAppend(a: string, b: string, c: char)
    ensures Count(a + b, c) == Count(a, c) + Count(b, c)
  {
    if a == "" {
      assert a + b == b;
    } else {
      assert (a + b)[1..] == a[1..] + b;
      CountAppend(a[1..], b, c);
    }
  }

  lemma {:induction false} CountZero(a: string, c: char)
    requires c !in a
    ensures Count(a, c) == 0
  {
    if a != "" { CountZero(a[1..], c); }
  }
}
