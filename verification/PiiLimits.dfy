/** Where the laws of masking end: the conditions of the other theorems are
    exact. A placeholder numbered 80000000000 is itself a phone number. */
module PiiLimits {
  import opened Options
  import opened Regex
  import opened Text
  import opened PiiPatterns
  import opened PiiMasker
  import opened PiiResidue
  import opened PiiRoundTrip
  import opened PiiTheorems

  lemma InfixPlace(w: string, s: string) returns (p: nat)
    requires Infix(w, s)
    ensures InfixAt(w, s, p)
  {
    p :| InfixAt(w, s, p);
  }

  /** Every placeholder a pass issues is in its output. */
  lemma {:induction false} KeyInOutput(cc: Classes, k: Kind, t: string, i: nat, n: nat, j: nat)
    requires i <= |t| && j < |Pass(cc, k, t, i, n).items|
    ensures Infix(Pass(cc, k, t, i, n).items[j].key, Pass(cc, k, t, i, n).text)
    decreases |t| - i
  {
    hide Lang, Found, Pass, Placeholder, Infix, Span;
    if i == |t| {
      PassEnd(cc, k, t, n);
    } else {
      PassStep(cc, k, t, i, n);
      var f := Found(cc, k, t, i);
      if f.Some? {
        var ph, rest := Placeholder(k, n + 1), Pass(cc, k, t, f.value, n + 1);
        if j == 0 {
          PrefixInfix(ph, ph + rest.text);
        } else {
          KeyInOutput(cc, k, t, f.value, n + 1, j - 1);
          InfixAfter(rest.items[j - 1].key, ph, rest.text);
        }
      } else {
        var rest := Pass(cc, k, t, i + 1, n);
        KeyInOutput(cc, k, t, i + 1, n, j);
        InfixAfter(rest.items[j].key, [t[i]], rest.text);
      }
    }
  }

  /** A pass never jumps over a framing character. */
  lemma {:induction false} PassReaches(cc: Classes, k: Kind, t: string, i: nat, p: nat, n: nat)
    returns (a: string, n': nat)
    requires i <= p < |t| && Stop(t[p])
    ensures var m, m' := Pass(cc, k, t, i, n), Pass(cc, k, t, p, n');
            && m.text == a + m'.text
            && n <= n' && n' - n + |m'.items| == |m.items| && m.items[n' - n..] == m'.items
    decreases p - i
  {
    hide Lang, Found, Pass, Placeholder, Span;
    if i == p {
      a, n' := "", n;
    } else {
      PassStep(cc, k, t, i, n);
      var f := Found(cc, k, t, i);
      if f.Some? {
        SpanFacts(cc, k, t, i, f.value);
        var b;
        b, n' := PassReaches(cc, k, t, f.value, p, n + 1);
        a := Placeholder(k, n + 1) + b;
      } else {
        var b;
        b, n' := PassReaches(cc, k, t, i + 1, p, n);
        a := [t[i]] + b;
      }
    }
  }

  /** What begins with '<' and attracts no match stays in the text. */
  lemma PassKeeps(cc: Classes, k: Kind, t: string, w: string, p: nat)
    requires w != "" && w[0] == '<' && InfixAt(w, t, p)
    requires forall q: nat, e: nat :: p <= q < p + |w| ==> !Span(cc, k, t, q, e)
    ensures Infix(w, Sub(cc, k, t).text)
  {
    hide Lang, Pass, Span;
    assert t[p] == w[0];
    var a, n := PassReaches(cc, k, t, 0, p, 0);
    PassCopies(cc, k, t, p, p + |w|, n);
    var rest := Pass(cc, k, t, p + |w|, n).text;
    PrefixInfix(w, w + rest);
    InfixAfter(w, a, w + rest);
  }

  lemma PassKeepsKey(cc: Classes, k: Kind, t: string, l: Kind, n: nat)
    requires k != PHONE && Infix(Placeholder(l, n), t)
    ensures Infix(Placeholder(l, n), Sub(cc, k, t).text)
  {
    hide Lang, Sub, Placeholder, Span;
    var key := Placeholder(l, n);
    PlaceholderFramed(cc, l, n);
    var p: nat :| InfixAt(key, t, p);
    assert key <= t[p..];
    FreeBody(cc, k, l, n);
    NoSpanInKey(cc, k, t, p, key);
    PassKeeps(cc, k, t, key, p);
  }

  // ---- What is left in a masked text ---------------------------------------

  lemma ElevenDigits(cc: Classes, w: string, d: string)
    requires |d| == 11 && d[0] == '8' && forall j :: 0 <= j < 11 ==> '0' <= d[j] <= '9'
    ensures Span(cc, PHONE, w + d, |w|, |w| + 11)
  {
    hide Span;
    var t, m := w + d, |w|;
    forall j | m <= j < m + 11 ensures t[j] == d[j - m] {}
    forall j | m < j < m + 11 ensures cc.digit(t[j]) { assert '0' <= t[j] <= '9'; }
    EightAndTenDigits(cc, t, m);
  }

  /** The placeholder numbered 80000000000 contains a phone number. */
  lemma PhoneInBody(cc: Classes, k: Kind, n: nat)
    requires n == PhoneLike()
    ensures var b, m := Body(k, n), |Name(k)| + 1; |b| == m + 11 && Span(cc, PHONE, b, m, m + 11)
  {
    EightTimes(10);
    hide Pow10, Decimal, Span;
    ElevenDigits(cc, Name(k) + "_", Decimal(n));
  }

  lemma BodyAt(k: Kind, n: nat, x: string, p: nat)
    requires InfixAt(Placeholder(k, n), x, p)
    ensures var b := Body(k, n); p + 1 + |b| <= |x| && x[p + 1..p + 1 + |b|] == b
  {
    hide Body;
    var key, b := Placeholder(k, n), Body(k, n);
    assert key[1..1 + |b|] == b;
    assert x[p + 1..p + 1 + |b|] == x[p..p + |key|][1..1 + |b|];
  }

  lemma PhoneInText(cc: Classes, k: Kind, n: nat, x: string)
    requires n == PhoneLike() && Infix(Placeholder(k, n), x)
    ensures !Free(cc, PHONE, x)
  {
    hide Lang, Pattern, PhoneLike, Body, Placeholder, Cut;
    var b, m := Body(k, n), |Name(k)| + 1;
    var p := InfixPlace(Placeholder(k, n), x);
    PhoneInBody(cc, k, n);
    BodyAt(k, n, x, p);
    hide Name;
    SpanInPiece(cc, PHONE, x, p + 1, p + 1 + |b|, m, m + 11);
    SpanIsMatch(cc, PHONE, x, p + 1 + m, p + 1 + m + 11);
  }

  lemma Issued(cc: Classes, t: string, k: Kind, n: nat)
    requires 0 < n <= |PassOf(cc, t, k).items|
    ensures Infix(Placeholder(k, n), PassOf(cc, t, k).text)
  {
    PassOfNumbered(cc, t, k);
    hide Pow10, PhoneLike, Pass, Placeholder, Infix, Matched;
    assert PassOf(cc, t, k).items[n - 1].key == Placeholder(k, 0 + 1 + (n - 1));
    match k
    case EMAIL => KeyInOutput(cc, EMAIL, t, 0, 0, n - 1);
    case PHONE => KeyInOutput(cc, PHONE, AfterEmail(cc, t).text, 0, 0, n - 1);
    case OGRN => KeyInOutput(cc, OGRN, AfterPhone(cc, t).text, 0, 0, n - 1);
    case INN => KeyInOutput(cc, INN, AfterOgrn(cc, t).text, 0, 0, n - 1);
  }

  lemma PhonesLeft(cc: Classes, t: string)
    requires !CountersFit(cc, t)
    ensures !Free(cc, PHONE, Mask(cc, t).text)
  {
    hide Sub, PhoneLike, Placeholder, Infix, Free;
    var k := if |AfterPhone(cc, t).items| >= PhoneLike() then PHONE
             else if |AfterOgrn(cc, t).items| >= PhoneLike() then OGRN else INN;
    var n := PhoneLike();
    Powers();
    Issued(cc, t, k, n);
    if k == PHONE { PassKeepsKey(cc, OGRN, AfterPhone(cc, t).text, k, n); }
    if k != INN { PassKeepsKey(cc, INN, AfterOgrn(cc, t).text, k, n); }
    PhoneInText(cc, k, n, Mask(cc, t).text);
  }

  /** A masked text is free of all four patterns exactly when none of its last
      three counters has reached 80000000000. */
  lemma ResidueIff(cc: Classes, t: string)
    ensures (forall q :: Free(cc, q, Mask(cc, t).text)) <==> CountersFit(cc, t)
  {
    hide Mask, CountersFit, Free;
    if CountersFit(cc, t) {
      forall q ensures Free(cc, q, Mask(cc, t).text) { NoResidue(cc, t, Mask(cc, t).text, q); }
    } else {
      PhonesLeft(cc, t);
    }
  }

  /** A pass that finds nothing copies. */
  lemma {:induction false} PassNothing(cc: Classes, k: Kind, t: string, i: nat, n: nat)
    requires i <= |t| && Pass(cc, k, t, i, n).items == []
    ensures Pass(cc, k, t, i, n).text == t[i..]
    decreases |t| - i
  {
    hide Lang, Found, Pass, Placeholder, Span;
    if i == |t| {
      PassEnd(cc, k, t, n);
    } else {
      PassStep(cc, k, t, i, n);
      assert Found(cc, k, t, i).None?;
      PassNothing(cc, k, t, i + 1, n);
      assert t[i..] == [t[i]] + t[i + 1..];
    }
  }

  /** Masking twice is masking once exactly under the same condition. */
  lemma MaskIdempotentIff(cc: Classes, t: string, masked: string)
    requires masked == Mask(cc, t).text
    ensures Mask(cc, masked) == Masked(masked, []) <==> CountersFit(cc, t)
  {
    hide Lang, Pass, CountersFit;
    if CountersFit(cc, t) {
      MaskIdempotent(cc, t, masked);
    } else {
      PhonesLeft(cc, t);
      hide Span;
      var i: nat, e: nat :| Span(cc, PHONE, masked, i, e);
      SpanIsMatch(cc, PHONE, masked, i, e);
      if AfterEmail(cc, masked).items == [] {
        PassNothing(cc, EMAIL, masked, 0, 0);
        assert masked[0..] == masked;
        PassFinds(cc, PHONE, masked, 0, 0, i, e);
      }
    }
  }

  /** A pass adds one '<' for every placeholder it issues. */
  lemma {:induction false} PassCounts(cc: Classes, k: Kind, t: string, i: nat, n: nat)
    requires i <= |t|
    ensures var m := Pass(cc, k, t, i, n); Count(m.text, '<') == Count(t[i..], '<') + |m.items|
    decreases |t| - i
  {
    hide Lang, Found, Pass, Placeholder, Span, Count;
    if i == |t| {
      PassEnd(cc, k, t, n);
      assert t[i..] == "";
    } else {
      PassStep(cc, k, t, i, n);
      var f := Found(cc, k, t, i);
      if f.Some? {
        var e, ph := f.value, Placeholder(k, n + 1);
        PassCounts(cc, k, t, e, n + 1);
        assert t[i..] == t[i..e] + t[e..];
        SpanFacts(cc, k, t, i, e);
        CountZero(t[i..e], '<') by { assert forall j :: 0 <= j < |t[i..e]| ==> t[i..e][j] == t[i + j]; }
        CountAppend(t[i..e], t[e..], '<');
        CountAppend(ph, Pass(cc, k, t, e, n + 1).text, '<');
        PlaceholderFramed(cc, k, n + 1);
        FramedCounts(ph);
      } else {
        PassCounts(cc, k, t, i + 1, n);
        assert t[i..] == [t[i]] + t[i + 1..];
        CountAppend([t[i]], t[i + 1..], '<');
        CountAppend([t[i]], Pass(cc, k, t, i + 1, n).text, '<');
      }
    }
  }

  lemma FramedCounts(key: string)
    requires Framed(key)
    ensures Count(key, '<') == 1
  {
    KeyTail(key);
    CountZero(key[1..], '<');
  }

  /** A text that masking leaves alone has nothing to mask. */
  lemma UnchangedIsUnmasked(cc: Classes, t: string)
    requires Mask(cc, t).text == t
    ensures Mask(cc, t) == Masked(t, [])
  {
    hide Pass, Count;
    var e, p, o := AfterEmail(cc, t).text, AfterPhone(cc, t).text, AfterOgrn(cc, t).text;
    PassCounts(cc, EMAIL, t, 0, 0);
    PassCounts(cc, PHONE, e, 0, 0);
    PassCounts(cc, OGRN, p, 0, 0);
    PassCounts(cc, INN, o, 0, 0);
    assert t[0..] == t && e[0..] == e && p[0..] == p && o[0..] == o;
  }

  // ---- The round trip of a plain text --------------------------------------

  /** Replacing a key that does not match inside w leaves w alone. */
  ghost predicate Differs(w: string, key: string) {
    forall j :: 0 <= j < |w| && w[j] == '<' ==> exists l :: DiffersAt(w, key, j, l)
  }

  ghost predicate DiffersAt(w: string, key: string, j: int, l: int) {
    0 <= j && 0 <= l < |key| && j + l < |w| && w[j + l] != key[l]
  }

  lemma {:induction false} ReplaceCopies(s: string, key: string, v: string, w: string)
    requires Framed(key) && Differs(w, key) && w <= s
    ensures w <= Replace(s, key, v)
    decreases |w|
  {
    if w != "" {
      assert !(key <= s) by {
        if w[0] == '<' {
          var l :| DiffersAt(w, key, 0, l);
          assert w[l] == s[l];
        } else {
          assert s[0] == w[0] != key[0];
        }
      }
      var w1 := w[1..];
      forall j | 0 <= j < |w1| && w1[j] == '<' ensures exists l :: DiffersAt(w1, key, j, l) {
        var l :| DiffersAt(w, key, j + 1, l);
        assert DiffersAt(w1, key, j, l);
      }
      assert w1 <= s[1..];
      ReplaceCopies(s[1..], key, v, w1);
      assert w == [w[0]] + w1;
    }
  }

  lemma {:induction false} ReplaceKeeps(s: string, key: string, v: string, w: string, p: nat)
    requires Framed(key) && Differs(w, key) && w != "" && w[0] == '<' && InfixAt(w, s, p)
    ensures Infix(w, Replace(s, key, v))
    decreases |s|
  {
    if p == 0 {
      assert w <= s;
      ReplaceCopies(s, key, v, w);
      PrefixInfix(w, Replace(s, key, v));
    } else {
      assert s[p] == '<';
      if key <= s {
        KeyTail(key);
        assert forall j :: 0 < j < |key| ==> s[j] == key[1..][j - 1] != '<';
        var rest := s[|key|..];
        assert rest[p - |key|..p - |key| + |w|] == s[p..p + |w|];
        ReplaceKeeps(rest, key, v, w, p - |key|);
        InfixAfter(w, v, Replace(rest, key, v));
      } else {
        assert s[1..][p - 1..p - 1 + |w|] == s[p..p + |w|];
        ReplaceKeeps(s[1..], key, v, w, p - 1);
        InfixAfter(w, [s[0]], Replace(s[1..], key, v));
      }
    }
  }

  ghost predicate AllDiffer(w: string, items: seq<Item>) {
    forall x :: x in items ==> Framed(x.key) && Differs(w, x.key)
  }

  lemma {:induction false} UnmaskKeeps(s: string, items: seq<Item>, w: string)
    requires AllDiffer(w, items) && w != "" && w[0] == '<' && Infix(w, s)
    ensures Infix(w, Unmask(s, items))
    decreases |items|
  {
    if items != [] {
      hide Differs, Infix, Replace;
      assert items[0] in items;
      var p := InfixPlace(w, s);
      ReplaceKeeps(s, items[0].key, items[0].value, w, p);
      UnmaskKeeps(Replace(s, items[0].key, items[0].value), items[1..], w);
    }
  }

  lemma {:induction false} UnmaskAppend(s: string, a: seq<Item>, b: seq<Item>)
    ensures Unmask(s, a + b) == Unmask(Unmask(s, a), b)
    decreases |a|
  {
    if a == [] {
      assert a + b == b;
    } else {
      assert (a + b)[1..] == a[1..] + b;
      UnmaskAppend(Replace(s, a[0].key, a[0].value), a[1..], b);
    }
  }

  /** w + p + y behind a '<'. */
  function Around(w: string, p: string, y: string): string { ['<'] + (w + (p + y)) }

  /** What the phone pass makes of the e-mail placeholder numbered 80000000000,
      j being the number of the phone placeholder it issues there. */
  function Broken(j: nat): string { Around("EMAIL_", Placeholder(PHONE, j), ">") }

  lemma PhoneLikeEmail()
    ensures |Decimal(PhoneLike())| == 11 && Decimal(PhoneLike())[0] == '8'
    ensures Placeholder(EMAIL, PhoneLike()) == Around("EMAIL_", Decimal(PhoneLike()), ">")
  {
    EightTimes(10);
    hide Decimal, Pow10;
  }

  lemma SliceOfSlice(x: string, p: nat, u: string, a: nat, b: nat)
    requires InfixAt(u, x, p) && a <= b <= |u|
    ensures x[p + a..p + b] == u[a..b]
  {
    var v := x[p..p + |u|];
    forall j | 0 <= j < |u| ensures x[p + j] == v[j] {}
    assert x[p + a..p + b] == v[a..b];
  }

  /** Where a piece of the text is cut. */
  lemma AroundAt(x: string, p: nat, w: string, v: string, y: string)
    requires InfixAt(Around(w, v, y), x, p)
    ensures var q := p + 1 + |w|;
            && q + |v| + |y| <= |x| && x[p..q] == ['<'] + w && x[q..q + |v|] == v && x[q + |v|..q + |v| + |y|] == y
  {
    var u, m, n := Around(w, v, y), 1 + |w|, 1 + |w| + |v|;
    SliceOfSlice(x, p, u, 0, m);
    SliceOfSlice(x, p, u, m, n);
    SliceOfSlice(x, p, u, n, |u|);
    assert u[0..m] == ['<'] + w && u[m..n] == v && u[n..|u|] == y;
  }

  /** An eight and ten digits before a '>' are matched exactly. */
  lemma ElevenDigitsHere(cc: Classes, x: string, q: nat, d: string)
    requires |d| == 11 && d[0] == '8' && forall j :: 0 <= j < 11 ==> '0' <= d[j] <= '9'
    requires q + 12 <= |x| && x[q..q + 11] == d && x[q + 11] == '>'
    ensures Found(cc, PHONE, x, q) == Some(q + 11)
  {
    hide Span;
    ElevenDigits(cc, "", d);
    assert "" + d == d;
    SpanInPiece(cc, PHONE, x, q, q + 11, 0, 11);
    var f := Found(cc, PHONE, x, q);
    SpanFacts(cc, PHONE, x, q, f.value);
    assert Stop(x[q + 11]);
  }

  /** In that placeholder the phone pass finds exactly the number. */
  lemma PhoneHere(cc: Classes, x: string, p: nat, d: string)
    requires |d| == 11 && d[0] == '8' && forall j :: 0 <= j < 11 ==> '0' <= d[j] <= '9'
    requires InfixAt(Around("EMAIL_", d, ">"), x, p)
    ensures p + 19 <= |x| && Found(cc, PHONE, x, p + 7) == Some(p + 18)
  {
    hide Found;
    AroundAt(x, p, "EMAIL_", d, ">");
    hide Around;
    assert x[p + 18..p + 19] == ">";
    ElevenDigitsHere(cc, x, p + 7, d);
  }

  lemma PhonePassBreaks(cc: Classes, x: string) returns (j: nat)
    requires Infix(Placeholder(EMAIL, PhoneLike()), x)
    ensures var m := Sub(cc, PHONE, x);
            && 0 < j <= |m.items| && m.items[j - 1] == Item(Placeholder(PHONE, j), Decimal(PhoneLike()))
            && Infix(Broken(j), m.text)
  {
    PhoneLikeEmail();
    var d := Decimal(PhoneLike());
    hide Lang, PhoneLike, Pass, Span, Placeholder, Decimal, Found;
    var p := InfixPlace(Around("EMAIL_", d, ">"), x);
    PhoneHere(cc, x, p, d);
    AroundAt(x, p, "EMAIL_", d, ">");
    hide Around;
    var front := "<EMAIL_";
    assert x[p..p + 7] == front && x[p + 18..p + 19] == ">";
    assert x[p] == '<' && x[p + 18] == '>';
    var a, n := PassReaches(cc, PHONE, x, 0, p, 0);
    forall q: nat, e: nat | p <= q < p + 7 ensures !Span(cc, PHONE, x, q, e) {
      assert x[q] == front[q - p];
      if Span(cc, PHONE, x, q, e) { SpanStart(cc, PHONE, x, q, e); }
    }
    PassCopies(cc, PHONE, x, p, p + 7, n);
    PassStep(cc, PHONE, x, p + 7, n);
    NoMatchAtStop(cc, PHONE, x, p + 18);
    PassStep(cc, PHONE, x, p + 18, n + 1);
    j := n + 1;
    BrokenInfix(a, front, j, Pass(cc, PHONE, x, p + 19, j).text);
  }

  lemma BrokenInfix(a: string, front: string, j: nat, rest: string)
    requires front == "<EMAIL_"
    ensures Infix(Broken(j), a + (front + (Placeholder(PHONE, j) + (">" + rest))))
  {
    hide Placeholder, Infix;
    var w, ph := Broken(j), Placeholder(PHONE, j);
    assert w == front + (ph + ">");
    PrefixInfix(w, w + rest);
    InfixAfter(w, a, w + rest);
    assert w + rest == front + (ph + (">" + rest));
  }

  lemma NoMatchAtStop(cc: Classes, k: Kind, t: string, p: nat)
    requires p < |t| && Stop(t[p])
    ensures Found(cc, k, t, p).None?
  {
    hide Span;
    var f := Found(cc, k, t, p);
    if f.Some? { SpanFacts(cc, k, t, p, f.value); }
  }

  lemma FrontIsNoDigit(cc: Classes, c: char)
    requires c in "<EMAIL_>"
    ensures !cc.digit(c)
  {
    if c in "<>" { StopIsNoWord(cc, c); }
  }

  /** The later passes do not repair it. */
  lemma BrokenStays(cc: Classes, k: Kind, x: string, j: nat)
    requires k in {OGRN, INN} && Infix(Broken(j), x)
    ensures Infix(Broken(j), Sub(cc, k, x).text)
  {
    hide Lang, Sub, Span, Placeholder;
    var w, key, front := Broken(j), Placeholder(PHONE, j), "<EMAIL_";
    var p := InfixPlace(w, x);
    AroundAt(x, p, "EMAIL_", key, ">");
    BrokenFront(j);
    assert |w| == |key| + 8;
    hide Broken, Around;
    PlaceholderFramed(cc, PHONE, j);
    FreeBody(cc, k, PHONE, j);
    assert x[p + 7..][..|key|] == key;
    NoSpanInKey(cc, k, x, p + 7, key);
    assert x[p..p + 7] == front && x[p + |w| - 1..p + |w|] == ">";
    forall q: nat, e: nat | p <= q < p + |w| ensures !Span(cc, k, x, q, e) {
      if q < p + 7 || q == p + |w| - 1 {
        assert x[q] == if q < p + 7 then front[q - p] else '>';
        FrontIsNoDigit(cc, x[q]);
        if Span(cc, k, x, q, e) { SpanStart(cc, k, x, q, e); }
      }
    }
    PassKeeps(cc, k, x, w, p);
  }

  lemma MaskIsBroken(cc: Classes, t: string) returns (j: nat)
    requires |AfterEmail(cc, t).items| >= PhoneLike()
    ensures var items := AfterPhone(cc, t).items;
            0 < j <= |items| && items[j - 1] == Item(Placeholder(PHONE, j), Decimal(PhoneLike()))
    ensures Infix(Broken(j), Mask(cc, t).text)
  {
    Powers();
    hide Sub, PhoneLike, Placeholder, Infix, Decimal, Broken;
    Issued(cc, t, EMAIL, PhoneLike());
    j := PhonePassBreaks(cc, AfterEmail(cc, t).text);
    BrokenStays(cc, OGRN, AfterPhone(cc, t).text, j);
    BrokenStays(cc, INN, AfterOgrn(cc, t).text, j);
  }

  /** Placeholders that do not match inside the broken one ... */
  lemma BrokenDiffers(cc: Classes, j: nat, k: Kind, n: nat)
    requires k == EMAIL || (k == PHONE && n != j)
    ensures Framed(Placeholder(k, n)) && Differs(Broken(j), Placeholder(k, n))
  {
    PlaceholderFramed(cc, k, n);
    PlaceholderFramed(cc, PHONE, j);
    PlaceholderStart(k, n);
    PlaceholderStart(PHONE, j);
    hide Placeholder, Broken, Differs, Framed;
    var key, ph, l := Placeholder(k, n), Placeholder(PHONE, j), 1;
    if k == PHONE {
      if ph == key { PlaceholderInjective(PHONE, j, k, n); }
      l := FramedDiffer(key, ph);
    }
    DiffersInside(Broken(j), ph, key, if k == EMAIL then 7 else 1, l) by { BrokenIs(j); }
  }

  lemma BrokenIs(j: nat)
    ensures Broken(j) == "<EMAIL_" + Placeholder(PHONE, j) + ">"
  {
    hide Placeholder;
  }

  lemma DiffersInside(w: string, ph: string, key: string, m: nat, l: nat)
    requires w == "<EMAIL_" + ph + ">" && Framed(ph)
    requires m < |key| && m < 8 && w[m] != key[m] && l < |key| && l < |ph| && ph[l] != key[l]
    ensures Differs(w, key)
  {
    KeyTail(ph);
    assert forall i :: 7 < i < |w| - 1 ==> w[i] == ph[1..][i - 8];
    assert DiffersAt(w, key, 0, m);
    assert w[7 + l] == ph[l];
    assert DiffersAt(w, key, 7, l);
  }

  lemma PlaceholderStart(k: Kind, n: nat)
    ensures var key := Placeholder(k, n);
            |key| > 1 && key[1] == Name(k)[0] && (k == EMAIL ==> |key| > 7 && key[7] != '<')
  {
    hide Decimal;
    var key := Placeholder(k, n);
    assert key == "<" + Name(k) + "_" + Decimal(n) + ">";
  }

  /** ... nor inside an e-mail placeholder. */
  lemma EmailDiffers(cc: Classes, k: Kind, n: nat, m: nat)
    requires k != EMAIL
    ensures Framed(Placeholder(k, n)) && Differs(Placeholder(EMAIL, m), Placeholder(k, n))
  {
    PlaceholderFramed(cc, k, n);
    PlaceholderFramed(cc, EMAIL, m);
    PlaceholderStart(k, n);
    PlaceholderStart(EMAIL, m);
    var w, key := Placeholder(EMAIL, m), Placeholder(k, n);
    KeyTail(w);
    hide Placeholder;
    assert forall i :: 0 < i < |w| ==> w[i] == w[1..][i - 1];
    assert DiffersAt(w, key, 0, 1);
  }

  /** Two framed texts that differ do so within both. */
  lemma FramedDiffer(a: string, b: string) returns (l: nat)
    requires Framed(a) && Framed(b) && a != b
    ensures l < |a| && l < |b| && a[l] != b[l]
  {
    if forall i :: 0 <= i < |a| && i < |b| ==> a[i] == b[i] {
      assert a <= b || b <= a;
      FramedPrefix(a, b, if a <= b then b else a);
      assert false;
    }
    l :| l < |a| && l < |b| && a[l] != b[l];
  }

  lemma PassDiffers(cc: Classes, t: string, k: Kind, w: string)
    requires w == Placeholder(EMAIL, PhoneLike()) && k != EMAIL
    ensures AllDiffer(w, PassOf(cc, t, k).items)
  {
    hide PassOf, Differs, Framed, Placeholder, Matched, PhoneLike;
    PassOfNumbered(cc, t, k);
    var items := PassOf(cc, t, k).items;
    forall x | x in items ensures Framed(x.key) && Differs(w, x.key) {
      var i: nat :| i < |items| && items[i] == x;
      assert x.key == Placeholder(k, 0 + 1 + i);
      EmailDiffers(cc, k, i + 1, PhoneLike());
    }
  }

  lemma BrokenPassDiffers(cc: Classes, t: string, k: Kind, j: nat, n: nat)
    requires (k == EMAIL && n == |PassOf(cc, t, k).items|) || (k == PHONE && n < j && n <= |PassOf(cc, t, k).items|)
    ensures AllDiffer(Broken(j), PassOf(cc, t, k).items[..n])
  {
    hide PassOf, Differs, Framed, Placeholder, Matched, Broken;
    PassOfNumbered(cc, t, k);
    var items := PassOf(cc, t, k).items;
    forall x | x in items[..n] ensures Framed(x.key) && Differs(Broken(j), x.key) {
      var i: nat :| i < n && items[i] == x;
      assert x.key == Placeholder(k, 0 + 1 + i);
      BrokenDiffers(cc, j, k, i + 1);
    }
  }

  /** No such key begins at a '<' that is followed by another one first. */
  lemma NoKeyAround(key: string, w: string, p: string, y: string)
    requires Framed(key) && p != "" && p[0] == '<' && '<' !in w && '>' !in w
    ensures !(key <= Around(w, p, y))
  {
    var t := Around(w, p, y);
    assert t[|w| + 1] == '<' && forall j :: 0 < j <= |w| ==> t[j] == w[j - 1];
    KeyTail(key);
    assert |key| > |w| + 1 ==> key[|w| + 1] == key[1..][|w|];
  }

  lemma ReplaceAround(key: string, v: string, w: string, y: string)
    requires Framed(key) && '<' !in w && '>' !in w
    ensures Replace(Around(w, key, y), key, v) == ['<'] + (w + (v + Replace(y, key, v)))
  {
    var t := Around(w, key, y);
    NoKeyAround(key, w, key, y);
    hide Replace;
    ReplaceHead(t, key, v);
    assert t[1..] == w + (key + y);
    ReplacePlain(w, key + y, key, v);
    ReplaceFront(key, y, v);
  }

  lemma ReplaceFirst(s: string, key: string, v: string, w: string, y: string, rest: string)
    requires Framed(key) && '<' !in w && '>' !in w && '<' !in y && s == Around(w, key, y) + rest
    ensures Infix(Around(w, v, y), Replace(s, key, v))
  {
    hide Replace, Infix, Framed;
    assert s == Around(w, key, y + rest);
    ReplaceAround(key, v, w, y + rest);
    ReplacePlain(y, rest, key, v);
    var x := Replace(rest, key, v);
    assert ['<'] + (w + (v + (y + x))) == Around(w, v, y) + x;
    PrefixInfix(Around(w, v, y), Around(w, v, y) + x);
  }

  /** Replacing the key inside such a piece, wherever the piece stands. */
  lemma {:induction false} ReplaceInside(s: string, key: string, v: string, w: string, y: string, p: nat)
    requires Framed(key) && '<' !in w && '>' !in w && '<' !in y && InfixAt(Around(w, key, y), s, p)
    ensures Infix(Around(w, v, y), Replace(s, key, v))
    decreases |s|
  {
    hide Infix;
    var u := Around(w, key, y);
    if p == 0 {
      ReplaceFirst(s, key, v, w, y, s[|u|..]);
    } else {
      assert s[p] == u[0] == '<';
      hide Around, Plain;
      if key <= s {
        KeyTail(key);
        assert forall j :: 0 < j < |key| ==> s[j] == key[1..][j - 1] != '<';
        var rest := s[|key|..];
        assert rest[p - |key|..p - |key| + |u|] == s[p..p + |u|];
        ReplaceInside(rest, key, v, w, y, p - |key|);
        InfixAfter(Around(w, v, y), v, Replace(rest, key, v));
      } else {
        assert s[1..][p - 1..p - 1 + |u|] == s[p..p + |u|];
        ReplaceInside(s[1..], key, v, w, y, p - 1);
        InfixAfter(Around(w, v, y), [s[0]], Replace(s[1..], key, v));
      }
    }
  }

  /** Unmasking in the order of the mapping leaves the placeholder whole. */
  lemma BrokenIsLeft(cc: Classes, t: string)
    requires |AfterEmail(cc, t).items| >= PhoneLike()
    ensures Infix(Placeholder(EMAIL, PhoneLike()), Unmask(Mask(cc, t).text, Mask(cc, t).items))
  {
    var j := MaskIsBroken(cc, t);
    hide PhoneLike, Placeholder, Broken, Decimal, Infix, Unmask, AllDiffer, Sub;
    var w := Placeholder(EMAIL, PhoneLike());
    var e, p, o, n := AfterEmail(cc, t).items, AfterPhone(cc, t).items, AfterOgrn(cc, t).items, AfterInn(cc, t).items;
    BrokenPassDiffers(cc, t, EMAIL, j, |e|);
    BrokenPassDiffers(cc, t, PHONE, j, j - 1);
    PassDiffers(cc, t, PHONE, w);
    PassDiffers(cc, t, OGRN, w);
    PassDiffers(cc, t, INN, w);
    assert e[..|e|] == e;
    LeavesWhole(cc, Mask(cc, t).text, e, p, o, n, j);
  }

  lemma LeavesWhole(cc: Classes, s: string, e: seq<Item>, p: seq<Item>, o: seq<Item>, n: seq<Item>, j: nat)
    requires 0 < j <= |p| && p[j - 1] == Item(Placeholder(PHONE, j), Decimal(PhoneLike()))
    requires Infix(Broken(j), s) && AllDiffer(Broken(j), e) && AllDiffer(Broken(j), p[..j - 1])
    requires var w := Placeholder(EMAIL, PhoneLike()); AllDiffer(w, p) && AllDiffer(w, o) && AllDiffer(w, n)
    ensures Infix(Placeholder(EMAIL, PhoneLike()), Unmask(s, e + p + o + n))
  {
    var w := Placeholder(EMAIL, PhoneLike());
    PlaceholderFramed(cc, EMAIL, PhoneLike());
    PhoneLikeEmail();
    var s1 := Unmask(s, e);
    hide AllDiffer, Infix, Unmask, Replace, Placeholder, Decimal, PhoneLike, Broken;
    UnmaskAppend(s, e + p + o, n);
    UnmaskAppend(s, e + p, o);
    UnmaskAppend(s, e, p);
    BrokenFront(j);
    UnmaskKeeps(s, e, Broken(j));
    AllDifferTail(w, p, j);
    assert p == p[..j - 1] + ([p[j - 1]] + p[j..]);
    PhonesMend(cc, s1, p[..j - 1], j, Decimal(PhoneLike()), p[j..], w);
    UnmaskKeeps(Unmask(s1, p), o, w);
    UnmaskKeeps(Unmask(Unmask(s1, p), o), n, w);
  }

  lemma BrokenFront(j: nat)
    ensures Broken(j) != "" && Broken(j)[0] == '<'
  {
    hide Placeholder;
  }

  /** The phone entry with that number mends it ... */
  lemma PhoneMends(cc: Classes, s: string, j: nat, d: string)
    requires Infix(Broken(j), s)
    ensures Infix(Around("EMAIL_", d, ">"), Replace(s, Placeholder(PHONE, j), d))
  {
    PlaceholderFramed(cc, PHONE, j);
    hide Infix, Replace, Placeholder, Framed;
    var at := InfixPlace(Broken(j), s);
    ReplaceInside(s, Placeholder(PHONE, j), d, "EMAIL_", ">", at);
  }

  /** ... and the others leave it alone. */
  lemma PhonesMend(cc: Classes, s: string, before: seq<Item>, j: nat, d: string, after: seq<Item>, w: string)
    requires w == Around("EMAIL_", d, ">")
    requires Infix(Broken(j), s) && AllDiffer(Broken(j), before) && AllDiffer(w, after)
    ensures Infix(w, Unmask(s, before + ([Item(Placeholder(PHONE, j), d)] + after)))
  {
    BrokenFront(j);
    assert w != "" && w[0] == '<';
    hide *;
    UnmaskAround(s, before, Item(Placeholder(PHONE, j), d), after);
    UnmaskKeeps(s, before, Broken(j));
    PhoneMends(cc, Unmask(s, before), j, d);
    UnmaskKeeps(Replace(Unmask(s, before), Placeholder(PHONE, j), d), after, w);
  }

  lemma UnmaskAround(s: string, before: seq<Item>, x: Item, after: seq<Item>)
    ensures Unmask(s, before + ([x] + after)) == Unmask(Replace(Unmask(s, before), x.key, x.value), after)
  {
    UnmaskAppend(s, before, [x] + after);
    assert ([x] + after)[1..] == after;
  }

  lemma AllDifferTail(w: string, items: seq<Item>, j: nat)
    requires j <= |items| && AllDiffer(w, items)
    ensures AllDiffer(w, items[j..])
  {
    forall x | x in items[j..] ensures x in items {}
  }

  /** The central law in the order of the mapping: a text that spells none of
      its placeholders survives exactly when it has fewer than 80000000000 e-mail
      addresses. */
  lemma SurvivesIff(cc: Classes, t: string)
    requires !Collides(cc, t)
    ensures Unmask(Mask(cc, t).text, Mask(cc, t).items) == t <==> |AfterEmail(cc, t).items| < PhoneLike()
  {
    MaskDistinct(cc, t);
    assert Lists(cc, t, Mask(cc, t).items);
    hide Mask, Unmask, PhoneLike, Infix;
    if |AfterEmail(cc, t).items| < PhoneLike() {
      Survives(cc, t, Mask(cc, t).items);
    } else {
      BrokenIsLeft(cc, t);
      EmailKeyIssued(cc, t, PhoneLike()) by { Powers(); }
    }
  }

  lemma EmailKeyIssued(cc: Classes, t: string, n: nat)
    requires 0 < n <= |AfterEmail(cc, t).items|
    ensures Placeholder(EMAIL, n) in Mapping(cc, t)
  {
    hide AfterEmail, AfterPhone, AfterOgrn, AfterInn, Placeholder, Matched, Mask, Mapping;
    PassOfNumbered(cc, t, EMAIL);
    MappingGood(cc, t);
    RecordedPart(cc, t, EMAIL, Mapping(cc, t));
    assert PassOf(cc, t, EMAIL).items[n - 1].key == Placeholder(EMAIL, 0 + 1 + (n - 1));
  }

  /** In particular this holds of every text without '<'. */
  lemma RoundTripPlain(cc: Classes, t: string)
    requires '<' !in t
    ensures Unmask(Mask(cc, t).text, Mask(cc, t).items) == t <==> |AfterEmail(cc, t).items| < PhoneLike()
  {
    hide Mask, Unmask, AfterEmail, PhoneLike, Collides;
    PlainTextIsApart(cc, t);
    SurvivesIff(cc, t);
  }

  // ---- The order of the replacements ---------------------------------------

  /** A list of the entries of a mapping. */
  lemma {:induction false} Listing(m: map<string, string>) returns (items: seq<Item>)
    ensures Distinct(items) && AsMap(items) == m
    decreases |m|
  {
    if m == map[] { return []; }
    var key :| key in m;
    var rest := Listing(m - {key});
    items := FirstThen(m, key, rest);
  }

  lemma FirstThen(m: map<string, string>, key: string, rest: seq<Item>) returns (items: seq<Item>)
    requires key in m && Distinct(rest) && AsMap(rest) == m - {key}
    ensures items == [Item(key, m[key])] + rest && Distinct(items) && AsMap(items) == m
  {
    items := [Item(key, m[key])] + rest;
    assert items[1..] == rest;
    forall j | 0 < j < |items| ensures items[j].key != key {
      AsMapAt(rest, j - 1);
      assert items[j] == rest[j - 1];
    }
    assert (m - {key})[key := m[key]] == m;
  }

  /** A value inside another key, and what stands around it there. */
  lemma CompletedText(v: string, other: string) returns (w: string, y: string)
    requires Framed(other) && Infix(v, other) && v != "" && Plain(v)
    ensures other == Around(w, v, y) && '<' !in w && '>' !in w && '<' !in y
  {
    var i := InfixPlace(v, other);
    assert forall j :: 0 <= j < |v| ==> v[j] == other[i + j];
    assert i > 0;
    w, y := other[1..i], other[i + |v|..];
    KeyTail(other);
    assert forall j :: 0 <= j < |y| ==> y[j] == other[1..][i + |v| - 1 + j];
    assert forall j :: 0 <= j < |w| ==> w[j] == other[1..|other| - 1][j];
    assert other == ['<'] + (w + (v + y));
  }

  /** No key begins at such a '<'. */
  lemma NotTheToken(m: map<string, string>, key: string, w: string, y: string)
    requires Good(m) && Framed(key) && '<' !in w && '>' !in w
    ensures forall k :: k in m ==> !(k <= Around(w, key, y))
  {
    forall k | k in m ensures !(k <= Around(w, key, y)) {
      GoodKey(m, k);
      NoKeyAround(k, w, key, y);
    }
  }

  /** Restoring such a text forms the other key without replacing it. */
  lemma RestoreCompletes(m: map<string, string>, key: string, w: string, y: string)
    requires Good(m) && key in m && '<' !in w && '>' !in w && '<' !in y
    ensures Restore(Around(w, key, y), m) == Around(w, m[key], y)
  {
    var t := Around(w, key, y);
    NotTheToken(m, key, w, y);
    hide Restore, Good;
    RestoreChar(t, m);
    assert t[1..] == w + (key + y);
    RestorePlain(w, key + y, m);
    RestoreKey(key, y, m);
    RestorePlain(y, "", m);
    RestoreNil(m);
    assert y + "" == y;
  }

  lemma RestoreNil(m: map<string, string>)
    ensures Restore("", m) == ""
  {
  }

  /** Replacing the one entry forms the other key ... */
  lemma ReplaceForms(m: map<string, string>, key: string, w: string, y: string)
    requires Good(m) && key in m && '<' !in w && '>' !in w && '<' !in y
    ensures Replace(Around(w, key, y), key, m[key]) == Around(w, m[key], y)
  {
    GoodKey(m, key);
    hide Replace, Good;
    ReplaceAround(key, m[key], w, y);
    ReplacePlain(y, "", key, m[key]);
    ReplaceFront(key, "", m[key]);
    assert y + "" == y;
  }

  /** ... which is then replaced as well. */
  lemma ReplaceWhole(key: string, v: string)
    requires key != ""
    ensures Replace(key, key, v) == v
  {
    hide Replace;
    ReplaceFront(key, "", v);
    assert key + "" == key && v + "" == v;
  }

  lemma ReplaceFront(key: string, y: string, v: string)
    requires key != ""
    ensures Replace(key + y, key, v) == v + Replace(y, key, v) && Replace("", key, v) == ""
  {
    assert (key + y)[|key|..] == y;
  }

  lemma {:induction false} UnmaskPlain(v: string, items: seq<Item>)
    requires '<' !in v && forall x :: x in items ==> Framed(x.key)
    ensures Unmask(v, items) == v
  {
    if items != [] {
      assert items[0] in items;
      ReplacePlain(v, "", items[0].key, items[0].value);
      ReplaceFront(items[0].key, "", items[0].value);
      assert v + "" == v;
      UnmaskPlain(v, items[1..]);
    }
  }

  /** Sequential and simultaneous replacement agree on this text in this order. */
  ghost predicate Agrees(m: map<string, string>, reply: string, order: seq<Item>)
  {
    Unmask(reply, order) == Restore(reply, m)
  }

  lemma OrderMatters(m: map<string, string>, key: string, other: string) returns (reply: string, order: seq<Item>)
    requires Good(m) && key in m && other in m && key != other && m[key] != "" && Infix(m[key], other)
    ensures Distinct(order) && AsMap(order) == m
    ensures !Agrees(m, reply, order)
  {
    hide Infix, Restore, Replace;
    var w, y := CompletedText(m[key], other);
    reply := Around(w, key, y);
    var m1 := m - {key};
    var rest := Listing(m1 - {other});
    var tail := FirstThen(m1, other, rest);
    order := FirstThen(m, key, tail);
    forall e | e in order ensures e.key in m && Framed(e.key) {
      var j :| 0 <= j < |order| && order[j] == e;
      AsMapAt(order, j);
    }
    RestoreCompletes(m, key, w, y);
    ReplaceForms(m, key, w, y);
    ReplaceWhole(other, m[other]);
    GoodKey(m, other);
    assert forall e :: e in rest ==> e in order;
    UnmaskPlain(m[other], rest);
    assert order[1..] == tail && tail[1..] == rest && order[0] == Item(key, m[key]) && tail[0] == Item(other, m[other]);
    assert Unmask(reply, order) == Unmask(Replace(reply, key, m[key]), tail);
    assert Unmask(reply, order) == m[other];
    assert other[0] == '<';
  }

  /** The entries may be replaced in any order in any text exactly when no
      value occurs inside another entry's key. */
  lemma OrderIsIrrelevantIff(cc: Classes, t: string)
    ensures Apart(Mapping(cc, t)) <==>
            forall reply: string, order: seq<Item> | Lists(cc, t, order) ::
              Agrees(Mapping(cc, t), reply, order)
  {
    var m := Mapping(cc, t);
    MappingGood(cc, t);
    if Apart(m) {
      forall reply: string, order: seq<Item> | Lists(cc, t, order)
        ensures Agrees(m, reply, order)
      {
        UnmaskAnyOrder(cc, t, order, reply);
      }
    } else {
      hide Infix, Mapping;
      var key :| key in m && !Outside(m[key], m - {key});
      var other :| other in m - {key} && Infix(m[key], other);
      ValuesNonEmpty(cc, t, key);
      var reply, order := OrderMatters(m, key, other);
      assert Lists(cc, t, order);
    }
  }

  lemma ValuesNonEmpty(cc: Classes, t: string, key: string)
    requires key in Mapping(cc, t)
    ensures Mapping(cc, t)[key] != ""
  {
    hide Mapping, Matched, Placeholder, PassOf;
    var k, n := MappingAt(cc, t, key);
    MatchedFacts(cc, k, Mapping(cc, t)[key]);
  }
}
