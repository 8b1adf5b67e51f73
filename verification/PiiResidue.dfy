/** Nothing that a pattern recognises survives masking, so a second masking
    finds nothing to do. */
module PiiResidue {
  import opened Regex
  import opened Text
  import opened PiiPatterns
  import opened PiiMasker

  /** Cutting the text at a creates no new word boundary. */
  ghost predicate Cut(cc: Classes, t: string, a: nat) {
    !(WordBefore(cc, t, a) && WordAt(cc, t, a))
  }

  lemma StopIsNoWord(cc: Classes, c: char)
    requires Stop(c)
    ensures !cc.word(c) && !cc.digit(c)
  {
    assert c in "<>@+-.()";
  }

  lemma PieceKeepsEdges(cc: Classes, t: string, a: nat, b: nat, i: nat, n: nat)
    requires a <= b <= |t| && i + n <= b - a && Cut(cc, t, a) && Cut(cc, t, b)
    ensures KeepsEdges(cc, t[a..b], i, t, a + i, n)
  {
    var x := t[a..b];
    forall p: nat | i <= p <= i + n && Boundary(cc, x, p) ensures Boundary(cc, t, p - i + (a + i)) {}
  }

  /** A match inside a piece of the text is a match of the text. */
  lemma SpanInPiece(cc: Classes, k: Kind, t: string, a: nat, b: nat, i: nat, e: nat)
    requires a <= b <= |t| && Span(cc, k, t[a..b], i, e)
    requires k == PHONE || (Cut(cc, t, a) && Cut(cc, t, b))
    ensures Span(cc, k, t, a + i, a + e)
  {
    hide Lang, KeepsEdges, Cut, Boundary, Pattern, NoEdge;
    if k == PHONE { PhoneFacts(cc); } else { PieceKeepsEdges(cc, t, a, b, i, e - i); }
    LangMove(cc, Pattern(k), t[a..b], i, t, a + i, e - i);
  }

  lemma SidesKeepEdges(cc: Classes, t: string, p: nat, i: nat, n: nat)
    requires p < |t| && !cc.word(t[p]) && i + n <= |t|
    ensures i + n <= p ==> KeepsEdges(cc, t, i, t[..p], i, n)
    ensures i > p ==> KeepsEdges(cc, t, i, t[p + 1..], i - p - 1, n)
  {
  }

  /** A match of the text lies on one side of a framing character. */
  lemma SpanOnOneSide(cc: Classes, k: Kind, t: string, p: nat, i: nat, e: nat)
    requires p < |t| && Stop(t[p]) && Span(cc, k, t, i, e)
    ensures Span(cc, k, t[..p], i, e) || (i > p && Span(cc, k, t[p + 1..], i - p - 1, e - p - 1))
  {
    hide Lang, KeepsEdges, Boundary, Pattern, Stop;
    StopIsNoWord(cc, t[p]);
    SpanFacts(cc, k, t, i, e);
    SidesKeepEdges(cc, t, p, i, e - i);
    if e <= p {
      LangMove(cc, Pattern(k), t, i, t[..p], i, e - i);
    } else {
      assert i > p;
      LangMove(cc, Pattern(k), t, i, t[p + 1..], i - p - 1, e - i);
    }
  }

  lemma StopCuts(cc: Classes, t: string, p: nat)
    requires p < |t| && Stop(t[p])
    ensures Cut(cc, t, 0) && Cut(cc, t, p) && Cut(cc, t, p + 1) && Cut(cc, t, |t|)
  {
    StopIsNoWord(cc, t[p]);
  }

  /** A framing character separates the text into two independent parts. */
  lemma FreeAroundStop(cc: Classes, k: Kind, t: string, p: nat)
    requires p < |t| && Stop(t[p])
    ensures Free(cc, k, t) <==> Free(cc, k, t[..p]) && Free(cc, k, t[p + 1..])
  {
    hide Span, Cut, Stop;
    StopCuts(cc, t, p);
    assert t[..p] == t[0..p] && t[p + 1..] == t[p + 1..|t|];
    if Free(cc, k, t) {
      PieceFree(cc, k, k, t, 0, p);
      PieceFree(cc, k, k, t, p + 1, |t|);
    }
    forall i: nat, e: nat | Span(cc, k, t, i, e)
      ensures Span(cc, k, t[..p], i, e) || (i > p && e > p && Span(cc, k, t[p + 1..], i - p - 1, e - p - 1))
    {
      SpanOnOneSide(cc, k, t, p, i, e);
      SpanIsMatch(cc, k, t, i, e);
    }
  }

  lemma SpanIsMatch(cc: Classes, k: Kind, t: string, i: nat, e: nat)
    requires Span(cc, k, t, i, e)
    ensures i <= e <= |t| && !Free(cc, k, t)
  {
  }

  lemma FreeAroundPlaceholder(cc: Classes, q: Kind, x: string, k: Kind, n: nat, y: string)
    requires Free(cc, q, x) && Free(cc, q, y) && Free(cc, q, Body(k, n))
    ensures Free(cc, q, x + Placeholder(k, n) + y)
  {
    hide Lang;
    hide Body;
    var b := Body(k, n);
    var t := x + Placeholder(k, n) + y;
    var u := b + ">" + y;
    FreeAroundStop(cc, q, u, |b|);
    assert u[..|b|] == b && u[|b| + 1..] == y;
    FreeAroundStop(cc, q, t, |x|);
    assert t[..|x|] == x && t[|x| + 1..] == u;
  }

  /** The least number that is itself a phone number: an eight and ten zeros. */
  ghost function PhoneLike(): nat { 8 * Pow10(10) }

  /** The inside of a placeholder attracts no pattern, until its number looks
      like a phone number. */
  lemma FreeBody(cc: Classes, q: Kind, k: Kind, n: nat)
    requires q == PHONE ==> n < PhoneLike()
    ensures Free(cc, q, Body(k, n))
  {
    hide Lang, Pow10;
    var b := Body(k, n);
    var m := |Name(k)|;
    forall i: nat, e: nat | Span(cc, q, b, i, e) ensures false {
      SpanFacts(cc, q, b, i, e);
      NameChars(cc, k);
      if q == EMAIL {
        var a, d := EmailLang(cc, b, i, e);
      } else {
        SpanStart(cc, q, b, i, e);
        assert b[m] == '_';
        assert forall j :: 0 <= j < m ==> b[j] == Name(k)[j];
        if q == PHONE {
          assert b[m + 1] == Decimal(n)[0];
          BelowPhoneLike(n);
        }
      }
    }
  }

  lemma BelowPhoneLike(n: nat)
    requires n < PhoneLike()
    ensures |Decimal(n)| <= 11 && (|Decimal(n)| == 11 ==> Decimal(n)[0] != '8')
  {
    DecimalLength(n, 11);
    assert Pow10(11) == 10 * Pow10(10);
    if |Decimal(n)| == 11 && Decimal(n)[0] == '8' { LeadingEight(n, 10); }
  }

  lemma NameChars(cc: Classes, k: Kind)
    ensures forall j :: 0 <= j < |Name(k)| ==> 'A' <= Name(k)[j] <= 'Z' && !cc.digit(Name(k)[j])
  {
  }

  /** Any e-mail shape with a word character in its local part sits inside a
      proper match: extend it to the left up to a boundary ... */
  lemma {:induction false} EmailLeft(cc: Classes, t: string, i: nat, a: nat, d: nat, e: nat) returns (i': nat)
    requires Email(cc, t, i, a, d, e) && cc.word(t[i])
    ensures Email(cc, t, i', a, d, e) && Boundary(cc, t, i')
    decreases i
  {
    if WordBefore(cc, t, i) {
      i' := EmailLeft(cc, t, i - 1, a, d, e);
    } else {
      i' := i;
    }
  }

  /** ... and to the right. */
  lemma {:induction false} EmailRight(cc: Classes, t: string, i: nat, a: nat, d: nat, e: nat) returns (e': nat)
    requires Email(cc, t, i, a, d, e)
    ensures Email(cc, t, i, a, d, e') && Boundary(cc, t, e')
    decreases |t| - e
  {
    assert In(cc, WORD, t[e - 1]);
    if WordAt(cc, t, e) {
      e' := EmailRight(cc, t, i, a, d, e + 1);
    } else {
      e' := e;
    }
  }

  /** The local part of a match has, or follows, a word character. */
  lemma EmailStart(cc: Classes, x: string, i: nat, at: nat, d: nat, e: nat) returns (s: nat)
    requires Email(cc, x, i, at, d, e) && Boundary(cc, x, i)
    ensures Email(cc, x, s, at, d, e) && cc.word(x[s])
  {
    s := if cc.word(x[i]) then i else i - 1;
    forall j | s <= j < at ensures In(cc, LOCAL, x[j]) {}
  }

  /** A text without e-mail addresses has none in any of its pieces, however it is cut. */
  lemma EmailFreePiece(cc: Classes, t: string, a: nat, b: nat)
    requires a <= b <= |t| && Free(cc, EMAIL, t)
    ensures Free(cc, EMAIL, t[a..b])
  {
    hide Lang, Email, In, Boundary;
    var x := t[a..b];
    forall i: nat, e: nat | Span(cc, EMAIL, x, i, e) ensures false {
      var at, d := EmailLang(cc, x, i, e);
      var s := EmailStart(cc, x, i, at, d, e);
      EmailShift(cc, t, a, b, s, at, d, e);
      var l := EmailLeft(cc, t, a + s, a + at, a + d, a + e);
      var r := EmailRight(cc, t, l, a + at, a + d, a + e);
      EmailLangBack(cc, t, l, a + at, a + d, r);
    }
  }

  lemma EmailShift(cc: Classes, t: string, a: nat, b: nat, i: nat, at: nat, d: nat, e: nat)
    requires a <= b <= |t| && Email(cc, t[a..b], i, at, d, e)
    ensures Email(cc, t, a + i, a + at, a + d, a + e)
  {
    var x := t[a..b];
    forall j | 0 <= j < |x| ensures t[a + j] == x[j] {}
    forall j | a + i <= j < a + at ensures In(cc, LOCAL, t[j]) { assert In(cc, LOCAL, x[j - a]); }
    forall j | a + at < j < a + d ensures In(cc, DOMAIN, t[j]) { assert In(cc, DOMAIN, x[j - a]); }
    forall j | a + d < j < a + e ensures In(cc, WORD, t[j]) { assert In(cc, WORD, x[j - a]); }
  }

  /** Matches of the patterns that are guarded by \b end at clean cuts. */
  lemma SpanCuts(cc: Classes, k: Kind, t: string, i: nat, e: nat)
    requires k != PHONE && Span(cc, k, t, i, e)
    ensures Cut(cc, t, i) && Cut(cc, t, e)
  {
    hide Lang;
    match k
    case EMAIL => var a, d := EmailLang(cc, t, i, e);
    case OGRN => DigitWordCuts(cc, 13, 15, t, i, e);
    case INN => DigitWordCuts(cc, 10, 12, t, i, e);
  }

  lemma DigitWordCuts(cc: Classes, m: nat, n: nat, t: string, i: nat, e: nat)
    requires m > 0 && n > 0 && i <= e <= |t| && Lang(cc, Alt(DigitWord(m), DigitWord(n)), t, i, e)
    ensures Cut(cc, t, i) && Cut(cc, t, e)
  {
    DigitWordLang(cc, t, m, i, e);
    DigitWordLang(cc, t, n, i, e);
  }

  /** Kind q does not come after kind k in the order of the passes. */
  predicate NotAfter(q: Kind, k: Kind) {
    q == k || q == EMAIL || k == INN || (q == PHONE && k == OGRN)
  }

  /** What the text must satisfy for a pass of kind k to leave no match of q:
      either q is the kind just substituted, or the text had none to begin with. */
  ghost predicate Swept(cc: Classes, q: Kind, k: Kind, t: string, a: nat, b: nat) {
    if q == k then forall i: nat, e: nat :: a <= i < b ==> !Span(cc, k, t, i, e)
    else Free(cc, q, t)
  }

  lemma PieceFree(cc: Classes, q: Kind, k: Kind, t: string, a: nat, b: nat)
    requires a <= b <= |t| && NotAfter(q, k) && Swept(cc, q, k, t, a, b)
    requires k == PHONE || (Cut(cc, t, a) && Cut(cc, t, b))
    ensures Free(cc, q, t[a..b])
  {
    hide Lang;
    if q == EMAIL && k == PHONE {
      EmailFreePiece(cc, t, a, b);
    } else {
      forall i: nat, e: nat | Span(cc, q, t[a..b], i, e) ensures false {
        SpanFacts(cc, q, t[a..b], i, e);
        SpanInPiece(cc, q, t, a, b, i, e);
      }
    }
  }

  lemma SweptStep(cc: Classes, q: Kind, k: Kind, t: string, a: nat, i: nat)
    requires a <= i < |t| && Swept(cc, q, k, t, a, i)
    ensures Found(cc, k, t, i).None? ==> Swept(cc, q, k, t, a, i + 1)
    ensures Found(cc, k, t, i).Some? ==>
              var e := Found(cc, k, t, i).value; Span(cc, k, t, i, e) && i < e <= |t| && Swept(cc, q, k, t, e, e)
  {
    hide Span, Free;
    if Found(cc, k, t, i).Some? { SpanIsMatch(cc, k, t, i, Found(cc, k, t, i).value); }
  }

  /** The pass of kind k, resumed at i with t[a..i] already copied, leaves no match of q. */
  lemma {:induction false} PassFree(cc: Classes, q: Kind, k: Kind, t: string, a: nat, i: nat, n: nat)
    requires a <= i <= |t| && NotAfter(q, k) && Swept(cc, q, k, t, a, i)
    requires k == PHONE || Cut(cc, t, a)
    requires q == PHONE ==> n + |Pass(cc, k, t, i, n).items| < PhoneLike()
    ensures Free(cc, q, t[a..i] + Pass(cc, k, t, i, n).text)
    decreases |t| - i
  {
    hide Lang, Found, Body, Placeholder, Pass, Free, Span, Swept, NotAfter, Cut, PhoneLike;
    if i == |t| {
      EndCut(cc, t);
      PieceFree(cc, q, k, t, a, i);
      PassEnd(cc, k, t, n);
      assert t[a..i] + "" == t[a..i];
    } else {
      PassStep(cc, k, t, i, n);
      SweptStep(cc, q, k, t, a, i);
      var f := Found(cc, k, t, i);
      if f.Some? {
        var e := f.value;
        if k != PHONE { SpanCuts(cc, k, t, i, e); }
        PieceFree(cc, q, k, t, a, i);
        PassFree(cc, q, k, t, e, e, n + 1);
        var rest := Pass(cc, k, t, e, n + 1).text;
        assert t[e..e] + rest == rest;
        FreeBody(cc, q, k, n + 1);
        FreeAroundPlaceholder(cc, q, t[a..i], k, n + 1, rest);
        assert t[a..i] + Pass(cc, k, t, i, n).text == t[a..i] + Placeholder(k, n + 1) + rest;
      } else {
        PassFree(cc, q, k, t, a, i + 1, n);
        assert t[a..i] + Pass(cc, k, t, i, n).text == t[a..i + 1] + Pass(cc, k, t, i + 1, n).text;
      }
    }
  }

  lemma EndCut(cc: Classes, t: string)
    ensures Cut(cc, t, |t|)
  {
  }

  lemma SubFree(cc: Classes, q: Kind, k: Kind, t: string)
    requires NotAfter(q, k) && (q == k || Free(cc, q, t))
    requires q == PHONE ==> |Sub(cc, k, t).items| < PhoneLike()
    ensures Free(cc, q, Sub(cc, k, t).text)
  {
    hide Lang;
    hide Pass;
    PassFree(cc, q, k, t, 0, 0, 0);
    assert t[0..0] + Sub(cc, k, t).text == Sub(cc, k, t).text;
  }

  /** No placeholder of the last three passes is itself a phone number. */
  ghost predicate CountersFit(cc: Classes, t: string) {
    && |AfterPhone(cc, t).items| < PhoneLike()
    && |AfterOgrn(cc, t).items| < PhoneLike()
    && |AfterInn(cc, t).items| < PhoneLike()
  }

  /** No pattern matches anywhere in a masked text; only phone numbers depend on
      the counters. */
  lemma NoResidue(cc: Classes, t: string, masked: string, q: Kind)
    requires masked == Mask(cc, t).text && (q == PHONE ==> CountersFit(cc, t))
    ensures Free(cc, q, masked)
  {
    hide Lang, Sub, PhoneLike;
    var e, p, o := AfterEmail(cc, t).text, AfterPhone(cc, t).text, AfterOgrn(cc, t).text;
    if q == EMAIL { SubFree(cc, q, EMAIL, t); SubFree(cc, q, PHONE, e); }
    if q == PHONE { SubFree(cc, q, PHONE, e); }
    if q != INN { SubFree(cc, q, OGRN, p); }
    SubFree(cc, q, INN, o);
  }

  lemma FreeHere(cc: Classes, k: Kind, t: string, i: nat)
    requires i < |t| && Free(cc, k, t)
    ensures Found(cc, k, t, i).None?
  {
    hide Lang, Span;
  }

  lemma {:induction false} FreePass(cc: Classes, k: Kind, t: string, i: nat, n: nat)
    requires i <= |t| && Free(cc, k, t)
    ensures Pass(cc, k, t, i, n) == Masked(t[i..], [])
    decreases |t| - i
  {
    hide Lang, Pass, Found, Free, Span;
    if i < |t| {
      FreeHere(cc, k, t, i);
      PassStep(cc, k, t, i, n);
      FreePass(cc, k, t, i + 1, n);
      assert t[i..] == [t[i]] + t[i + 1..];
    } else {
      PassEnd(cc, k, t, n);
    }
  }

  lemma FreeMask(cc: Classes, t: string)
    requires forall k :: Free(cc, k, t)
    ensures Mask(cc, t) == Masked(t, [])
  {
    hide Lang;
    FreePass(cc, EMAIL, t, 0, 0);
    FreePass(cc, PHONE, t, 0, 0);
    FreePass(cc, OGRN, t, 0, 0);
    FreePass(cc, INN, t, 0, 0);
    assert t[0..] == t;
  }

  /** Masking a masked text changes nothing and records nothing. */
  lemma MaskIdempotent(cc: Classes, t: string, masked: string)
    requires CountersFit(cc, t) && masked == Mask(cc, t).text
    ensures Mask(cc, masked) == Masked(masked, [])
  {
    hide Lang;
    hide Mask;
    forall q ensures Free(cc, q, masked) { NoResidue(cc, t, masked, q); }
    FreeMask(cc, masked);
  }

  /** No all-digit word of length 10, 12, 13 or 15 is left. */
  lemma NoDigitWord(cc: Classes, t: string, i: nat, e: nat)
    requires i <= e <= |Mask(cc, t).text| && e - i in {10, 12, 13, 15}
    requires !WordBefore(cc, Mask(cc, t).text, i) && !WordAt(cc, Mask(cc, t).text, e)
    ensures exists j :: i <= j < e && !cc.digit(Mask(cc, t).text[j])
  {
    hide Mask;
    var m := Mask(cc, t).text;
    var k := if e - i in {10, 12} then INN else OGRN;
    NoResidue(cc, t, Mask(cc, t).text, k);
    assert !Span(cc, k, m, i, e);
    DigitWordLang(cc, m, e - i, i, e);
  }
}
