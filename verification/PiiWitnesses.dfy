/** Texts that reach the limits: the failing halves of the exact theorems are
    not empty. */
module PiiWitnesses {
  import opened Options
  import opened Regex
  import opened Text
  import opened PiiPatterns
  import opened PiiMasker
  import opened PiiResidue
  import opened PiiRoundTrip
  import opened PiiTheorems
  import opened PiiLimits

  /** u, n times, each followed by a '>'. */
  function Rows(u: string, n: nat): string {
    if n == 0 then "" else u + (">" + Rows(u, n - 1))
  }

  /** u is matched by k whole, and in no other way from its beginning. */
  ghost predicate Unit(cc: Classes, k: Kind, u: string) {
    u != "" && Span(cc, k, u, 0, |u|) && forall e: nat :: Span(cc, k, u, 0, e) ==> e == |u|
  }

  predicate Clean(pre: string) { pre == "" || Stop(pre[|pre| - 1]) }

  lemma {:induction false} RowsFree(cc: Classes, k: Kind, u: string, n: nat)
    requires Free(cc, k, u)
    ensures Free(cc, k, Rows(u, n))
  {
    hide Free;
    FreeNothing(cc, k);
    if n > 0 {
      var t := Rows(u, n);
      RowsFree(cc, k, u, n - 1);
      FreeAroundStop(cc, k, t, |u|);
      assert t[..|u|] == u && t[|u| + 1..] == Rows(u, n - 1);
    }
  }

  lemma UnitAt(cc: Classes, k: Kind, pre: string, u: string, rest: string, t: string)
    requires Unit(cc, k, u) && Clean(pre) && t == pre + (u + (">" + rest))
    ensures Span(cc, k, t, |pre|, |pre| + |u|)
    ensures forall e: nat :: Span(cc, k, t, |pre|, e) ==> e == |pre| + |u|
  {
    hide Span;
    var i, p := |pre|, |pre| + |u|;
    assert t[p] == '>' && t[i..p] == u;
    StopCuts(cc, t, p);
    if pre != "" { StopCuts(cc, t, i - 1); }
    SpanInPiece(cc, k, t, i, p, 0, |u|);
    forall e: nat | Span(cc, k, t, i, e) ensures e == p {
      var x := t[..p];
      SpanOnOneSide(cc, k, t, p, i, e);
      SpanIsMatch(cc, k, x, i, e);
      if pre == "" {
        assert x == u;
      } else {
        assert x[i - 1] == pre[i - 1] && x[i..] == u;
        SpanOnOneSide(cc, k, x, i - 1, i, e);
        if Span(cc, k, x[..i - 1], i, e) { SpanIsMatch(cc, k, x[..i - 1], i, e); }
      }
    }
  }

  /** A pass of kind k issues one placeholder for every row. */
  lemma {:induction false} RowsPass(cc: Classes, k: Kind, pre: string, u: string, m: nat, n: nat)
    requires Unit(cc, k, u) && Clean(pre)
    ensures var items := Pass(cc, k, pre + Rows(u, m), |pre|, n).items;
            |items| == m && forall j :: 0 <= j < m ==> items[j].value == u
    decreases m
  {
    hide Span, Found, Pass, Placeholder, Unit;
    var t, p := pre + Rows(u, m), |pre| + |u|;
    if m == 0 {
      assert t == pre;
      PassEnd(cc, k, t, n);
    } else {
      UnitAt(cc, k, pre, u, Rows(u, m - 1), t);
      assert Found(cc, k, t, |pre|) == Some(p);
      assert t[p] == '>' && t[|pre|..p] == u;
      NoMatchAtStop(cc, k, t, p);
      PassStep(cc, k, t, |pre|, n);
      PassStep(cc, k, t, p, n + 1);
      var next := pre + u + ">";
      assert t == next + Rows(u, m - 1);
      RowsPass(cc, k, next, u, m - 1, n + 1);
    }
  }

  lemma RowsSub(cc: Classes, k: Kind, u: string, n: nat)
    requires Unit(cc, k, u)
    ensures var items := Sub(cc, k, Rows(u, n)).items; |items| == n && forall j :: 0 <= j < n ==> items[j].value == u
  {
    hide Pass, Unit;
    RowsPass(cc, k, "", u, n, 0);
    assert "" + Rows(u, n) == Rows(u, n);
  }

  // ---- Rows of INNs --------------------------------------------------------

  lemma InnIsUnit(cc: Classes, u: string)
    requires TenDigits(u)
    ensures Unit(cc, INN, u)
  {
    hide Span;
    TenDigitsAreInn(cc, u);
    forall e: nat | Span(cc, INN, u, 0, e) ensures e == |u| {
      SpanIsMatch(cc, INN, u, 0, e);
      SpanFacts(cc, INN, u, 0, e);
    }
  }

  /** The first three passes leave them alone, the fourth masks them all. */
  lemma InnRows(cc: Classes, u: string, n: nat)
    requires TenDigits(u)
    ensures AfterEmail(cc, Rows(u, n)).items == AfterPhone(cc, Rows(u, n)).items == []
    ensures AfterOgrn(cc, Rows(u, n)).items == []
    ensures var items := AfterInn(cc, Rows(u, n)).items;
            |items| == n && forall j :: 0 <= j < n ==> items[j].value == u
  {
    hide Free, Pass, Unit;
    var t := Rows(u, n);
    TenDigitsAreInn(cc, u);
    RowsFree(cc, EMAIL, u, n);
    RowsFree(cc, PHONE, u, n);
    RowsFree(cc, OGRN, u, n);
    FreePass(cc, EMAIL, t, 0, 0);
    FreePass(cc, PHONE, t, 0, 0);
    FreePass(cc, OGRN, t, 0, 0);
    assert t[0..] == t;
    InnIsUnit(cc, u);
    RowsSub(cc, INN, u, n);
  }

  /** n INNs in rows are masked without residue, and masking them again changes
      nothing, exactly when n is below 80000000000. */
  lemma InnRowsFit(cc: Classes, u: string, n: nat, masked: string)
    requires TenDigits(u) && masked == Mask(cc, Rows(u, n)).text
    ensures (forall q :: Free(cc, q, masked)) <==> n < PhoneLike()
    ensures Mask(cc, masked) == Masked(masked, []) <==> n < PhoneLike()
  {
    hide Free, Mask, AfterEmail, AfterPhone, AfterOgrn, AfterInn, Pow10;
    InnRows(cc, u, n);
    Powers();
    ResidueIff(cc, Rows(u, n));
    MaskIdempotentIff(cc, Rows(u, n), masked);
  }

  /** In a thousand million rows of the INN 1000000000 it sits inside the last
      key, and the order of the replacements matters. */
  lemma OrderOfRowsMatters(cc: Classes, u: string, n: nat)
    requires n == Pow10(9) && u == Decimal(n)
    ensures !Apart(Mapping(cc, Rows(u, n)))
    ensures exists reply: string, order: seq<Item> ::
              Lists(cc, Rows(u, n), order) && !Agrees(Mapping(cc, Rows(u, n)), reply, order)
  {
    var t := Rows(u, n);
    DecimalLength(n, 9);
    DecimalLength(n, 10);
    Powers();
    hide Decimal, Pow10, Mapping, Agrees, Rows, Lists;
    InnRows(cc, u, n);
    InsideLastKey(cc, t, u, n);
    OrderIsIrrelevantIff(cc, t);
  }

  lemma InsideLastKey(cc: Classes, t: string, u: string, n: nat)
    requires n > 1 && u == Decimal(n) && |AfterInn(cc, t).items| == n && AfterInn(cc, t).items[0].value == u
    ensures !Apart(Mapping(cc, t))
  {
    var m := Mapping(cc, t);
    var items := AfterInn(cc, t).items;
    hide Mapping, Mask, AfterEmail, AfterPhone, AfterOgrn, AfterInn, Placeholder, Decimal, Matched, Apart;
    PassOfNumbered(cc, t, INN);
    MappingGood(cc, t);
    RecordedPart(cc, t, INN, m);
    assert items == PassOf(cc, t, INN).items;
    assert items[0].key == Placeholder(INN, 0 + 1 + 0) && items[n - 1].key == Placeholder(INN, 0 + 1 + (n - 1));
    if items[0].key == items[n - 1].key { PlaceholderInjective(INN, 1, INN, n); }
    InOwnPlaceholder(INN, n);
    NotApart(m, items[0].key, items[n - 1].key);
  }

  lemma InOwnPlaceholder(k: Kind, n: nat)
    ensures Infix(Decimal(n), Placeholder(k, n))
  {
    hide Decimal;
    var front := "<" + Name(k) + "_";
    assert Placeholder(k, n) == front + (Decimal(n) + ">");
    PrefixInfix(Decimal(n), Decimal(n) + ">");
    InfixAfter(Decimal(n), front, Decimal(n) + ">");
  }

  lemma NotApart(m: map<string, string>, key: string, other: string)
    requires key in m && other in m && key != other && Infix(m[key], other)
    ensures !Apart(m)
  {
    assert other in m - {key};
  }

  // ---- Rows of e-mail addresses --------------------------------------------

  lemma EmailIsUnit(cc: Classes)
    ensures Unit(cc, EMAIL, "A@B.C")
  {
    var u := "A@B.C";
    assert In(cc, LOCAL, u[0]) && In(cc, DOMAIN, u[2]) && In(cc, WORD, u[4]);
    assert Email(cc, u, 0, 1, 3, 5);
    assert Boundary(cc, u, 0) && Boundary(cc, u, 5);
    hide Span;
    EmailLangBack(cc, u, 0, 1, 3, 5);
    forall e: nat | Span(cc, EMAIL, u, 0, e) ensures e == 5 {
      var a, d := EmailLang(cc, u, 0, e);
    }
  }

  /** n e-mail addresses in rows survive exactly when n is below 80000000000. */
  lemma EmailRowsSurvive(cc: Classes, n: nat)
    ensures var t := Rows("A@B.C", n);
            Unmask(Mask(cc, t).text, Mask(cc, t).items) == t <==> n < PhoneLike()
  {
    hide Mask, Unmask, PhoneLike, Unit, Sub;
    EmailIsUnit(cc);
    RowsSub(cc, EMAIL, "A@B.C", n);
    RowsPlain("A@B.C", n);
    RoundTripPlain(cc, Rows("A@B.C", n));
  }

  lemma {:induction false} RowsPlain(u: string, n: nat)
    requires '<' !in u
    ensures '<' !in Rows(u, n)
  {
    if n > 0 { RowsPlain(u, n - 1); }
  }
}
