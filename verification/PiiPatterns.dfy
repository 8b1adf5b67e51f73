/** The four patterns of the masker (`llm/pii_masker.py`), written as the
    source writes them, and the few facts about them that the proofs use. */
module PiiPatterns {
  import opened Regex

  datatype Kind = EMAIL | PHONE | OGRN | INN

  const WORD := CharSet(true, false, false, "")
  const DIGIT := CharSet(false, true, false, "")
  const LOCAL := CharSet(true, false, false, ".+-")
  const DOMAIN := CharSet(true, false, false, ".-")
  const OPEN_GAP := CharSet(false, false, true, "-(")
  const CLOSE_GAP := CharSet(false, false, true, "-)")
  const GAP := CharSet(false, false, true, "-")

  function Chr(c: char): Re { Cls(CharSet(false, false, false, [c])) }

  function Plus(s: CharSet, rest: Re): Re { Cat(Cls(s), Cat(Many(s), rest)) }

  /** \d{n} */
  function Digits(n: nat): Re
    requires n > 0
  {
    if n == 1 then Cls(DIGIT) else Cat(Cls(DIGIT), Digits(n - 1))
  }

  /** \b\d{n}\b */
  function DigitWord(n: nat): Re
    requires n > 0
  {
    Cat(Edge, Cat(Digits(n), Edge))
  }

  const DOMAIN_TAIL: Re := Plus(DOMAIN, Cat(Chr('.'), Plus(WORD, Edge)))
  const EMAIL_RE: Re := Cat(Edge, Plus(LOCAL, Cat(Chr('@'), DOMAIN_TAIL)))
  const PREFIX_RE: Re := Alt(Cat(Chr('+'), Chr('7')), Chr('8'))
  const PHONE_TAIL: Re := Cat(Digits(3), Cat(Many(CLOSE_GAP), Cat(Digits(3),
                         Cat(Many(GAP), Cat(Digits(2), Cat(Many(GAP), Digits(2)))))))
  const PHONE_RE: Re := Cat(PREFIX_RE, Cat(Many(OPEN_GAP), PHONE_TAIL))
  const OGRN_RE: Re := Alt(DigitWord(13), DigitWord(15))
  const INN_RE: Re := Alt(DigitWord(10), DigitWord(12))

  function Pattern(k: Kind): Re {
    match k
    case EMAIL => EMAIL_RE
    case PHONE => PHONE_RE
    case OGRN => OGRN_RE
    case INN => INN_RE
  }

  /** The characters that frame a placeholder. */
  predicate Stop(c: char) { c == '<' || c == '>' }

  lemma {:induction false} DigitsFacts(cc: Classes, n: nat)
    requires n > 0
    ensures forall c :: !cc.digit(c) ==> Excludes(cc, Digits(n), c)
    ensures MinLen(Digits(n)) == n && NoEdge(Digits(n))
  {
    if n > 1 { DigitsFacts(cc, n - 1); }
  }

  lemma {:induction false} DigitsLang(cc: Classes, t: string, n: nat, i: nat, e: nat)
    requires n > 0 && i <= e <= |t|
    ensures Lang(cc, Digits(n), t, i, e) <==> e == i + n && forall j :: i <= j < e ==> cc.digit(t[j])
  {
    if n > 1 {
      if Lang(cc, Digits(n), t, i, e) {
        var m: nat :| Mid(i, m, e) && Lang(cc, Cls(DIGIT), t, i, m) && Lang(cc, Digits(n - 1), t, m, e);
        DigitsLang(cc, t, n - 1, m, e);
      }
      if e == i + n && forall j :: i <= j < e ==> cc.digit(t[j]) {
        DigitsLang(cc, t, n - 1, i + 1, e);
        assert Mid(i, i + 1, e) && Lang(cc, Cls(DIGIT), t, i, i + 1);
      }
    }
  }

  /** \b\d{n}\b matches exactly the all-digit words of length n. */
  lemma DigitWordLang(cc: Classes, t: string, n: nat, i: nat, e: nat)
    requires n > 0 && i <= e <= |t|
    ensures Lang(cc, DigitWord(n), t, i, e) <==>
            && e == i + n && (forall j :: i <= j < e ==> cc.digit(t[j]))
            && !WordBefore(cc, t, i) && !WordAt(cc, t, e)
  {
    var core := Cat(Digits(n), Edge);
    if Lang(cc, DigitWord(n), t, i, e) {
      var m: nat :| Mid(i, m, e) && Lang(cc, Edge, t, i, m) && Lang(cc, core, t, m, e);
      var m2: nat :| Mid(m, m2, e) && Lang(cc, Digits(n), t, m, m2) && Lang(cc, Edge, t, m2, e);
      DigitsLang(cc, t, n, m, m2);
      assert cc.digit(t[i]) && cc.digit(t[e - 1]);
    }
    if && e == i + n && (forall j :: i <= j < e ==> cc.digit(t[j]))
       && !WordBefore(cc, t, i) && !WordAt(cc, t, e)
    {
      DigitsLang(cc, t, n, i, e);
      assert cc.digit(t[i]) && cc.digit(t[e - 1]);
      assert Mid(i, e, e) && Lang(cc, Edge, t, e, e);
      assert Lang(cc, core, t, i, e);
      assert Mid(i, i, e) && Lang(cc, Edge, t, i, i);
    }
  }

  lemma StopsAreOutside(cc: Classes, c: char)
    requires Stop(c)
    ensures !In(cc, WORD, c) && !In(cc, DIGIT, c) && !In(cc, LOCAL, c) && !In(cc, DOMAIN, c)
    ensures !In(cc, OPEN_GAP, c) && !In(cc, CLOSE_GAP, c) && !In(cc, GAP, c) && !cc.digit(c)
  {
    assert c in "<>@+-.()";
  }

  lemma DigitWordExcludesStops(cc: Classes, n: nat, c: char)
    requires Stop(c) && n > 0
    ensures Excludes(cc, DigitWord(n), c)
  {
    StopsAreOutside(cc, c);
    DigitsFacts(cc, n);
    assert Excludes(cc, Cat(Digits(n), Edge), c);
  }

  lemma PlusExcludes(cc: Classes, s: CharSet, rest: Re, c: char)
    requires !In(cc, s, c) && Excludes(cc, rest, c)
    ensures Excludes(cc, Plus(s, rest), c)
  {
    assert Excludes(cc, Cat(Many(s), rest), c);
  }

  lemma ChrExcludes(cc: Classes, d: char, c: char)
    requires c != d
    ensures Excludes(cc, Chr(d), c)
  {
    assert c !in [d];
  }

  lemma EmailExcludesStops(cc: Classes, c: char)
    requires Stop(c)
    ensures Excludes(cc, EMAIL_RE, c)
  {
    StopsAreOutside(cc, c);
    PlusExcludes(cc, WORD, Edge, c);
    ChrExcludes(cc, '.', c);
    ChrExcludes(cc, '@', c);
    PlusExcludes(cc, DOMAIN, Cat(Chr('.'), Plus(WORD, Edge)), c);
    PlusExcludes(cc, LOCAL, Cat(Chr('@'), DOMAIN_TAIL), c);
  }

  lemma GapExcludes(cc: Classes, s: CharSet, n: nat, rest: Re, c: char)
    requires n > 0 && Stop(c) && !In(cc, s, c) && Excludes(cc, rest, c)
    ensures Excludes(cc, Cat(Digits(n), Cat(Many(s), rest)), c)
  {
    StopsAreOutside(cc, c);
    DigitsFacts(cc, n);
    assert Excludes(cc, Cat(Many(s), rest), c);
  }

  lemma PhoneExcludesStops(cc: Classes, c: char)
    requires Stop(c)
    ensures Excludes(cc, PHONE_RE, c)
  {
    StopsAreOutside(cc, c);
    DigitsFacts(cc, 2);
    var last := Cat(Digits(2), Cat(Many(GAP), Digits(2)));
    GapExcludes(cc, GAP, 2, Digits(2), c);
    GapExcludes(cc, GAP, 3, last, c);
    GapExcludes(cc, CLOSE_GAP, 3, Cat(Digits(3), Cat(Many(GAP), last)), c);
    assert Excludes(cc, Cat(Many(OPEN_GAP), PHONE_TAIL), c);
    ChrExcludes(cc, '+', c);
    ChrExcludes(cc, '7', c);
    ChrExcludes(cc, '8', c);
    assert Excludes(cc, Cat(Chr('+'), Chr('7')), c);
  }

  lemma PatternExcludesStops(cc: Classes, k: Kind, c: char)
    requires Stop(c)
    ensures Excludes(cc, Pattern(k), c)
  {
    match k
    case EMAIL => EmailExcludesStops(cc, c);
    case PHONE => PhoneExcludesStops(cc, c);
    case OGRN => DigitWordExcludesStops(cc, 13, c); DigitWordExcludesStops(cc, 15, c);
    case INN => DigitWordExcludesStops(cc, 10, c); DigitWordExcludesStops(cc, 12, c);
  }

  const PHONE_MIN := 11

  function MinSpan(k: Kind): nat {
    match k
    case EMAIL => 5
    case PHONE => PHONE_MIN
    case OGRN => 13
    case INN => 10
  }

  lemma PlusMinLen(s: CharSet, rest: Re)
    ensures MinLen(Plus(s, rest)) == 1 + MinLen(rest)
  {
    assert MinLen(Cat(Many(s), rest)) == MinLen(rest);
  }

  lemma DigitWordMinLen(cc: Classes, n: nat)
    requires n > 0
    ensures MinLen(DigitWord(n)) == n
  {
    DigitsFacts(cc, n);
    assert MinLen(Cat(Digits(n), Edge)) == n;
  }

  lemma PhoneFacts(cc: Classes)
    ensures NoEdge(Pattern(PHONE)) && MinLen(Pattern(PHONE)) == PHONE_MIN
  {
    DigitsFacts(cc, 2);
    DigitsFacts(cc, 3);
    var two, three := Digits(2), Digits(3);
    var g2 := Cat(Many(GAP), two);
    assert NoEdge(g2) && MinLen(g2) == 2;
    var g4 := Cat(Many(GAP), Cat(two, g2));
    assert NoEdge(g4) && MinLen(g4) == 4;
    var g7 := Cat(Many(CLOSE_GAP), Cat(three, g4));
    assert NoEdge(g7) && MinLen(g7) == 7;
    assert PHONE_TAIL == Cat(three, g7);
    assert NoEdge(PREFIX_RE) && MinLen(PREFIX_RE) == 1;
    assert NoEdge(Cat(Many(OPEN_GAP), PHONE_TAIL)) && MinLen(Cat(Many(OPEN_GAP), PHONE_TAIL)) == 10;
  }

  lemma PatternMinLen(cc: Classes, k: Kind)
    ensures MinLen(Pattern(k)) == MinSpan(k)
  {
    match k
    case EMAIL =>
      PlusMinLen(WORD, Edge);
      PlusMinLen(DOMAIN, Cat(Chr('.'), Plus(WORD, Edge)));
      PlusMinLen(LOCAL, Cat(Chr('@'), DOMAIN_TAIL));
    case PHONE => PhoneFacts(cc);
    case OGRN => DigitWordMinLen(cc, 13); DigitWordMinLen(cc, 15);
    case INN => DigitWordMinLen(cc, 10); DigitWordMinLen(cc, 12);
  }

  /** The pattern of kind k matches t[i..e]. */
  ghost predicate Span(cc: Classes, k: Kind, t: string, i: nat, e: nat) {
    i <= e <= |t| && Lang(cc, Pattern(k), t, i, e)
  }

  /** No match anywhere: `re.search` finds nothing. */
  ghost predicate Free(cc: Classes, k: Kind, t: string) {
    forall i: nat, e: nat :: !Span(cc, k, t, i, e)
  }

  lemma SpanFacts(cc: Classes, k: Kind, t: string, i: nat, e: nat)
    requires Span(cc, k, t, i, e)
    ensures e - i >= MinSpan(k)
    ensures forall j :: i <= j < e ==> !Stop(t[j])
  {
    PatternMinLen(cc, k);
    LangMinLen(cc, Pattern(k), t, i, e);
    PatternExcludesStops(cc, k, '<');
    PatternExcludesStops(cc, k, '>');
    LangExcludes(cc, Pattern(k), t, i, e, '<');
    LangExcludes(cc, Pattern(k), t, i, e, '>');
  }

  /** What the first character of a match looks like. */
  lemma SpanStart(cc: Classes, k: Kind, t: string, i: nat, e: nat)
    requires k != EMAIL && Span(cc, k, t, i, e)
    ensures i < |t|
    ensures k == PHONE ==> t[i] == '8' || t[i] == '+'
    ensures k != PHONE ==> !WordBefore(cc, t, i) && cc.digit(t[i])
  {
    SpanFacts(cc, k, t, i, e);
    match k
    case PHONE =>
      var m: nat :| Mid(i, m, e) && Lang(cc, PREFIX_RE, t, i, m) && Lang(cc, Cat(Many(OPEN_GAP), PHONE_TAIL), t, m, e);
      if Lang(cc, Cat(Chr('+'), Chr('7')), t, i, m) {
        var p: nat :| Mid(i, p, m) && Lang(cc, Chr('+'), t, i, p) && Lang(cc, Chr('7'), t, p, m);
      } else {
        assert Lang(cc, Chr('8'), t, i, m);
      }
    case OGRN =>
      DigitWordLang(cc, t, 13, i, e);
      DigitWordLang(cc, t, 15, i, e);
    case INN =>
      DigitWordLang(cc, t, 10, i, e);
      DigitWordLang(cc, t, 12, i, e);
  }

  lemma CatLang(cc: Classes, a: Re, b: Re, t: string, i: nat, m: nat, e: nat)
    requires i <= m <= e <= |t| && Lang(cc, a, t, i, m) && Lang(cc, b, t, m, e)
    ensures Lang(cc, Cat(a, b), t, i, e)
  {
    assert Mid(i, m, e);
  }

  lemma DigitsThen(cc: Classes, n: nat, s: CharSet, rest: Re, t: string, i: nat, e: nat)
    requires n > 0 && i + n <= e <= |t| && forall j :: i <= j < i + n ==> cc.digit(t[j])
    requires Lang(cc, rest, t, i + n, e)
    ensures Lang(cc, Cat(Digits(n), Cat(Many(s), rest)), t, i, e)
  {
    DigitsLang(cc, t, n, i, i + n);
    NoGap(cc, s, rest, t, i + n, e);
    CatLang(cc, Digits(n), Cat(Many(s), rest), t, i, i + n, e);
  }

  /** An eight and ten more digits are a phone number. */
  lemma EightAndTenDigits(cc: Classes, t: string, i: nat)
    requires i + 11 <= |t| && t[i] == '8' && forall j :: i < j < i + 11 ==> cc.digit(t[j])
    ensures Span(cc, PHONE, t, i, i + 11)
  {
    hide Lang, Digits;
    var e := i + 11;
    DigitsLang(cc, t, 2, i + 9, e);
    DigitsThen(cc, 2, GAP, Digits(2), t, i + 7, e);
    DigitsThen(cc, 3, GAP, Cat(Digits(2), Cat(Many(GAP), Digits(2))), t, i + 4, e);
    var last := Cat(Digits(3), Cat(Many(GAP), Cat(Digits(2), Cat(Many(GAP), Digits(2)))));
    DigitsThen(cc, 3, CLOSE_GAP, last, t, i + 1, e);
    assert PHONE_TAIL == Cat(Digits(3), Cat(Many(CLOSE_GAP), last));
    NoGap(cc, OPEN_GAP, PHONE_TAIL, t, i + 1, e);
    Eight(cc, t, i);
    CatLang(cc, PREFIX_RE, Cat(Many(OPEN_GAP), PHONE_TAIL), t, i, i + 1, e);
  }

  lemma NoGap(cc: Classes, s: CharSet, rest: Re, t: string, i: nat, e: nat)
    requires i <= e <= |t| && Lang(cc, rest, t, i, e)
    ensures Lang(cc, Cat(Many(s), rest), t, i, e)
  {
    assert AllIn(cc, s, t, i, i);
    CatLang(cc, Many(s), rest, t, i, i, e);
  }

  lemma Eight(cc: Classes, t: string, i: nat)
    requires i < |t| && t[i] == '8'
    ensures Lang(cc, PREFIX_RE, t, i, i + 1)
  {
    assert In(cc, CharSet(false, false, false, "8"), t[i]);
    assert Lang(cc, Chr('8'), t, i, i + 1);
  }

  /** An e-mail address: local part t[i..a], '@', domain t[a+1..d], '.', word t[d+1..e]. */
  ghost predicate Email(cc: Classes, t: string, i: nat, a: nat, d: nat, e: nat) {
    && i < a && a + 1 < d && d + 1 < e <= |t|
    && t[a] == '@' && t[d] == '.'
    && AllIn(cc, LOCAL, t, i, a)
    && AllIn(cc, DOMAIN, t, a + 1, d)
    && AllIn(cc, WORD, t, d + 1, e)
  }

  lemma PlusLang(cc: Classes, s: CharSet, rest: Re, t: string, i: nat, e: nat) returns (m: nat)
    requires i <= e <= |t| && Lang(cc, Plus(s, rest), t, i, e)
    ensures i < m <= e && AllIn(cc, s, t, i, m) && Lang(cc, rest, t, m, e)
  {
    var p: nat :| Mid(i, p, e) && Lang(cc, Cls(s), t, i, p) && Lang(cc, Cat(Many(s), rest), t, p, e);
    m :| Mid(p, m, e) && Lang(cc, Many(s), t, p, m) && Lang(cc, rest, t, m, e);
  }

  lemma PlusLangBack(cc: Classes, s: CharSet, rest: Re, t: string, i: nat, m: nat, e: nat)
    requires i < m <= e <= |t| && AllIn(cc, s, t, i, m) && Lang(cc, rest, t, m, e)
    ensures Lang(cc, Plus(s, rest), t, i, e)
  {
    assert Mid(i + 1, m, e) && Lang(cc, Many(s), t, i + 1, m);
    assert Mid(i, i + 1, e) && Lang(cc, Cls(s), t, i, i + 1);
  }

  lemma ChrLang(cc: Classes, c: char, rest: Re, t: string, i: nat, e: nat)
    requires i <= e <= |t|
    ensures Lang(cc, Cat(Chr(c), rest), t, i, e) <==> i < e && t[i] == c && Lang(cc, rest, t, i + 1, e)
  {
    if Lang(cc, Cat(Chr(c), rest), t, i, e) {
      var m: nat :| Mid(i, m, e) && Lang(cc, Chr(c), t, i, m) && Lang(cc, rest, t, m, e);
    }
    if i < e && t[i] == c && Lang(cc, rest, t, i + 1, e) {
      assert Mid(i, i + 1, e) && Lang(cc, Chr(c), t, i, i + 1);
    }
  }

  lemma EdgeLang(cc: Classes, rest: Re, t: string, i: nat, e: nat)
    requires i <= e <= |t|
    ensures Lang(cc, Cat(Edge, rest), t, i, e) <==> Boundary(cc, t, i) && Lang(cc, rest, t, i, e)
  {
    if Lang(cc, Cat(Edge, rest), t, i, e) {
      var m: nat :| Mid(i, m, e) && Lang(cc, Edge, t, i, m) && Lang(cc, rest, t, m, e);
    }
    if Boundary(cc, t, i) && Lang(cc, rest, t, i, e) {
      assert Mid(i, i, e) && Lang(cc, Edge, t, i, i);
    }
  }

  lemma WordEdgeLang(cc: Classes, t: string, p: nat, e: nat)
    requires p <= e <= |t|
    ensures Lang(cc, Plus(WORD, Edge), t, p, e) <==>
            p < e && AllIn(cc, WORD, t, p, e) && Boundary(cc, t, e)
  {
    if Lang(cc, Plus(WORD, Edge), t, p, e) {
      var m := PlusLang(cc, WORD, Edge, t, p, e);
    }
    if p < e && AllIn(cc, WORD, t, p, e) && Boundary(cc, t, e) {
      PlusLangBack(cc, WORD, Edge, t, p, e, e);
    }
  }

  lemma EmailLang(cc: Classes, t: string, i: nat, e: nat) returns (a: nat, d: nat)
    requires Span(cc, EMAIL, t, i, e)
    ensures Email(cc, t, i, a, d, e) && Boundary(cc, t, i) && Boundary(cc, t, e)
  {
    hide Lang;
    var domain := Cat(Chr('@'), DOMAIN_TAIL);
    EdgeLang(cc, Plus(LOCAL, domain), t, i, e);
    a := PlusLang(cc, LOCAL, domain, t, i, e);
    ChrLang(cc, '@', DOMAIN_TAIL, t, a, e);
    d := PlusLang(cc, DOMAIN, Cat(Chr('.'), Plus(WORD, Edge)), t, a + 1, e);
    ChrLang(cc, '.', Plus(WORD, Edge), t, d, e);
    WordEdgeLang(cc, t, d + 1, e);
  }

  lemma EmailLangBack(cc: Classes, t: string, i: nat, a: nat, d: nat, e: nat)
    requires Email(cc, t, i, a, d, e) && Boundary(cc, t, i) && Boundary(cc, t, e)
    ensures Span(cc, EMAIL, t, i, e)
  {
    WordEdgeLang(cc, t, d + 1, e);
    ChrLang(cc, '.', Plus(WORD, Edge), t, d, e);
    PlusLangBack(cc, DOMAIN, Cat(Chr('.'), Plus(WORD, Edge)), t, a + 1, d, e);
    ChrLang(cc, '@', DOMAIN_TAIL, t, a, e);
    PlusLangBack(cc, LOCAL, Cat(Chr('@'), DOMAIN_TAIL), t, i, a, e);
    EdgeLang(cc, Plus(LOCAL, Cat(Chr('@'), DOMAIN_TAIL)), t, i, e);
  }
}
