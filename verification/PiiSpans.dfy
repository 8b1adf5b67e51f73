/** What the four patterns match, in terms of the characters of the text alone,
    and which of several matches the engine takes. */
module PiiSpans {
  import opened Options
  import opened Regex
  import opened Text
  import opened PiiPatterns
  import opened PiiMasker
  import opened PiiResidue
  import opened PiiRoundTrip

  // ---- Digit words ---------------------------------------------------------

  /** A run of n digits with no word character on either side. */
  ghost predicate DigitRun(cc: Classes, t: string, i: nat, e: nat, n: nat) {
    && e == i + n <= |t| && (forall j :: i <= j < e ==> cc.digit(t[j]))
    && (i == 0 || !cc.word(t[i - 1])) && (e == |t| || !cc.word(t[e]))
  }

  lemma InnSpanIff(cc: Classes, t: string, i: nat, e: nat)
    ensures Span(cc, INN, t, i, e) <==> DigitRun(cc, t, i, e, 10) || DigitRun(cc, t, i, e, 12)
  {
    if i <= e <= |t| {
      DigitWordLang(cc, t, 10, i, e);
      DigitWordLang(cc, t, 12, i, e);
    }
  }

  lemma OgrnSpanIff(cc: Classes, t: string, i: nat, e: nat)
    ensures Span(cc, OGRN, t, i, e) <==> DigitRun(cc, t, i, e, 13) || DigitRun(cc, t, i, e, 15)
  {
    if i <= e <= |t| {
      DigitWordLang(cc, t, 13, i, e);
      DigitWordLang(cc, t, 15, i, e);
    }
  }

  // ---- E-mail addresses ----------------------------------------------------

  /** t[j] is a word character or one of `more`, for all j in i..e. */
  ghost predicate WordsOr(cc: Classes, t: string, i: nat, e: nat, more: string) {
    e <= |t| && forall j :: i <= j < e ==> cc.word(t[j]) || t[j] in more
  }

  /** t[i..a] @ t[a+1..d] . t[d+1..e], with a word edge at both ends. */
  ghost predicate Address(cc: Classes, t: string, i: nat, a: nat, d: nat, e: nat) {
    && i < a && a + 1 < d && d + 1 < e <= |t| && t[a] == '@' && t[d] == '.'
    && WordsOr(cc, t, i, a, ".+-") && WordsOr(cc, t, a + 1, d, ".-") && WordsOr(cc, t, d + 1, e, "")
    && (i > 0 && cc.word(t[i - 1]) <==> !cc.word(t[i])) && (e == |t| || !cc.word(t[e]))
  }

  lemma WordsOrIs(cc: Classes, t: string, i: nat, e: nat)
    requires e <= |t|
    ensures AllIn(cc, LOCAL, t, i, e) <==> WordsOr(cc, t, i, e, ".+-")
    ensures AllIn(cc, DOMAIN, t, i, e) <==> WordsOr(cc, t, i, e, ".-")
    ensures AllIn(cc, WORD, t, i, e) <==> WordsOr(cc, t, i, e, "")
  {
  }

  lemma AddressIs(cc: Classes, t: string, i: nat, a: nat, d: nat, e: nat)
    ensures Address(cc, t, i, a, d, e) <==> Email(cc, t, i, a, d, e) && Boundary(cc, t, i) && Boundary(cc, t, e)
  {
    if i < a && a + 1 < d && d + 1 < e <= |t| {
      WordsOrIs(cc, t, i, a);
      WordsOrIs(cc, t, a + 1, d);
      WordsOrIs(cc, t, d + 1, e);
      hide AllIn;
      assert WordsOr(cc, t, d + 1, e, "") ==> cc.word(t[e - 1]);
    }
  }

  lemma EmailSpanIff(cc: Classes, t: string, i: nat, e: nat)
    ensures Span(cc, EMAIL, t, i, e) <==> exists a: nat, d: nat :: Address(cc, t, i, a, d, e)
  {
    hide Span, Address, Email;
    if Span(cc, EMAIL, t, i, e) {
      var a, d := EmailLang(cc, t, i, e);
      AddressIs(cc, t, i, a, d, e);
    }
    if a: nat, d: nat :| Address(cc, t, i, a, d, e) {
      AddressIs(cc, t, i, a, d, e);
      EmailLangBack(cc, t, i, a, d, e);
    }
  }

  // ---- Phone numbers -------------------------------------------------------

  ghost predicate DigitsAt(cc: Classes, t: string, i: nat, n: nat) {
    i + n <= |t| && forall j :: i <= j < i + n ==> cc.digit(t[j])
  }

  /** t[j] is white space or one of `more`, for all j in i..e. */
  ghost predicate Blank(cc: Classes, t: string, i: nat, e: nat, more: string) {
    i <= e <= |t| && forall j :: i <= j < e ==> cc.space(t[j]) || t[j] in more
  }

  /** +7 or 8. */
  ghost predicate CountryCode(t: string, i: nat, p: nat) {
    || (p == i + 1 <= |t| && t[i] == '8')
    || (p == i + 2 <= |t| && t[i] == '+' && t[i + 1] == '7')
  }

  /** +7 or 8 in t[i..p], then three digits at a, three at b, two at c and two at
      d, with gaps between them. */
  ghost predicate Phone(cc: Classes, t: string, i: nat, p: nat, a: nat, b: nat, c: nat, d: nat, e: nat) {
    CountryCode(t, i, p) && Blank(cc, t, p, a, "-(") && Subscriber(cc, t, a, b, c, d, e)
  }

  lemma BlankIs(cc: Classes, t: string, i: nat, e: nat)
    requires i <= e <= |t|
    ensures AllIn(cc, OPEN_GAP, t, i, e) <==> Blank(cc, t, i, e, "-(")
    ensures AllIn(cc, CLOSE_GAP, t, i, e) <==> Blank(cc, t, i, e, "-)")
    ensures AllIn(cc, GAP, t, i, e) <==> Blank(cc, t, i, e, "-")
  {
  }

  lemma ManyLang(cc: Classes, s: CharSet, rest: Re, t: string, i: nat, e: nat) returns (m: nat)
    requires i <= e <= |t| && Lang(cc, Cat(Many(s), rest), t, i, e)
    ensures i <= m <= e && AllIn(cc, s, t, i, m) && Lang(cc, rest, t, m, e)
  {
    m :| Mid(i, m, e) && Lang(cc, Many(s), t, i, m) && Lang(cc, rest, t, m, e);
  }

  lemma ManyLangBack(cc: Classes, s: CharSet, rest: Re, t: string, i: nat, m: nat, e: nat)
    requires i <= m <= e <= |t| && AllIn(cc, s, t, i, m) && Lang(cc, rest, t, m, e)
    ensures Lang(cc, Cat(Many(s), rest), t, i, e)
  {
    assert Mid(i, m, e) && Lang(cc, Many(s), t, i, m);
  }

  lemma DigitsGapLang(cc: Classes, n: nat, s: CharSet, rest: Re, t: string, i: nat, e: nat) returns (m: nat)
    requires n > 0 && i <= e <= |t| && Lang(cc, Cat(Digits(n), Cat(Many(s), rest)), t, i, e)
    ensures i + n <= m <= e && DigitsAt(cc, t, i, n) && AllIn(cc, s, t, i + n, m) && Lang(cc, rest, t, m, e)
  {
    var p: nat :| Mid(i, p, e) && Lang(cc, Digits(n), t, i, p) && Lang(cc, Cat(Many(s), rest), t, p, e);
    DigitsLang(cc, t, n, i, p);
    m := ManyLang(cc, s, rest, t, p, e);
  }

  lemma DigitsGapLangBack(cc: Classes, n: nat, s: CharSet, rest: Re, t: string, i: nat, m: nat, e: nat)
    requires n > 0 && i + n <= m <= e <= |t| && DigitsAt(cc, t, i, n) && AllIn(cc, s, t, i + n, m)
    requires Lang(cc, rest, t, m, e)
    ensures Lang(cc, Cat(Digits(n), Cat(Many(s), rest)), t, i, e)
  {
    hide Lang;
    ManyLangBack(cc, s, rest, t, i + n, m, e);
    DigitsLang(cc, t, n, i, i + n);
    CatLang(cc, Digits(n), Cat(Many(s), rest), t, i, i + n, e);
  }

  lemma PrefixLang(cc: Classes, t: string, i: nat, p: nat)
    requires i <= p <= |t|
    ensures Lang(cc, PREFIX_RE, t, i, p) <==> CountryCode(t, i, p)
  {
    var plus := Cat(Chr('+'), Chr('7'));
    if i + 2 <= |t| { ChrLang(cc, '+', Chr('7'), t, i, p); }
    if Lang(cc, plus, t, i, p) {
      ChrLang(cc, '+', Chr('7'), t, i, p);
    }
  }

  lemma CatParts(cc: Classes, a: Re, b: Re, t: string, i: nat, e: nat) returns (m: nat)
    requires i <= e <= |t| && Lang(cc, Cat(a, b), t, i, e)
    ensures i <= m <= e && Lang(cc, a, t, i, m) && Lang(cc, b, t, m, e)
  {
    m :| Mid(i, m, e) && Lang(cc, a, t, i, m) && Lang(cc, b, t, m, e);
  }

  lemma LastDigits(cc: Classes, t: string, d: nat, e: nat)
    requires d <= e <= |t|
    ensures Lang(cc, Digits(2), t, d, e) <==> e == d + 2 && DigitsAt(cc, t, d, 2)
  {
    DigitsLang(cc, t, 2, d, e);
  }

  /** The digits from a on. */
  ghost predicate Subscriber(cc: Classes, t: string, a: nat, b: nat, c: nat, d: nat, e: nat) {
    && DigitsAt(cc, t, a, 3)
    && Blank(cc, t, a + 3, b, "-)") && DigitsAt(cc, t, b, 3)
    && Blank(cc, t, b + 3, c, "-") && DigitsAt(cc, t, c, 2)
    && Blank(cc, t, c + 2, d, "-") && DigitsAt(cc, t, d, 2)
    && e == d + 2
  }

  lemma SubscriberLang(cc: Classes, t: string, a: nat, e: nat) returns (b: nat, c: nat, d: nat)
    requires a <= e <= |t| && Lang(cc, PHONE_TAIL, t, a, e)
    ensures Subscriber(cc, t, a, b, c, d, e)
  {
    var two := Cat(Many(GAP), Digits(2));
    var four := Cat(Many(GAP), Cat(Digits(2), two));
    hide Lang, AllIn, Digits, Blank, DigitsAt;
    b := DigitsGapLang(cc, 3, CLOSE_GAP, Cat(Digits(3), four), t, a, e);
    c := DigitsGapLang(cc, 3, GAP, Cat(Digits(2), two), t, b, e);
    d := DigitsGapLang(cc, 2, GAP, Digits(2), t, c, e);
    LastDigits(cc, t, d, e);
    BlankIs(cc, t, a + 3, b);
    BlankIs(cc, t, b + 3, c);
    BlankIs(cc, t, c + 2, d);
  }

  lemma PhoneLang(cc: Classes, t: string, i: nat, e: nat) returns (p: nat, a: nat, b: nat, c: nat, d: nat)
    requires Span(cc, PHONE, t, i, e)
    ensures Phone(cc, t, i, p, a, b, c, d, e)
  {
    hide Lang, AllIn, Digits, Subscriber, CountryCode;
    p := CatParts(cc, PREFIX_RE, Cat(Many(OPEN_GAP), PHONE_TAIL), t, i, e);
    PrefixLang(cc, t, i, p);
    a := ManyLang(cc, OPEN_GAP, PHONE_TAIL, t, p, e);
    BlankIs(cc, t, p, a);
    b, c, d := SubscriberLang(cc, t, a, e);
  }

  lemma PhoneLangBack(cc: Classes, t: string, i: nat, p: nat, a: nat, b: nat, c: nat, d: nat, e: nat)
    requires Phone(cc, t, i, p, a, b, c, d, e)
    ensures Span(cc, PHONE, t, i, e)
  {
    var two := Cat(Many(GAP), Digits(2));
    var four := Cat(Many(GAP), Cat(Digits(2), two));
    var seven := Cat(Many(CLOSE_GAP), Cat(Digits(3), four));
    assert PHONE_TAIL == Cat(Digits(3), seven);
    hide Lang, AllIn, Digits;
    BlankIs(cc, t, p, a);
    BlankIs(cc, t, a + 3, b);
    BlankIs(cc, t, b + 3, c);
    BlankIs(cc, t, c + 2, d);
    LastDigits(cc, t, d, e);
    DigitsGapLangBack(cc, 2, GAP, Digits(2), t, c, d, e);
    DigitsGapLangBack(cc, 3, GAP, Cat(Digits(2), two), t, b, c, e);
    DigitsGapLangBack(cc, 3, CLOSE_GAP, Cat(Digits(3), four), t, a, b, e);
    ManyLangBack(cc, OPEN_GAP, PHONE_TAIL, t, p, a, e);
    PrefixLang(cc, t, i, p);
    CatLang(cc, PREFIX_RE, Cat(Many(OPEN_GAP), PHONE_TAIL), t, i, p, e);
  }

  lemma PhoneSpanIff(cc: Classes, t: string, i: nat, e: nat)
    ensures Span(cc, PHONE, t, i, e) <==>
            exists p: nat, a: nat, b: nat, c: nat, d: nat :: Phone(cc, t, i, p, a, b, c, d, e)
  {
    hide Span, Phone;
    if Span(cc, PHONE, t, i, e) { var p, a, b, c, d := PhoneLang(cc, t, i, e); }
    if p: nat, a: nat, b: nat, c: nat, d: nat :| Phone(cc, t, i, p, a, b, c, d, e) {
      PhoneLangBack(cc, t, i, p, a, b, c, d, e);
    }
  }

  // ---- The longest match ---------------------------------------------------

  ghost predicate LongestFirst(es: seq<nat>) { forall k :: 0 <= k < |es| ==> es[k] <= es[0] }

  /** No end from a later start is beyond one from an earlier start. */
  ghost predicate Dominated(cc: Classes, re: Re, t: string, starts: seq<nat>)
    requires forall k :: 0 <= k < |starts| ==> starts[k] <= |t|
  {
    forall j, k, x, y :: 0 <= j < k < |starts| && x in Ends(cc, re, t, starts[j]) && y in Ends(cc, re, t, starts[k])
      ==> y <= x
  }

  lemma {:induction false} EndsFromOne(cc: Classes, re: Re, t: string, i: nat, starts: seq<nat>, y: nat)
    returns (k: nat)
    requires forall k :: 0 <= k < |starts| ==> i <= starts[k] <= |t|
    requires y in EndsFrom(cc, re, t, i, starts)
    ensures k < |starts| && y in Ends(cc, re, t, starts[k])
  {
    if y in Ends(cc, re, t, starts[0]) { return 0; }
    k := EndsFromOne(cc, re, t, i, starts[1..], y);
    k := k + 1;
  }

  lemma LongestAppend(head: seq<nat>, tail: seq<nat>)
    requires LongestFirst(head) && LongestFirst(tail) && forall x, y :: x in head && y in tail ==> y <= x
    ensures LongestFirst(head + tail)
  {
    var all := head + tail;
    forall k | 0 <= k < |all| ensures all[k] <= all[0] {
      if head == [] {
        assert all[k] == tail[k];
      } else if k < |head| {
        assert all[k] == head[k];
      } else {
        assert all[0] == head[0] && all[k] == tail[k - |head|];
        assert head[0] in head && tail[k - |head|] in tail;
      }
    }
  }

  lemma {:induction false} FromLongest(cc: Classes, re: Re, t: string, i: nat, starts: seq<nat>)
    requires forall k :: 0 <= k < |starts| ==> i <= starts[k] <= |t| && LongestFirst(Ends(cc, re, t, starts[k]))
    requires Dominated(cc, re, t, starts)
    ensures LongestFirst(EndsFrom(cc, re, t, i, starts))
  {
    if starts != [] {
      hide Ends, LongestFirst;
      var rest := starts[1..];
      assert forall k :: 0 <= k < |rest| ==> rest[k] == starts[k + 1];
      FromLongest(cc, re, t, i, rest);
      var head, tail := Ends(cc, re, t, starts[0]), EndsFrom(cc, re, t, i, rest);
      forall x, y | x in head && y in tail ensures y <= x {
        var j := EndsFromOne(cc, re, t, i, rest, y);
        assert y in Ends(cc, re, t, starts[j + 1]);
      }
      LongestAppend(head, tail);
    }
  }

  ghost predicate Falls(es: seq<nat>) { forall j, k :: 0 <= j < k < |es| ==> es[j] > es[k] }

  lemma {:induction false} ManyFalls(cc: Classes, s: CharSet, t: string, i: nat)
    requires i <= |t|
    ensures Falls(Ends(cc, Many(s), t, i))
    decreases |t| - i
  {
    if i < |t| && In(cc, s, t[i]) {
      ManyFalls(cc, s, t, i + 1);
      var rest := Ends(cc, Many(s), t, i + 1);
      assert Ends(cc, Many(s), t, i) == rest + [i] && forall k :: 0 <= k < |rest| ==> rest[k] > i;
      assert Falls(rest + [i]);
    }
  }

  /** After a pattern with one end there is nothing to compare. */
  lemma OneStart(cc: Classes, a: Re, b: Re, t: string, i: nat)
    requires i <= |t| && |Ends(cc, a, t, i)| <= 1
    requires forall m :: i <= m <= |t| ==> LongestFirst(Ends(cc, b, t, m))
    ensures LongestFirst(Ends(cc, Cat(a, b), t, i))
  {
    FromLongest(cc, b, t, i, Ends(cc, a, t, i));
  }

  lemma PlusLongest(cc: Classes, s: CharSet, rest: Re, t: string, i: nat)
    requires i <= |t|
    requires forall m :: i <= m <= |t| ==> LongestFirst(Ends(cc, rest, t, m))
    requires forall m, l, x, y ::
               (i <= m < l <= |t| && AllIn(cc, s, t, m, l) && x in Ends(cc, rest, t, l) && y in Ends(cc, rest, t, m))
               ==> y <= x
    ensures LongestFirst(Ends(cc, Plus(s, rest), t, i))
  {
    forall p | i <= p <= |t| ensures LongestFirst(Ends(cc, Cat(Many(s), rest), t, p)) {
      var starts := Ends(cc, Many(s), t, p);
      ManyFalls(cc, s, t, p);
      forall j, k, x, y |
        0 <= j < k < |starts| && x in Ends(cc, rest, t, starts[j]) && y in Ends(cc, rest, t, starts[k])
        ensures y <= x
      {
        EndsIsLang(cc, Many(s), t, p, starts[j]);
        assert AllIn(cc, s, t, starts[k], starts[j]);
      }
      FromLongest(cc, rest, t, p, starts);
    }
    OneStart(cc, Cls(s), Cat(Many(s), rest), t, i);
  }

  /** All ends of this pattern from one position are the same. */
  lemma WordEndsAgree(cc: Classes, t: string, i: nat, x: nat, y: nat)
    requires i <= |t| && x in Ends(cc, Plus(WORD, Edge), t, i) && y in Ends(cc, Plus(WORD, Edge), t, i)
    ensures x == y
  {
    hide Ends;
    EndsIsLang(cc, Plus(WORD, Edge), t, i, x);
    EndsIsLang(cc, Plus(WORD, Edge), t, i, y);
    WordEdgeLang(cc, t, i, x);
    WordEdgeLang(cc, t, i, y);
    WordsOrIs(cc, t, i, x);
    WordsOrIs(cc, t, i, y);
  }

  const DOT_WORD: Re := Cat(Chr('.'), Plus(WORD, Edge))

  lemma DotWordEnd(cc: Classes, t: string, m: nat, x: nat)
    requires m <= |t| && x in Ends(cc, DOT_WORD, t, m)
    ensures m + 1 < x <= |t| && t[m] == '.' && forall j :: m < j < x ==> cc.word(t[j])
  {
    hide Ends;
    EndsIsLang(cc, DOT_WORD, t, m, x);
    ChrLang(cc, '.', Plus(WORD, Edge), t, m, x);
    WordEdgeLang(cc, t, m + 1, x);
    WordsOrIs(cc, t, m + 1, x);
  }

  lemma DomainLongest(cc: Classes, t: string, i: nat)
    requires i <= |t|
    ensures LongestFirst(Ends(cc, DOMAIN_TAIL, t, i))
  {
    forall m | i <= m <= |t| ensures LongestFirst(Ends(cc, DOT_WORD, t, m)) {
      forall q | m <= q <= |t| ensures LongestFirst(Ends(cc, Plus(WORD, Edge), t, q)) {
        var es := Ends(cc, Plus(WORD, Edge), t, q);
        forall k | 0 <= k < |es| ensures es[k] <= es[0] { WordEndsAgree(cc, t, q, es[0], es[k]); }
      }
      OneStart(cc, Chr('.'), Plus(WORD, Edge), t, m);
    }
    forall m, l, x, y | i <= m < l <= |t| && AllIn(cc, DOMAIN, t, m, l)
                        && x in Ends(cc, DOT_WORD, t, l) && y in Ends(cc, DOT_WORD, t, m)
      ensures y <= x
    {
      DotWordEnd(cc, t, l, x);
      DotWordEnd(cc, t, m, y);
    }
    PlusLongest(cc, DOMAIN, DOT_WORD, t, i);
  }

  const AT_DOMAIN: Re := Cat(Chr('@'), DOMAIN_TAIL)

  lemma AtDomainStart(cc: Classes, t: string, m: nat, x: nat)
    requires m <= |t| && x in Ends(cc, AT_DOMAIN, t, m)
    ensures m < |t| && t[m] == '@'
  {
    hide Ends;
    EndsIsLang(cc, AT_DOMAIN, t, m, x);
    ChrLang(cc, '@', DOMAIN_TAIL, t, m, x);
  }

  lemma EmailLongest(cc: Classes, t: string, i: nat)
    requires i <= |t|
    ensures LongestFirst(Ends(cc, EMAIL_RE, t, i))
  {
    forall p | i <= p <= |t| ensures LongestFirst(Ends(cc, Plus(LOCAL, AT_DOMAIN), t, p)) {
      forall m | p <= m <= |t| ensures LongestFirst(Ends(cc, AT_DOMAIN, t, m)) {
        forall q | m <= q <= |t| ensures LongestFirst(Ends(cc, DOMAIN_TAIL, t, q)) { DomainLongest(cc, t, q); }
        OneStart(cc, Chr('@'), DOMAIN_TAIL, t, m);
      }
      forall m, l, y | p <= m < l <= |t| && AllIn(cc, LOCAL, t, m, l) ensures y !in Ends(cc, AT_DOMAIN, t, m) {
        WordsOrIs(cc, t, m, l);
        assert '@' in "<>@+-.()" && t[m] != '@';
        if y in Ends(cc, AT_DOMAIN, t, m) { AtDomainStart(cc, t, m, y); }
      }
      PlusLongest(cc, LOCAL, AT_DOMAIN, t, p);
    }
    OneStart(cc, Edge, Plus(LOCAL, AT_DOMAIN), t, i);
  }

  lemma DigitsNoBlank(cc: Classes, c: char)
    requires cc.digit(c)
    ensures !cc.space(c) && c !in "-()"
  {
    assert c in "-()" ==> c in "<>@+-.()";
  }

  /** Digits and gaps cannot be confused, so a phone number has one reading. */
  lemma GapEndsAgree(cc: Classes, t: string, i: nat, m: nat, l: nat, n: nat, more: string)
    requires more in {"-(", "-)", "-"} && n > 0
    requires Blank(cc, t, i, m, more) && DigitsAt(cc, t, m, n) && Blank(cc, t, i, l, more) && DigitsAt(cc, t, l, n)
    ensures m == l
  {
    DigitsNoBlank(cc, t[m]);
    DigitsNoBlank(cc, t[l]);
  }

  lemma PhoneEndsAgree(cc: Classes, t: string, i: nat, e: nat, f: nat)
    requires Span(cc, PHONE, t, i, e) && Span(cc, PHONE, t, i, f)
    ensures e == f
  {
    hide Span;
    var p, a, b, c, d := PhoneLang(cc, t, i, e);
    var p', a', b', c', d' := PhoneLang(cc, t, i, f);
    assert p == p';
    GapEndsAgree(cc, t, p, a, a', 3, "-(");
    GapEndsAgree(cc, t, a + 3, b, b', 3, "-)");
    GapEndsAgree(cc, t, b + 3, c, c', 2, "-");
    GapEndsAgree(cc, t, c + 2, d, d', 2, "-");
  }

  /** Of all matches that begin at a position the engine takes the longest. */
  lemma FoundIsLongest(cc: Classes, k: Kind, t: string, i: nat, e: nat)
    requires i <= |t|
    ensures Found(cc, k, t, i) == Some(e) <==>
            Span(cc, k, t, i, e) && forall f: nat :: Span(cc, k, t, i, f) ==> f <= e
  {
    hide Lang;
    var es := Ends(cc, Pattern(k), t, i);
    if Found(cc, k, t, i).Some? {
      var r := Found(cc, k, t, i).value;
      assert r == es[0];
      forall f: nat | Span(cc, k, t, i, f) ensures f <= r { NoLonger(cc, k, t, i, r, f); }
    }
  }

  lemma NoLonger(cc: Classes, k: Kind, t: string, i: nat, r: nat, f: nat)
    requires i <= |t| && MatchEnd(cc, Pattern(k), t, i) == Some(r) && Span(cc, k, t, i, r) && Span(cc, k, t, i, f)
    ensures f <= r
  {
    match k
    case EMAIL =>
      EmailLongest(cc, t, i);
      EndsIsLang(cc, EMAIL_RE, t, i, f);
    case PHONE => PhoneEndsAgree(cc, t, i, r, f);
    case OGRN => OgrnSpanIff(cc, t, i, r); OgrnSpanIff(cc, t, i, f);
    case INN => InnSpanIff(cc, t, i, r); InnSpanIff(cc, t, i, f);
  }

  // ---- The first entry -----------------------------------------------------

  lemma PassStarts(cc: Classes, k: Kind, t: string, p: nat, e: nat)
    requires p <= |t| && Found(cc, k, t, p) == Some(e)
    requires forall q: nat, f: nat :: q < p ==> !Span(cc, k, t, q, f)
    ensures var m := Sub(cc, k, t);
            && m.items != [] && m.items[0] == Item(Placeholder(k, 1), t[p..e])
            && t[..p] + Placeholder(k, 1) <= m.text
  {
    hide Lang, Span, Pass, Found, Placeholder;
    PassCopies(cc, k, t, 0, p, 0);
    PassStep(cc, k, t, p, 0);
    assert t[0..p] == t[..p];
  }

  /** E-mail addresses are looked for first, then phone numbers, OGRN and INN: the
      first match of the first kind that occurs is the first entry, the longest
      match there, under the placeholder that the kind's name spells. */
  lemma FirstEntry(cc: Classes, k: Kind, t: string, p: nat, e: nat)
    requires k != EMAIL ==> Free(cc, EMAIL, t)
    requires k == OGRN || k == INN ==> Free(cc, PHONE, t)
    requires k == INN ==> Free(cc, OGRN, t)
    requires p <= |t| && Span(cc, k, t, p, e) && forall f: nat :: Span(cc, k, t, p, f) ==> f <= e
    requires forall q: nat, f: nat :: q < p ==> !Span(cc, k, t, q, f)
    ensures Mask(cc, t).items != []
    ensures Mask(cc, t).items[0].value == t[p..e]
    ensures Mask(cc, t).items[0].key ==
            match k case EMAIL => "<EMAIL_1>" case PHONE => "<PHONE_1>" case OGRN => "<OGRN_1>" case INN => "<INN_1>"
  {
    FoundIsLongest(cc, k, t, p, e);
    PlaceholderOne(k);
    hide Lang, Span, Pass, Found, Placeholder, Free;
    PassStarts(cc, k, t, p, e);
    assert t[0..] == t;
    if k != EMAIL { FreePass(cc, EMAIL, t, 0, 0); }
    if k == OGRN || k == INN { FreePass(cc, PHONE, t, 0, 0); }
    if k == INN { FreePass(cc, OGRN, t, 0, 0); }
  }

  lemma PlaceholderOne(k: Kind)
    ensures Placeholder(k, 1) ==
            match k case EMAIL => "<EMAIL_1>" case PHONE => "<PHONE_1>" case OGRN => "<OGRN_1>" case INN => "<INN_1>"
  {
    assert Decimal(1) == "1";
  }
}
