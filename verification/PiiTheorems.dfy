/** The laws of `mask_pii` and `unmask_pii` taken together. */
module PiiTheorems {
  import opened Regex
  import opened Text
  import opened PiiPatterns
  import opened PiiMasker
  import opened PiiResidue
  import opened PiiRoundTrip

  lemma PlaceholderParts(k: Kind, n: nat)
    ensures var p := Placeholder(k, n);
            |p| > |Name(k)| + 2 && p[1] == Name(k)[0] && p[|Name(k)| + 2..|p| - 1] == Decimal(n)
  {
    hide Decimal;
    var p := Placeholder(k, n);
    assert p == "<" + Name(k) + "_" + Decimal(n) + ">";
  }

  /** Placeholders of different kinds or numbers differ. */
  lemma PlaceholderInjective(k: Kind, n: nat, l: Kind, m: nat)
    requires Placeholder(k, n) == Placeholder(l, m)
    ensures k == l && n == m
  {
    PlaceholderParts(k, n);
    PlaceholderParts(l, m);
    assert Name(k)[0] == Name(l)[0] <==> k == l;
    hide Decimal, Name, Placeholder;
    assert k == l;
    DecimalInjective(n, m);
  }

  lemma BodyChars(cc: Classes, k: Kind, n: nat)
    ensures forall j :: 0 <= j < |Body(k, n)| ==>
              var c := Body(k, n)[j];
              && !Stop(c) && c != '@' && c != '+'
              && (j <= |Name(k)| ==> c != '8' && !cc.digit(c))
  {
    NameChars(cc, k);
    var b, m := Body(k, n), |Name(k)|;
    forall j | 0 <= j < |b|
      ensures !Stop(b[j]) && b[j] != '@' && b[j] != '+' && (j <= m ==> b[j] != '8' && !cc.digit(b[j]))
    {
      if j < m { assert b[j] == Name(k)[j]; }
      else if j == m { assert b[j] == '_'; }
      else { assert b[j] == Decimal(n)[j - m - 1]; }
    }
  }

  lemma PlaceholderFramed(cc: Classes, k: Kind, n: nat)
    ensures Framed(Placeholder(k, n)) && Placeholder(k, n)[1..|Placeholder(k, n)| - 1] == Body(k, n)
  {
    BodyChars(cc, k, n);
    var p := Placeholder(k, n);
    assert p[1..|p| - 1] == Body(k, n);
  }

  /** v was matched by pattern k in some text. */
  ghost predicate Matched(cc: Classes, k: Kind, v: string) {
    exists t: string, a: nat, e: nat :: Span(cc, k, t, a, e) && v == t[a..e]
  }

  lemma MatchedFacts(cc: Classes, k: Kind, v: string)
    requires Matched(cc, k, v)
    ensures Plain(v) && |v| >= MinSpan(k)
    ensures k == EMAIL ==> '@' in v
    ensures k == PHONE ==> v[0] == '8' || v[0] == '+'
    ensures k == OGRN || k == INN ==> cc.digit(v[0])
  {
    hide Lang;
    var t: string, a: nat, e: nat :| Span(cc, k, t, a, e) && v == t[a..e];
    SpanFacts(cc, k, t, a, e);
    if k == EMAIL {
      var at, d := EmailLang(cc, t, a, e);
      assert v[at - a] == '@';
    } else {
      SpanStart(cc, k, t, a, e);
    }
  }

  /** A masked value fits into no placeholder whose number has fewer than ten digits. */
  lemma MatchedNotInPlaceholder(cc: Classes, k: Kind, v: string, l: Kind, n: nat)
    requires Matched(cc, k, v) && n < Pow10(9)
    ensures !Infix(v, Placeholder(l, n))
  {
    MatchedFacts(cc, k, v);
    BodyChars(cc, l, n);
    DecimalLength(n, 9);
    hide Matched, Decimal, Pow10;
    var p, b := Placeholder(l, n), Body(l, n);
    assert |b| <= |Name(l)| + 10;
    hide Name, Body;
    assert p == "<" + b + ">";
    hide Placeholder;
    NotInside(cc, k, v, l, b);
  }

  lemma NotInside(cc: Classes, k: Kind, v: string, l: Kind, b: string)
    requires Plain(v) && |v| >= MinSpan(k) && |b| <= |Name(l)| + 10
    requires k == EMAIL ==> '@' in v
    requires k == PHONE ==> v[0] == '8' || v[0] == '+'
    requires k == OGRN || k == INN ==> cc.digit(v[0])
    requires forall j :: 0 <= j < |b| ==>
               b[j] != '@' && b[j] != '+' && (j <= |Name(l)| ==> b[j] != '8' && !cc.digit(b[j]))
    ensures !Infix(v, "<" + b + ">")
  {
    hide Name;
    var p := "<" + b + ">";
    assert forall j :: 0 <= j < |b| ==> p[j + 1] == b[j];
    assert '@' !in p;
    forall i: nat ensures !InfixAt(v, p, i) {
      if InfixAt(v, p, i) {
        if k == EMAIL { AtInside(v, p, i); } else { VisitsBody(cc, k, v, l, p, b, i); }
      }
    }
  }

  lemma AtInside(v: string, p: string, i: nat)
    requires InfixAt(v, p, i) && '@' in v
    ensures '@' in p
  {
    var j :| 0 <= j < |v| && v[j] == '@';
    assert p[i + j] == v[j];
  }

  lemma VisitsBody(cc: Classes, k: Kind, v: string, l: Kind, p: string, b: string, i: nat)
    requires InfixAt(v, p, i) && p == "<" + b + ">" && Plain(v) && k != EMAIL && |v| >= MinSpan(k)
    requires k == PHONE ==> v[0] == '8' || v[0] == '+'
    requires k == OGRN || k == INN ==> cc.digit(v[0])
    requires forall j :: 0 <= j < |b| ==> b[j] != '+' && (j <= |Name(l)| ==> b[j] != '8' && !cc.digit(b[j]))
    ensures |b| > |Name(l)| + 10
  {
    assert forall j :: 0 <= j < |v| ==> v[j] == p[i + j];
    assert v[0] == p[i] && v[|v| - 1] == p[i + |v| - 1];
    assert i > 0 && i + |v| < |p|;
    assert forall j :: 0 <= j < |b| ==> b[j] == p[j + 1];
    assert b[i - 1..i - 1 + |v|] == v;
    assert v[0] == b[i - 1];
  }

  /** The entries of one pass: numbered from n + 1, each with its match. */
  ghost predicate Numbered(cc: Classes, k: Kind, items: seq<Item>, n: nat) {
    forall j: nat :: j < |items| ==> items[j].key == Placeholder(k, n + 1 + j) && Matched(cc, k, items[j].value)
  }

  lemma {:induction false} PassNumbered(cc: Classes, k: Kind, t: string, i: nat, n: nat)
    requires i <= |t|
    ensures Numbered(cc, k, Pass(cc, k, t, i, n).items, n)
    decreases |t| - i
  {
    hide Lang, Found, Pass, Placeholder, Span;
    if i == |t| {
      PassEnd(cc, k, t, n);
    } else {
      PassStep(cc, k, t, i, n);
      var f := Found(cc, k, t, i);
      if f.Some? {
        PassNumbered(cc, k, t, f.value, n + 1);
        var rest := Pass(cc, k, t, f.value, n + 1).items;
        var items := [Item(Placeholder(k, n + 1), t[i..f.value])] + rest;
        assert Matched(cc, k, t[i..f.value]);
        forall j: nat | j < |items|
          ensures items[j].key == Placeholder(k, n + 1 + j) && Matched(cc, k, items[j].value)
        {
          if j > 0 {
            assert items[j] == rest[j - 1];
            assert rest[j - 1].key == Placeholder(k, n + 1 + 1 + (j - 1));
          }
        }
      } else {
        PassNumbered(cc, k, t, i + 1, n);
      }
    }
  }

  /** Fewer than 10^9 placeholders of each kind: enough for every condition below. */
  ghost predicate Few(cc: Classes, t: string) {
    && |AfterEmail(cc, t).items| < Pow10(9)
    && |AfterPhone(cc, t).items| < Pow10(9)
    && |AfterOgrn(cc, t).items| < Pow10(9)
    && |AfterInn(cc, t).items| < Pow10(9)
  }

  lemma PlaceholderLength(k: Kind, n: nat)
    requires n < Pow10(10)
    ensures |Placeholder(k, n)| <= 18
  {
    hide Pow10, Decimal;
    DecimalLength(n, 10);
  }

  /** A pass issues at most one placeholder for five characters, and makes the
      text at most 4.6 times as long. */
  lemma {:induction false} PassSize(cc: Classes, k: Kind, t: string, i: nat, n: nat)
    requires i <= |t| && n + |t| - i < Pow10(10)
    ensures var m := Pass(cc, k, t, i, n); 5 * |m.items| <= |t| - i && 5 * |m.text| <= 23 * (|t| - i)
    decreases |t| - i
  {
    hide Lang, Found, Pass, Placeholder, Span, Pow10;
    if i == |t| {
      PassEnd(cc, k, t, n);
    } else {
      PassStep(cc, k, t, i, n);
      var f := Found(cc, k, t, i);
      if f.Some? {
        SpanFacts(cc, k, t, i, Found(cc, k, t, i).value);
        PlaceholderLength(k, n + 1);
        PassSize(cc, k, t, f.value, n + 1);
      } else {
        PassSize(cc, k, t, i + 1, n);
      }
    }
  }

  lemma SubSize(cc: Classes, k: Kind, t: string)
    requires |t| < 1_000_000_000
    ensures 5 * |Sub(cc, k, t).items| <= |t| && 5 * |Sub(cc, k, t).text| <= 23 * |t|
  {
    hide Pass, Pow10;
    Powers();
    PassSize(cc, k, t, 0, 0);
  }

  lemma Powers()
    ensures Pow10(9) == 1_000_000_000 && Pow10(10) == 10_000_000_000 && PhoneLike() == 80_000_000_000
  {
    assert Pow10(3) == 1_000;
    assert Pow10(6) == 1_000_000;
    assert Pow10(9) == 1_000_000_000;
  }

  lemma ShortTextIsFew(cc: Classes, t: string)
    requires |t| <= 10_000_000
    ensures Few(cc, t)
  {
    hide Sub, Pow10;
    Powers();
    SubSize(cc, EMAIL, t);
    SubSize(cc, PHONE, AfterEmail(cc, t).text);
    SubSize(cc, OGRN, AfterPhone(cc, t).text);
    SubSize(cc, INN, AfterOgrn(cc, t).text);
  }

  ghost function PassOf(cc: Classes, t: string, k: Kind): Masked {
    match k
    case EMAIL => AfterEmail(cc, t)
    case PHONE => AfterPhone(cc, t)
    case OGRN => AfterOgrn(cc, t)
    case INN => AfterInn(cc, t)
  }

  lemma PassOfNumbered(cc: Classes, t: string, k: Kind)
    ensures Numbered(cc, k, PassOf(cc, t, k).items, 0)
  {
    hide Pass, Numbered;
    match k
    case EMAIL => PassNumbered(cc, EMAIL, t, 0, 0);
    case PHONE => PassNumbered(cc, PHONE, AfterEmail(cc, t).text, 0, 0);
    case OGRN => PassNumbered(cc, OGRN, AfterPhone(cc, t).text, 0, 0);
    case INN => PassNumbered(cc, INN, AfterOgrn(cc, t).text, 0, 0);
  }

  /** Position j of the mapping is entry `n` of the pass of kind k. */
  function Locate(e: nat, p: nat, o: nat, j: nat): (r: (Kind, nat)) {
    if j < e then (EMAIL, j)
    else if j < e + p then (PHONE, j - e)
    else if j < e + p + o then (OGRN, j - e - p)
    else (INN, j - e - p - o)
  }

  lemma ItemAt(cc: Classes, t: string, j: nat) returns (k: Kind, n: nat)
    requires j < |Mask(cc, t).items|
    ensures n < |PassOf(cc, t, k).items| && Mask(cc, t).items[j] == PassOf(cc, t, k).items[n]
    ensures (k, n) == Locate(|PassOf(cc, t, EMAIL).items|, |PassOf(cc, t, PHONE).items|, |PassOf(cc, t, OGRN).items|, j)
    ensures Mask(cc, t).items[j].key == Placeholder(k, n + 1) && Matched(cc, k, Mask(cc, t).items[j].value)
  {
    hide AfterEmail, AfterPhone, AfterOgrn, AfterInn, Placeholder, Matched;
    var r := Locate(|PassOf(cc, t, EMAIL).items|, |PassOf(cc, t, PHONE).items|, |PassOf(cc, t, OGRN).items|, j);
    k, n := r.0, r.1;
    PassOfNumbered(cc, t, k);
  }

  lemma LocateInjective(e: nat, p: nat, o: nat, i: nat, j: nat)
    requires Locate(e, p, o, i) == Locate(e, p, o, j)
    ensures i == j
  {
  }

  /** All keys of a mapping differ, so the dict loses no entry. */
  lemma MaskDistinct(cc: Classes, t: string)
    ensures Distinct(Mask(cc, t).items)
  {
    hide Mask, PassOf, Placeholder, Matched, Locate;
    var items := Mask(cc, t).items;
    forall i, j | 0 <= i < j < |items| ensures items[i].key != items[j].key {
      var k, n := ItemAt(cc, t, i);
      var l, m := ItemAt(cc, t, j);
      if items[i].key == items[j].key {
        PlaceholderInjective(k, n + 1, l, m + 1);
        LocateInjective(|PassOf(cc, t, EMAIL).items|, |PassOf(cc, t, PHONE).items|, |PassOf(cc, t, OGRN).items|, i, j);
      }
    }
  }

  ghost function Mapping(cc: Classes, t: string): map<string, string> { AsMap(Mask(cc, t).items) }

  lemma FewOf(cc: Classes, t: string, k: Kind)
    requires Few(cc, t)
    ensures |PassOf(cc, t, k).items| < Pow10(9)
  {
    hide AfterEmail, AfterPhone, AfterOgrn, AfterInn;
  }

  /** Every key is a placeholder within the counters and maps to the text it stands for. */
  lemma MappingAt(cc: Classes, t: string, key: string) returns (k: Kind, n: nat)
    requires key in Mapping(cc, t)
    ensures key == Placeholder(k, n) && 1 <= n <= |PassOf(cc, t, k).items| && Matched(cc, k, Mapping(cc, t)[key])
  {
    hide Mask, PassOf, Placeholder, Matched, Locate;
    var items := Mask(cc, t).items;
    var j :| 0 <= j < |items| && items[j].key == key;
    MaskDistinct(cc, t);
    AsMapAt(items, j);
    k, n := ItemAt(cc, t, j);
    n := n + 1;
  }

  lemma MappingGood(cc: Classes, t: string)
    ensures Good(Mapping(cc, t)) && Recorded(Mask(cc, t).items, Mapping(cc, t))
  {
    hide Mask, PassOf, Placeholder, Locate;
    var m, items := Mapping(cc, t), Mask(cc, t).items;
    MaskDistinct(cc, t);
    forall j | 0 <= j < |items| ensures items[j].key in m && m[items[j].key] == items[j].value { AsMapAt(items, j); }
    forall key | key in m ensures Framed(key) && Plain(m[key]) {
      var k, n := MappingAt(cc, t, key);
      PlaceholderFramed(cc, k, n);
      MatchedFacts(cc, k, m[key]);
    }
  }

  /** The bodies of the keys attract only phone numbers. */
  lemma MappingInert(cc: Classes, t: string, q: Kind, x: string)
    requires q != PHONE
    ensures InertIn(cc, q, Mapping(cc, t), x)
  {
    hide Lang;
    var m := Mapping(cc, t);
    forall key | key in m ensures Free(cc, q, Inner(key)) {
      hide Mapping, Placeholder, PassOf, Free;
      var k, n := MappingAt(cc, t, key);
      PlaceholderFramed(cc, k, n);
      FreeBody(cc, q, k, n);
    }
  }

  /** A key in the output of a pass was issued by it, or was in the input. */
  lemma {:induction false} KeyFromOutput(cc: Classes, k: Kind, t: string, i: nat, n: nat, key: string)
    requires i <= |t| && Framed(key) && Infix(key, Pass(cc, k, t, i, n).text)
    ensures var items := Pass(cc, k, t, i, n).items;
            Infix(key, t) || exists j :: 0 <= j < |items| && items[j].key == key
    decreases |t| - i
  {
    hide Lang, Found, Pass, Placeholder, Span, Infix;
    if i == |t| {
      PassEnd(cc, k, t, n);
      NoInfix(key);
    } else {
      PassStep(cc, k, t, i, n);
      var out := Pass(cc, k, t, i, n);
      var f := Found(cc, k, t, i);
      if f.Some? {
        var ph, rest := Placeholder(k, n + 1), Pass(cc, k, t, f.value, n + 1);
        PlaceholderFramed(cc, k, n + 1);
        if key <= out.text {
          FramedPrefix(key, ph, out.text);
          assert out.items[0].key == key;
        } else {
          InfixPastKey(key, ph, rest.text);
          KeyFromOutput(cc, k, t, f.value, n + 1, key);
          if j :| 0 <= j < |rest.items| && rest.items[j].key == key { assert out.items[j + 1].key == key; }
        }
      } else {
        var rest := Pass(cc, k, t, i + 1, n);
        if key <= out.text {
          CopiedKey(cc, k, t, i, n, key);
        } else {
          InfixSplit(key, out.text);
          assert out.text[1..] == rest.text;
          KeyFromOutput(cc, k, t, i + 1, n, key);
        }
      }
    }
  }

  lemma NoInfix(key: string)
    requires Framed(key)
    ensures !Infix(key, "")
  {
  }

  lemma CopiedKey(cc: Classes, k: Kind, t: string, i: nat, n: nat, key: string)
    requires i < |t| && Found(cc, k, t, i).None? && Framed(key) && key <= Pass(cc, k, t, i, n).text
    ensures Infix(key, t)
  {
    hide Lang, Found, Pass, Infix, Placeholder, Plain, Span;
    var tail := key[1..];
    KeyTail(key);
    hide *;
    PassStep(cc, k, t, i, n);
    var rest := Pass(cc, k, t, i + 1, n).text;
    assert key == [key[0]] + tail;
    FirstAndRest(key, key[0], tail, t[i], rest);
    PassPrefix(cc, k, t, i + 1, n, tail);
    assert t == t[..i] + ([t[i]] + t[i + 1..]);
    PrefixInfix(key, [t[i]] + t[i + 1..]);
    InfixAfter(key, t[..i], [t[i]] + t[i + 1..]);
  }

  lemma FirstAndRest(key: string, c: char, tail: string, d: char, rest: string)
    requires key == [c] + tail && key <= [d] + rest
    ensures c == d && tail <= rest
  {
    assert key[0] == c && key[1..] == tail && ([d] + rest)[1..] == rest;
  }

  /** A key that is not at the front of ph + x is in x: framed texts do not overlap. */
  lemma InfixPastKey(key: string, ph: string, x: string)
    requires Framed(key) && Framed(ph) && Infix(key, ph + x) && !(key <= ph + x)
    ensures Infix(key, x)
  {
    var s := ph + x;
    var i: nat :| InfixAt(key, s, i);
    assert key[0] == s[i] && s[0..|key|] == s[..|key|];
    KeyTail(ph);
    assert forall j :: 0 < j < |ph| ==> s[j] == ph[1..][j - 1] != '<';
    assert i >= |ph|;
    assert x[i - |ph|..i - |ph| + |key|] == s[i..i + |key|];
    assert InfixAt(key, x, i - |ph|);
  }

  /** No placeholder that is itself a phone number is in the way of the phone
      pass: neither issued by the e-mail pass nor spelled in the text. */
  ghost predicate PhonesApart(cc: Classes, t: string) {
    && |AfterEmail(cc, t).items| < PhoneLike()
    && forall key :: key in Mapping(cc, t) && Infix(key, t) ==> Free(cc, PHONE, Inner(key))
  }

  lemma IssuedIsInert(cc: Classes, t: string, j: nat)
    requires j < |AfterEmail(cc, t).items| < PhoneLike()
    ensures Free(cc, PHONE, Inner(AfterEmail(cc, t).items[j].key))
  {
    hide Lang, Placeholder, Free, Body, Pass, PhoneLike, Matched, Sub, AfterEmail;
    PassOfNumbered(cc, t, EMAIL);
    PlaceholderFramed(cc, EMAIL, j + 1);
    FreeBody(cc, PHONE, EMAIL, j + 1);
    assert PassOf(cc, t, EMAIL).items[j].key == Placeholder(EMAIL, 0 + 1 + j);
  }

  lemma PhonePassInert(cc: Classes, t: string)
    requires PhonesApart(cc, t)
    ensures InertIn(cc, PHONE, Mapping(cc, t), AfterEmail(cc, t).text)
  {
    MappingGood(cc, t);
    hide Lang, Pass, Infix, Free, Mapping, PhoneLike, Framed, Plain, Inner;
    var items := AfterEmail(cc, t).items;
    forall key | key in Mapping(cc, t) && Infix(key, AfterEmail(cc, t).text)
      ensures Free(cc, PHONE, Inner(key))
    {
      KeyFromOutput(cc, EMAIL, t, 0, 0, key);
      if j: nat :| j < |items| && items[j].key == key { IssuedIsInert(cc, t, j); }
    }
  }

  lemma FewIsApart(cc: Classes, t: string)
    requires Few(cc, t)
    ensures Apart(Mapping(cc, t)) && Solid(Mapping(cc, t), Mapping(cc, t))
  {
    var m := Mapping(cc, t);
    forall key, other | key in m && other in m ensures !Infix(m[key], other) {
      hide Mapping, Few, Placeholder, PassOf, Infix, Matched;
      var k, n := MappingAt(cc, t, key);
      var l, o := MappingAt(cc, t, other);
      FewOf(cc, t, l);
      MatchedNotInPlaceholder(cc, k, m[key], l, o);
    }
  }

  lemma FewFits(cc: Classes, t: string)
    requires Few(cc, t)
    ensures CountersFit(cc, t) && PhonesApart(cc, t)
  {
    hide AfterEmail, AfterPhone, AfterOgrn, AfterInn, Mapping, Infix, Free;
    Powers();
    forall key | key in Mapping(cc, t) ensures Free(cc, PHONE, Inner(key)) {
      hide PhoneLike, Pow10, PassOf, Placeholder, Matched;
      var k, n := MappingAt(cc, t, key);
      FewOf(cc, t, k);
      PlaceholderFramed(cc, k, n);
      FreeBody(cc, PHONE, k, n);
    }
  }

  /** All the conditions under which the masking theorems hold are met by every
      text of up to ten million characters. */
  lemma ShortTextFits(cc: Classes, t: string)
    requires |t| <= 10_000_000
    ensures CountersFit(cc, t) && PhonesApart(cc, t) && Apart(Mapping(cc, t))
  {
    ShortTextIsFew(cc, t);
    FewFits(cc, t);
    FewIsApart(cc, t);
  }

  /** Restoring a masked text is restoring the original, whatever the original holds. */
  lemma MaskRestore(cc: Classes, t: string)
    requires PhonesApart(cc, t)
    ensures Restore(Mask(cc, t).text, Mapping(cc, t)) == Restore(t, Mapping(cc, t))
  {
    MappingGood(cc, t);
    RecordedAll(cc, t, Mapping(cc, t));
    PhonePassInert(cc, t);
    hide Mapping, PhonesApart, Sub, InertIn, Good, Restore, Recorded;
    var m := Mapping(cc, t);
    MappingInert(cc, t, EMAIL, t);
    MappingInert(cc, t, OGRN, AfterPhone(cc, t).text);
    MappingInert(cc, t, INN, AfterOgrn(cc, t).text);
    SubRestore(cc, EMAIL, t, m);
    SubRestore(cc, PHONE, AfterEmail(cc, t).text, m);
    SubRestore(cc, OGRN, AfterPhone(cc, t).text, m);
    SubRestore(cc, INN, AfterOgrn(cc, t).text, m);
  }

  lemma RecordedAll(cc: Classes, t: string, m: map<string, string>)
    requires Recorded(Mask(cc, t).items, m)
    ensures Recorded(AfterEmail(cc, t).items, m) && Recorded(AfterPhone(cc, t).items, m)
    ensures Recorded(AfterOgrn(cc, t).items, m) && Recorded(AfterInn(cc, t).items, m)
  {
    hide AfterEmail, AfterPhone, AfterOgrn, AfterInn, Mask, Recorded;
    RecordedPart(cc, t, EMAIL, m);
    RecordedPart(cc, t, PHONE, m);
    RecordedPart(cc, t, OGRN, m);
    RecordedPart(cc, t, INN, m);
  }

  lemma SubRestore(cc: Classes, k: Kind, t: string, m: map<string, string>)
    requires Good(m) && InertIn(cc, k, m, t) && Recorded(Sub(cc, k, t).items, m)
    ensures Restore(Sub(cc, k, t).text, m) == Restore(t, m)
  {
    hide Pass, Restore, Good, InertIn, Recorded;
    PassRestore(cc, k, t, 0, 0, m);
    assert t[0..] == t;
  }

  lemma RecordedPart(cc: Classes, t: string, k: Kind, m: map<string, string>)
    requires Recorded(Mask(cc, t).items, m)
    ensures Recorded(PassOf(cc, t, k).items, m)
  {
    hide AfterEmail, AfterPhone, AfterOgrn, AfterInn;
    var items, part := Mask(cc, t).items, PassOf(cc, t, k).items;
    var e, p, o := |PassOf(cc, t, EMAIL).items|, |PassOf(cc, t, PHONE).items|, |PassOf(cc, t, OGRN).items|;
    var start := match k case EMAIL => 0 case PHONE => e case OGRN => e + p case INN => e + p + o;
    forall j | 0 <= j < |part| ensures part[j].key in m && m[part[j].key] == part[j].value {
      assert items[start + j] == part[j];
    }
  }

  /** `order` lists the entries of the mapping of t, in some order. */
  ghost predicate Lists(cc: Classes, t: string, order: seq<Item>) {
    Distinct(order) && AsMap(order) == Mapping(cc, t)
  }

  /** For every text whatever, such as a model's answer: if no value completes
      another key, the order in which the entries are replaced does not matter. */
  lemma UnmaskAnyOrder(cc: Classes, t: string, order: seq<Item>, reply: string)
    requires Apart(Mapping(cc, t)) && Lists(cc, t, order)
    ensures Unmask(reply, order) == Restore(reply, Mapping(cc, t))
  {
    hide Mask;
    MappingGood(cc, t);
    UnmaskIsRestore(reply, order);
  }

  /** Some placeholder issued for t already occurs in t. */
  ghost predicate Collides(cc: Classes, t: string) {
    exists key :: key in Mapping(cc, t) && Infix(key, t)
  }

  lemma {:induction false} RestoreUnchanged(t: string, m: map<string, string>)
    requires Good(m) && forall key :: key in m ==> !Infix(key, t)
    ensures Restore(t, m) == t
  {
    if t != "" {
      forall key | key in m ensures !Infix(key, t[1..]) && !(key <= t) {
        if Infix(key, t[1..]) { InfixTail(key, t); }
        if key <= t { PrefixInfix(key, t); }
      }
      RestoreChar(t, m);
      RestoreUnchanged(t[1..], m);
    }
  }

  lemma InfixSplit(key: string, t: string)
    requires Infix(key, t) && t != "" && !(key <= t)
    ensures Infix(key, t[1..])
  {
    var i: nat :| InfixAt(key, t, i);
    assert t[0..|key|] == t[..|key|];
    assert i > 0;
    assert t[1..][i - 1..i - 1 + |key|] == t[i..i + |key|];
    assert InfixAt(key, t[1..], i - 1);
  }

  /** Every key that is restored costs one '<'. */
  lemma {:induction false} RestoreLoses(t: string, m: map<string, string>)
    requires Good(m)
    ensures Count(Restore(t, m), '<') <= Count(t, '<')
    ensures (exists key :: key in m && Infix(key, t)) ==> Count(Restore(t, m), '<') < Count(t, '<')
    decreases |t|
  {
    if t == "" {
      forall key | key in m ensures !Infix(key, t) {}
    } else {
      var c := t[..Close(t)];
      TokenNotKey(t, m);
      if c in m {
        var rest := t[|c|..];
        assert t == c + rest;
        RestoreKey(c, rest, m);
        RestoreLoses(rest, m);
        CountAppend(c, rest, '<');
        CountAppend(m[c], Restore(rest, m), '<');
        CountZero(m[c], '<');
      } else {
        RestoreChar(t, m);
        RestoreLoses(t[1..], m);
        if key :| key in m && Infix(key, t) { InfixSplit(key, t); }
      }
    }
  }

  lemma RestoreIsIdentity(t: string, m: map<string, string>)
    requires Good(m)
    ensures Restore(t, m) == t <==> !exists key :: key in m && Infix(key, t)
  {
    if exists key :: key in m && Infix(key, t) {
      RestoreLoses(t, m);
    } else {
      RestoreUnchanged(t, m);
    }
  }

  /** The round trip, in every order of the entries: unmasking a masked text
      gives the original back exactly when no placeholder issued for it occurs
      in it. */
  lemma RoundTrip(cc: Classes, t: string, order: seq<Item>)
    requires PhonesApart(cc, t) && Lists(cc, t, order)
    ensures Unmask(Mask(cc, t).text, order) == t <==> !Collides(cc, t)
  {
    MaskRestore(cc, t);
    MappingGood(cc, t);
    hide Mask, Mapping, Good, Restore, PhonesApart;
    var masked, m := Mask(cc, t).text, Mapping(cc, t);
    RestoreIsIdentity(t, m);
    if Collides(cc, t) {
      RestoreLoses(t, m);
      UnmaskLoses(masked, order);
    } else {
      assert Clear(masked, m);
      UnmaskIsRestore(masked, order);
    }
  }

  /** A text that spells none of its placeholders survives, until the e-mail
      placeholders themselves look like phone numbers. */
  lemma Survives(cc: Classes, t: string, order: seq<Item>)
    requires !Collides(cc, t) && |AfterEmail(cc, t).items| < PhoneLike() && Lists(cc, t, order)
    ensures Unmask(Mask(cc, t).text, order) == t
  {
    hide Mask, Mapping, Infix, AfterEmail, PhoneLike;
    RoundTrip(cc, t, order);
  }

  lemma InfixFirst(key: string, t: string)
    requires key != "" && Infix(key, t)
    ensures key[0] in t
  {
    var i: nat :| InfixAt(key, t, i);
    assert t[i] == key[0];
  }

  lemma PlainTextIsApart(cc: Classes, t: string)
    requires '<' !in t
    ensures !Collides(cc, t)
  {
    MappingGood(cc, t);
    hide Mapping, Infix;
    forall key | key in Mapping(cc, t) ensures Infix(key, t) ==> '<' in t {
      if Infix(key, t) { InfixFirst(key, t); }
    }
  }

  // ---- Texts that do not survive -------------------------------------------

  predicate TenDigits(t: string) { |t| == 10 && forall j :: 0 <= j < 10 ==> '0' <= t[j] <= '9' }

  lemma AltLang(cc: Classes, a: Re, b: Re, t: string, i: nat, e: nat)
    requires i <= e <= |t| && Lang(cc, a, t, i, e)
    ensures Lang(cc, Alt(a, b), t, i, e)
  {
  }

  /** Ten digits are an INN and nothing else. */
  lemma TenDigitsAreInn(cc: Classes, t: string)
    requires TenDigits(t)
    ensures Span(cc, INN, t, 0, 10)
    ensures forall k :: k != INN ==> Free(cc, k, t)
  {
    hide Lang;
    DigitWordLang(cc, t, 10, 0, 10);
    AltLang(cc, DigitWord(10), DigitWord(12), t, 0, 10);
    forall k, i: nat, e: nat | k != INN ensures !Span(cc, k, t, i, e) {
      if Span(cc, k, t, i, e) {
        SpanFacts(cc, k, t, i, e);
        if k == EMAIL { var a, d := EmailLang(cc, t, i, e); }
      }
    }
  }

  lemma FirstInn()
    ensures Placeholder(INN, 1) == "<INN_1>"
  {
    assert Decimal(1) == "1";
  }

  lemma FirstInnKey(cc: Classes, t: string)
    requires AfterInn(cc, t).items != []
    ensures Placeholder(INN, 1) in Mapping(cc, t)
  {
    hide AfterEmail, AfterPhone, AfterOgrn, AfterInn, Placeholder, Matched, Mask, Mapping;
    PassOfNumbered(cc, t, INN);
    MappingGood(cc, t);
    RecordedPart(cc, t, INN, Mapping(cc, t));
    assert PassOf(cc, t, INN).items[0].key == Placeholder(INN, 1);
  }

  /** A text that spells the first INN placeholder before an INN. */
  function Spelled(inn: string): string { Placeholder(INN, 1) + inn }

  /** The first three passes leave it alone and the fourth finds the INN. */
  lemma SpelledCollides(cc: Classes, inn: string)
    requires TenDigits(inn)
    ensures Collides(cc, Spelled(inn))
  {
    hide Lang, Span, Pass, Body, Mapping, Infix, PhoneLike, Free;
    var t := Spelled(inn);
    TenDigitsAreInn(cc, inn);
    Powers();
    forall k | k != INN ensures Free(cc, k, t) {
      assert Free(cc, k, "") by { FreeNothing(cc, k); }
      FreeBody(cc, k, INN, 1);
      FreeAroundPlaceholder(cc, k, "", INN, 1, inn);
      assert "" + Placeholder(INN, 1) + inn == t;
    }
    FreePass(cc, EMAIL, t, 0, 0);
    FreePass(cc, PHONE, t, 0, 0);
    FreePass(cc, OGRN, t, 0, 0);
    assert t[0..] == t;
    FirstInn();
    assert t[7..17] == inn;
    StopCuts(cc, t, 6);
    SpanInPiece(cc, INN, t, 7, 17, 0, 10);
    PassFinds(cc, INN, t, 0, 0, 7, 17);
    FirstInnKey(cc, t);
    PrefixInfix(Placeholder(INN, 1), t);
  }

  lemma FreeNothing(cc: Classes, k: Kind)
    ensures Free(cc, k, "")
  {
    hide Lang;
    forall i: nat, e: nat ensures !Span(cc, k, "", i, e) {
      if Span(cc, k, "", i, e) { SpanFacts(cc, k, "", i, e); }
    }
  }

  /** Such a text does not survive. */
  lemma SpelledDoesNotSurvive(cc: Classes, inn: string)
    requires TenDigits(inn)
    ensures Unmask(Mask(cc, Spelled(inn)).text, Mask(cc, Spelled(inn)).items) != Spelled(inn)
  {
    FirstInn();
    hide Mask, Unmask, Collides, PhonesApart, CountersFit;
    var t := Spelled(inn);
    assert |t| == 17;
    ShortTextFits(cc, t);
    MaskDistinct(cc, t);
    assert Lists(cc, t, Mask(cc, t).items);
    SpelledCollides(cc, inn);
    RoundTrip(cc, t, Mask(cc, t).items);
  }

  lemma {:induction false} PassFinds(cc: Classes, k: Kind, t: string, i: nat, n: nat, p: nat, e: nat)
    requires i <= p && Span(cc, k, t, p, e)
    ensures Pass(cc, k, t, i, n).items != []
    decreases |t| - i
  {
    hide Lang, Pass;
    SpanFacts(cc, k, t, p, e);
    PassStep(cc, k, t, i, n);
    if Found(cc, k, t, i).None? { PassFinds(cc, k, t, i + 1, n, p, e); }
  }
}
