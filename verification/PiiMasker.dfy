/** `mask_pii` and `unmask_pii`: four substitution passes with numbered
    placeholders, undone by sequential replacement. */
module PiiMasker {
  import opened Options
  import opened Regex
  import opened Text
  import opened PiiPatterns

  function Name(k: Kind): string {
    match k
    case EMAIL => "EMAIL"
    case PHONE => "PHONE"
    case OGRN => "OGRN"
    case INN => "INN"
  }

  function Body(k: Kind, n: nat): string { Name(k) + "_" + Decimal(n) }

  function Placeholder(k: Kind, n: nat): string { "<" + Body(k, n) + ">" }

  /** One entry of the mapping; a mapping is the list of its entries in insertion order. */
  datatype Item = Item(key: string, value: string)

  datatype Masked = Masked(text: string, items: seq<Item>)

  /** The match of pattern k that starts at i, if any. */
  function Found(cc: Classes, k: Kind, t: string, i: nat): (e: Option<nat>)
    requires i <= |t|
    ensures e.Some? ==> i < e.value <= |t| && Span(cc, k, t, i, e.value)
    ensures e.None? ==> forall e: nat :: !Span(cc, k, t, i, e)
  {
    hide Ends;
    hide Lang;
    MatchEndIsLang(cc, Pattern(k), t, i);
    var r := MatchEnd(cc, Pattern(k), t, i);
    assert r.Some? ==> i < r.value by {
      if r.Some? { SpanFacts(cc, k, t, i, r.value); }
    }
    r
  }

  /** `pat.sub(sub, s)` from position i on, with n placeholders already issued. */
  function Pass(cc: Classes, k: Kind, t: string, i: nat, n: nat): Masked
    requires i <= |t|
    decreases |t| - i
  {
    if i == |t| then Masked("", []) else
    match Found(cc, k, t, i)
    case Some(e) =>
      var rest := Pass(cc, k, t, e, n + 1);
      Masked(Placeholder(k, n + 1) + rest.text, [Item(Placeholder(k, n + 1), t[i..e])] + rest.items)
    case None =>
      var rest := Pass(cc, k, t, i + 1, n);
      Masked([t[i]] + rest.text, rest.items)
  }

  function Sub(cc: Classes, k: Kind, t: string): Masked { Pass(cc, k, t, 0, 0) }

  function AfterEmail(cc: Classes, t: string): Masked { Sub(cc, EMAIL, t) }
  function AfterPhone(cc: Classes, t: string): Masked { Sub(cc, PHONE, AfterEmail(cc, t).text) }
  function AfterOgrn(cc: Classes, t: string): Masked { Sub(cc, OGRN, AfterPhone(cc, t).text) }
  function AfterInn(cc: Classes, t: string): Masked { Sub(cc, INN, AfterOgrn(cc, t).text) }

  function Mask(cc: Classes, t: string): Masked {
    Masked(AfterInn(cc, t).text,
           AfterEmail(cc, t).items + AfterPhone(cc, t).items + AfterOgrn(cc, t).items + AfterInn(cc, t).items)
  }

  /** `unmask_pii` over the entries in the given order. */
  function Unmask(t: string, items: seq<Item>): string
    decreases |items|
  {
    if items == [] then t
    else Unmask(Replace(t, items[0].key, items[0].value), items[1..])
  }

  /** One step of a pass: a match is cut out whole, anything else is copied. */
  lemma PassStep(cc: Classes, k: Kind, t: string, i: nat, n: nat)
    requires i < |t|
    ensures var f := Found(cc, k, t, i);
            && (f.Some? ==> var rest := Pass(cc, k, t, f.value, n + 1);
                 Pass(cc, k, t, i, n) == Masked(Placeholder(k, n + 1) + rest.text,
                                                [Item(Placeholder(k, n + 1), t[i..f.value])] + rest.items))
            && (f.None? ==> var rest := Pass(cc, k, t, i + 1, n);
                 Pass(cc, k, t, i, n) == Masked([t[i]] + rest.text, rest.items))
  {
    hide Found;
    hide Placeholder;
  }

  lemma Appended(text: string, items: seq<Item>, piece: string, added: seq<Item>, rest: Masked)
    ensures text + (piece + rest.text) == text + piece + rest.text
    ensures items + (added + rest.items) == items + added + rest.items
  {
  }

  method Substitute(cc: Classes, k: Kind, s: string, issued: seq<Item>, counter: nat)
    returns (text: string, mapping: seq<Item>, counter': nat)
    ensures var m := Pass(cc, k, s, 0, counter);
            text == m.text && mapping == issued + m.items && counter' == counter + |m.items|
  {
    hide *;
    text, mapping, counter' := "", issued, counter;
    var pos := 0;
    ghost var all := Pass(cc, k, s, 0, counter);
    ghost var rest := all;
    while pos < |s|
      invariant pos <= |s| && rest == Pass(cc, k, s, pos, counter')
      invariant all.text == text + rest.text
      invariant issued + all.items == mapping + rest.items
      invariant counter + |all.items| == counter' + |rest.items|
    {
      PassStep(cc, k, s, pos, counter');
      var m := Found(cc, k, s, pos);
      if m.Some? {
        var placeholder := Placeholder(k, counter' + 1);
        var item := Item(placeholder, s[pos..m.value]);
        rest := Pass(cc, k, s, m.value, counter' + 1);
        Appended(text, mapping, placeholder, [item], rest);
        text, mapping := text + placeholder, mapping + [item];
        counter', pos := counter' + 1, m.value;
      } else {
        rest := Pass(cc, k, s, pos + 1, counter');
        Appended(text, mapping, [s[pos]], [], rest);
        text, pos := text + [s[pos]], pos + 1;
      }
    }
    PassEnd(cc, k, s, counter');
  }

  lemma PassEnd(cc: Classes, k: Kind, t: string, n: nat)
    ensures Pass(cc, k, t, |t|, n) == Masked("", [])
  {
  }

  method MaskPii(cc: Classes, t: string) returns (text: string, mapping: seq<Item>)
    ensures Masked(text, mapping) == Mask(cc, t)
  {
    hide Pass;
    var n;
    text, mapping, n := Substitute(cc, EMAIL, t, [], 0);
    text, mapping, n := Substitute(cc, PHONE, text, mapping, 0);
    text, mapping, n := Substitute(cc, OGRN, text, mapping, 0);
    text, mapping, n := Substitute(cc, INN, text, mapping, 0);
  }

  method UnmaskPii(t: string, items: seq<Item>) returns (text: string)
    ensures text == Unmask(t, items)
  {
    text := t;
    for i := 0 to |items|
      invariant Unmask(text, items[i..]) == Unmask(t, items)
    {
      assert items[i..][1..] == items[i + 1..];
      text := Replace(text, items[i].key, items[i].value);
    }
  }
}
