/** Unmasking undoes masking: exactly when, and in whatever order the entries
    of the mapping are replaced. */
module PiiRoundTrip {
  import opened Regex
  import opened Text
  import opened PiiPatterns
  import opened PiiMasker
  import opened PiiResidue

  /** '<', a body free of framing characters, '>'. */
  ghost predicate Framed(key: string) {
    |key| >= 2 && key[0] == '<' && key[|key| - 1] == '>' && Plain(key[1..|key| - 1])
  }

  ghost predicate Plain(v: string) { forall j :: 0 <= j < |v| ==> !Stop(v[j]) }

  ghost predicate Good(m: map<string, string>) {
    forall key :: key in m ==> Framed(key) && Plain(m[key])
  }

  /** Length of the shortest prefix that ends in '>', or of the whole text. */
  function Close(t: string): (c: nat)
    ensures c <= |t| && (t != "" ==> c > 0)
  {
    if t == "" then 0 else if t[0] == '>' then 1 else 1 + Close(t[1..])
  }

  /** Simultaneous replacement: the reference for `unmask_pii`. One scan from
      the left, every key that shows up becomes its value, nothing is rescanned. */
  function Restore(t: string, m: map<string, string>): string
    decreases |t|
  {
    if t == "" then ""
    else if t[..Close(t)] in m then m[t[..Close(t)]] + Restore(t[Close(t)..], m)
    else [t[0]] + Restore(t[1..], m)
  }

  /** Restoring leaves no key behind and forms none. */
  ghost predicate Clear(t: string, m: map<string, string>) {
    forall key :: key in m ==> !Infix(key, Restore(t, m))
  }

  /** The value sits inside no key of the mapping. */
  ghost predicate Outside(v: string, m: map<string, string>) { forall key :: key in m ==> !Infix(v, key) }

  /** No value can complete another entry's key. */
  ghost predicate Apart(m: map<string, string>) {
    forall key :: key in m ==> Outside(m[key], m - {key})
  }

  /** No value of the one mapping can complete a key of the other. */
  ghost predicate Solid(s: map<string, string>, m: map<string, string>) {
    forall key :: key in s ==> Outside(s[key], m)
  }

  lemma {:induction false} ClosePlain(v: string, x: string)
    requires Plain(v)
    ensures Close(v + [ '>' ] + x) == |v| + 1
  {
    var t := v + ['>'] + x;
    if v == "" {
      assert t[0] == '>';
    } else {
      assert t[0] == v[0] && Stop('>');
      assert t[1..] == v[1..] + ['>'] + x;
      ClosePlain(v[1..], x);
    }
  }

  /** A framed key that starts the text is the token read there. */
  lemma KeyIsToken(key: string, t: string)
    requires Framed(key) && key <= t
    ensures t[..Close(t)] == key
  {
    var v, x := key[..|key| - 1], t[|key|..];
    assert v == ['<'] + key[1..|key| - 1];
    var w := key[1..|key| - 1];
    assert t[1..] == w + ['>'] + x;
    ClosePlain(w, x);
    assert t[0] == '<';
    assert Close(t) == |key|;
  }

  lemma TokenNotKey(t: string, m: map<string, string>)
    requires Good(m) && t != ""
    ensures t[..Close(t)] in m ==> t[0] == '<'
    ensures t[..Close(t)] !in m <==> forall key :: key in m ==> !(key <= t)
  {
    var c := t[..Close(t)];
    if c in m {
      assert c[0] == t[0];
      assert c <= t;
    }
    forall key | key in m && key <= t ensures c == key { KeyIsToken(key, t); }
  }

  lemma {:induction false} RestorePlain(v: string, x: string, m: map<string, string>)
    requires Good(m) && '<' !in v
    ensures Restore(v + x, m) == v + Restore(x, m)
  {
    if v == "" {
      assert v + x == x;
    } else {
      var t := v + x;
      assert t[0] == v[0] && t[1..] == v[1..] + x;
      forall key | key in m ensures !(key <= t) { assert key[0] == '<'; }
      hide Restore, Close;
      RestoreChar(t, m);
      RestorePlain(v[1..], x, m);
    }
  }

  lemma RestoreKey(key: string, x: string, m: map<string, string>)
    requires Good(m) && key in m
    ensures Restore(key + x, m) == m[key] + Restore(x, m)
  {
    KeyIsToken(key, key + x);
    assert (key + x)[|key|..] == x;
  }

  lemma RestoreChar(t: string, m: map<string, string>)
    requires t != "" && Good(m) && forall key :: key in m ==> !(key <= t)
    ensures Restore(t, m) == [t[0]] + Restore(t[1..], m)
  {
    TokenNotKey(t, m);
  }

  // ---- One replacement at a time ------------------------------------------

  lemma FramedPrefix(a: string, b: string, t: string)
    requires Framed(a) && Framed(b) && a <= t && b <= t
    ensures a == b
  {
    KeyIsToken(a, t);
    KeyIsToken(b, t);
  }

  lemma {:induction false} ReplacePlain(v: string, x: string, key: string, value: string)
    requires Framed(key) && '<' !in v
    ensures Replace(v + x, key, value) == v + Replace(x, key, value)
  {
    if v == "" {
      assert v + x == x;
    } else {
      var t := v + x;
      assert t[0] == v[0] && t[1..] == v[1..] + x;
      ReplacePlain(v[1..], x, key, value);
    }
  }

  lemma ReplaceOtherKey(other: string, x: string, key: string, value: string)
    requires Framed(key) && Framed(other) && other != key
    ensures Replace(other + x, key, value) == other + Replace(x, key, value)
  {
    var t := other + x;
    if key <= t { FramedPrefix(key, other, t); }
    assert t[1..] == other[1..] + x;
    forall j | 0 <= j < |other[1..]| ensures other[1..][j] != '<' {
      if j < |other| - 2 { assert other[1..][j] == other[1..|other| - 1][j]; }
    }
    ReplacePlain(other[1..], x, key, value);
    assert t[0] == other[0];
  }

  /** If replacing made `want` appear at the front, then `want` was there
      already, or the value sits inside `want`. */
  lemma {:induction false} NothingNew(x: string, key: string, value: string, want: string)
    requires Framed(key) && Plain(value) && want != "" && want[|want| - 1] == '>'
    requires want <= Replace(x, key, value)
    ensures want <= x || Infix(value, want)
    decreases |x|
  {
    var r := Replace(x, key, value);
    if x == "" {
    } else if key <= x {
      var r := value + Replace(x[|key|..], key, value);
      assert forall j :: 0 <= j < |want| ==> want[j] == r[j];
      assert |value| < |want|;
      assert want[0..|value|] == r[..|value|] == value;
      assert InfixAt(value, want, 0);
    } else {
      assert r[1..] == Replace(x[1..], key, value) && want[0] == r[0] == x[0];
      if |want| > 1 {
        var w := want[1..];
        assert w <= r[1..];
        NothingNew(x[1..], key, value, w);
        if Infix(value, w) { InfixTail(value, want); }
        assert want == [x[0]] + w;
        assert x == [x[0]] + x[1..];
      }
    }
  }

  /** Text without '<' at the front of a replacement is there after restoring, too. */
  lemma {:induction false} PlainPrefix(x: string, m: map<string, string>, key: string, w: string)
    requires Good(m) && key in m && '<' !in w && w <= Replace(x, key, m[key])
    ensures w <= Restore(x, m)
    decreases |x|
  {
    if w == "" || x == "" {
    } else if key <= x {
      hide Restore;
      var v, rest := m[key], x[|key|..];
      assert x == key + rest;
      RestoreKey(key, rest, m);
      if |w| <= |v| {
        assert w == v[..|w|];
      } else {
        assert w == v + w[|v|..];
        PlainPrefix(rest, m, key, w[|v|..]);
      }
    } else {
      var r := Replace(x, key, m[key]);
      assert w[0] == r[0] == x[0] && r[1..] == Replace(x[1..], key, m[key]);
      forall other | other in m ensures !(other <= x) { assert other[0] == '<'; }
      hide Restore, Replace;
      RestoreChar(x, m);
      PlainPrefix(x[1..], m, key, w[1..]);
      assert w == [w[0]] + w[1..];
    }
  }

  lemma ReplaceHead(t: string, key: string, v: string)
    requires key != "" && t != "" && !(key <= t)
    ensures Replace(t, key, v) == [t[0]] + Replace(t[1..], key, v)
  {
  }

  lemma GoodKey(m: map<string, string>, key: string)
    requires Good(m) && key in m
    ensures Framed(key) && Plain(m[key]) && '<' !in m[key]
  {
  }

  lemma OldKeyToken(t: string, m: map<string, string>, key: string, other: string)
    requires Good(m) && key in m && Framed(other) && t != "" && !(key <= t) && t[..Close(t)] in m
    requires other <= Replace(t, key, m[key])
    ensures other <= t
  {
    var c := t[..Close(t)];
    hide Close, Replace;
    assert t == c + t[|c|..];
    ReplaceOtherKey(c, t[|c|..], key, m[key]);
    FramedPrefix(c, other, Replace(t, key, m[key]));
  }

  lemma OldKeyChar(t: string, m: map<string, string>, key: string, other: string)
    requires Good(m) && key in m && Framed(other) && t != "" && forall k :: k in m ==> !(k <= t)
    requires other <= Replace(t, key, m[key])
    ensures other <= t || (Infix(m[key], other) && other <= Restore(t, m))
  {
    var r, w := Replace(t, key, m[key]), other[1..];
    GoodKey(m, key);
    ReplaceHead(t, key, m[key]);
    KeyTail(other);
    hide Restore, Replace, Infix, Good;
    assert r[0] == t[0] == other[0];
    assert w <= r[1..] == Replace(t[1..], key, m[key]);
    assert other == [t[0]] + w && t == [t[0]] + t[1..];
    NothingNew(t[1..], key, m[key], w);
    if Infix(m[key], w) {
      InfixTail(m[key], other);
      PlainPrefix(t[1..], m, key, w);
      RestoreChar(t, m);
    }
  }

  /** A key at the front after a replacement was there before, unless the value
      completed it; then restoring forms it as well. */
  lemma OldKey(t: string, m: map<string, string>, key: string, other: string)
    requires Good(m) && key in m && Framed(other) && t != "" && !(key <= t)
    requires other <= Replace(t, key, m[key])
    ensures other <= t || (Infix(m[key], other) && other <= Restore(t, m))
  {
    hide Restore, Replace, Infix;
    if t[..Close(t)] in m {
      OldKeyToken(t, m, key, other);
    } else {
      TokenNotKey(t, m);
      OldKeyChar(t, m, key, other);
    }
  }

  lemma KeyTail(key: string)
    requires Framed(key)
    ensures '<' !in key[1..]
  {
    var w := key[1..];
    forall j | 0 <= j < |w| ensures w[j] != '<' {
      if j < |key| - 2 { assert w[j] == key[1..|key| - 1][j]; }
    }
  }

  /** Where a replacement creates no key, it can be moved out of restoring. */
  lemma ReplaceChar(t: string, m: map<string, string>, key: string, m': map<string, string>)
    requires Good(m) && key in m && m'.Keys <= m.Keys && Good(m') && t != "" && t[..Close(t)] !in m
    requires forall other :: other in m' ==> !(other <= Replace(t, key, m[key]))
    ensures Restore(Replace(t, key, m[key]), m') == [t[0]] + Restore(Replace(t[1..], key, m[key]), m')
  {
    TokenNotKey(t, m);
    var r := Replace(t, key, m[key]);
    assert !(key <= t);
    assert r[0] == t[0] && r[1..] == Replace(t[1..], key, m[key]);
    hide Restore, Replace;
    RestoreChar(r, m');
  }

  lemma ReplaceKey(t: string, m: map<string, string>, key: string, m': map<string, string>)
    requires Good(m) && key in m && Good(m') && t != "" && t[..Close(t)] in m
    requires m' == m || m' == m - {key}
    ensures var c, rest := t[..Close(t)], t[Close(t)..];
            && Restore(Replace(t, key, m[key]), m') == m[c] + Restore(Replace(rest, key, m[key]), m')
            && Restore(t, m) == m[c] + Restore(rest, m)
  {
    var value, c, rest := m[key], t[..Close(t)], t[Close(t)..];
    assert t == c + rest;
    if c == key {
      assert Replace(t, key, value) == value + Replace(rest, key, value);
      hide Restore, Replace, Close;
      RestorePlain(value, Replace(rest, key, value), m');
    } else {
      hide Restore, Replace, Close;
      ReplaceOtherKey(c, rest, key, value);
      RestoreKey(c, Replace(rest, key, value), m');
    }
  }

  lemma ClearTail(t: string, m: map<string, string>, v: string, rest: string)
    requires Clear(t, m) && Restore(t, m) == v + Restore(rest, m)
    ensures Clear(rest, m)
  {
    hide Restore;
    forall key | key in m ensures !Infix(key, Restore(rest, m)) {
      if Infix(key, Restore(rest, m)) { InfixAfter(key, v, Restore(rest, m)); }
    }
  }

  lemma InfixAfter(w: string, a: string, s: string)
    requires Infix(w, s)
    ensures Infix(w, a + s)
  {
    var i: nat :| InfixAt(w, s, i);
    assert (a + s)[|a| + i..|a| + i + |w|] == s[i..i + |w|];
    assert InfixAt(w, a + s, |a| + i);
  }

  lemma PrefixInfix(key: string, t: string)
    requires key <= t
    ensures Infix(key, t)
  {
    assert t[0..|key|] == key;
    assert InfixAt(key, t, 0);
  }

  /** Replacing one key and restoring the others, or all of them, is restoring
      all of them, if the value completes no key or restoring forms none. */
  lemma {:induction false} ReplaceThenRestore(t: string, m: map<string, string>, key: string, m': map<string, string>)
    requires Good(m) && key in m && (m' == m || m' == m - {key})
    requires Clear(t, m) || Outside(m[key], m')
    ensures Restore(Replace(t, key, m[key]), m') == Restore(t, m)
    decreases |t|
  {
    if t == "" {
    } else {
      hide Restore, Clear, Outside, Replace, Infix;
      var c, rest := t[..Close(t)], t[Close(t)..];
      if c in m {
        ReplaceKey(t, m, key, m');
        if Clear(t, m) { ClearTail(t, m, m[c], rest); }
        ReplaceThenRestore(rest, m, key, m');
      } else {
        TokenNotKey(t, m);
        RestoreChar(t, m);
        forall other | other in m' ensures !(other <= Replace(t, key, m[key])) {
          NoNewKey(t, m, key, m', other);
        }
        ReplaceChar(t, m, key, m');
        if Clear(t, m) { ClearTail(t, m, [t[0]], t[1..]); }
        ReplaceThenRestore(t[1..], m, key, m');
      }
    }
  }

  lemma NoNewKey(t: string, m: map<string, string>, key: string, m': map<string, string>, other: string)
    requires Good(m) && key in m && m'.Keys <= m.Keys && other in m'
    requires t != "" && forall k :: k in m ==> !(k <= t)
    requires Clear(t, m) || Outside(m[key], m')
    ensures !(other <= Replace(t, key, m[key]))
  {
    hide Restore, Infix, Replace;
    if other <= Replace(t, key, m[key]) {
      OldKey(t, m, key, other);
      PrefixInfix(other, Restore(t, m));
    }
  }

  /** The dict behind a list of entries. */
  ghost function AsMap(items: seq<Item>): (m: map<string, string>)
    ensures forall key :: key in m <==> exists j :: 0 <= j < |items| && items[j].key == key
  {
    if items == [] then map[] else AsMap(items[1..])[items[0].key := items[0].value]
  }

  ghost predicate Distinct(items: seq<Item>) {
    forall i, j :: 0 <= i < j < |items| ==> items[i].key != items[j].key
  }

  lemma {:induction false} AsMapAt(items: seq<Item>, j: nat)
    requires Distinct(items) && j < |items|
    ensures items[j].key in AsMap(items) && AsMap(items)[items[j].key] == items[j].value
  {
    if j > 0 { AsMapAt(items[1..], j - 1); }
  }

  lemma AsMapRest(items: seq<Item>)
    requires Distinct(items) && items != []
    ensures Distinct(items[1..]) && AsMap(items[1..]) == AsMap(items) - {items[0].key}
  {
    var rest := items[1..];
    assert forall j :: 0 <= j < |rest| ==> rest[j] == items[j + 1];
    assert items[0].key !in AsMap(rest);
    var m := AsMap(rest);
    assert AsMap(items) == m[items[0].key := items[0].value];
    assert m[items[0].key := items[0].value] - {items[0].key} == m;
  }

  lemma SmallerMap(m: map<string, string>, key: string)
    ensures Good(m) ==> Good(m - {key})
    ensures Apart(m) ==> Apart(m - {key})
  {
    hide Infix, Framed, Plain;
  }

  /** Sequential replacement in any order equals one simultaneous pass. */
  lemma {:induction false} UnmaskIsRestore(t: string, items: seq<Item>)
    requires Distinct(items) && Good(AsMap(items))
    requires Clear(t, AsMap(items)) || Apart(AsMap(items))
    ensures Unmask(t, items) == Restore(t, AsMap(items))
    decreases |items|
  {
    var m := AsMap(items);
    if items == [] {
      RestoreNothing(t);
    } else {
      var x, rest := items[0], items[1..];
      AsMapAt(items, 0);
      AsMapRest(items);
      SmallerMap(m, x.key);
      hide AsMap, Restore;
      ReplaceThenRestore(t, m, x.key, AsMap(rest));
      UnmaskIsRestore(Replace(t, x.key, x.value), rest);
    }
  }

  /** One replacement costs a '<' at least wherever restoring would. */
  lemma {:induction false} ReplaceLoses(t: string, m: map<string, string>, key: string, m': map<string, string>)
    requires Good(m) && key in m && m' == m - {key}
    ensures Count(Restore(Replace(t, key, m[key]), m'), '<') <= Count(Restore(t, m), '<')
    decreases |t|
  {
    if t == "" {
    } else {
      SmallerMap(m, key);
      hide Restore, Replace, Count, Infix;
      var c, rest := t[..Close(t)], t[Close(t)..];
      var value := m[key];
      if c in m {
        ReplaceKey(t, m, key, m');
        ReplaceLoses(rest, m, key, m');
        CountAppend(m[c], Restore(Replace(rest, key, value), m'), '<');
        CountAppend(m[c], Restore(rest, m), '<');
      } else {
        TokenNotKey(t, m);
        RestoreChar(t, m);
        ReplaceLoses(t[1..], m, key, m');
        CountAppend([t[0]], Restore(t[1..], m), '<');
        CountAppend([t[0]], Restore(Replace(t[1..], key, value), m'), '<');
        if other :| other in m' && other <= Replace(t, key, value) {
          CreatedKey(t, m, key, m', other);
        } else {
          ReplaceChar(t, m, key, m');
        }
      }
    }
  }

  /** A key that a replacement creates at the front disappears in restoring. */
  lemma CreatedKey(t: string, m: map<string, string>, key: string, m': map<string, string>, other: string)
    requires Good(m') && other in m' && key in m && key != "" && t != "" && !(key <= t)
    requires other <= Replace(t, key, m[key])
    ensures Count(Restore(Replace(t, key, m[key]), m'), '<') <= Count(Restore(Replace(t[1..], key, m[key]), m'), '<')
  {
    hide Restore, Replace, Count, Good;
    ReplaceHead(t, key, m[key]);
    assert other != "" by { assert Framed(other) by { GoodKey(m', other); } }
    var r, r1 := Replace(t, key, m[key]), Replace(t[1..], key, m[key]);
    var rest := r[|other|..];
    assert r == other + rest;
    assert r1 == r[1..] == other[1..] + rest;
    KeyDissolves(other, rest, m');
  }

  lemma KeyDissolves(key: string, rest: string, m: map<string, string>)
    requires Good(m) && key in m
    ensures Count(Restore(key + rest, m), '<') <= Count(Restore(key[1..] + rest, m), '<')
  {
    hide Restore, Count;
    KeyTail(key);
    RestoreKey(key, rest, m);
    RestorePlain(key[1..], rest, m);
    CountAppend(m[key], Restore(rest, m), '<');
    CountZero(m[key], '<');
    CountAppend(key[1..], Restore(rest, m), '<');
  }

  /** Whatever the order and whatever the values complete: sequential
      replacement leaves no more '<' than restoring. */
  lemma {:induction false} UnmaskLoses(t: string, items: seq<Item>)
    requires Distinct(items) && Good(AsMap(items))
    ensures Count(Unmask(t, items), '<') <= Count(Restore(t, AsMap(items)), '<')
    decreases |items|
  {
    var m := AsMap(items);
    if items == [] {
      RestoreNothing(t);
    } else {
      var x, rest := items[0], items[1..];
      AsMapAt(items, 0);
      AsMapRest(items);
      SmallerMap(m, x.key);
      hide AsMap, Restore;
      ReplaceLoses(t, m, x.key, AsMap(rest));
      UnmaskLoses(Replace(t, x.key, x.value), rest);
    }
  }

  lemma {:induction false} RestoreNothing(t: string)
    ensures Restore(t, map[]) == t
  {
    if t != "" { RestoreNothing(t[1..]); }
  }

  // ---- Masking under Restore ----------------------------------------------

  /** The pass copies what it does not match. */
  lemma {:induction false} PassCopies(cc: Classes, k: Kind, t: string, i: nat, j: nat, n: nat)
    requires i <= j <= |t|
    requires forall p: nat, e: nat :: i <= p < j ==> !Span(cc, k, t, p, e)
    ensures Pass(cc, k, t, i, n).text == t[i..j] + Pass(cc, k, t, j, n).text
    ensures Pass(cc, k, t, i, n).items == Pass(cc, k, t, j, n).items
    decreases j - i
  {
    hide Lang, Found, Pass, Span;
    if i < j {
      PassStep(cc, k, t, i, n);
      PassCopies(cc, k, t, i + 1, j, n);
      assert t[i..j] == [t[i]] + t[i + 1..j];
    }
  }

  /** Text without '<' at the front of the output was copied from the input. */
  lemma {:induction false} PassPrefix(cc: Classes, k: Kind, t: string, i: nat, n: nat, w: string)
    requires i <= |t| && '<' !in w && w <= Pass(cc, k, t, i, n).text
    ensures w <= t[i..]
    decreases |t| - i
  {
    hide Lang, Found, Pass, Body;
    if w != "" {
      if i == |t| {
        PassEnd(cc, k, t, n);
      } else {
        PassStep(cc, k, t, i, n);
        var out := Pass(cc, k, t, i, n).text;
        assert w[0] == out[0];
        if Found(cc, k, t, i).None? {
          var rest := Pass(cc, k, t, i + 1, n).text;
          assert out[1..] == rest && w[1..] <= out[1..];
          PassPrefix(cc, k, t, i + 1, n, w[1..]);
          assert t[i..] == [t[i]] + t[i + 1..] && w == [w[0]] + w[1..];
        }
      }
    }
  }

  function Inner(key: string): string { if |key| >= 2 then key[1..|key| - 1] else "" }

  /** The keys that occur in the text attract no match of pattern k. */
  ghost predicate InertIn(cc: Classes, k: Kind, m: map<string, string>, t: string) {
    forall key :: key in m && Infix(key, t) ==> Free(cc, k, Inner(key))
  }

  lemma InnerKeepsEdges(cc: Classes, t: string, l: nat, r: nat, p: nat, n: nat)
    requires l < r < |t| && !cc.word(t[l]) && !cc.word(t[r]) && l < p && p + n <= r
    ensures KeepsEdges(cc, t, p, t[l + 1..r], p - l - 1, n)
  {
  }

  lemma SpanInBody(cc: Classes, q: Kind, t: string, i: nat, key: string, p: nat, e: nat)
    requires i <= p && i + |key| <= |t| && Framed(key) && SameSpan(key, 0, t, i, |key|)
    requires p < i + |key| && Span(cc, q, t, p, e)
    ensures i < p < e < i + |key| && Span(cc, q, Inner(key), p - i - 1, e - i - 1)
  {
    hide Lang, KeepsEdges, Pattern, Plain;
    var b := Inner(key);
    var l := i + |key| - 1;
    assert t[i] == key[0] && t[l] == key[|key| - 1];
    assert forall j :: 0 <= j < |b| ==> b[j] == t[i + 1 + j];
    assert t[i + 1..l] == b;
    SpanFacts(cc, q, t, p, e);
    StopIsNoWord(cc, '<');
    StopIsNoWord(cc, '>');
    assert i < p && e <= l;
    InnerKeepsEdges(cc, t, i, l, p, e - p);
    LangMove(cc, Pattern(q), t, p, b, p - i - 1, e - p);
  }

  lemma NoSpanInKey(cc: Classes, q: Kind, t: string, i: nat, key: string)
    requires i <= |t| && Framed(key) && key <= t[i..] && Free(cc, q, Inner(key))
    ensures forall p: nat, e: nat :: i <= p < i + |key| ==> !Span(cc, q, t, p, e)
  {
    hide Lang, Span;
    assert forall j :: 0 <= j < |key| ==> t[i..][j] == t[i + j];
    forall p: nat, e: nat ensures i <= p < i + |key| ==> !Span(cc, q, t, p, e) {
      if i <= p < i + |key| && Span(cc, q, t, p, e) { SpanInBody(cc, q, t, i, key, p, e); }
    }
  }

  /** The entries that a pass issues are in the mapping. */
  ghost predicate Recorded(items: seq<Item>, m: map<string, string>) {
    forall j :: 0 <= j < |items| ==> items[j].key in m && m[items[j].key] == items[j].value
  }

  lemma RecordedTail(x: Item, items: seq<Item>, m: map<string, string>)
    requires Recorded([x] + items, m)
    ensures x.key in m && m[x.key] == x.value && Recorded(items, m)
  {
    var all := [x] + items;
    assert all[0] == x;
    assert forall j :: 0 <= j < |items| ==> items[j] == all[j + 1];
  }

  /** Restoring a masked text is restoring the text itself. */
  lemma {:induction false} PassRestore(cc: Classes, k: Kind, t: string, i: nat, n: nat, m: map<string, string>)
    requires i <= |t| && Good(m) && InertIn(cc, k, m, t) && Recorded(Pass(cc, k, t, i, n).items, m)
    ensures Restore(Pass(cc, k, t, i, n).text, m) == Restore(t[i..], m)
    decreases |t| - i
  {
    hide Lang, Found, Placeholder, Pass, Span, Free, Close;
    if i == |t| {
      PassEnd(cc, k, t, n);
      assert t[i..] == "";
    } else {
      var c := t[i..][..Close(t[i..])];
      TokenNotKey(t[i..], m);
      if c in m {
        PassRestoreKey(cc, k, t, i, n, m, c);
      } else if Found(cc, k, t, i).Some? {
        PassRestoreMatch(cc, k, t, i, n, m);
      } else {
        PassRestoreChar(cc, k, t, i, n, m);
      }
    }
  }

  lemma PassRestoreKey(cc: Classes, k: Kind, t: string, i: nat, n: nat, m: map<string, string>, c: string)
    requires i < |t| && Good(m) && InertIn(cc, k, m, t) && Recorded(Pass(cc, k, t, i, n).items, m)
    requires c in m && c <= t[i..]
    ensures Restore(Pass(cc, k, t, i, n).text, m) == Restore(t[i..], m)
    decreases |t| - i, 0
  {
    hide Lang, Found, Placeholder, Pass, Span, Free, Restore;
    var j := i + |c|;
    PrefixInfix(c, t[i..]);
    InfixAfter(c, t[..i], t[i..]);
    assert t[..i] + t[i..] == t;
    NoSpanInKey(cc, k, t, i, c);
    PassCopies(cc, k, t, i, j, n);
    PassRestore(cc, k, t, j, n, m);
    assert t[i..] == c + t[j..];
    assert t[i..j] == c;
    RestoreKey(c, t[j..], m);
    RestoreKey(c, Pass(cc, k, t, j, n).text, m);
  }

  lemma PassRestoreMatch(cc: Classes, k: Kind, t: string, i: nat, n: nat, m: map<string, string>)
    requires i < |t| && Good(m) && InertIn(cc, k, m, t) && Recorded(Pass(cc, k, t, i, n).items, m)
    requires Found(cc, k, t, i).Some?
    ensures Restore(Pass(cc, k, t, i, n).text, m) == Restore(t[i..], m)
    decreases |t| - i, 0
  {
    hide Lang, Found, Placeholder, Pass, Restore;
    PassStep(cc, k, t, i, n);
    var e := Found(cc, k, t, i).value;
    SpanFacts(cc, k, t, i, e);
    forall j | 0 <= j < |t[i..e]| ensures t[i..e][j] != '<' {}
    hide Span, Free;
    var rest := Pass(cc, k, t, e, n + 1);
    var ph := Placeholder(k, n + 1);
    RecordedTail(Item(ph, t[i..e]), rest.items, m);
    hide Recorded, Good, InertIn;
    PassRestore(cc, k, t, e, n + 1, m);
    RestoreKey(ph, rest.text, m);
    assert t[i..] == t[i..e] + t[e..];
    RestorePlain(t[i..e], t[e..], m);
  }

  lemma PassRestoreChar(cc: Classes, k: Kind, t: string, i: nat, n: nat, m: map<string, string>)
    requires i < |t| && Good(m) && InertIn(cc, k, m, t) && Recorded(Pass(cc, k, t, i, n).items, m)
    requires Found(cc, k, t, i).None? && forall key :: key in m ==> !(key <= t[i..])
    ensures Restore(Pass(cc, k, t, i, n).text, m) == Restore(t[i..], m)
    decreases |t| - i, 0
  {
    hide Lang, Found, Placeholder, Pass, Span, Free, Restore;
    PassStep(cc, k, t, i, n);
    var rest := Pass(cc, k, t, i + 1, n).text;
    var out := [t[i]] + rest;
    assert out[1..] == rest;
    forall key | key in m ensures !(key <= out) {
      if key <= out {
        var w := key[1..];
        KeyTail(key);
        assert w <= out[1..] && key[0] == out[0];
        assert key == [key[0]] + w && t[i..] == [t[i]] + t[i + 1..];
        PassPrefix(cc, k, t, i + 1, n, w);
      }
    }
    PassRestore(cc, k, t, i + 1, n, m);
    RestoreChar(out, m);
    RestoreChar(t[i..], m);
  }
}
