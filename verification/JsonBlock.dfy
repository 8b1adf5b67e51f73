/** `_extract_json_block` of the offline model (`llm/fake.py`): find the first
    balanced {...} block, braces inside string literals not counted. */
module JsonBlock {
  import opened Text

  /** The three variables of the scanning loop. */
  datatype Scan = Scan(depth: int, inStr: bool, escape: bool)

  const START := Scan(0, false, false)

  function Step(s: Scan, c: char): Scan {
    if s.inStr then
      if s.escape then s.(escape := false)
      else if c == '\\' then s.(escape := true)
      else if c == '"' then s.(inStr := false)
      else s
    else if c == '"' then s.(inStr := true)
    else if c == '{' then s.(depth := s.depth + 1)
    else if c == '}' then s.(depth := s.depth - 1)
    else s
  }

  function Run(s: Scan, t: string): Scan
    decreases |t|
  {
    if t == "" then s else Run(Step(s, t[0]), t[1..])
  }

  // ---- The reference: braces left once the string literals are deleted -----

  /** Length of the rest of a string literal, closing quote included. */
  function LiteralRest(t: string): (n: nat)
    ensures n <= |t|
  {
    if t == "" then 0
    else if t[0] == '"' then 1
    else if t[0] == '\\' then if |t| == 1 then 1 else 2 + LiteralRest(t[2..])
    else 1 + LiteralRest(t[1..])
  }

  /** The text without its string literals. */
  function Outside(t: string): string
    decreases |t|
  {
    if t == "" then ""
    else if t[0] == '"' then Outside(t[1..][LiteralRest(t[1..])..])
    else [t[0]] + Outside(t[1..])
  }

  /** Opening minus closing braces outside string literals. */
  function Balance(t: string): int {
    Count(Outside(t), '{') - Count(Outside(t), '}')
  }

  /** A balanced block: non-empty, balanced, and no shorter prefix is. */
  ghost predicate ShortestBalanced(u: string, e: nat) {
    0 < e <= |u| && Balance(u[..e]) == 0 && forall k :: 0 < k < e ==> Balance(u[..k]) != 0
  }

  lemma {:induction false} RunLiteral(d: int, t: string)
    ensures Run(Scan(d, true, false), t).depth == Run(Scan(d, false, false), t[LiteralRest(t)..]).depth
    decreases |t|
  {
    if t == "" {
    } else if t[0] == '"' {
    } else if t[0] == '\\' {
      if |t| > 1 {
        RunLiteral(d, t[2..]);
        assert t[1..][1..] == t[2..];
        assert t[2..][LiteralRest(t[2..])..] == t[LiteralRest(t)..];
      } else {
        assert t[1..] == "";
      }
    } else {
      RunLiteral(d, t[1..]);
      assert t[1..][LiteralRest(t[1..])..] == t[LiteralRest(t)..];
    }
  }

  /** The flags of the loop count exactly the braces outside literals. */
  lemma {:induction false} RunIsBalance(d: int, t: string)
    ensures Run(Scan(d, false, false), t).depth == d + Balance(t)
    decreases |t|
  {
    if t == "" {
    } else if t[0] == '"' {
      var u := t[1..];
      RunLiteral(d, u);
      RunIsBalance(d, u[LiteralRest(u)..]);
    } else {
      var d' := Step(Scan(d, false, false), t[0]).depth;
      RunIsBalance(d', t[1..]);
      CountAppend([t[0]], Outside(t[1..]), '{');
      CountAppend([t[0]], Outside(t[1..]), '}');
    }
  }

  // ---- The scanner ---------------------------------------------------------

  /** `text.find("{")`, or the length of the text. */
  function Find(t: string): (i: nat)
    ensures i <= |t| && '{' !in t[..i] && (i < |t| ==> t[i] == '{')
  {
    if t == "" || t[0] == '{' then 0 else
    var i := Find(t[1..]);
    assert t[..i + 1] == [t[0]] + t[1..][..i];
    i + 1
  }

  /** How much of u the loop consumes before it returns. */
  function Consumed(s: Scan, u: string): (n: nat)
    ensures n <= |u|
    decreases |u|
  {
    if u == "" then 0
    else if !s.inStr && u[0] == '}' && s.depth == 1 then 1
    else 1 + Consumed(Step(s, u[0]), u[1..])
  }

  function Block(t: string): string {
    var start := Find(t);
    if start == |t| then "{}" else t[start..][..Consumed(START, t[start..])]
  }

  method ExtractJsonBlock(text: string) returns (block: string)
    ensures block == Block(text)
  {
    var start := Find(text);
    if start == |text| {
      return "{}";
    }
    var depth, inStr, escape := 0, false, false;
    var i := start;
    while i < |text|
      invariant start <= i <= |text|
      invariant Consumed(START, text[start..]) == (i - start) + Consumed(Scan(depth, inStr, escape), text[i..])
    {
      var c := text[i];
      assert text[i..][1..] == text[i + 1..];
      if inStr {
        if escape {
          escape := false;
        } else if c == '\\' {
          escape := true;
        } else if c == '"' {
          inStr := false;
        }
      } else if c == '"' {
        inStr := true;
      } else if c == '{' {
        depth := depth + 1;
      } else if c == '}' {
        depth := depth - 1;
        if depth == 0 {
          assert text[start..][..i + 1 - start] == text[start..i + 1];
          return text[start..i + 1];
        }
      }
      i := i + 1;
    }
    assert text[start..][..|text| - start] == text[start..];
    block := text[start..];
  }

  lemma {:induction false} RunPrefix(s: Scan, u: string, k: nat)
    requires 0 < k <= |u|
    ensures Run(s, u[..k]) == Run(Step(s, u[0]), u[1..][..k - 1])
  {
    assert u[..k][1..] == u[1..][..k - 1];
  }

  /** Where the loop stops, in terms of its state. */
  lemma {:induction false} ConsumedStops(s: Scan, u: string)
    requires s.depth >= 1
    ensures var n := Consumed(s, u);
            && (forall k :: 0 < k < n ==> Run(s, u[..k]).depth >= 1)
            && (n > 0 && Run(s, u[..n]).depth < 1 ==> Run(s, u[..n]).depth == 0)
            && (n > 0 && Run(s, u[..n]).depth >= 1 ==> n == |u|)
    decreases |u|
  {
    if u != "" {
      var s' := Step(s, u[0]);
      var n := Consumed(s, u);
      if !s.inStr && u[0] == '}' && s.depth == 1 {
        RunPrefix(s, u, 1);
      } else {
        ConsumedStops(s', u[1..]);
        forall k | 0 < k <= n ensures Run(s, u[..k]) == Run(s', u[1..][..k - 1]) { RunPrefix(s, u, k); }
        assert Run(s', u[1..][..0]) == s';
      }
    }
  }

  /** The scanner returns the shortest balanced block from the first brace on,
      everything from there if nothing balances, "{}" if there is no brace. */
  lemma BlockIsShortest(t: string, u: string, block: string)
    requires u == t[Find(t)..] && block == Block(t)
    ensures u == "" ==> block == "{}"
    ensures u != "" ==> forall e: nat :: ShortestBalanced(u, e) ==> block == u[..e]
    ensures u != "" && (forall e: nat :: !ShortestBalanced(u, e)) ==> block == u
  {
    if u != "" { ConsumedIsShortest(u); }
  }

  /** Not what the docstring promises for a text in which nothing balances. */
  lemma UnbalancedIsReturned()
    ensures Block("{") == "{" && forall e: nat :: !ShortestBalanced("{", e)
  {
    assert Consumed(START, "{") == 1;
    forall e: nat ensures !ShortestBalanced("{", e) {
      if e == 1 { RunIsBalance(0, "{"); }
    }
  }

  lemma ConsumedIsShortest(u: string)
    requires u != "" && u[0] == '{'
    ensures var n := Consumed(START, u);
            && (forall k :: 0 < k < n ==> Balance(u[..k]) != 0)
            && (ShortestBalanced(u, n) || (n == |u| && Balance(u) != 0))
            && (forall e: nat :: ShortestBalanced(u, e) ==> e == n)
  {
    var one, tail := Scan(1, false, false), u[1..];
    var n := Consumed(START, u);
    assert Step(START, u[0]) == one;
    ConsumedStops(one, tail);
    assert n == 1 + Consumed(one, tail);
    assert Run(one, tail[..0]) == one;
    forall k | 0 < k <= |u| ensures Balance(u[..k]) == Run(one, tail[..k - 1]).depth {
      RunPrefix(START, u, k);
      RunIsBalance(0, u[..k]);
    }
    hide Balance, Run, Consumed;
    assert u[..|u|] == u;
  }

  // ---- JSON texts (sections 2 to 7 of RFC 8259) ----------------------------

  /** A character of a string: itself, or escaped; \uXXXX is the escape \u
      followed by four plain characters. */
  datatype Chunk = Plain(c: char) | Escaped(c: char)

  /** Concrete syntax: `ws` fields hold the insignificant white space. */
  datatype Value =
    | Atom(text: string)
    | Text(chunks: seq<Chunk>)
    | Arr(ws: string, elems: seq<Elem>)
    | Obj(ws: string, members: seq<Member>)
  datatype Elem = Elem(before: string, value: Value, after: string)
  datatype Member = Member(before: string, name: seq<Chunk>, mid: string, elem: Elem)

  predicate Blank(s: string) { forall c :: c in s ==> c == ' ' || c == '\t' || c == '\n' || c == '\r' }

  /** Numbers, true, false and null use no other characters. */
  predicate AtomChar(c: char) {
    '0' <= c <= '9' || 'a' <= c <= 'z' || 'A' <= c <= 'Z' || c == '+' || c == '-' || c == '.'
  }

  predicate Legal(chunks: seq<Chunk>) {
    forall x :: x in chunks ==> if x.Plain? then x.c != '"' && x.c != '\\' else x.c in "\"\\/bfnrtu"
  }

  predicate Json(v: Value) {
    match v
    case Atom(s) => forall c :: c in s ==> AtomChar(c)
    case Text(cs) => Legal(cs)
    case Arr(ws, es) => Blank(ws) && forall e :: e in es ==> Blank(e.before) && Json(e.value) && Blank(e.after)
    case Obj(ws, ms) =>
      Blank(ws) && forall m :: m in ms ==>
        && Blank(m.before) && Legal(m.name) && Blank(m.mid)
        && Blank(m.elem.before) && Json(m.elem.value) && Blank(m.elem.after)
  }

  function Chunks(cs: seq<Chunk>): string {
    if cs == [] then ""
    else (if cs[0].Plain? then [cs[0].c] else ['\\', cs[0].c]) + Chunks(cs[1..])
  }

  function Quoted(cs: seq<Chunk>): string { "\"" + Chunks(cs) + "\"" }

  function Print(v: Value): string
    decreases v, 1
  {
    match v
    case Atom(s) => s
    case Text(cs) => Quoted(cs)
    case Arr(ws, es) => "[" + (ws + PrintElems(es) + "]")
    case Obj(ws, ms) => "{" + (ws + PrintMembers(ms) + "}")
  }

  function PrintElem(e: Elem): string
    decreases e, 2
  {
    e.before + Print(e.value) + e.after
  }

  function PrintElems(es: seq<Elem>): string
    decreases es, 0
  {
    if es == [] then ""
    else if |es| == 1 then PrintElem(es[0])
    else PrintElem(es[0]) + "," + PrintElems(es[1..])
  }

  function PrintMember(m: Member): string
    decreases m, 2
  {
    m.before + Quoted(m.name) + m.mid + ":" + PrintElem(m.elem)
  }

  function PrintMembers(ms: seq<Member>): string
    decreases ms, 0
  {
    if ms == [] then ""
    else if |ms| == 1 then PrintMember(ms[0])
    else PrintMember(ms[0]) + "," + PrintMembers(ms[1..])
  }

  // ---- The scanner recovers a printed object -------------------------------

  /** Scanning t from s keeps the depth at d or more all the way. */
  predicate Safe(s: Scan, t: string, d: int)
    decreases |t|
  {
    s.depth >= d && (t == "" || Safe(Step(s, t[0]), t[1..], d))
  }

  lemma {:induction false} RunAppend(s: Scan, a: string, b: string, d: int)
    ensures Run(s, a + b) == Run(Run(s, a), b)
    ensures Safe(s, a, d) && Safe(Run(s, a), b, d) ==> Safe(s, a + b, d)
    decreases |a|
  {
    if a == "" {
      assert a + b == b;
    } else {
      assert (a + b)[1..] == a[1..] + b;
      RunAppend(Step(s, a[0]), a[1..], b, d);
    }
  }

  /** t is neutral at depth d: scanning it changes nothing and never goes below. */
  ghost predicate Neutral(t: string, d: int) {
    Run(Scan(d, false, false), t) == Scan(d, false, false) && Safe(Scan(d, false, false), t, d)
  }

  lemma NeutralAppend(a: string, b: string, d: int)
    requires Neutral(a, d) && Neutral(b, d)
    ensures Neutral(a + b, d)
  {
    RunAppend(Scan(d, false, false), a, b, d);
  }

  lemma {:induction false} NeutralQuiet(t: string, d: int)
    requires forall c :: c in t ==> c != '"' && c != '{' && c != '}'
    ensures Neutral(t, d)
  {
    if t != "" {
      assert t[0] in t;
      forall c | c in t[1..] ensures c in t {}
      NeutralQuiet(t[1..], d);
    }
  }

  lemma ChunkStaysInside(x: Chunk, d: int)
    requires Legal([x])
    ensures var s, head := Scan(d, true, false), if x.Plain? then [x.c] else ['\\', x.c];
            Run(s, head) == s && Safe(s, head, d)
  {
    assert x in [x];
    var s := Scan(d, true, false);
    if x.Escaped? {
      var head, e := ['\\', x.c], Scan(d, true, true);
      assert head[1..] == [x.c];
      assert Run(e, [x.c]) == s && Safe(e, [x.c], d);
    }
  }

  lemma {:induction false} ChunksStayInside(cs: seq<Chunk>, d: int)
    requires Legal(cs)
    ensures Run(Scan(d, true, false), Chunks(cs)) == Scan(d, true, false)
    ensures Safe(Scan(d, true, false), Chunks(cs), d)
  {
    if cs != [] {
      var s := Scan(d, true, false);
      var head := if cs[0].Plain? then [cs[0].c] else ['\\', cs[0].c];
      assert cs[0] in cs;
      ChunkStaysInside(cs[0], d);
      ChunksStayInside(cs[1..], d);
      RunAppend(s, head, Chunks(cs[1..]), d);
    }
  }

  lemma NeutralQuoted(cs: seq<Chunk>, d: int)
    requires Legal(cs)
    ensures Neutral(Quoted(cs), d)
  {
    var s, q := Scan(d, false, false), "\"";
    ChunksStayInside(cs, d);
    assert Run(s, q) == Scan(d, true, false) && Safe(s, q, d);
    assert Run(Scan(d, true, false), q) == s && Safe(Scan(d, true, false), q, d);
    RunAppend(s, q, Chunks(cs), d);
    RunAppend(s, q + Chunks(cs), q, d);
  }

  lemma NeutralBlank(s: string, d: int)
    requires Blank(s)
    ensures Neutral(s, d)
  {
    NeutralQuiet(s, d);
  }

  /** Square brackets are not counted. */
  lemma NeutralList(ws: string, body: string, d: int)
    requires Blank(ws) && Neutral(body, d)
    ensures Neutral("[" + (ws + body + "]"), d)
  {
    NeutralBlank(ws, d);
    NeutralQuiet("[", d);
    NeutralQuiet("]", d);
    NeutralAppend(ws, body, d);
    NeutralAppend(ws + body, "]", d);
    NeutralAppend("[", ws + body + "]", d);
  }

  lemma {:induction false} SafeMore(s: Scan, t: string, d: int, d': int)
    requires Safe(s, t, d) && d' <= d
    ensures Safe(s, t, d')
    decreases |t|
  {
    if t != "" { SafeMore(Step(s, t[0]), t[1..], d, d'); }
  }

  /** Braces around a neutral body: one level up and back. */
  lemma NeutralBraces(body: string, d: int)
    requires Neutral(body, d + 1)
    ensures Neutral("{" + (body + "}"), d)
  {
    var s, up := Scan(d, false, false), Scan(d + 1, false, false);
    assert Run(s, "{") == up && Safe(s, "{", d);
    assert Run(up, "}") == s && Safe(up, "}", d);
    SafeMore(up, body, d + 1, d);
    RunAppend(up, body, "}", d);
    RunAppend(s, "{", body + "}", d);
  }

  /** Every JSON value is neutral at every depth. */
  lemma {:induction false} NeutralValue(v: Value, d: int)
    requires Json(v)
    ensures Neutral(Print(v), d)
    decreases v, 1
  {
    match v
    case Atom(s) => NeutralQuiet(s, d);
    case Text(cs) => NeutralQuoted(cs, d);
    case Arr(ws, es) =>
      NeutralElems(es, d);
      NeutralList(ws, PrintElems(es), d);
    case Obj(ws, ms) =>
      NeutralMembers(ms, d + 1);
      NeutralBlank(ws, d + 1);
      NeutralAppend(ws, PrintMembers(ms), d + 1);
      NeutralBraces(ws + PrintMembers(ms), d);
  }

  lemma {:induction false} NeutralElem(e: Elem, d: int)
    requires Blank(e.before) && Json(e.value) && Blank(e.after)
    ensures Neutral(PrintElem(e), d)
    decreases e, 2
  {
    NeutralBlank(e.before, d);
    NeutralBlank(e.after, d);
    NeutralValue(e.value, d);
    NeutralAppend(e.before, Print(e.value), d);
    NeutralAppend(e.before + Print(e.value), e.after, d);
  }

  lemma {:induction false} NeutralElems(es: seq<Elem>, d: int)
    requires forall e :: e in es ==> Blank(e.before) && Json(e.value) && Blank(e.after)
    ensures Neutral(PrintElems(es), d)
    decreases es, 0
  {
    if es != [] {
      NeutralElem(es[0], d);
      if |es| > 1 {
        NeutralElems(es[1..], d);
        NeutralQuiet(",", d);
        NeutralAppend(PrintElem(es[0]), ",", d);
        NeutralAppend(PrintElem(es[0]) + ",", PrintElems(es[1..]), d);
      }
    }
  }

  lemma {:induction false} NeutralMember(m: Member, d: int)
    requires Blank(m.before) && Legal(m.name) && Blank(m.mid)
    requires Blank(m.elem.before) && Json(m.elem.value) && Blank(m.elem.after)
    ensures Neutral(PrintMember(m), d)
    decreases m, 2
  {
    NeutralBlank(m.before, d);
    NeutralQuoted(m.name, d);
    NeutralBlank(m.mid, d);
    NeutralQuiet(":", d);
    NeutralElem(m.elem, d);
    NeutralAppend(m.before, Quoted(m.name), d);
    NeutralAppend(m.before + Quoted(m.name), m.mid, d);
    NeutralAppend(m.before + Quoted(m.name) + m.mid, ":", d);
    NeutralAppend(m.before + Quoted(m.name) + m.mid + ":", PrintElem(m.elem), d);
  }

  lemma {:induction false} NeutralMembers(ms: seq<Member>, d: int)
    requires forall m :: m in ms ==>
               && Blank(m.before) && Legal(m.name) && Blank(m.mid)
               && Blank(m.elem.before) && Json(m.elem.value) && Blank(m.elem.after)
    ensures Neutral(PrintMembers(ms), d)
    decreases ms, 0
  {
    if ms != [] {
      NeutralMember(ms[0], d);
      if |ms| > 1 {
        NeutralMembers(ms[1..], d);
        NeutralQuiet(",", d);
        NeutralAppend(PrintMember(ms[0]), ",", d);
        NeutralAppend(PrintMember(ms[0]) + ",", PrintMembers(ms[1..]), d);
      }
    }
  }

  lemma {:induction false} ConsumesNeutral(s: Scan, body: string, rest: string)
    requires Safe(s, body, 1)
    ensures Consumed(s, body + rest) == |body| + Consumed(Run(s, body), rest)
    decreases |body|
  {
    if body == "" {
      assert body + rest == rest;
    } else {
      assert (body + rest)[1..] == body[1..] + rest;
      ConsumesNeutral(Step(s, body[0]), body[1..], rest);
    }
  }

  lemma {:induction false} FindAfter(pre: string, t: string)
    requires '{' !in pre && t != "" && t[0] == '{'
    ensures Find(pre + t) == |pre|
  {
    if pre == "" {
      assert pre + t == t;
    } else {
      assert (pre + t)[1..] == pre[1..] + t;
      FindAfter(pre[1..], t);
    }
  }

  /** Whatever surrounds a JSON object, the scanner returns exactly the object,
      as long as no brace comes before it. */
  lemma RecoversObject(pre: string, ws: string, ms: seq<Member>, suf: string)
    requires '{' !in pre && Json(Obj(ws, ms))
    ensures Block(pre + Print(Obj(ws, ms)) + suf) == Print(Obj(ws, ms))
  {
    var body := ws + PrintMembers(ms);
    var p := Print(Obj(ws, ms));
    var up := Scan(1, false, false);
    var t := pre + p + suf;
    assert t == pre + (p + suf);
    FindAfter(pre, p + suf);
    NeutralBlank(ws, 1);
    NeutralMembers(ms, 1);
    NeutralAppend(ws, PrintMembers(ms), 1);
    assert p + suf == "{" + (body + ("}" + suf));
    ConsumesNeutral(up, body, "}" + suf);
    assert (p + suf)[1..] == body + ("}" + suf);
    assert Consumed(up, "}" + suf) == 1;
    assert Consumed(START, p + suf) == |p|;
    assert t[|pre|..] == p + suf;
  }

  /** A returned block is a fixed point of the scanner. */
  lemma BlockOfBlock(t: string)
    ensures Block(Block(t)) == Block(t)
  {
    var start := Find(t);
    if start < |t| {
      var u := t[start..];
      var n := Consumed(START, u);
      var b := u[..n];
      assert b[0] == '{';
      assert Find(b) == 0;
      ConsumedAgain(START, u);
      assert b[0..] == b;
    } else {
      assert Block("{}") == "{}" by {
        var o := Print(Obj("", []));
        assert o == "{}";
        RecoversObject("", "", [], "");
      }
    }
  }

  lemma {:induction false} ConsumedAgain(s: Scan, u: string)
    ensures Consumed(s, u[..Consumed(s, u)]) == Consumed(s, u)
    decreases |u|
  {
    if u != "" && !(!s.inStr && u[0] == '}' && s.depth == 1) {
      var n := Consumed(s, u);
      ConsumedAgain(Step(s, u[0]), u[1..]);
      assert u[..n][1..] == u[1..][..n - 1];
    }
  }
}
