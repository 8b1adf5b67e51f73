/** The fragment of Python's `re` that the masking patterns use: character
    classes, greedy repetition, alternation and word boundaries.

    `Ends` is the backtracking engine: it lists the ends of all matches that
    start at a position, in the order in which the engine tries them. `Lang`
    is the declarative reading of the same pattern. */
module Regex {
  import opened Options

  /** The Unicode tables behind \w, \d and \s. Only what the masking patterns
      rely on is fixed; every letter outside ASCII is left open. */
  datatype ClassTables = ClassTables(word: char -> bool, digit: char -> bool, space: char -> bool) {
    ghost predicate Valid() {
      && (forall c :: digit(c) ==> word(c))
      && (forall c :: space(c) ==> !word(c))
      && (forall c :: '0' <= c <= '9' ==> digit(c))
      && (forall c :: 'A' <= c <= 'Z' ==> word(c) && !digit(c))
      && word('_') && !digit('_')
      && (forall c :: c in "<>@+-.()" ==> !word(c) && !space(c))
    }
  }

  const ASCII := ClassTables(
    c => 'A' <= c <= 'Z' || 'a' <= c <= 'z' || '0' <= c <= '9' || c == '_',
    c => '0' <= c <= '9',
    c => c == ' ' || c == '\t' || c == '\n' || c == '\r')

  type Classes = c: ClassTables | c.Valid() witness ASCII

  /** A bracket expression: any of the three classes plus single characters. */
  datatype CharSet = CharSet(word: bool, digit: bool, space: bool, chars: string)

  predicate In(cc: Classes, s: CharSet, c: char) {
    (s.word && cc.word(c)) || (s.digit && cc.digit(c)) || (s.space && cc.space(c)) || c in s.chars
  }

  datatype Re =
    | Cls(set_: CharSet)
    | Many(set_: CharSet)
    | Cat(first: Re, second: Re)
    | Alt(left: Re, right: Re)
    | Edge

  predicate WordBefore(cc: Classes, t: string, i: nat) {
    0 < i <= |t| && cc.word(t[i - 1])
  }

  predicate WordAt(cc: Classes, t: string, i: nat) {
    i < |t| && cc.word(t[i])
  }

  /** The assertion \b. */
  predicate Boundary(cc: Classes, t: string, i: nat) {
    WordBefore(cc, t, i) != WordAt(cc, t, i)
  }

  /** All ends of matches of `re` starting at `i`, in backtracking order. */
  function Ends(cc: Classes, re: Re, t: string, i: nat): (es: seq<nat>)
    requires i <= |t|
    ensures forall k :: 0 <= k < |es| ==> i <= es[k] <= |t|
    decreases re, 0, |t| - i
  {
    match re
    case Cls(s) => if i < |t| && In(cc, s, t[i]) then [i + 1] else []
    case Many(s) => if i < |t| && In(cc, s, t[i]) then Ends(cc, re, t, i + 1) + [i] else [i]
    case Cat(a, b) => EndsFrom(cc, b, t, i, Ends(cc, a, t, i))
    case Alt(a, b) => Ends(cc, a, t, i) + Ends(cc, b, t, i)
    case Edge => if Boundary(cc, t, i) then [i] else []
  }

  function EndsFrom(cc: Classes, re: Re, t: string, i: nat, starts: seq<nat>): (es: seq<nat>)
    requires forall k :: 0 <= k < |starts| ==> i <= starts[k] <= |t|
    ensures forall k :: 0 <= k < |es| ==> i <= es[k] <= |t|
    decreases re, 1, |starts|
  {
    if starts == [] then [] else
    Ends(cc, re, t, starts[0]) + EndsFrom(cc, re, t, i, starts[1..])
  }

  /** The span t[i..e] belongs to the pattern, boundaries read in the context of t. */
  ghost predicate Lang(cc: Classes, re: Re, t: string, i: nat, e: nat)
    requires i <= e <= |t|
    decreases re, |t|
  {
    match re
    case Cls(s) => e == i + 1 && In(cc, s, t[i])
    case Many(s) => AllIn(cc, s, t, i, e)
    case Cat(a, b) => exists m :: Mid(i, m, e) && Lang(cc, a, t, i, m) && Lang(cc, b, t, m, e)
    case Alt(a, b) => Lang(cc, a, t, i, e) || Lang(cc, b, t, i, e)
    case Edge => e == i && Boundary(cc, t, i)
  }

  ghost predicate AllIn(cc: Classes, s: CharSet, t: string, i: nat, e: nat)
    requires e <= |t|
  {
    forall j :: i <= j < e ==> In(cc, s, t[j])
  }

  ghost predicate Mid(i: nat, m: nat, e: nat) { i <= m <= e }

  /** Backtracking finds exactly the spans of the declarative reading. */
  lemma {:induction false} EndsIsLang(cc: Classes, re: Re, t: string, i: nat, e: nat)
    requires i <= e <= |t|
    ensures e in Ends(cc, re, t, i) <==> Lang(cc, re, t, i, e)
    decreases re, 0, |t| - i
  {
    match re
    case Cls(s) =>
    case Many(s) =>
      if i < |t| && In(cc, s, t[i]) && e > i {
        EndsIsLang(cc, re, t, i + 1, e);
      }
    case Cat(a, b) =>
      EndsFromIsLang(cc, b, t, i, Ends(cc, a, t, i), e);
      forall m | Mid(i, m, e) ensures m in Ends(cc, a, t, i) <==> Lang(cc, a, t, i, m) {
        EndsIsLang(cc, a, t, i, m);
      }
    case Alt(a, b) =>
      EndsIsLang(cc, a, t, i, e);
      EndsIsLang(cc, b, t, i, e);
    case Edge =>
  }

  lemma {:induction false} EndsFromIsLang(cc: Classes, re: Re, t: string, i: nat, starts: seq<nat>, e: nat)
    requires i <= e <= |t|
    requires forall k :: 0 <= k < |starts| ==> i <= starts[k] <= |t|
    ensures e in EndsFrom(cc, re, t, i, starts) <==>
            exists m :: Mid(i, m, e) && m in starts && Lang(cc, re, t, m, e)
    decreases re, 1, |starts|
  {
    if starts != [] {
      var s := starts[0];
      EndsFromIsLang(cc, re, t, i, starts[1..], e);
      if s <= e {
        EndsIsLang(cc, re, t, s, e);
        assert Mid(i, s, e);
      }
      assert starts == [s] + starts[1..];
    }
  }

  /** The first match tried at `i`, as `re.match` reports it. */
  function MatchEnd(cc: Classes, re: Re, t: string, i: nat): (e: Option<nat>)
    requires i <= |t|
    ensures e.Some? ==> i <= e.value <= |t|
  {
    var es := Ends(cc, re, t, i);
    if es == [] then None else Some(es[0])
  }

  /** The engine finds a match exactly when the pattern has one, and reports a real one. */
  lemma MatchEndIsLang(cc: Classes, re: Re, t: string, i: nat)
    requires i <= |t|
    ensures var r := MatchEnd(cc, re, t, i);
            && (r.Some? ==> Lang(cc, re, t, i, r.value))
            && (r.None? ==> forall e :: i <= e <= |t| ==> !Lang(cc, re, t, i, e))
  {
    var es := Ends(cc, re, t, i);
    if es == [] {
      forall e | i <= e <= |t| ensures !Lang(cc, re, t, i, e) {
        EndsIsLang(cc, re, t, i, e);
      }
    } else {
      EndsIsLang(cc, re, t, i, es[0]);
    }
  }

  predicate NoEdge(re: Re) {
    match re
    case Cat(a, b) => NoEdge(a) && NoEdge(b)
    case Alt(a, b) => NoEdge(a) && NoEdge(b)
    case Edge => false
    case _ => true
  }

  /** x[i..i+n] reads the same as y[k..k+n]. */
  ghost predicate SameSpan(x: string, i: nat, y: string, k: nat, n: nat) {
    && i + n <= |x| && k + n <= |y|
    && forall p :: i <= p < i + n ==> x[p] == y[p - i + k]
  }

  ghost predicate KeepsEdges(cc: Classes, x: string, i: nat, y: string, k: nat, n: nat) {
    forall p: nat :: i <= p <= i + n && Boundary(cc, x, p) ==> Boundary(cc, y, p - i + k)
  }

  /** A span moves to any other text that shows the same characters there and
      loses none of its boundaries. */
  lemma {:induction false} LangMove(cc: Classes, re: Re, x: string, i: nat, y: string, k: nat, n: nat)
    requires SameSpan(x, i, y, k, n)
    requires NoEdge(re) || KeepsEdges(cc, x, i, y, k, n)
    requires Lang(cc, re, x, i, i + n)
    ensures Lang(cc, re, y, k, k + n)
    decreases re
  {
    match re
    case Cls(s) =>
    case Many(s) =>
      forall j | k <= j < k + n ensures In(cc, s, y[j]) {
        assert x[j - k + i] == y[j];
      }
    case Cat(a, b) =>
      var e := i + n;
      assert Lang(cc, re, x, i, e);
      var m: nat :| Mid(i, m, e) && Lang(cc, a, x, i, m) && Lang(cc, b, x, m, e);
      var d := m - i;
      LangMove(cc, a, x, i, y, k, d);
      LangMove(cc, b, x, m, y, k + d, n - d);
      assert Mid(k, k + d, k + n);
    case Alt(a, b) =>
      if Lang(cc, a, x, i, i + n) { LangMove(cc, a, x, i, y, k, n); } else { LangMove(cc, b, x, i, y, k, n); }
    case Edge =>
  }

  function MinLen(re: Re): nat {
    match re
    case Cls(_) => 1
    case Many(_) => 0
    case Cat(a, b) => MinLen(a) + MinLen(b)
    case Alt(a, b) => if MinLen(a) < MinLen(b) then MinLen(a) else MinLen(b)
    case Edge => 0
  }

  lemma {:induction false} LangMinLen(cc: Classes, re: Re, t: string, i: nat, e: nat)
    requires i <= e <= |t| && Lang(cc, re, t, i, e)
    ensures e - i >= MinLen(re)
    decreases re
  {
    match re
    case Cat(a, b) =>
      var m: nat :| Mid(i, m, e) && Lang(cc, a, t, i, m) && Lang(cc, b, t, m, e);
      LangMinLen(cc, a, t, i, m);
      LangMinLen(cc, b, t, m, e);
    case Alt(a, b) =>
      if Lang(cc, a, t, i, e) { LangMinLen(cc, a, t, i, e); } else { LangMinLen(cc, b, t, i, e); }
    case _ =>
  }

  /** No bracket expression of `re` admits `c`. */
  predicate Excludes(cc: Classes, re: Re, c: char) {
    match re
    case Cls(s) => !In(cc, s, c)
    case Many(s) => !In(cc, s, c)
    case Cat(a, b) => Excludes(cc, a, c) && Excludes(cc, b, c)
    case Alt(a, b) => Excludes(cc, a, c) && Excludes(cc, b, c)
    case Edge => true
  }

  lemma {:induction false} LangExcludes(cc: Classes, re: Re, t: string, i: nat, e: nat, c: char)
    requires i <= e <= |t| && Lang(cc, re, t, i, e) && Excludes(cc, re, c)
    ensures forall j :: i <= j < e ==> t[j] != c
    decreases re
  {
    match re
    case Cat(a, b) =>
      var m: nat :| Mid(i, m, e) && Lang(cc, a, t, i, m) && Lang(cc, b, t, m, e);
      LangExcludes(cc, a, t, i, m, c);
      LangExcludes(cc, b, t, m, e, c);
    case Alt(a, b) =>
      if Lang(cc, a, t, i, e) { LangExcludes(cc, a, t, i, e, c); } else { LangExcludes(cc, b, t, i, e, c); }
    case _ =>
  }
}
