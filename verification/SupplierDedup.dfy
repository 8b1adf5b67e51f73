/** Supplier candidates: deduplication by INN in the sourcer (`agents/sourcer.py`)
    and the grouping of purchases per supplier (`agents/tools/historical.py`). */
module SupplierDedup {
  import opened Options

  /** The INN is empty when the key is missing; the id stands for the rest. */
  datatype Candidate = Candidate(inn: string, source: string, id: int)

  function Rank(source: string): nat {
    if source == "historical" then 0 else if source == "vector" then 1 else 2
  }

  function Last(s: seq<Candidate>): Candidate requires s != [] { s[|s| - 1] }
  function Init(s: seq<Candidate>): seq<Candidate> requires s != [] { s[..|s| - 1] }

  /** The candidate kept for an INN: the earliest of the best source. */
  function Best(s: seq<Candidate>, inn: string): Option<Candidate> {
    if s == [] then None else
    var best := Best(Init(s), inn);
    if Last(s).inn == inn && (best.None? || Rank(Last(s).source) < Rank(best.value.source)) then Some(Last(s)) else best
  }

  /** The INNs in order of first appearance; candidates without one are skipped. */
  function Order(s: seq<Candidate>): seq<string> {
    if s == [] then [] else
    var order := Order(Init(s));
    if Last(s).inn == "" || Last(s).inn in order then order else order + [Last(s).inn]
  }

  lemma {:induction false} OrderIsDistinct(s: seq<Candidate>)
    ensures forall inn :: inn in Order(s) <==> inn != "" && Best(s, inn).Some?
    ensures forall i, j :: 0 <= i < j < |Order(s)| ==> Order(s)[i] != Order(s)[j]
  {
    if s != [] { OrderIsDistinct(Init(s)); }
  }

  /** The first candidate with the INN. */
  function First(s: seq<Candidate>, inn: string): Option<Candidate> {
    if s == [] then None
    else if s[0].inn == inn then Some(s[0])
    else First(s[1..], inn)
  }

  /** The independent reading: among all candidates with the INN it has the
      least rank, and everything of that rank before it has another INN. */
  ghost predicate EarliestOfBest(s: seq<Candidate>, k: nat) {
    && k < |s|
    && (forall i :: 0 <= i < |s| && s[i].inn == s[k].inn ==> Rank(s[k].source) <= Rank(s[i].source))
    && (forall i :: 0 <= i < k && s[i].inn == s[k].inn ==> Rank(s[k].source) < Rank(s[i].source))
  }

  lemma {:induction false} BestIsEarliestOfBest(s: seq<Candidate>, inn: string) returns (k: nat)
    ensures Best(s, inn).None? ==> forall i :: 0 <= i < |s| ==> s[i].inn != inn
    ensures Best(s, inn).Some? ==> EarliestOfBest(s, k) && s[k].inn == inn && Best(s, inn) == Some(s[k])
  {
    if s == [] { return 0; }
    var n := |s| - 1;
    k := BestIsEarliestOfBest(Init(s), inn);
    assert forall i :: 0 <= i < n ==> s[i] == Init(s)[i];
    if Best(s, inn) != Best(Init(s), inn) { k := n; }
  }

  /** How the sources rank: historical before vector before everything else. */
  lemma SourcesRank(s: seq<Candidate>, inn: string, i: nat)
    requires i < |s| && s[i].inn == inn
    ensures var best := Best(s, inn);
            && best.Some? && best.value.inn == inn
            && (s[i].source == "historical" ==> best.value.source == "historical")
            && (s[i].source == "vector" ==> best.value.source in {"historical", "vector"})
  {
    var k := BestIsEarliestOfBest(s, inn);
  }

  /** i is the first place of an INN. */
  ghost predicate FirstAt(s: seq<Candidate>, inn: string, i: nat) {
    i < |s| && s[i].inn == inn && forall j :: 0 <= j < i ==> s[j].inn != inn
  }

  /** The INNs come in the order of their first appearance. */
  lemma {:induction false} OrderIsByAppearance(s: seq<Candidate>) returns (places: seq<nat>)
    ensures |places| == |Order(s)|
    ensures forall i :: 0 <= i < |places| ==> FirstAt(s, Order(s)[i], places[i])
    ensures forall i, j :: 0 <= i < j < |places| ==> places[i] < places[j]
  {
    if s == [] { return []; }
    var n := |s| - 1;
    OrderIsDistinct(Init(s));
    places := OrderIsByAppearance(Init(s));
    assert forall i :: 0 <= i < n ==> Init(s)[i] == s[i];
    forall i | 0 <= i < |places| ensures FirstAt(s, Order(s)[i], places[i]) {
      assert FirstAt(Init(s), Order(Init(s))[i], places[i]);
    }
    if |Order(s)| > |places| {
      var inn := Last(s).inn;
      var k := BestIsEarliestOfBest(Init(s), inn);
      assert Best(Init(s), inn).None?;
      places := places + [n];
    }
  }

  /** The loop of `sourcer_node` over the combined candidates; the dict keeps the
      place of a key that is overwritten. */
  method Dedup(candidates: seq<Candidate>) returns (kept: seq<Candidate>)
    ensures |kept| == |Order(candidates)|
    ensures forall i :: 0 <= i < |kept| ==> Best(candidates, Order(candidates)[i]) == Some(kept[i])
  {
    var keys: seq<string> := [];
    kept := [];
    for n := 0 to |candidates|
      invariant keys == Order(candidates[..n]) && |kept| == |keys|
      invariant forall i :: 0 <= i < |kept| ==> Best(candidates[..n], keys[i]) == Some(kept[i])
    {
      var c := candidates[n];
      ghost var before, after := candidates[..n], candidates[..n + 1];
      assert Init(after) == before && Last(after) == c;
      OrderIsDistinct(before);
      if c.inn == "" { continue; }
      var at := IndexOf(keys, c.inn);
      if at < |keys| {
        if Rank(c.source) < Rank(kept[at].source) { kept := kept[at := c]; }
        continue;
      }
      keys, kept := keys + [c.inn], kept + [c];
    }
    assert candidates[..|candidates|] == candidates;
  }

  method IndexOf(keys: seq<string>, key: string) returns (at: nat)
    ensures at <= |keys| && (at < |keys| <==> key in keys) && (at < |keys| ==> keys[at] == key)
  {
    at := 0;
    while at < |keys|
      invariant at <= |keys| && key !in keys[..at]
    {
      if keys[at] == key { return; }
      at := at + 1;
    }
  }

  /** Best sources first, as the sourcer concatenates them. */
  ghost predicate RankAscending(s: seq<Candidate>) {
    forall i, j :: 0 <= i < j < |s| ==> Rank(s[i].source) <= Rank(s[j].source)
  }

  lemma {:induction false} FirstIs(s: seq<Candidate>, k: nat)
    requires k < |s| && forall i :: 0 <= i < k ==> s[i].inn != s[k].inn
    ensures First(s, s[k].inn) == Some(s[k])
  {
    if k > 0 { FirstIs(s[1..], k - 1); }
  }

  lemma {:induction false} FirstNone(s: seq<Candidate>, inn: string)
    requires forall i :: 0 <= i < |s| ==> s[i].inn != inn
    ensures First(s, inn) == None
  {
    if s != [] { FirstNone(s[1..], inn); }
  }

  /** In that order the rank comparison never fires: first wins. */
  lemma FirstWins(historical: seq<Candidate>, vector: seq<Candidate>, spark: seq<Candidate>, inn: string)
    requires forall c :: c in historical ==> c.source == "historical"
    requires forall c :: c in vector ==> c.source == "vector"
    requires forall c :: c in spark ==> c.source == "spark"
    ensures var s := historical + vector + spark; Best(s, inn) == First(s, inn)
  {
    var s := historical + vector + spark;
    assert RankAscending(s);
    var k := BestIsEarliestOfBest(s, inn);
    if Best(s, inn).None? {
      FirstNone(s, inn);
    } else {
      forall i | 0 <= i < k ensures s[i].inn != s[k].inn { assert Rank(s[i].source) <= Rank(s[k].source); }
      FirstIs(s, k);
    }
  }

  // ---- Purchases per supplier ----------------------------------------------

  function Purchases(rows: seq<string>, inn: string): nat {
    if rows == [] then 0 else Purchases(rows[..|rows| - 1], inn) + (if rows[|rows| - 1] == inn then 1 else 0)
  }

  /** The number of rows with that supplier. */
  lemma {:induction false} PurchasesAreRows(rows: seq<string>, inn: string)
    ensures Purchases(rows, inn) == |set k: nat | k < |rows| && rows[k] == inn|
  {
    var s := set k: nat | k < |rows| && rows[k] == inn;
    if rows != [] {
      var n := |rows| - 1;
      PurchasesAreRows(rows[..n], inn);
      var s0 := set k: nat | k < n && rows[..n][k] == inn;
      assert s == s0 + if rows[n] == inn then {n} else {};
      assert n !in s0;
    }
  }

  function Suppliers(rows: seq<string>): (r: seq<string>)
    ensures forall inn :: inn in r <==> inn in rows
    ensures forall i, j :: 0 <= i < j < |r| ==> r[i] != r[j]
  {
    if rows == [] then [] else
    var init, last := rows[..|rows| - 1], rows[|rows| - 1];
    var r := Suppliers(init);
    assert rows == init + [last];
    if last in r then r else r + [last]
  }

  /** `lookup_by_skus` over the joined rows, each given by its supplier's INN. */
  method CountPurchases(rows: seq<string>) returns (inns: seq<string>, histCount: seq<nat>)
    ensures inns == Suppliers(rows) && |histCount| == |inns|
    ensures forall i :: 0 <= i < |inns| ==> histCount[i] == Purchases(rows, inns[i])
  {
    inns, histCount := [], [];
    for n := 0 to |rows|
      invariant inns == Suppliers(rows[..n]) && |histCount| == |inns|
      invariant forall i :: 0 <= i < |inns| ==> histCount[i] == Purchases(rows[..n], inns[i])
    {
      assert rows[..n + 1][..n] == rows[..n];
      var at := IndexOf(inns, rows[n]);
      if at < |inns| {
        histCount := histCount[at := histCount[at] + 1];
        continue;
      }
      NoPurchases(rows[..n], rows[n]);
      inns, histCount := inns + [rows[n]], histCount + [1];
    }
    assert rows[..|rows|] == rows;
  }

  lemma {:induction false} NoPurchases(rows: seq<string>, inn: string)
    requires inn !in rows
    ensures Purchases(rows, inn) == 0
  {
    if rows != [] { NoPurchases(rows[..|rows| - 1], inn); }
  }

  function Total(rows: seq<string>, inns: seq<string>): nat {
    if inns == [] then 0 else Total(rows, inns[..|inns| - 1]) + Purchases(rows, inns[|inns| - 1])
  }

  lemma {:induction false} OneMoreRow(rows: seq<string>, inn: string, inns: seq<string>)
    requires forall i, j :: 0 <= i < j < |inns| ==> inns[i] != inns[j]
    ensures Total(rows + [inn], inns) == Total(rows, inns) + if inn in inns then 1 else 0
  {
    if inns != [] {
      var n := |inns| - 1;
      assert (rows + [inn])[..|rows|] == rows;
      assert inns == inns[..n] + [inns[n]];
      OneMoreRow(rows, inn, inns[..n]);
    }
  }

  /** Every joined row is counted for exactly one supplier. */
  lemma {:induction false} CountsSumToRows(rows: seq<string>)
    ensures Total(rows, Suppliers(rows)) == |rows|
  {
    if rows != [] {
      var init, last := rows[..|rows| - 1], rows[|rows| - 1];
      assert rows == init + [last];
      CountsSumToRows(init);
      OneMoreRow(init, last, Suppliers(init));
      var r := Suppliers(init);
      if last !in r {
        assert (r + [last])[..|r|] == r;
        NoPurchases(init, last);
      }
    }
  }
}
