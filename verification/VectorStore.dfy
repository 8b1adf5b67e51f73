/** The in-memory vector store (`vector/qdrant_client.py`): upsert by id and
    top-k search. */
module VectorStore {
  import opened Options
  import opened StableSort

  type Id = string
  type Payload = map<string, Option<string>>

  datatype Point = Point(id: Id, vector: seq<real>, payload: Payload)

  // ---- Upsert --------------------------------------------------------------

  /** The last point with this id: what a store with unique ids holds for it. */
  function Lookup(s: seq<Point>, id: Id): (p: Option<Point>)
    ensures p.Some? ==> p.value in s && p.value.id == id
    ensures p.None? ==> forall i :: 0 <= i < |s| ==> s[i].id != id
  {
    if s == [] then None
    else if s[|s| - 1].id == id then Some(s[|s| - 1])
    else Lookup(s[..|s| - 1], id)
  }

  predicate Has(s: seq<Point>, id: Id) { exists i :: 0 <= i < |s| && s[i].id == id }

  /** Row i is the last one with its id. */
  predicate IsLast(s: seq<Point>, i: nat)
    requires i < |s|
  {
    forall j :: i < j < |s| ==> s[j].id != s[i].id
  }

  /** The points of a batch whose ids the store does not have yet, repeated ids
      included. */
  function New(rows: seq<Point>, batch: seq<Point>): (r: seq<Point>)
    ensures forall i :: 0 <= i < |r| ==> !Has(rows, r[i].id)
  {
    if batch == [] then [] else
    var p := batch[|batch| - 1];
    New(rows, batch[..|batch| - 1]) + (if Has(rows, p.id) then [] else [p])
  }

  function Row(rows: seq<Point>, batch: seq<Point>, i: nat): (p: Point)
    requires i < |rows|
    ensures p.id == rows[i].id
  {
    var w := Lookup(batch, rows[i].id);
    if IsLast(rows, i) && w.Some? then w.value else rows[i]
  }

  /** The store after an upsert: rows keep their places and get the last value
      the batch has for them, new points follow. */
  function Upserted(rows: seq<Point>, batch: seq<Point>): (u: seq<Point>)
    ensures |u| == |rows| + |New(rows, batch)|
  {
    seq(|rows|, i requires 0 <= i < |rows| => Row(rows, batch, i)) + New(rows, batch)
  }

  /** `{p["id"]: i for i, p in enumerate(rows)}` */
  function Index(rows: seq<Point>): (m: map<Id, nat>)
    ensures forall id :: id in m <==> Has(rows, id)
    ensures forall id :: id in m ==> m[id] < |rows| && rows[m[id]].id == id && IsLast(rows, m[id])
  {
    if rows == [] then map[] else
    var n := |rows| - 1;
    var m := Index(rows[..n]);
    assert forall i :: 0 <= i < n ==> rows[..n][i] == rows[i];
    m[rows[n].id := n]
  }

  lemma OneMore(rows: seq<Point>, batch: seq<Point>, p: Point)
    ensures New(rows, batch + [p]) == New(rows, batch) + if Has(rows, p.id) then [] else [p]
    ensures forall i: nat :: i < |rows| ==>
              Row(rows, batch + [p], i) == if IsLast(rows, i) && rows[i].id == p.id then p else Row(rows, batch, i)
  {
    assert (batch + [p])[..|batch|] == batch;
  }

  /** One more point: overwrite the row the index names, or append. */
  lemma UpsertOne(rows: seq<Point>, batch: seq<Point>, p: Point)
    ensures var u := Upserted(rows, batch);
            Upserted(rows, batch + [p]) == if Has(rows, p.id) then u[Index(rows)[p.id] := p] else u + [p]
  {
    hide Row, New, Index;
    var u, u' := Upserted(rows, batch), Upserted(rows, batch + [p]);
    OneMore(rows, batch, p);
    forall i: nat | i < |rows|
      ensures u'[i] == if Has(rows, p.id) && i == Index(rows)[p.id] then p else u[i] {}
    if Has(rows, p.id) {
      assert u' == u[Index(rows)[p.id] := p];
    } else {
      assert u' == u + [p];
    }
  }

  lemma UpsertNothing(rows: seq<Point>)
    ensures Upserted(rows, []) == rows
  {
  }

  // ---- Search --------------------------------------------------------------

  datatype Hit = Hit(id: Id, payload: Payload, score: real)

  /** Sorting by score, reversed. */
  predicate Better(x: Hit, y: Hit) { x.score > y.score }

  /** `payload.get(k) == v` for every pair; a missing key reads as None. */
  predicate Meets(p: Payload, filter: Payload) {
    forall k :: k in filter ==> (if k in p then p[k] else None) == filter[k]
  }

  function Filtered(rows: seq<Point>, filter: Payload): seq<Point> {
    if rows == [] then []
    else
      var last := rows[|rows| - 1];
      Filtered(rows[..|rows| - 1], filter) + (if Meets(last.payload, filter) then [last] else [])
  }

  function Scored(rows: seq<Point>, score: seq<real> -> real): seq<Hit> {
    seq(|rows|, i requires 0 <= i < |rows| => Hit(rows[i].id, rows[i].payload, score(rows[i].vector)))
  }

  /** `s[:limit]`, also for negative limits. */
  function Slice(s: seq<Hit>, limit: int): seq<Hit> {
    if limit >= |s| then s
    else if limit >= 0 then s[..limit]
    else if |s| + limit >= 0 then s[..|s| + limit]
    else []
  }

  /** Every hit the filter lets through, in insertion order. */
  function Matches(rows: seq<Point>, score: seq<real> -> real, filter: Payload): seq<Hit> {
    Scored(Filtered(rows, filter), score)
  }

  function Search(rows: seq<Point>, score: seq<real> -> real, limit: int, filter: Payload): seq<Hit> {
    Slice(Sort(Better, Matches(rows, score, filter)), limit)
  }

  class InMemoryVectorStore {
    var collections: map<string, seq<Point>>

    constructor ()
      ensures collections == map[]
    {
      collections := map[];
    }

    function Rows(name: string): seq<Point>
      reads this
    {
      if name in collections then collections[name] else []
    }

    method Ensure(name: string)
      modifies this
      ensures collections == old(collections)[name := old(Rows(name))]
    {
      if name !in collections { collections := collections[name := []]; }
    }

    method Upsert(name: string, points: seq<Point>)
      modifies this
      ensures collections == old(collections)[name := Upserted(old(Rows(name)), points)]
    {
      hide Upserted, Index, New;
      Ensure(name);
      ghost var rows := collections[name];
      UpsertNothing(rows);
      var existing := Index(collections[name]);
      for k := 0 to |points|
        invariant collections.Keys == old(collections.Keys) + {name}
        invariant forall other :: other in old(collections) && other != name ==>
                    collections[other] == old(collections[other])
        invariant collections[name] == Upserted(rows, points[..k])
      {
        var p := points[k];
        UpsertOne(rows, points[..k], p);
        assert points[..k + 1] == points[..k] + [p];
        if p.id in existing {
          collections := collections[name := collections[name][existing[p.id] := p]];
        } else {
          collections := collections[name := collections[name] + [p]];
        }
      }
      assert points[..|points|] == points;
    }

    /** An empty filter is no filter. */
    method SearchIn(name: string, score: seq<real> -> real, limit: int, filter: Payload) returns (hits: seq<Hit>)
      modifies this
      ensures collections == old(collections)[name := old(Rows(name))]
      ensures hits == Search(old(Rows(name)), score, limit, filter)
    {
      Ensure(name);
      var rows := collections[name];
      if filter != map[] {
        rows := Filtered(rows, filter);
      } else {
        NoFilter(rows);
      }
      var scored := [];
      for i := 0 to |rows|
        invariant |scored| == i
        invariant forall j :: 0 <= j < i ==> scored[j] == Hit(rows[j].id, rows[j].payload, score(rows[j].vector))
      {
        scored := scored + [Hit(rows[i].id, rows[i].payload, score(rows[i].vector))];
      }
      assert scored == Scored(rows, score);
      return Slice(Sort(Better, scored), limit);
    }

    method Count(name: string) returns (n: nat)
      ensures n == |Rows(name)|
    {
      n := if name in collections then |collections[name]| else 0;
    }
  }

  lemma {:induction false} NoFilter(rows: seq<Point>)
    ensures Filtered(rows, map[]) == rows
  {
    if rows != [] { NoFilter(rows[..|rows| - 1]); }
  }

  // ---- What an upsert guarantees -------------------------------------------

  ghost predicate Unique(s: seq<Point>) { forall i, j :: 0 <= i < j < |s| ==> s[i].id != s[j].id }

  lemma UpsertedParts(rows: seq<Point>, batch: seq<Point>)
    ensures var u := Upserted(rows, batch);
            && |u| == |rows| + |New(rows, batch)|
            && (forall i :: 0 <= i < |rows| ==> u[i] == Row(rows, batch, i))
            && (forall i :: |rows| <= i < |u| ==> u[i] == New(rows, batch)[i - |rows|])
            && u[|rows|..] == New(rows, batch)
  {
  }

  /** Ids stay unique exactly when no new id occurs twice in the batch. */
  lemma UniqueIff(rows: seq<Point>, batch: seq<Point>)
    requires Unique(rows)
    ensures Unique(Upserted(rows, batch)) <==> Unique(New(rows, batch))
  {
    UpsertedParts(rows, batch);
    var u, added := Upserted(rows, batch), New(rows, batch);
    if Unique(added) {
      forall i, j | 0 <= i < j < |u| ensures u[i].id != u[j].id {
        if i < |rows| <= j { assert !Has(rows, added[j - |rows|].id); }
      }
    } else {
      var i, j :| 0 <= i < j < |added| && added[i].id == added[j].id;
      assert u[|rows| + i].id == u[|rows| + j].id;
    }
  }

  lemma {:induction false} LookupAppend(a: seq<Point>, b: seq<Point>, id: Id)
    ensures Lookup(a + b, id) == if Lookup(b, id).Some? then Lookup(b, id) else Lookup(a, id)
  {
    if b == [] {
      assert a + b == a;
    } else {
      assert (a + b)[..|a + b| - 1] == a + b[..|b| - 1];
      LookupAppend(a, b[..|b| - 1], id);
    }
  }

  lemma {:induction false} NewLookup(rows: seq<Point>, batch: seq<Point>, id: Id)
    ensures Lookup(New(rows, batch), id) == if Has(rows, id) then None else Lookup(batch, id)
  {
    hide Has;
    if batch != [] {
      var init, p := batch[..|batch| - 1], batch[|batch| - 1];
      NewLookup(rows, init, id);
      if Has(rows, p.id) {
        assert New(rows, batch) == New(rows, init);
      } else {
        LookupAppend(New(rows, init), [p], id);
      }
    }
  }

  lemma {:induction false} LookupIsLast(s: seq<Point>, i: nat)
    requires i < |s| && IsLast(s, i)
    ensures Lookup(s, s[i].id) == Some(s[i])
  {
    var n := |s| - 1;
    if i < n {
      assert IsLast(s[..n], i);
      LookupIsLast(s[..n], i);
    }
  }

  /** An upsert is a map update: the batch wins where it has the id, everything
      else is as before. */
  lemma RefinesMapUpdate(rows: seq<Point>, batch: seq<Point>, id: Id)
    ensures Lookup(Upserted(rows, batch), id) ==
            if Lookup(batch, id).Some? then Lookup(batch, id) else Lookup(rows, id)
  {
    UpsertedParts(rows, batch);
    var u, added := Upserted(rows, batch), New(rows, batch);
    var kept := u[..|rows|];
    assert u == kept + added;
    LookupAppend(kept, added, id);
    NewLookup(rows, batch, id);
    if Has(rows, id) {
      var i := Index(rows)[id];
      assert IsLast(kept, i);
      LookupIsLast(kept, i);
      LookupIsLast(rows, i);
    }
  }

  /** Rows of the store keep their places; no row disappears. */
  lemma PlacesKept(rows: seq<Point>, batch: seq<Point>, i: nat)
    requires i < |rows|
    ensures i < |Upserted(rows, batch)| && Upserted(rows, batch)[i].id == rows[i].id
    ensures Lookup(batch, rows[i].id).None? ==> Upserted(rows, batch)[i] == rows[i]
  {
    UpsertedParts(rows, batch);
  }

  lemma {:induction false} NothingNew(rows: seq<Point>, batch: seq<Point>)
    requires forall i :: 0 <= i < |batch| ==> Has(rows, batch[i].id)
    ensures New(rows, batch) == []
  {
    if batch != [] { NothingNew(rows, batch[..|batch| - 1]); }
  }

  /** Repeating a batch, with or without repeated ids, changes nothing. */
  lemma RepeatChangesNothing(rows: seq<Point>, batch: seq<Point>)
    ensures Upserted(Upserted(rows, batch), batch) == Upserted(rows, batch)
  {
    var u := Upserted(rows, batch);
    forall i | 0 <= i < |batch| ensures Has(u, batch[i].id) {
      RefinesMapUpdate(rows, batch, batch[i].id);
      assert Lookup(batch, batch[i].id).Some?;
      assert Lookup(u, batch[i].id).value in u;
    }
    NothingNew(u, batch);
    UpsertedParts(u, batch);
    forall i | 0 <= i < |u| ensures Row(u, batch, i) == u[i] {
      if IsLast(u, i) {
        LookupIsLast(u, i);
        RefinesMapUpdate(rows, batch, u[i].id);
      }
    }
  }

  /** A new id twice in one batch ends up in two rows. */
  lemma RepeatedNewIdIsDuplicated(p: Point, q: Point)
    requires p.id == q.id
    ensures Upserted([], [p, q]) == [p, q] && !Unique(Upserted([], [p, q]))
  {
    assert [p, q][..1] == [p] && [p][..0] == [];
    assert New([], [p]) == [p];
    assert New([], [p, q]) == [p, q];
    assert Upserted([], [p, q]) == [p, q];
    assert [p, q][0].id == [p, q][1].id;
  }

  // ---- What a search guarantees --------------------------------------------

  lemma BetterIsOrder()
    ensures StrictWeak(Better)
  {
  }

  lemma {:induction false} TiesPrefix(s: seq<Hit>, n: nat, e: Hit)
    requires n <= |s|
    ensures Ties(Better, s[..n], e) <= Ties(Better, s, e)
  {
    if n > 0 {
      assert s[..n][1..] == s[1..][..n - 1];
      TiesPrefix(s[1..], n - 1, e);
    }
  }

  lemma TopOfSorted(sorted: seq<Hit>, n: nat)
    requires Sorted(Better, sorted) && n <= |sorted|
    ensures forall i, j :: 0 <= i < j < n ==> sorted[i].score >= sorted[j].score
    ensures forall x, y :: x in sorted[..n] && y in sorted[n..] ==> x.score >= y.score
  {
    forall i, j | 0 <= i < j < |sorted| ensures sorted[i].score >= sorted[j].score {
      assert !Better(sorted[j], sorted[i]);
    }
  }

  /** The first min(limit, matches) rows by falling score, ties in insertion
      order, and nothing omitted scores above anything returned. */
  lemma TopK(rows: seq<Point>, score: seq<real> -> real, limit: nat, filter: Payload)
    ensures var all, hits := Matches(rows, score, filter), Search(rows, score, limit, filter);
            && |hits| == (if limit < |all| then limit else |all|)
            && multiset(hits) <= multiset(all)
            && (forall i, j :: 0 <= i < j < |hits| ==> hits[i].score >= hits[j].score)
            && (forall x, y :: x in hits && y in multiset(all) - multiset(hits) ==> x.score >= y.score)
            && (forall e :: Ties(Better, hits, e) <= Ties(Better, all, e))
  {
    hide Sort, Ties, Matches, Sorted, Better;
    var all := Matches(rows, score, filter);
    var sorted := Sort(Better, all);
    BetterIsOrder();
    SortSorts(Better, all);
    var hits := Search(rows, score, limit, filter);
    assert hits == sorted[..|hits|];
    TopOfSorted(sorted, |hits|);
    Parts(all, sorted, |hits|);
    forall e ensures Ties(Better, hits, e) <= Ties(Better, all, e) {
      SortStable(Better, all, e);
      TiesPrefix(sorted, |hits|, e);
    }
  }

  /** A filter asks for some values; a missing one counts as None. */
  lemma MeetsIs(p: Payload, filter: Payload)
    ensures Meets(p, filter) <==> forall k :: k in filter ==> if k in p then p[k] == filter[k] else filter[k] == None
  {
  }

  /** Filtering keeps the rows that meet the filter, in order. */
  lemma {:induction false} FilteredPlaces(rows: seq<Point>, filter: Payload) returns (places: seq<nat>)
    ensures |places| == |Filtered(rows, filter)|
    ensures forall i :: 0 <= i < |places| ==> places[i] < |rows| && Filtered(rows, filter)[i] == rows[places[i]]
    ensures forall i, j :: 0 <= i < j < |places| ==> places[i] < places[j]
    ensures forall p: nat :: p in places <==> p < |rows| && Meets(rows[p].payload, filter)
  {
    hide Meets;
    if rows == [] { return []; }
    var n := |rows| - 1;
    places := FilteredPlaces(rows[..n], filter);
    assert forall p :: 0 <= p < n ==> rows[p] == rows[..n][p];
    if Meets(rows[n].payload, filter) { places := places + [n]; }
  }

  /** Where the matches stand among the rows: one for each row whose payload has
      every value the filter asks for, in the order of the rows, with that row's own
      score. */
  lemma MatchPlaces(rows: seq<Point>, score: seq<real> -> real, filter: Payload) returns (places: seq<nat>)
    ensures |places| == |Matches(rows, score, filter)|
    ensures forall i :: 0 <= i < |places| ==>
              var p := places[i];
              p < |rows| && Matches(rows, score, filter)[i] == Hit(rows[p].id, rows[p].payload, score(rows[p].vector))
    ensures forall i, j :: 0 <= i < j < |places| ==> places[i] < places[j]
    ensures forall p: nat :: p in places <==>
              p < |rows| && forall k :: k in filter ==>
                if k in rows[p].payload then rows[p].payload[k] == filter[k] else filter[k] == None
  {
    hide Filtered, Meets;
    places := FilteredPlaces(rows, filter);
    forall p: nat | p < |rows| { MeetsIs(rows[p].payload, filter); }
  }

  /** A negative limit leaves out that many from the end of the ranking. */
  lemma NegativeLimit(rows: seq<Point>, score: seq<real> -> real, limit: int, filter: Payload)
    requires limit < 0
    ensures var all := Search(rows, score, |Matches(rows, score, filter)|, filter);
            var hits := Search(rows, score, limit, filter);
            hits <= all && |hits| == if |all| + limit > 0 then |all| + limit else 0
  {
    hide Sort, Matches;
    BetterIsOrder();
    SortSorts(Better, Matches(rows, score, filter));
  }

  /** The matches are exactly the rows that meet the filter. */
  lemma {:induction false} FilteredRows(rows: seq<Point>, filter: Payload)
    ensures forall p :: multiset(Filtered(rows, filter))[p] == if Meets(p.payload, filter) then multiset(rows)[p] else 0
  {
    if rows != [] {
      var init, last := rows[..|rows| - 1], rows[|rows| - 1];
      FilteredRows(init, filter);
      assert rows == init + [last];
    }
  }
}
