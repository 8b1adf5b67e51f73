/** Python's `sorted`: a stable sort by a strict weak order. */
module StableSort {

  ghost predicate StrictWeak<T(!new)>(less: (T, T) -> bool) {
    && (forall x :: !less(x, x))
    && (forall x, y, z :: less(x, y) && less(y, z) ==> less(x, z))
    && (forall x, y, z :: !less(x, y) && !less(y, z) ==> !less(x, z))
  }

  /** x goes in front of everything that is not smaller. */
  function Insert<T>(less: (T, T) -> bool, x: T, s: seq<T>): seq<T> {
    if s == [] || !less(s[0], x) then [x] + s else [s[0]] + Insert(less, x, s[1..])
  }

  function Sort<T>(less: (T, T) -> bool, s: seq<T>): seq<T> {
    if s == [] then [] else Insert(less, s[0], Sort(less, s[1..]))
  }

  ghost predicate Sorted<T>(less: (T, T) -> bool, s: seq<T>) {
    forall i, j :: 0 <= i < j < |s| ==> !less(s[j], s[i])
  }

  lemma {:induction false} InsertKeeps<T>(less: (T, T) -> bool, x: T, s: seq<T>)
    ensures multiset(Insert(less, x, s)) == multiset(s) + multiset{x}
  {
    if s != [] && less(s[0], x) {
      InsertKeeps(less, x, s[1..]);
      assert s == [s[0]] + s[1..];
    }
  }

  /** Nothing in s is smaller than x. */
  ghost predicate Below<T>(less: (T, T) -> bool, x: T, s: seq<T>) {
    forall j :: 0 <= j < |s| ==> !less(s[j], x)
  }

  lemma SortedCons<T(!new)>(less: (T, T) -> bool, x: T, s: seq<T>)
    ensures Sorted(less, [x] + s) <==> Below(less, x, s) && Sorted(less, s)
  {
    var r := [x] + s;
    assert forall j :: 0 <= j < |s| ==> r[j + 1] == s[j];
    if Sorted(less, r) {
      forall j | 0 <= j < |s| ensures !less(s[j], x) { assert !less(r[j + 1], r[0]); }
      forall i, j | 0 <= i < j < |s| ensures !less(s[j], s[i]) { assert !less(r[j + 1], r[i + 1]); }
    }
  }

  lemma BelowInsert<T(!new)>(less: (T, T) -> bool, y: T, x: T, s: seq<T>)
    requires Below(less, y, s) && !less(x, y)
    ensures Below(less, y, Insert(less, x, s))
  {
    var r := Insert(less, x, s);
    InsertKeeps(less, x, s);
    forall j | 0 <= j < |r| ensures !less(r[j], y) {
      assert r[j] in multiset(r);
      if r[j] != x { assert r[j] in s; }
    }
  }

  lemma {:induction false} InsertSorts<T(!new)>(less: (T, T) -> bool, x: T, s: seq<T>)
    requires StrictWeak(less) && Sorted(less, s)
    ensures Sorted(less, Insert(less, x, s))
  {
    if s == [] {
      SortedCons(less, x, s);
    } else {
      assert s == [s[0]] + s[1..];
      SortedCons(less, s[0], s[1..]);
      if less(s[0], x) {
        InsertSorts(less, x, s[1..]);
        assert !less(x, s[0]);
        BelowInsert(less, s[0], x, s[1..]);
        SortedCons(less, s[0], Insert(less, x, s[1..]));
      } else {
        SortedCons(less, x, s);
      }
    }
  }

  lemma {:induction false} SortSorts<T(!new)>(less: (T, T) -> bool, s: seq<T>)
    requires StrictWeak(less)
    ensures Sorted(less, Sort(less, s)) && multiset(Sort(less, s)) == multiset(s) && |Sort(less, s)| == |s|
  {
    if s != [] {
      SortSorts(less, s[1..]);
      InsertSorts(less, s[0], Sort(less, s[1..]));
      InsertKeeps(less, s[0], Sort(less, s[1..]));
      assert s == [s[0]] + s[1..];
      assert |multiset(Sort(less, s))| == |multiset(s)|;
    }
  }

  ghost predicate Tied<T>(less: (T, T) -> bool, x: T, y: T) { !less(x, y) && !less(y, x) }

  /** The elements that tie with e, in order. */
  ghost function Ties<T>(less: (T, T) -> bool, s: seq<T>, e: T): seq<T> {
    if s == [] then [] else (if Tied(less, s[0], e) then [s[0]] else []) + Ties(less, s[1..], e)
  }

  lemma {:induction false} InsertStable<T(!new)>(less: (T, T) -> bool, x: T, s: seq<T>, e: T)
    requires StrictWeak(less)
    ensures Ties(less, Insert(less, x, s), e) == (if Tied(less, x, e) then [x] else []) + Ties(less, s, e)
  {
    var r := Insert(less, x, s);
    if s == [] || !less(s[0], x) {
      assert r[1..] == s;
    } else {
      InsertStable(less, x, s[1..], e);
      assert r[1..] == Insert(less, x, s[1..]);
    }
  }

  /** Ties keep their original order. */
  lemma {:induction false} SortStable<T(!new)>(less: (T, T) -> bool, s: seq<T>, e: T)
    requires StrictWeak(less)
    ensures Ties(less, Sort(less, s), e) == Ties(less, s, e)
  {
    if s != [] {
      SortStable(less, s[1..], e);
      InsertStable(less, s[0], Sort(less, s[1..]), e);
    }
  }

  /** What is left of a multiset when the front of a sorted list is taken. */
  lemma Parts<T>(all: seq<T>, sorted: seq<T>, n: nat)
    requires n <= |sorted| && multiset(sorted) == multiset(all)
    ensures multiset(sorted[..n]) <= multiset(all)
    ensures multiset(all) - multiset(sorted[..n]) == multiset(sorted[n..])
  {
    assert sorted == sorted[..n] + sorted[n..];
  }
}
