/** The circuit breaker around the LLM (`services/llm_client.py`), refined to
    the plain history of what happened to it. */
module CircuitBreaker {
  import opened Options
  import opened SlidingWindow

  datatype Config = Config(threshold: int, window: real, openFor: real)

  const DEFAULT := Config(5, 60.0, 30.0)

  /** Failures and successes are recorded; reading `is_open` changes the state too. */
  datatype Event = Failed(at: real) | Succeeded(at: real) | Read(at: real)

  type History = seq<Event>

  /** `time.time()` does not go back. */
  ghost predicate Chronological(h: History) {
    forall i, j :: 0 <= i < j < |h| ==> h[i].at <= h[j].at
  }

  // ---- What the history says -----------------------------------------------

  /** The k-th failure and those less than a window before it reach the threshold. */
  ghost predicate Trips(c: Config, fs: seq<real>, k: nat)
    requires k < |fs|
  {
    |set j: nat | j < k && fs[k] - fs[j] < c.window| + 1 >= c.threshold
  }

  /** Those failures, in order. */
  function Window(c: Config, fs: seq<real>, k: nat): seq<real>
    requires k < |fs|
  {
    Within(fs[..k], fs[k], c.window) + [fs[k]]
  }

  lemma TripsIff(c: Config, fs: seq<real>, k: nat)
    requires k < |fs|
    ensures Trips(c, fs, k) <==> |Window(c, fs, k)| >= c.threshold
  {
    var places := WithinPlaces(fs[..k], fs[k], c.window);
    assert Recent(fs[..k], fs[k], c.window) == set j: nat | j < k && fs[k] - fs[j] < c.window;
  }

  /** The newest failure that reached the threshold. */
  ghost function Trip(c: Config, fs: seq<real>): Option<real> {
    if fs == [] then None
    else if Trips(c, fs, |fs| - 1) then Some(fs[|fs| - 1])
    else Trip(c, fs[..|fs| - 1])
  }

  ghost predicate Lapsed(c: Config, fs: seq<real>, now: real) {
    var t := Trip(c, fs); t.Some? && now - t.value > c.openFor
  }

  /** A reset is a success, or a read that finds the open period over. */
  ghost function Next(c: Config, fs: seq<real>, e: Event): seq<real> {
    match e
    case Failed(t) => fs + [t]
    case Succeeded(_) => []
    case Read(now) => if Lapsed(c, fs, now) then [] else fs
  }

  /** All failures since the last reset. */
  ghost function Since(c: Config, h: History): seq<real> {
    if h == [] then [] else Next(c, Since(c, h[..|h| - 1]), h[|h| - 1])
  }

  /** Some failure since the last reset reached the threshold and is at most
      `open_duration_sec` old. */
  ghost predicate OpenAt(c: Config, h: History, now: real) {
    var fs := Since(c, h); exists k: nat :: k < |fs| && Trips(c, fs, k) && now - fs[k] <= c.openFor
  }

  // ---- What the code does --------------------------------------------------

  datatype State = State(failures: seq<real>, openedAt: Option<real>)

  function Step(c: Config, s: State, e: Event): State {
    match e
    case Failed(now) =>
      var failures := Within(s.failures, now, c.window) + [now];
      State(failures, if |failures| >= c.threshold then Some(now) else s.openedAt)
    case Succeeded(_) => State([], None)
    case Read(now) =>
      if s.openedAt.Some? && now - s.openedAt.value > c.openFor then State([], None) else s
  }

  function Run(c: Config, h: History): State {
    if h == [] then State([], None) else Step(c, Run(c, h[..|h| - 1]), h[|h| - 1])
  }

  class CircuitBreaker {
    const config: Config
    var failures: seq<real>
    var openedAt: Option<real>
    ghost var history: History

    ghost predicate Valid()
      reads this
    {
      State(failures, openedAt) == Run(config, history)
    }

    constructor (config: Config := DEFAULT)
      ensures Valid() && history == [] && this.config == config
    {
      this.config := config;
      failures, openedAt, history := [], None, [];
    }

    method IsOpen(now: real) returns (open: bool)
      requires Valid()
      modifies this
      ensures Valid() && history == old(history) + [Read(now)]
      ensures Chronological(old(history) + [Read(now)]) ==> (open <==> OpenAt(config, old(history), now))
    {
      ghost var was := history;
      history := was + [Read(now)];
      assert history[..|was|] == was;
      if Chronological(history) { RefinesHistory(config, was, now); }
      if openedAt.None? {
        return false;
      }
      if now - openedAt.value > config.openFor {
        openedAt := None;
        failures := [];
        return false;
      }
      return true;
    }

    method RecordFailure(now: real)
      requires Valid()
      modifies this
      ensures Valid() && history == old(history) + [Failed(now)]
    {
      history := history + [Failed(now)];
      assert history[..|history| - 1] == old(history);
      failures := Within(failures, now, config.window);
      failures := failures + [now];
      if |failures| >= config.threshold {
        openedAt := Some(now);
      }
    }

    method RecordSuccess(now: real)
      requires Valid()
      modifies this
      ensures Valid() && history == old(history) + [Succeeded(now)]
    {
      history := history + [Succeeded(now)];
      assert history[..|history| - 1] == old(history);
      failures := [];
      openedAt := None;
    }
  }

  const ATTEMPTS := 2

  datatype Reply = Unavailable | Raised | Answer(text: string)

  /** `call_llm_with_circuit_breaker`, with the replies the provider would give
      to the two attempts and the times at which the call starts and ends. */
  method CallGuarded(breaker: CircuitBreaker, started: real, ended: real, replies: seq<Option<string>>)
    returns (r: Reply, attempts: nat)
    requires breaker.Valid() && |replies| == 2 && started <= ended
    requires Chronological(breaker.history + [Read(started)])
    modifies breaker
    ensures breaker.Valid() && attempts <= 2
    ensures OpenAt(breaker.config, old(breaker.history), started) <==> attempts == 0
    ensures attempts == 0 ==> r == Unavailable && breaker.history == old(breaker.history) + [Read(started)]
    ensures attempts > 0 ==>
      && (r == if replies[0].Some? then Answer(replies[0].value)
               else if replies[1].Some? then Answer(replies[1].value) else Raised)
      && attempts == (if replies[0].Some? then 1 else 2)
      && breaker.history == old(breaker.history) + [Read(started)]
           + [if r.Answer? then Succeeded(ended) else Failed(ended)]
  {
    var open := breaker.IsOpen(started);
    if open {
      return Unavailable, 0;
    }
    attempts := 0;
    while true
      invariant attempts < ATTEMPTS
      invariant attempts > 0 ==> replies[0].None?
      invariant breaker.Valid() && breaker.history == old(breaker.history) + [Read(started)]
      decreases ATTEMPTS - attempts
    {
      attempts := attempts + 1;
      if replies[attempts - 1].Some? {
        breaker.RecordSuccess(ended);
        return Answer(replies[attempts - 1].value), attempts;
      }
      if attempts == ATTEMPTS {
        breaker.RecordFailure(ended);
        return Raised, attempts;
      }
    }
  }

  // ---- Refinement ----------------------------------------------------------

  lemma {:induction false} SinceTimes(c: Config, h: History)
    requires Chronological(h)
    ensures h == [] ==> Since(c, h) == []
    ensures forall i :: 0 <= i < |Since(c, h)| ==> Since(c, h)[i] <= h[|h| - 1].at
    ensures forall i, j :: 0 <= i < j < |Since(c, h)| ==> Since(c, h)[i] <= Since(c, h)[j]
  {
    if h != [] {
      var n, init := |h| - 1, h[..|h| - 1];
      SinceTimes(c, init);
      assert n > 0 ==> init[n - 1].at <= h[n].at;
    }
  }

  lemma TripsPrefix(c: Config, fs: seq<real>, gs: seq<real>, k: nat)
    requires k < |fs| && fs <= gs
    ensures Trips(c, gs, k) <==> Trips(c, fs, k)
  {
    TripsIff(c, fs, k);
    TripsIff(c, gs, k);
    assert gs[..k] == fs[..k];
  }

  lemma {:induction false} TripBounds(c: Config, fs: seq<real>)
    requires forall i, j :: 0 <= i < j < |fs| ==> fs[i] <= fs[j]
    ensures Trip(c, fs).Some? ==> exists k: nat :: k < |fs| && Trips(c, fs, k) && fs[k] == Trip(c, fs).value
    ensures forall k: nat :: k < |fs| && Trips(c, fs, k) ==> Trip(c, fs).Some? && fs[k] <= Trip(c, fs).value
  {
    hide Trips;
    if fs != [] {
      var n := |fs| - 1;
      var init := fs[..n];
      TripBounds(c, init);
      forall k: nat | k < n ensures Trips(c, fs, k) == Trips(c, init, k) { TripsPrefix(c, init, fs, k); }
      if !Trips(c, fs, n) && Trip(c, fs).Some? {
        var k: nat :| k < n && Trips(c, init, k) && init[k] == Trip(c, init).value;
        assert Trips(c, fs, k) && fs[k] == Trip(c, fs).value;
      }
    }
  }

  lemma ChronologicalPrefix(h: History, n: nat, g: History)
    requires n <= |h| && Chronological(h + g)
    ensures Chronological(h[..n])
  {
    assert forall i :: 0 <= i < n ==> h[..n][i] == (h + g)[i];
  }

  /** What a pruned list keeps is what a later pruning of the full list keeps. */
  lemma PrunedIsEnough(c: Config, fs: seq<real>, now: real)
    requires fs != [] && fs[|fs| - 1] <= now
    ensures Within(Window(c, fs, |fs| - 1), now, c.window) == Within(fs, now, c.window)
  {
    var init, last := fs[..|fs| - 1], fs[|fs| - 1];
    assert fs == init + [last];
    WithinAppend(init, [last], now, c.window);
    WithinTwice(init, last, now, c.window);
    WithinAppend(Within(init, last, c.window), [last], now, c.window);
  }

  /** The two fields, read off the failures since the last reset. */
  ghost function Fields(c: Config, fs: seq<real>): State {
    State(if fs == [] then [] else Window(c, fs, |fs| - 1), Trip(c, fs))
  }

  lemma FailureKeepsFields(c: Config, fs: seq<real>, now: real)
    requires fs != [] ==> fs[|fs| - 1] <= now
    ensures Step(c, Fields(c, fs), Failed(now)) == Fields(c, fs + [now])
  {
    var gs := fs + [now];
    assert gs[..|fs|] == fs;
    TripsIff(c, gs, |fs|);
    assert Within(Fields(c, fs).failures, now, c.window) == Within(fs, now, c.window) by {
      if fs != [] { PrunedIsEnough(c, fs, now); }
    }
  }

  /** The two fields hold exactly what the unpruned history determines. */
  lemma {:induction false} StateIsHistory(c: Config, h: History)
    requires Chronological(h)
    ensures Run(c, h) == Fields(c, Since(c, h))
  {
    if h != [] {
      var init, e := h[..|h| - 1], h[|h| - 1];
      ChronologicalPrefix(h, |h| - 1, []) by { assert h + [] == h; }
      StateIsHistory(c, init);
      var fs := Since(c, init);
      if e.Failed? {
        SinceTimes(c, init);
        assert init != [] ==> init[|init| - 1] == h[|init| - 1];
        FailureKeepsFields(c, fs, e.at);
      }
    }
  }

  lemma RefinesHistory(c: Config, h: History, now: real)
    requires Chronological(h + [Read(now)])
    ensures var o := Run(c, h).openedAt; OpenAt(c, h, now) <==> o.Some? && now - o.value <= c.openFor
  {
    var g := h + [Read(now)];
    assert forall i :: 0 <= i < |h| ==> g[i] == h[i];
    StateIsHistory(c, h);
    SinceTimes(c, h);
    TripBounds(c, Since(c, h));
  }

  /** The breaker as it is configured: the fifth failure within a minute opens it
      for half a minute, and four do not. */
  lemma FiveInAMinute(ts: seq<real>, now: real)
    requires |ts| == 5 && (forall i, j :: 0 <= i < j < 5 ==> ts[i] <= ts[j]) && ts[4] <= now
    ensures OpenAt(DEFAULT, [Failed(ts[0]), Failed(ts[1]), Failed(ts[2]), Failed(ts[3]), Failed(ts[4])], now) <==>
            ts[4] - ts[0] < 60.0 && now - ts[4] <= 30.0
  {
    var h := [Failed(ts[0]), Failed(ts[1]), Failed(ts[2]), Failed(ts[3]), Failed(ts[4])];
    var g := h[..4];
    assert h[..4][..3] == h[..3] && h[..3][..2] == h[..2] && h[..2][..1] == h[..1] && h[..1][..0] == [];
    assert Since(DEFAULT, h[..1]) == [ts[0]];
    assert Since(DEFAULT, h[..2]) == [ts[0], ts[1]];
    assert Since(DEFAULT, h[..3]) == [ts[0], ts[1], ts[2]];
    assert Since(DEFAULT, h[..4]) == [ts[0], ts[1], ts[2], ts[3]];
    assert Since(DEFAULT, h) == ts;
    forall k: nat | k < 5 ensures Trips(DEFAULT, ts, k) <==> k == 4 && ts[4] - ts[0] < 60.0 {
      var before := set j: nat | j < k && ts[k] - ts[j] < 60.0;
      FewerThan(before, k);
      if k == 4 && ts[4] - ts[0] < 60.0 { assert before == {0, 1, 2, 3}; }
      if k == 4 && ts[4] - ts[0] >= 60.0 {
        assert before <= {1, 2, 3};
        assert |before| <= |{1, 2, 3}| by { Subset(before, {1, 2, 3}); }
      }
    }
  }

  lemma Subset(s: set<nat>, t: set<nat>)
    requires s <= t
    ensures |s| <= |t|
  {
    assert t == s + (t - s);
  }

  lemma {:induction false} FewerThan(s: set<nat>, n: nat)
    requires forall k :: k in s ==> k < n
    ensures |s| <= n
  {
    if n > 0 { FewerThan(s - {n - 1}, n - 1); }
  }

  // ---- What follows for whole runs -----------------------------------------

  function Failures(h: History): seq<real> {
    if h == [] then [] else Failures(h[..|h| - 1]) + (if h[|h| - 1].Failed? then [h[|h| - 1].at] else [])
  }

  ghost predicate NoSuccess(h: History) { forall i :: 0 <= i < |h| ==> !h[i].Succeeded? }

  /** The failures since the last reset are those of a suffix without a success. */
  lemma {:induction false} SinceIsSuffix(c: Config, h: History) returns (i: nat)
    ensures i <= |h| && NoSuccess(h[i..]) && Since(c, h) == Failures(h[i..])
  {
    if h == [] { return 0; }
    var n := |h| - 1;
    i := SinceIsSuffix(c, h[..n]);
    if Since(c, h) == [] && h[n] != Failed(h[n].at) && (h[n].Succeeded? || Lapsed(c, Since(c, h[..n]), h[n].at)) {
      i := |h|;
    } else {
      assert h[i..][..n - i] == h[..n][i..];
    }
  }

  /** An open breaker has seen, within one window and with no success since,
      enough failures, the newest of them at most `open_duration_sec` ago. */
  lemma OpenOnlyAfterFailures(c: Config, h: History, now: real) returns (i: nat, k: nat)
    requires OpenAt(c, h, now)
    ensures i <= |h| && NoSuccess(h[i..])
    ensures var fs := Failures(h[i..]);
            && k < |fs| && now - fs[k] <= c.openFor
            && |set j: nat | j < k && fs[k] - fs[j] < c.window| + 1 >= c.threshold
  {
    i := SinceIsSuffix(c, h);
    k :| k < |Since(c, h)| && Trips(c, Since(c, h), k) && now - Since(c, h)[k] <= c.openFor;
  }

  ghost predicate Ascending(fs: seq<real>) { forall i, j :: 0 <= i < j < |fs| ==> fs[i] <= fs[j] }

  lemma NextKeepsTrip(c: Config, fs: seq<real>, e: Event, k: nat)
    requires Ascending(fs) && !e.Succeeded?
    requires k < |fs| && Trips(c, fs, k) && e.at - fs[k] <= c.openFor
    ensures fs <= Next(c, fs, e) && Trips(c, Next(c, fs, e), k)
  {
    if e.Read? {
      TripBounds(c, fs);
    } else {
      TripsPrefix(c, fs, fs + [e.at], k);
    }
  }

  /** Once tripped at time t, it stays open until t + `open_duration_sec` or a
      success, whatever else is recorded or read meanwhile: no guarded call can
      start. */
  lemma {:induction false} StaysOpen(c: Config, h: History, more: History, k: nat, now: real)
    requires Chronological(h + more) && NoSuccess(more) && forall i :: 0 <= i < |h + more| ==> (h + more)[i].at <= now
    requires k < |Since(c, h)| && Trips(c, Since(c, h), k) && now - Since(c, h)[k] <= c.openFor
    ensures Since(c, h) <= Since(c, h + more) && Trips(c, Since(c, h + more), k)
    ensures OpenAt(c, h + more, now)
  {
    hide Trips, Next, Trip;
    if more == [] {
      assert h + more == h;
    } else {
      var n := |h + more| - 1;
      var init := more[..|more| - 1];
      var upTo := h + init;
      assert (h + more)[..n] == upTo && (h + more)[n] == more[|more| - 1];
      ChronologicalPrefix(h + more, n, []) by { assert h + more + [] == h + more; }
      assert forall i :: 0 <= i < n ==> upTo[i] == (h + more)[i];
      StaysOpen(c, h, init, k, now);
      SinceTimes(c, upTo);
      NextKeepsTrip(c, Since(c, upTo), (h + more)[n], k);
    }
  }
}
