/** The per-recipient mail limiter (`email_service/sender.py`), refined to the
    list of attempts it has seen. */
module MailLimiter {
  import opened SlidingWindow

  const LIMIT := 10
  const MINUTE := 60.0

  datatype Attempt = Attempt(to: string, at: real)

  type History = seq<Attempt>

  ghost predicate Chronological(h: History) {
    forall i, j :: 0 <= i < j < |h| ==> h[i].at <= h[j].at
  }

  /** Every accepted send to a recipient, never pruned. */
  function Accepted(h: History, to: string): seq<real>
    decreases |h|, 0
  {
    if h == [] then [] else
    var init, a := h[..|h| - 1], h[|h| - 1];
    Accepted(init, to) + (if a.to == to && Allowed(init, a) then [a.at] else [])
  }

  /** Fewer than ten accepted sends to the recipient in the last minute. */
  predicate Allowed(h: History, a: Attempt)
    decreases |h|, 1
  {
    |Within(Accepted(h, a.to), a.at, MINUTE)| < LIMIT
  }

  /** The accepted attempts before n to a recipient that are less than a minute old. */
  ghost function RecentSends(h: History, n: nat, to: string, now: real): set<nat>
    requires n <= |h|
    decreases n, 0
  {
    set k: nat | k < n && h[k].to == to && Passes(h, k) && now - h[k].at < 60.0
  }

  /** The rule as such: attempt n is accepted if and only if fewer than ten accepted
      ones to the same recipient are less than a minute old. */
  ghost predicate Passes(h: History, n: nat)
    requires n < |h|
    decreases n, 1
  {
    |RecentSends(h, n, h[n].to, h[n].at)| < 10
  }

  lemma RecentSendsStep(h: History, n: nat, to: string, now: real)
    requires n < |h|
    ensures RecentSends(h, n + 1, to, now)
            == RecentSends(h, n, to, now)
             + if h[n].to == to && Passes(h, n) && now - h[n].at < 60.0 then {n} else {}
    ensures n !in RecentSends(h, n, to, now)
  {
  }

  /** The list of accepted sends holds them. */
  lemma {:induction false} AcceptedIsRecent(h: History, n: nat, to: string, now: real)
    requires n <= |h|
    ensures |Within(Accepted(h[..n], to), now, MINUTE)| == |RecentSends(h, n, to, now)|
    decreases n, 0
  {
    if n > 0 {
      var m := n - 1;
      AcceptedIsRecent(h, m, to, now);
      PassesIff(h, m);
      RecentSendsStep(h, m, to, now);
      assert h[..n][..m] == h[..m];
      var acc, at := Accepted(h[..m], to), h[m].at;
      hide Passes, Allowed, RecentSends;
      if h[m].to == to && Passes(h, m) {
        WithinAppend(acc, [at], now, MINUTE);
        assert Within([at], now, MINUTE) == if now - at < 60.0 then [at] else [];
      } else {
        assert Accepted(h[..n], to) == acc;
      }
    }
  }

  lemma {:induction false} PassesIff(h: History, n: nat)
    requires n < |h|
    ensures Allowed(h[..n], h[n]) <==> Passes(h, n)
    decreases n, 1
  {
    AcceptedIsRecent(h, n, h[n].to, h[n].at);
  }

  type Tracker = map<string, seq<real>>

  function Pruned(m: Tracker, a: Attempt): seq<real> {
    Within(if a.to in m then m[a.to] else [], a.at, MINUTE)
  }

  function Step(m: Tracker, a: Attempt): Tracker {
    var kept := Pruned(m, a);
    m[a.to := if |kept| >= LIMIT then kept else kept + [a.at]]
  }

  function Run(h: History): Tracker {
    if h == [] then map[] else Step(Run(h[..|h| - 1]), h[|h| - 1])
  }

  class MailLimiter {
    var tracker: Tracker
    ghost var history: History

    ghost predicate Valid()
      reads this
    {
      tracker == Run(history)
    }

    constructor ()
      ensures Valid() && history == []
    {
      tracker, history := map[], [];
    }

    /** `_check_rate_limit`. */
    method Check(recipient: string, now: real) returns (allowed: bool)
      requires Valid()
      modifies this
      ensures Valid() && history == old(history) + [Attempt(recipient, now)]
      ensures Chronological(history) ==> (allowed <==> Passes(history, |old(history)|))
    {
      ghost var a := Attempt(recipient, now);
      hide Within, Allowed, Chronological, Run, Passes;
      RunStep(history, a);
      PassesIff(history + [a], |history|);
      assert (history + [a])[..|history|] == history;
      history := history + [a];
      if recipient !in tracker { tracker := tracker[recipient := []]; }
      tracker := tracker[recipient := Within(tracker[recipient], now, MINUTE)];
      if |tracker[recipient]| >= LIMIT {
        return false;
      }
      tracker := tracker[recipient := tracker[recipient] + [now]];
      return true;
    }
  }

  // ---- Refinement ----------------------------------------------------------

  lemma InitChronological(h: History)
    requires h != [] && Chronological(h)
    ensures Chronological(h[..|h| - 1])
    ensures forall i :: 0 <= i < |h| ==> h[i].at <= h[|h| - 1].at
  {
  }

  /** What the tracker has dropped can never matter again. */
  lemma {:induction false} TrackerKeepsEnough(h: History, to: string, now: real)
    requires Chronological(h) && forall i :: 0 <= i < |h| ==> h[i].at <= now
    ensures Within(if to in Run(h) then Run(h)[to] else [], now, MINUTE) == Within(Accepted(h, to), now, MINUTE)
  {
    if h != [] {
      var init, a := h[..|h| - 1], h[|h| - 1];
      InitChronological(h);
      TrackerKeepsEnough(init, to, now);
      if a.to == to {
        TrackerKeepsEnough(init, to, a.at);
        var acc := Accepted(init, to);
        var kept := Within(acc, a.at, MINUTE);
        WithinTwice(acc, a.at, now, MINUTE);
        WithinAppend(kept, [a.at], now, MINUTE);
        WithinAppend(acc, [a.at], now, MINUTE);
        assert acc + [] == acc;
      } else {
        assert Accepted(h, to) == Accepted(init, to);
      }
    }
  }

  /** One more attempt, on the tracker and on the history. */
  lemma RunStep(h: History, a: Attempt)
    ensures Run(h + [a]) == Step(Run(h), a)
    ensures Chronological(h + [a]) ==> (Allowed(h, a) <==> |Pruned(Run(h), a)| < LIMIT)
  {
    assert (h + [a])[..|h|] == h;
    if Chronological(h + [a]) { TrackerIsHistory(h, a); }
  }

  lemma TrackerIsHistory(h: History, a: Attempt)
    requires Chronological(h + [a])
    ensures Pruned(Run(h), a) == Within(Accepted(h, a.to), a.at, MINUTE)
  {
    var g := h + [a];
    assert forall i :: 0 <= i < |h| ==> g[i] == h[i];
    assert g[|h|] == a;
    TrackerKeepsEnough(h, a.to, a.at);
  }

  // ---- Bounds over whole runs ----------------------------------------------

  /** Sends in the half-open minute that starts at lo. */
  function InMinute(ts: seq<real>, lo: real): nat {
    if ts == [] then 0 else (if lo <= ts[0] < lo + MINUTE then 1 else 0) + InMinute(ts[1..], lo)
  }

  lemma {:induction false} InMinuteAppend(ts: seq<real>, t: real, lo: real)
    ensures InMinute(ts + [t], lo) == InMinute(ts, lo) + InMinute([t], lo)
  {
    if ts == [] {
      assert ts + [t] == [t];
    } else {
      assert (ts + [t])[1..] == ts[1..] + [t];
      InMinuteAppend(ts[1..], t, lo);
    }
  }

  /** The accepted sends to a recipient in the half-open minute that starts at lo. */
  ghost function SendsFrom(h: History, n: nat, to: string, lo: real): set<nat>
    requires n <= |h|
  {
    set k: nat | k < n && h[k].to == to && Passes(h, k) && lo <= h[k].at < lo + 60.0
  }

  lemma SendsStep(h: History, n: nat, to: string, lo: real)
    requires n < |h|
    ensures SendsFrom(h, n + 1, to, lo)
            == SendsFrom(h, n, to, lo)
             + if h[n].to == to && Passes(h, n) && lo <= h[n].at < lo + 60.0 then {n} else {}
    ensures n !in SendsFrom(h, n, to, lo)
  {
  }

  lemma {:induction false} SendsAreInMinute(h: History, n: nat, to: string, lo: real)
    requires n <= |h|
    ensures |SendsFrom(h, n, to, lo)| == InMinute(Accepted(h[..n], to), lo)
  {
    if n > 0 {
      var m := n - 1;
      SendsAreInMinute(h, m, to, lo);
      PassesIff(h, m);
      SendsStep(h, m, to, lo);
      assert h[..n][..m] == h[..m];
      hide Passes, Allowed, SendsFrom;
      var acc, at := Accepted(h[..m], to), h[m].at;
      if h[m].to == to && Passes(h, m) {
        InMinuteAppend(acc, at, lo);
        assert InMinute([at], lo) == if lo <= at < lo + 60.0 then 1 else 0;
      } else {
        assert Accepted(h[..n], to) == acc;
      }
    }
  }

  /** No minute, wherever it starts, holds more than ten accepted sends to one
      recipient. */
  lemma AtMostTen(h: History, to: string, lo: real)
    ensures |SendsFrom(h, |h|, to, lo)| <= 10
  {
    AtMostTenAMinute(h, to, lo);
    SendsAreInMinute(h, |h|, to, lo);
    assert h[..|h|] == h;
  }

  lemma {:induction false} MinuteInWindow(ts: seq<real>, lo: real, now: real)
    requires now < lo + MINUTE
    ensures InMinute(ts, lo) <= |Within(ts, now, MINUTE)|
  {
    if ts != [] { MinuteInWindow(ts[1..], lo, now); }
  }

  /** No minute, wherever it starts, holds more than ten accepted sends to one
      recipient. */
  lemma {:induction false} AtMostTenAMinute(h: History, to: string, lo: real)
    ensures InMinute(Accepted(h, to), lo) <= LIMIT
  {
    if h != [] {
      var init, a := h[..|h| - 1], h[|h| - 1];
      AtMostTenAMinute(init, to, lo);
      if a.to == to && Allowed(init, a) {
        InMinuteAppend(Accepted(init, to), a.at, lo);
        assert InMinute([a.at], lo) == if lo <= a.at < lo + MINUTE then 1 else 0;
        if lo <= a.at < lo + MINUTE { MinuteInWindow(Accepted(init, to), lo, a.at); }
      } else {
        assert Accepted(h, to) == Accepted(init, to);
      }
    }
  }

  lemma {:induction false} AtMostTenRecent(h: History, to: string, now: real)
    requires Chronological(h) && forall i :: 0 <= i < |h| ==> h[i].at <= now
    ensures |Within(Accepted(h, to), now, MINUTE)| <= LIMIT
  {
    if h != [] {
      var init, a := h[..|h| - 1], h[|h| - 1];
      InitChronological(h);
      AtMostTenRecent(init, to, now);
      var acc := Accepted(init, to);
      if a.to == to && Allowed(init, a) {
        WithinAppend(acc, [a.at], now, MINUTE);
        WithinShrinks(acc, a.at, now, MINUTE);
      } else {
        assert Accepted(h, to) == acc;
      }
    }
  }

  /** A send is refused exactly when ten accepted ones are less than a minute old. */
  lemma RefusedExactlyAtTen(h: History, n: nat)
    requires Chronological(h) && n < |h|
    ensures !Passes(h, n) <==> |RecentSends(h, n, h[n].to, h[n].at)| == 10
  {
    var init, a := h[..n], h[n];
    assert forall i :: 0 <= i < n ==> init[i] == h[i];
    AtMostTenRecent(init, a.to, a.at);
    AcceptedIsRecent(h, n, a.to, a.at);
  }

  function OnlyTo(h: History, to: string): History {
    if h == [] then [] else OnlyTo(h[..|h| - 1], to) + (if h[|h| - 1].to == to then [h[|h| - 1]] else [])
  }

  /** What is accepted for one recipient does not depend on mail to the others. */
  lemma {:induction false} RecipientsAreIndependent(h: History, to: string)
    ensures Accepted(h, to) == Accepted(OnlyTo(h, to), to)
  {
    if h != [] {
      var init, a := h[..|h| - 1], h[|h| - 1];
      RecipientsAreIndependent(init, to);
      var only := OnlyTo(init, to);
      if a.to == to {
        assert (only + [a])[..|only|] == only;
      } else {
        assert OnlyTo(h, to) == only;
        assert Accepted(h, to) == Accepted(init, to);
      }
    }
  }
}
