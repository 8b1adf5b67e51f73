/** `[t for t in times if now - t < window]`, the pruning step shared by the
    circuit breaker and the mail limiter. */
module SlidingWindow {
  function Within(fs: seq<real>, now: real, window: real): seq<real> {
    if fs == [] then []
    else (if now - fs[0] < window then [fs[0]] else []) + Within(fs[1..], now, window)
  }

  lemma {:induction false} WithinAppend(fs: seq<real>, gs: seq<real>, now: real, window: real)
    ensures Within(fs + gs, now, window) == Within(fs, now, window) + Within(gs, now, window)
  {
    if fs == [] {
      assert fs + gs == gs;
    } else {
      assert (fs + gs)[1..] == fs[1..] + gs;
      WithinAppend(fs[1..], gs, now, window);
    }
  }

  /** The places of the times that are less than a window old. */
  ghost function Recent(fs: seq<real>, now: real, window: real): set<nat> {
    set k: nat | k < |fs| && now - fs[k] < window
  }

  lemma RecentAppend(fs: seq<real>, t: real, now: real, window: real)
    ensures Recent(fs + [t], now, window) == Recent(fs, now, window) + if now - t < window then {|fs|} else {}
  {
    var gs := fs + [t];
    assert forall k :: 0 <= k < |fs| ==> gs[k] == fs[k];
  }

  /** Exactly those times are kept, in order and each as often as it occurs. */
  lemma {:induction false} WithinPlaces(fs: seq<real>, now: real, window: real) returns (places: seq<nat>)
    ensures |places| == |Within(fs, now, window)|
    ensures forall i :: 0 <= i < |places| ==> places[i] < |fs| && Within(fs, now, window)[i] == fs[places[i]]
    ensures forall i, j :: 0 <= i < j < |places| ==> places[i] < places[j]
    ensures forall k: nat :: k in places <==> k in Recent(fs, now, window)
    ensures |Within(fs, now, window)| == |Recent(fs, now, window)|
  {
    if fs == [] { return []; }
    var n := |fs| - 1;
    var init, last := fs[..n], fs[n];
    assert fs == init + [last];
    places := WithinPlaces(init, now, window);
    WithinAppend(init, [last], now, window);
    RecentAppend(init, last, now, window);
    assert Within([last], now, window) == if now - last < window then [last] else [];
    assert n !in Recent(init, now, window);
    if now - last < window { places := places + [n]; }
  }

  /** Pruning at an earlier time loses nothing that a later window needs. */
  lemma {:induction false} WithinTwice(fs: seq<real>, earlier: real, now: real, window: real)
    requires earlier <= now
    ensures Within(Within(fs, earlier, window), now, window) == Within(fs, now, window)
  {
    if fs != [] {
      WithinTwice(fs[1..], earlier, now, window);
      var rest := Within(fs[1..], earlier, window);
      if earlier - fs[0] < window {
        assert Within(fs, earlier, window) == [fs[0]] + rest;
        assert ([fs[0]] + rest)[1..] == rest;
      } else {
        assert Within(fs, earlier, window) == rest;
      }
    }
  }

  lemma {:induction false} WithinShrinks(fs: seq<real>, earlier: real, now: real, window: real)
    requires earlier <= now
    ensures |Within(fs, now, window)| <= |Within(fs, earlier, window)|
  {
    if fs != [] { WithinShrinks(fs[1..], earlier, now, window); }
  }
}
