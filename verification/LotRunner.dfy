/** The two ways to run a lot through the agents (`agents/graph.py`): the
    streaming graph and the sequential fallback. */
module LotRunner {
  import opened LotStatus
  import opened Options

  /** A value of the state dict, reduced to what the runner looks at. */
  datatype Val = Name(status: Status) | Truth(value: bool) | Data(id: int)

  /** The state dict: two accumulating lists, every other key overwritten. */
  datatype State = State(fields: map<string, Val>, events: seq<int>, errors: seq<int>)

  /** What a node returns; None for an absent list. */
  datatype Update = Update(fields: map<string, Val>, events: Option<seq<int>>, errors: Option<seq<int>>)

  type Node = State -> Update

  predicate Empty(u: Update) { u.fields == map[] && u.events.None? && u.errors.None? }

  function OrEmpty(xs: Option<seq<int>>): seq<int> { if xs.Some? then xs.value else [] }

  function Merge(s: State, u: Update): State {
    State(s.fields + u.fields, s.events + OrEmpty(u.events), s.errors + OrEmpty(u.errors))
  }

  predicate Truthy(s: State, key: string) {
    key in s.fields && match s.fields[key]
      case Truth(b) => b
      case _ => true
  }

  predicate NeedsHuman(s: State) { Truthy(s, "requires_human") }

  /** The status writes of `_persist_status`. */
  function Persisted(s: State, finalize: bool): seq<Status> {
    (if "status" in s.fields && s.fields["status"].Name? && Pipeline(s.fields["status"].status)
     then [s.fields["status"].status] else [])
    + (if finalize && Truthy(s, "report") then [ReportReady] else [])
  }

  /** A finished run: the final state and the stored statuses in order. */
  datatype Outcome = Outcome(state: State, writes: seq<Status>)

  /** All nodes in turn, storing the status after each. */
  function Through(nodes: seq<Node>, s: State): Outcome
    decreases |nodes|
  {
    if nodes == [] then Outcome(s, []) else
    var s' := Merge(s, nodes[0](s));
    var rest := Through(nodes[1..], s');
    Outcome(rest.state, Persisted(s', false) + rest.writes)
  }

  /** The reference: planner first, the rest unless a human is needed. */
  function Reference(planner: Node, rest: seq<Node>, s: State): Outcome {
    var s' := Merge(s, planner(s));
    var o := if NeedsHuman(s') then Outcome(s', []) else Through(rest, s');
    Outcome(o.state, Persisted(s', false) + o.writes + Persisted(o.state, true))
  }

  lemma {:induction false} ThroughAppend(nodes: seq<Node>, last: Node, s: State)
    ensures var o := Through(nodes, s);
            var s' := Merge(o.state, last(o.state));
            Through(nodes + [last], s) == Outcome(s', o.writes + Persisted(s', false))
    decreases |nodes|
  {
    if nodes == [] {
      assert ([last])[1..] == [];
    } else {
      assert (nodes + [last])[1..] == nodes[1..] + [last];
      ThroughAppend(nodes[1..], last, Merge(s, nodes[0](s)));
    }
  }

  /** `run_lot` over the graph's update stream: the graph keeps its own state
      and decides the edges on it; the caller folds the streamed updates. */
  method RunStreaming(planner: Node, rest: seq<Node>, state: State) returns (o: Outcome)
    ensures o == Reference(planner, rest, state)
  {
    hide Merge, Persisted, NeedsHuman, Through;
    var graph, finalState, writes := state, state, [];
    var output := planner(graph);
    graph := Merge(graph, output);
    finalState := Merge(finalState, output);
    writes := writes + Persisted(finalState, false);
    ghost var start, before := graph, writes;
    var ended := NeedsHuman(graph);
    var i := 0;
    assert rest[..0] == [];
    ThroughNothing(start);
    while !ended && i < |rest|
      invariant i <= |rest| && graph == finalState
      invariant ended ==> graph == start && writes == before
      invariant !ended ==> graph == Through(rest[..i], start).state
      invariant !ended ==> writes == before + Through(rest[..i], start).writes
    {
      ThroughAppend(rest[..i], rest[i], start);
      assert rest[..i + 1] == rest[..i] + [rest[i]];
      output := rest[i](graph);
      graph := Merge(graph, output);
      finalState := Merge(finalState, output);
      writes := writes + Persisted(finalState, false);
      i := i + 1;
    }
    assert rest[..|rest|] == rest;
    o := Outcome(finalState, writes + Persisted(finalState, true));
  }

  lemma ThroughNothing(s: State)
    ensures Through([], s) == Outcome(s, [])
  {
  }

  /** The loop of `_run_sequential`: an empty update is skipped altogether, and
      only the first node can stop the run. */
  function Steps(nodes: seq<Node>, first: bool, s: State): Outcome
    decreases |nodes|
  {
    if nodes == [] then Outcome(s, []) else
    var u := nodes[0](s);
    if Empty(u) then Steps(nodes[1..], false, s) else
    var s' := Merge(s, u);
    if first && NeedsHuman(s') then Outcome(s', Persisted(s', false)) else
    var rest := Steps(nodes[1..], false, s');
    Outcome(rest.state, Persisted(s', false) + rest.writes)
  }

  function Sequential(planner: Node, rest: seq<Node>, s: State): Outcome {
    var o := Steps([planner] + rest, true, s);
    Outcome(o.state, o.writes + Persisted(o.state, true))
  }

  method RunSequential(planner: Node, rest: seq<Node>, state: State) returns (o: Outcome)
    ensures o == Sequential(planner, rest, state)
  {
    hide Merge, Persisted, NeedsHuman, Empty;
    var out, writes := state, [];
    var nodes := [planner] + rest;
    var i := 0;
    assert nodes[0..] == nodes;
    while i < |nodes|
      invariant i <= |nodes|
      invariant Steps(nodes, true, state) ==
                Outcome(Steps(nodes[i..], i == 0, out).state, writes + Steps(nodes[i..], i == 0, out).writes)
    {
      assert nodes[i..][1..] == nodes[i + 1..];
      var update := nodes[i](out);
      if !Empty(update) {
        out := Merge(out, update);
        writes := writes + Persisted(out, false);
        if NeedsHuman(out) && i == 0 {
          break;
        }
      }
      i := i + 1;
    }
    o := Outcome(out, writes + Persisted(out, true));
  }

  /** Every node always returns something. */
  ghost predicate Talks(n: Node) { forall s :: !Empty(n(s)) }

  lemma {:induction false} SkippingNothing(nodes: seq<Node>, s: State)
    requires forall i :: 0 <= i < |nodes| ==> Talks(nodes[i])
    ensures Steps(nodes, false, s) == Through(nodes, s)
    decreases |nodes|
  {
    if nodes != [] {
      assert Talks(nodes[0]);
      SkippingNothing(nodes[1..], Merge(s, nodes[0](s)));
    }
  }

  /** The fallback is interchangeable with the graph for every behaviour of the
      nodes that never returns an empty update: same final state, same writes. */
  lemma RunnersAgree(planner: Node, rest: seq<Node>, s: State)
    requires Talks(planner) && forall i :: 0 <= i < |rest| ==> Talks(rest[i])
    ensures Sequential(planner, rest, s) == Reference(planner, rest, s)
  {
    assert ([planner] + rest)[1..] == rest;
    SkippingNothing(rest, Merge(s, planner(s)));
  }

  /** An update replaces the keys it names and adds to the two lists. */
  lemma MergeIs(s: State, u: Update)
    ensures var s' := Merge(s, u);
            && s'.fields.Keys == s.fields.Keys + u.fields.Keys
            && (forall key :: key in u.fields ==> s'.fields[key] == u.fields[key])
            && (forall key :: key in s.fields && key !in u.fields ==> s'.fields[key] == s.fields[key])
            && s'.events == s.events + (if u.events.Some? then u.events.value else [])
            && s'.errors == s.errors + (if u.errors.Some? then u.errors.value else [])
  {
  }

  /** The planner alone decides whether the others run: they do unless it leaves a
      `requires_human` that is neither missing nor false. */
  lemma HumanStops(planner: Node, rest: seq<Node>, s: State)
    ensures var s' := Merge(s, planner(s));
            var stops := "requires_human" in s'.fields && s'.fields["requires_human"] != Truth(false);
            Reference(planner, rest, s).state == if stops then s' else Through(rest, s').state
  {
  }

  /** What is stored after a node: the status it left if that is one of the eight a
      run may store; and at the end `report_ready` too if there is a report. */
  lemma PersistedIs(s: State, st: Status)
    requires "status" in s.fields && s.fields["status"] == Name(st)
    ensures Persisted(s, false) ==
            if st in {Planned, Sourcing, RfqSent, ResponsesCollected, Negotiating, Verified, ReportReady, Escalated}
            then [st] else []
    ensures var reported := "report" in s.fields && s.fields["report"] != Truth(false);
            Persisted(s, true) == Persisted(s, false) + if reported then [ReportReady] else []
  {
  }

  /** The planner's status is stored first; a run that ends with a report stores
      `report_ready` last. */
  lemma FirstAndLastWrite(planner: Node, rest: seq<Node>, s: State, st: Status)
    requires var s' := Merge(s, planner(s)); "status" in s'.fields && s'.fields["status"] == Name(st) && Pipeline(st)
    ensures var o := Reference(planner, rest, s);
            && o.writes != [] && o.writes[0] == st
            && ("report" in o.state.fields && o.state.fields["report"] != Truth(false) ==>
                  o.writes[|o.writes| - 1] == ReportReady)
  {
    var s' := Merge(s, planner(s));
    var o := Reference(planner, rest, s);
    hide Merge, Through, Reference, NeedsHuman;
    assert Persisted(s', false) == [st];
    var middle := EndsWithFinal(planner, rest, s);
  }

  lemma EndsWithFinal(planner: Node, rest: seq<Node>, s: State) returns (middle: seq<Status>)
    ensures var o := Reference(planner, rest, s);
            o.writes == Persisted(Merge(s, planner(s)), false) + middle + Persisted(o.state, true)
  {
    hide Persisted, Merge, Through;
    var s' := Merge(s, planner(s));
    middle := (if NeedsHuman(s') then Outcome(s', []) else Through(rest, s')).writes;
  }

  /** The update each node gave, in the state it saw. */
  function Updates(nodes: seq<Node>, s: State): seq<Update>
    decreases |nodes|
  {
    if nodes == [] then [] else [nodes[0](s)] + Updates(nodes[1..], Merge(s, nodes[0](s)))
  }

  function EventsOf(us: seq<Update>): seq<int> {
    if us == [] then [] else (if us[0].events.Some? then us[0].events.value else []) + EventsOf(us[1..])
  }

  /** No event of a run is lost, repeated or moved. */
  lemma {:induction false} EventsAccumulate(nodes: seq<Node>, s: State)
    ensures Through(nodes, s).state.events == s.events + EventsOf(Updates(nodes, s))
    decreases |nodes|
  {
    if nodes != [] {
      var u := nodes[0](s);
      EventsAccumulate(nodes[1..], Merge(s, u));
      assert Updates(nodes, s)[1..] == Updates(nodes[1..], Merge(s, u));
    }
  }

  lemma MergeNothing(s: State, u: Update)
    requires Empty(u)
    ensures Merge(s, u) == s
  {
    assert s.fields + map[] == s.fields;
  }

  /** Skipping empty updates saves writes but does not change the state. */
  lemma {:induction false} SkippingKeepsState(nodes: seq<Node>, s: State)
    ensures Steps(nodes, false, s).state == Through(nodes, s).state
    decreases |nodes|
  {
    if nodes != [] {
      var u := nodes[0](s);
      if Empty(u) { MergeNothing(s, u); }
      SkippingKeepsState(nodes[1..], Merge(s, u));
    }
  }

  /** A planner that returns nothing splits them when the lot already asks for a
      human: the graph stops, the fallback runs on. */
  lemma SilentPlannerSplits(planner: Node, s: State) returns (rest: seq<Node>)
    requires Empty(planner(s)) && NeedsHuman(s)
    ensures Sequential(planner, rest, s).state != Reference(planner, rest, s).state
  {
    var loud: Node := (s: State) => Update(map[], Some([1]), None);
    rest := [loud];
    MergeNothing(s, planner(s));
    SkippingKeepsState(rest, s);
    assert rest[1..] == [];
    assert ([planner] + rest)[1..] == rest;
    assert Through(rest, s).state == Merge(s, loud(s));
    assert |Merge(s, loud(s)).events| == |s.events| + 1;
  }

  /** With empty updates allowed, the two runners end in the same state for all
      behaviours of the later nodes exactly when the planner says something or
      no human is asked for beforehand. */
  lemma StatesAgreeIff(planner: Node, s: State)
    ensures (forall rest :: Sequential(planner, rest, s).state == Reference(planner, rest, s).state)
            <==> !(Empty(planner(s)) && NeedsHuman(s))
  {
    if Empty(planner(s)) && NeedsHuman(s) {
      var rest := SilentPlannerSplits(planner, s);
    } else {
      forall rest ensures Sequential(planner, rest, s).state == Reference(planner, rest, s).state {
        assert ([planner] + rest)[1..] == rest;
        if Empty(planner(s)) { MergeNothing(s, planner(s)); }
        SkippingKeepsState(rest, Merge(s, planner(s)));
      }
    }
  }

  // ---- The statuses of a run -----------------------------------------------

  /** n always reports one of the statuses `ss`. */
  ghost predicate Reports(n: Node, ss: set<Status>) {
    forall s :: var u := n(s); "status" in u.fields && u.fields["status"].Name? && u.fields["status"].status in ss
  }

  /** What the six agents return as their status. */
  ghost predicate Agents(planner: Node, rest: seq<Node>) {
    && |rest| == 5
    && Reports(planner, {Planned, Escalated})
    && Reports(rest[0], {Sourcing})
    && Reports(rest[1], {RfqSent, ResponsesCollected})
    && Reports(rest[2], {Negotiating, ResponsesCollected})
    && Reports(rest[3], {Verified})
    && Reports(rest[4], {ReportReady})
  }

  ghost predicate Monotone(ws: seq<Status>) {
    forall i, j :: 0 <= i < j < |ws| ==> Rank(ws[i]) <= Rank(ws[j])
  }

  lemma MergedStatus(n: Node, s: State, ss: set<Status>)
    requires Reports(n, ss) && forall x :: x in ss ==> Pipeline(x)
    ensures var s' := Merge(s, n(s));
            && "status" in s'.fields && s'.fields["status"].Name? && s'.fields["status"].status in ss
            && Persisted(s', false) == [s'.fields["status"].status]
  {
    var u := n(s);
    assert "status" in u.fields;
  }

  lemma {:induction false} ThroughStep(nodes: seq<Node>, s: State, ss: set<Status>) returns (w: Status)
    requires nodes != [] && Reports(nodes[0], ss) && forall x :: x in ss ==> Pipeline(x)
    ensures w in ss
    ensures var s' := Merge(s, nodes[0](s));
            && s'.fields["status" := Name(w)] == s'.fields
            && Through(nodes, s) == Outcome(Through(nodes[1..], s').state, [w] + Through(nodes[1..], s').writes)
  {
    MergedStatus(nodes[0], s, ss);
    w := Merge(s, nodes[0](s)).fields["status"].status;
  }

  lemma RestWrites(planner: Node, rest: seq<Node>, s: State) returns (ws: seq<Status>)
    requires Agents(planner, rest)
    ensures |ws| == 5 && Through(rest, s).writes == ws && ws[0] == Sourcing && ws[1] in {RfqSent, ResponsesCollected}
    ensures ws[2] in {Negotiating, ResponsesCollected} && ws[3] == Verified && ws[4] == ReportReady
    ensures Persisted(Through(rest, s).state, false) == [ReportReady]
  {
    hide Through, Reports, Merge, Persisted;
    var a := ThroughStep(rest, s, {Sourcing});
    var s2 := Merge(s, rest[0](s));
    assert rest[1..][0] == rest[1];
    var b := ThroughStep(rest[1..], s2, {RfqSent, ResponsesCollected});
    var s3 := Merge(s2, rest[1](s2));
    assert rest[1..][1..] == rest[2..] && rest[2..][0] == rest[2];
    var c := ThroughStep(rest[2..], s3, {Negotiating, ResponsesCollected});
    var s4 := Merge(s3, rest[2](s3));
    assert rest[2..][1..] == rest[3..] && rest[3..][0] == rest[3];
    var d := ThroughStep(rest[3..], s4, {Verified});
    var s5 := Merge(s4, rest[3](s4));
    assert rest[3..][1..] == rest[4..] && rest[4..][0] == rest[4];
    var e := ThroughStep(rest[4..], s5, {ReportReady});
    var s6 := Merge(s5, rest[4](s5));
    assert rest[4..][1..] == [];
    ThroughNothing(s6);
    MergedStatus(rest[4], s5, {ReportReady});
    ws := [a, b, c, d, e];
  }

  lemma StoredRanks(ws: seq<Status>, last: seq<Status>)
    requires |ws| == 5 && ws[0] == Sourcing && ws[1] in {RfqSent, ResponsesCollected}
    requires ws[2] in {Negotiating, ResponsesCollected} && ws[3] == Verified && ws[4] == ReportReady
    requires forall w :: w in last ==> w == ReportReady
    ensures Monotone([Planned] + ws + last)
  {
    var all := [Planned] + ws + last;
    assert forall i :: 0 <= i < |all| ==>
      all[i] == (if i == 0 then Planned else if i < 6 then ws[i - 1] else last[i - 6]);
    forall i | 0 <= i < |all| ensures Rank(all[i]) <= 7 && (i >= 5 ==> all[i] == ReportReady) {
      if i >= 6 { assert all[i] in last; }
    }
  }

  /** planned, sourcing, what the communicator and the negotiator report, verified,
      then report_ready only. */
  ghost predicate InStages(ws: seq<Status>) {
    && |ws| >= 6 && ws[0] == Planned && ws[1] == Sourcing && ws[2] in {RfqSent, ResponsesCollected}
    && ws[3] in {Negotiating, ResponsesCollected} && ws[4] == Verified
    && forall i :: 5 <= i < |ws| ==> ws[i] == ReportReady
  }

  lemma StoredStages(ws: seq<Status>, last: seq<Status>)
    requires |ws| == 5 && ws[0] == Sourcing && ws[1] in {RfqSent, ResponsesCollected}
    requires ws[2] in {Negotiating, ResponsesCollected} && ws[3] == Verified && ws[4] == ReportReady
    requires forall w :: w in last ==> w == ReportReady
    ensures InStages([Planned] + ws + last)
  {
    var all := [Planned] + ws + last;
    assert forall i :: 0 <= i < |all| ==>
      all[i] == (if i == 0 then Planned else if i < 6 then ws[i - 1] else last[i - 6]);
    forall i | 5 <= i < |all| ensures all[i] == ReportReady {
      if i >= 6 { assert last[i - 6] in last; }
    }
  }

  /** A run that needs no human stores planned, sourcing, what the communicator
      and the negotiator report, verified, and report_ready; it never goes back. */
  lemma WritesAdvance(planner: Node, rest: seq<Node>, s: State)
    requires Agents(planner, rest) && !NeedsHuman(Merge(s, planner(s)))
    requires "status" in planner(s).fields && planner(s).fields["status"] == Name(Planned)
    ensures Monotone(Reference(planner, rest, s).writes)
    ensures ReportReady in Reference(planner, rest, s).writes
    ensures InStages(Reference(planner, rest, s).writes)
  {
    var s1 := Merge(s, planner(s));
    assert Persisted(s1, false) == [Planned];
    hide Agents;
    var ws := RestWrites(planner, rest, s1);
    var o := Through(rest, s1);
    hide Through;
    var last := Persisted(o.state, true);
    assert last == Persisted(o.state, false) + (if Truthy(o.state, "report") then [ReportReady] else []);
    assert forall w :: w in last ==> w == ReportReady;
    StoredRanks(ws, last);
    StoredStages(ws, last);
    hide Monotone, InStages;
    assert Reference(planner, rest, s).writes == [Planned] + ws + last;
    assert ([Planned] + ws + last)[5] == ReportReady;
  }
}
