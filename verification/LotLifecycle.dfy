/** The stored lots, the runs that write to them, the periodic recovery and
    the human decisions, as one state machine over interleaved steps. */
module LotLifecycle {
  import opened LotStatus
  import opened Options

  type Id = string

  /** A row of the lots table. */
  datatype Lot = Lot(status: Status, updatedAt: int, chosen: Option<string>, closedAt: Option<int>,
                     requiresHuman: bool, reason: Option<string>, report: Option<int>)

  type Table = map<Id, Lot>

  // ---- The repository (`db/repositories.py`) -------------------------------

  /** What an UPDATE changes besides the status and the timestamp. */
  datatype Fields =
    | Progress(requiresHuman: bool, reason: Option<string>)
    | Report(report: int)
    | Approval(supplier: Option<string>)
    | Rejection(reason: Option<string>)

  function Write(l: Lot, status: Status, now: int, f: Fields): Lot {
    var l' := l.(status := status, updatedAt := now);
    match f
    case Progress(h, r) => l'.(requiresHuman := h, reason := r)
    case Report(r) => l'.(report := Some(r))
    case Approval(s) => l'.(chosen := s, closedAt := Some(now))
    case Rejection(r) => l'.(reason := if r.None? || r.value == "" then Some("rejected_by_human") else r)
  }

  /** The row after an update, column by column. */
  ghost function Written(l: Lot, status: Status, now: int, f: Fields): Lot {
    match f
    case Progress(h, r) => Lot(status, now, l.chosen, l.closedAt, h, r, l.report)
    case Report(r) => Lot(status, now, l.chosen, l.closedAt, l.requiresHuman, l.reason, Some(r))
    case Approval(s) => Lot(status, now, s, Some(now), l.requiresHuman, l.reason, l.report)
    case Rejection(r) =>
      Lot(status, now, l.chosen, l.closedAt, l.requiresHuman,
          if r.None? || r.value == "" then Some("rejected_by_human") else r, l.report)
  }

  /** UPDATE ... WHERE id = ...: no row, no effect; the old status is not looked at. */
  function UpdateStatus(t: Table, id: Id, status: Status, now: int, f: Fields): Table {
    if id in t then t[id := Write(t[id], status, now, f)] else t
  }

  const STUCK: seq<Status> := [Draft, Sourcing, RfqSent, Negotiating]
  const PATIENCE := 1800

  /** Lots that one query of the recovery task selects. */
  predicate Overdue(l: Lot, status: Status, threshold: int) { l.status == status && l.updatedAt < threshold }

  class LotStore {
    var rows: Table

    constructor ()
      ensures rows == map[]
    {
      rows := map[];
    }

    /** Any row may be stored: the API stores drafts, the demo seeding others. */
    method Create(id: Id, lot: Lot)
      modifies this
      ensures rows == old(rows)[id := lot]
    {
      rows := rows[id := lot];
    }

    method Update(id: Id, status: Status, now: int, f: Fields)
      modifies this
      ensures rows == UpdateStatus(old(rows), id, status, now, f)
      ensures rows == if id in old(rows) then old(rows)[id := Written(old(rows)[id], status, now, f)] else old(rows)
    {
      if id in rows {
        rows := rows[id := Write(rows[id], status, now, f)];
      }
    }

    method SetReport(id: Id, now: int, report: int)
      modifies this
      ensures rows == UpdateStatus(old(rows), id, ReportReady, now, Report(report))
      ensures id in old(rows) ==> var l := old(rows)[id];
                var l' := Lot(ReportReady, now, l.chosen, l.closedAt, l.requiresHuman, l.reason, Some(report));
                rows == old(rows)[id := l']
    {
      Update(id, ReportReady, now, Report(report));
    }

    /** `approve_lot`: 404 without the lot, otherwise unconditional. */
    method Approve(id: Id, supplier: Option<string>, now: int) returns (found: bool)
      modifies this
      ensures found == (id in old(rows))
      ensures rows == UpdateStatus(old(rows), id, Approved, now, Approval(supplier))
      ensures found ==> var l := old(rows)[id];
                rows == old(rows)[id := Lot(Approved, now, supplier, Some(now), l.requiresHuman, l.reason, l.report)]
      ensures !found ==> rows == old(rows)
    {
      found := id in rows;
      if found { Update(id, Approved, now, Approval(supplier)); }
    }

    method Reject(id: Id, reviewer: Option<string>, now: int) returns (found: bool)
      modifies this
      ensures found == (id in old(rows))
      ensures rows == UpdateStatus(old(rows), id, Rejected, now, Rejection(reviewer))
      ensures found ==> var l := old(rows)[id];
                var none := reviewer.None? || reviewer.value == "";
                var reason := if none then Some("rejected_by_human") else reviewer;
                rows == old(rows)[id := Lot(Rejected, now, l.chosen, l.closedAt, l.requiresHuman, reason, l.report)]
      ensures !found ==> rows == old(rows)
    {
      found := id in rows;
      if found { Update(id, Rejected, now, Rejection(reviewer)); }
    }

    /** `_recover_stuck`, uninterrupted: every overdue lot is queued exactly once. */
    method RecoverStuck(now: int) returns (queued: seq<Id>)
      ensures multiset(queued) == multiset(OverdueLots(rows, STUCK, now - PATIENCE))
      ensures multiset(queued) == multiset(set id | id in rows && rows[id].updatedAt < now - 1800
                                                    && rows[id].status in {Draft, Sourcing, RfqSent, Negotiating})
    {
      var threshold := now - PATIENCE;
      NoStatus(rows, threshold);
      StuckAre(rows, threshold);
      hide OverdueLots;
      queued := [];
      for k := 0 to |STUCK|
        invariant multiset(queued) == multiset(OverdueLots(rows, STUCK[..k], threshold))
      {
        var todo := set id | id in rows && Overdue(rows[id], STUCK[k], threshold);
        ghost var found, earlier := todo, queued;
        while todo != {}
          invariant todo <= found
          invariant multiset(queued) == multiset(earlier) + multiset(found - todo)
          decreases |todo|
        {
          var id :| id in todo;
          queued := queued + [id];
          todo := todo - {id};
        }
        assert found - todo == found;
        OneMoreStatus(rows, STUCK[..k], STUCK[k], threshold) by { StuckDistinct(k); }
        assert STUCK[..k + 1] == STUCK[..k] + [STUCK[k]];
      }
      assert STUCK[..|STUCK|] == STUCK;
    }
  }

  lemma NoStatus(t: Table, threshold: int)
    ensures OverdueLots(t, [], threshold) == {} && STUCK[..0] == []
  {
  }

  /** The four statuses. */
  lemma StuckAre(t: Table, threshold: int)
    ensures OverdueLots(t, STUCK, threshold)
            == set id | id in t && t[id].updatedAt < threshold
                        && t[id].status in {Draft, Sourcing, RfqSent, Negotiating}
  {
    forall id ensures id in OverdueLots(t, STUCK, threshold) <==>
      id in t && t[id].updatedAt < threshold && t[id].status in {Draft, Sourcing, RfqSent, Negotiating} {}
  }

  /** The overdue lots in one of the given statuses. */
  ghost function OverdueLots(t: Table, statuses: seq<Status>, threshold: int): set<Id> {
    set id | id in t && t[id].status in statuses && t[id].updatedAt < threshold
  }

  lemma OneMoreStatus(t: Table, statuses: seq<Status>, st: Status, threshold: int)
    requires st !in statuses
    ensures multiset(OverdueLots(t, statuses + [st], threshold))
            == multiset(OverdueLots(t, statuses, threshold))
             + multiset(set id | id in t && Overdue(t[id], st, threshold))
  {
    var old_, hit := OverdueLots(t, statuses, threshold), set id | id in t && Overdue(t[id], st, threshold);
    assert OverdueLots(t, statuses + [st], threshold) == old_ + hit;
    assert old_ !! hit;
  }

  lemma StuckDistinct(k: nat)
    requires k < |STUCK|
    ensures STUCK[k] !in STUCK[..k]
  {
  }

  // ---- The state machine ---------------------------------------------------

  /** An active run: executing its agents, or about to store the report. */
  datatype Phase = Working(status: Option<Status>) | Reporting(report: int)
  datatype Run = Run(lot: Id, phase: Phase)

  /** A recovery in progress: statuses still to query, lots selected but not
      queued yet. */
  datatype Sweep = Sweep(threshold: int, remaining: seq<Status>, selected: set<Id>)

  datatype Sys = Sys(rows: Table, queue: multiset<Id>, runs: seq<Run>, sweeps: seq<Sweep>, now: int)

  datatype Event =
    | Tick(delta: nat)
    | Create(id: Id)
    | Seed(id: Id, lot: Lot)
    | Start(id: Id)
    | Persist(r: nat, status: Option<Status>, requiresHuman: bool, reason: Option<string>)
    | Finalize(r: nat, requiresHuman: bool, reason: Option<string>, report: Option<int>)
    | SetReport(r: nat)
    | Crash(r: nat, retry: bool)
    | SweepStart
    | SweepQuery(w: nat)
    | SweepQueue(w: nat, id: Id)
    | SweepEnd(w: nat)
    | Approve(id: Id, supplier: Option<string>)
    | Reject(id: Id, reviewer: Option<string>)
    | Replay(id: Id)

  predicate Enabled(s: Sys, e: Event) {
    match e
    case Tick(_) => true
    case Create(id) => id !in s.rows
    case Seed(id, _) => id !in s.rows
    case Start(id) => id in s.queue
    case Persist(r, st, _, _) => r < |s.runs| && s.runs[r].phase.Working? && (st.Some? ==> Pipeline(st.value))
    case Finalize(r, _, _, _) => r < |s.runs| && s.runs[r].phase.Working?
    case SetReport(r) => r < |s.runs| && s.runs[r].phase.Reporting?
    case Crash(r, _) => r < |s.runs|
    case SweepStart => true
    case SweepQuery(w) => w < |s.sweeps| && s.sweeps[w].remaining != [] && s.sweeps[w].selected == {}
    case SweepQueue(w, id) => w < |s.sweeps| && id in s.sweeps[w].selected
    case SweepEnd(w) => w < |s.sweeps|
    case Approve(id, _) => id in s.rows
    case Reject(id, _) => id in s.rows
    case Replay(id) => id in s.rows
  }

  function Without<T>(xs: seq<T>, i: nat): seq<T>
    requires i < |xs|
  {
    xs[..i] + xs[i + 1..]
  }

  /** A write of a run: nothing happens for a status outside the map. */
  function Stored(s: Sys, id: Id, status: Option<Status>, h: bool, r: Option<string>): Table {
    if status.Some? then UpdateStatus(s.rows, id, status.value, s.now, Progress(h, r)) else s.rows
  }

  function Apply(s: Sys, e: Event): Sys
    requires Enabled(s, e)
  {
    match e
    case Tick(d) => s.(now := s.now + d)
    case Create(id) =>
      s.(rows := s.rows[id := Lot(Draft, s.now, None, None, false, None, None)], queue := s.queue + multiset{id})
    case Seed(id, lot) => s.(rows := s.rows[id := lot])
    case Start(id) =>
      s.(queue := s.queue - multiset{id}, runs := s.runs + [Run(id, Working(None))])
    case Persist(r, st, h, reason) =>
      var run := s.runs[r];
      var st' := if st.Some? then st else run.phase.status;
      s.(rows := Stored(s, run.lot, st', h, reason), runs := s.runs[r := run.(phase := Working(st'))])
    case Finalize(r, h, reason, report) =>
      var run := s.runs[r];
      s.(rows := Stored(s, run.lot, run.phase.status, h, reason),
         runs := if report.Some? then s.runs[r := run.(phase := Reporting(report.value))] else Without(s.runs, r))
    case SetReport(r) =>
      var run := s.runs[r];
      s.(rows := UpdateStatus(s.rows, run.lot, ReportReady, s.now, Report(run.phase.report)),
         runs := Without(s.runs, r))
    case Crash(r, retry) =>
      s.(runs := Without(s.runs, r), queue := if retry then s.queue + multiset{s.runs[r].lot} else s.queue)
    case SweepStart => s.(sweeps := s.sweeps + [Sweep(s.now - PATIENCE, STUCK, {})])
    case SweepQuery(w) =>
      var sw := s.sweeps[w];
      var hit := set id | id in s.rows && Overdue(s.rows[id], sw.remaining[0], sw.threshold);
      s.(sweeps := s.sweeps[w := sw.(remaining := sw.remaining[1..], selected := hit)])
    case SweepQueue(w, id) =>
      var sw := s.sweeps[w];
      s.(sweeps := s.sweeps[w := sw.(selected := sw.selected - {id})], queue := s.queue + multiset{id})
    case SweepEnd(w) => s.(sweeps := Without(s.sweeps, w))
    case Approve(id, supplier) => s.(rows := UpdateStatus(s.rows, id, Approved, s.now, Approval(supplier)))
    case Reject(id, reviewer) => s.(rows := UpdateStatus(s.rows, id, Rejected, s.now, Rejection(reviewer)))
    case Replay(id) => s.(runs := s.runs + [Run(id, Working(None))])
  }

  /** A run of the system from s. */
  predicate Valid(s: Sys, trace: seq<Event>)
    decreases |trace|
  {
    trace == [] || (Enabled(s, trace[0]) && Valid(Apply(s, trace[0]), trace[1..]))
  }

  function After(s: Sys, trace: seq<Event>): Sys
    requires Valid(s, trace)
    decreases |trace|
  {
    if trace == [] then s else After(Apply(s, trace[0]), trace[1..])
  }

  /** What every reachable state satisfies: runs only carry pipeline statuses,
      sweeps only query the stuck ones. */
  predicate WellFormed(s: Sys) {
    && (forall i :: 0 <= i < |s.runs| ==> s.runs[i].phase.Working? && s.runs[i].phase.status.Some? ==>
          Pipeline(s.runs[i].phase.status.value))
    && (forall i, st :: 0 <= i < |s.sweeps| && st in s.sweeps[i].remaining ==> st in STUCK)
  }

  const INITIAL := Sys(map[], multiset{}, [], [], 0)

  lemma StepWellFormed(s: Sys, e: Event)
    requires WellFormed(s) && Enabled(s, e)
    ensures WellFormed(Apply(s, e))
  {
    var s' := Apply(s, e);
    forall i, st | 0 <= i < |s'.sweeps| && st in s'.sweeps[i].remaining ensures st in STUCK {
      match e
      case SweepQuery(w) =>
        if i == w { assert st in s.sweeps[w].remaining; } else { assert st in s.sweeps[i].remaining; }
      case SweepQueue(w, id) => assert st in s.sweeps[i].remaining;
      case SweepEnd(w) => assert s'.sweeps[i] in s.sweeps;
      case SweepStart => if i < |s.sweeps| { assert st in s.sweeps[i].remaining; }
      case _ => assert st in s.sweeps[i].remaining;
    }
  }

  lemma {:induction false} AlwaysWellFormed(trace: seq<Event>, s: Sys)
    requires WellFormed(s) && Valid(s, trace)
    ensures WellFormed(After(s, trace))
    decreases |trace|
  {
    if trace != [] {
      StepWellFormed(s, trace[0]);
      AlwaysWellFormed(trace[1..], Apply(s, trace[0]));
    }
  }

  predicate NoRun(s: Sys, id: Id) {
    id !in s.queue && forall i :: 0 <= i < |s.runs| ==> s.runs[i].lot != id
  }

  predicate NotSelected(s: Sys, id: Id) {
    forall i :: 0 <= i < |s.sweeps| ==> id !in s.sweeps[i].selected
  }

  /** Nothing in the system is about to write to the lot. */
  predicate Quiet(s: Sys, id: Id) { NoRun(s, id) && NotSelected(s, id) }

  predicate Decision(e: Event, id: Id) { (e.Approve? || e.Reject?) && e.id == id }

  /** Somebody decides about the lot or replays it by hand (`scripts/replay_lot.py`). */
  predicate Human(e: Event, id: Id) { Decision(e, id) || e == Replay(id) }

  ghost predicate Closed(s: Sys, id: Id) { id in s.rows && LotStatus.Decided(s.rows[id].status) }

  lemma UpdateOf(t: Table, id: Id, status: Status, now: int, f: Fields)
    ensures var t' := UpdateStatus(t, id, status, now, f);
            && t'.Keys == t.Keys
            && (id in t ==> t'[id].status == status)
            && forall o :: o in t && o != id ==> t'[o] == t[o]
  {
  }

  lemma StoredOf(s: Sys, id: Id, status: Option<Status>, h: bool, r: Option<string>)
    ensures var t' := Stored(s, id, status, h, r);
            t'.Keys == s.rows.Keys && forall o :: o in s.rows && o != id ==> t'[o] == s.rows[o]
  {
    if status.Some? { UpdateOf(s.rows, id, status.value, s.now, Progress(h, r)); }
  }

  /** What a step may do to a lot nothing is about to write to. */
  lemma StepElsewhere(s: Sys, e: Event, id: Id)
    requires Enabled(s, e) && id in s.rows && Quiet(s, id)
    ensures id in Apply(s, e).rows
    ensures Decision(e, id) || Apply(s, e).rows[id] == s.rows[id]
    ensures Decision(e, id) ==> LotStatus.Decided(Apply(s, e).rows[id].status)
  {
    hide UpdateStatus, Write, Stored;
    match e
    case Persist(r, st, h, reason) =>
      assert s.runs[r].lot != id;
      StoredOf(s, s.runs[r].lot, if st.Some? then st else s.runs[r].phase.status, h, reason);
    case Finalize(r, h, reason, _) =>
      assert s.runs[r].lot != id;
      StoredOf(s, s.runs[r].lot, s.runs[r].phase.status, h, reason);
    case SetReport(r) =>
      assert s.runs[r].lot != id;
      UpdateOf(s.rows, s.runs[r].lot, ReportReady, s.now, Report(s.runs[r].phase.report));
    case Approve(o, supplier) => UpdateOf(s.rows, o, Approved, s.now, Approval(supplier));
    case Reject(o, reviewer) => UpdateOf(s.rows, o, Rejected, s.now, Rejection(reviewer));
    case _ =>
  }

  /** What each step does to the row of a lot. */
  lemma StepRow(s: Sys, e: Event, id: Id)
    requires Enabled(s, e) && id in s.rows
    ensures id in Apply(s, e).rows
    ensures var l, l' := s.rows[id], Apply(s, e).rows[id];
            match e
            case Persist(r, st, h, reason) =>
              var st' := if st.Some? then st else s.runs[r].phase.status;
              l' == (if s.runs[r].lot == id && st'.Some? then Written(l, st'.value, s.now, Progress(h, reason)) else l)
            case Finalize(r, h, reason, _) =>
              var st' := s.runs[r].phase.status;
              l' == (if s.runs[r].lot == id && st'.Some? then Written(l, st'.value, s.now, Progress(h, reason)) else l)
            case SetReport(r) =>
              l' == (if s.runs[r].lot == id then Written(l, ReportReady, s.now, Report(s.runs[r].phase.report)) else l)
            case Approve(o, supplier) => l' == (if o == id then Written(l, Approved, s.now, Approval(supplier)) else l)
            case Reject(o, reviewer) => l' == (if o == id then Written(l, Rejected, s.now, Rejection(reviewer)) else l)
            case _ => l' == l
  {
  }

  /** What each step does to the queue. */
  lemma StepQueue(s: Sys, e: Event)
    requires Enabled(s, e)
    ensures Apply(s, e).queue ==
            match e
            case Create(id) => s.queue + multiset{id}
            case Start(id) => s.queue - multiset{id}
            case Crash(r, retry) => if retry then s.queue + multiset{s.runs[r].lot} else s.queue
            case SweepQueue(_, id) => s.queue + multiset{id}
            case _ => s.queue
  {
  }

  lemma WithoutAt<T>(xs: seq<T>, r: nat, i: nat)
    requires r < |xs| && i < |Without(xs, r)|
    ensures var j := if i < r then i else i + 1; j < |xs| && Without(xs, r)[i] == xs[j]
  {
  }

  /** A step's runs: the old ones, for the same lots, and one that starts. */
  lemma StepRuns(s: Sys, e: Event, i: nat) returns (j: nat)
    requires Enabled(s, e) && i < |Apply(s, e).runs|
    ensures var lot := Apply(s, e).runs[i].lot;
            ((e.Start? || e.Replay?) && lot == e.id) || (j < |s.runs| && lot == s.runs[j].lot)
  {
    hide UpdateStatus, Write, Stored, Overdue, Without;
    j := i;
    match e
    case Finalize(r, _, _, report) =>
      if report.None? {
        WithoutAt(s.runs, r, i);
        j := if i < r then i else i + 1;
      }
    case SetReport(r) =>
      WithoutAt(s.runs, r, i);
      j := if i < r then i else i + 1;
    case Crash(r, _) =>
      WithoutAt(s.runs, r, i);
      j := if i < r then i else i + 1;
    case _ =>
  }

  lemma StepKeepsNoRun(s: Sys, e: Event, id: Id)
    requires Enabled(s, e) && e != Replay(id) && id in s.rows && NoRun(s, id) && NotSelected(s, id)
    ensures NoRun(Apply(s, e), id)
  {
    assert e.Start? ==> e.id in s.queue;
    hide Apply, Enabled, NotSelected;
    forall i: nat | i < |Apply(s, e).runs| ensures Apply(s, e).runs[i].lot != id {
      var j := StepRuns(s, e, i);
    }
  }

  /** Only a query that finds the lot overdue makes something about to write to it. */
  lemma StepKeepsNotSelected(s: Sys, e: Event, id: Id)
    requires WellFormed(s) && Enabled(s, e) && id in s.rows && NotSelected(s, id) && s.rows[id].status !in STUCK
    ensures NotSelected(Apply(s, e), id)
  {
    hide UpdateStatus, Write, Stored;
    match e
    case SweepQuery(w) => assert s.sweeps[w].remaining[0] in STUCK;
    case _ =>
  }

  /** A lot decided while nothing is about to write to it stays decided in every
      interleaving of everything else, replays by hand aside. */
  lemma {:induction false} ClosedForever(s: Sys, trace: seq<Event>, id: Id)
    requires WellFormed(s) && Valid(s, trace) && Replay(id) !in trace && Closed(s, id) && Quiet(s, id)
    ensures Closed(After(s, trace), id) && Quiet(After(s, trace), id)
    decreases |trace|
  {
    if trace != [] {
      assert trace[0] in trace;
      StepElsewhere(s, trace[0], id);
      StepKeepsNoRun(s, trace[0], id);
      StepKeepsNotSelected(s, trace[0], id);
      StepWellFormed(s, trace[0]);
      ClosedForever(Apply(s, trace[0]), trace[1..], id);
    }
  }

  /** Some continuation reopens the lot although nobody replays it. */
  ghost predicate CanReopen(s: Sys, id: Id) {
    exists trace :: Valid(s, trace) && Replay(id) !in trace && !Closed(After(s, trace), id)
  }

  lemma OneStep(s: Sys, e: Event)
    requires Enabled(s, e)
    ensures Valid(s, [e]) && After(s, [e]) == Apply(s, e)
  {
    assert [e][1..] == [];
  }

  lemma FirstStep(s: Sys, e: Event, id: Id)
    requires Enabled(s, e) && e != Replay(id) && CanReopen(Apply(s, e), id)
    ensures CanReopen(s, id)
  {
    var rest :| Valid(Apply(s, e), rest) && Replay(id) !in rest && !Closed(After(Apply(s, e), rest), id);
    var trace := [e] + rest;
    assert trace[1..] == rest;
    assert Valid(s, trace) && !Closed(After(s, trace), id);
  }

  /** One more write of a run takes a decision back. */
  lemma RunWrites(s: Sys, r: nat) returns (e: Event)
    requires r < |s.runs| && s.runs[r].lot in s.rows
    ensures e == if s.runs[r].phase.Working? then Persist(r, Some(Negotiating), false, None) else SetReport(r)
    ensures Enabled(s, e) && !Closed(Apply(s, e), s.runs[r].lot)
  {
    e := if s.runs[r].phase.Working? then Persist(r, Some(Negotiating), false, None) else SetReport(r);
  }

  lemma RunReopens(s: Sys, r: nat)
    requires r < |s.runs| && s.runs[r].lot in s.rows
    ensures CanReopen(s, s.runs[r].lot)
  {
    var e := RunWrites(s, r);
    OneStep(s, e);
    assert Valid(s, [e]) && Replay(s.runs[r].lot) !in [e] && !Closed(After(s, [e]), s.runs[r].lot);
  }

  lemma QueueReopens(s: Sys, id: Id)
    requires id in s.queue && id in s.rows
    ensures CanReopen(s, id)
  {
    var s' := Apply(s, Start(id));
    RunReopens(s', |s.runs|);
    FirstStep(s, Start(id), id);
  }

  /** Exactly then: a decided lot that nobody replays is safe for good if and
      only if no run of it is active or queued and no recovery has selected it. */
  lemma DecisionIsFinal(s: Sys, id: Id)
    requires WellFormed(s) && Closed(s, id)
    ensures Quiet(s, id) <==> !CanReopen(s, id)
  {
    if Quiet(s, id) {
      forall trace | Valid(s, trace) && Replay(id) !in trace ensures Closed(After(s, trace), id) {
        ClosedForever(s, trace, id);
      }
    } else if id in s.queue {
      QueueReopens(s, id);
    } else if i :| 0 <= i < |s.runs| && s.runs[i].lot == id {
      RunReopens(s, i);
    } else {
      var w :| 0 <= w < |s.sweeps| && id in s.sweeps[w].selected;
      QueueReopens(Apply(s, SweepQueue(w, id)), id);
      FirstStep(s, SweepQueue(w, id), id);
    }
  }

  /** Two more steps, and any decision is taken back by a replay. */
  lemma ReplayReopens(s: Sys, id: Id) returns (trace: seq<Event>)
    requires id in s.rows
    ensures Valid(s, trace) && |trace| == 2 && trace[0] == Replay(id) && !Closed(After(s, trace), id)
  {
    var s' := Apply(s, Replay(id));
    var e := RunWrites(s', |s.runs|);
    trace := [Replay(id), e];
    OneStep(s', e);
    assert trace[1..] == [e];
  }

  /** A new lot whose run has just started. */
  function Started(id: Id): Sys {
    Sys(map[id := Lot(Draft, 0, None, None, false, None, None)], multiset{}, [Run(id, Working(None))], [], 0)
  }

  lemma Prepend(s: Sys, e: Event, rest: seq<Event>)
    requires Enabled(s, e) && Valid(Apply(s, e), rest)
    ensures Valid(s, [e] + rest) && After(s, [e] + rest) == After(Apply(s, e), rest)
  {
    hide Apply, Enabled;
    assert ([e] + rest)[1..] == rest;
  }

  lemma StartedReached(id: Id, rest: seq<Event>)
    requires Valid(Started(id), rest)
    ensures var trace := [Create(id)] + ([Start(id)] + rest);
            Valid(INITIAL, trace) && After(INITIAL, trace) == After(Started(id), rest)
  {
    hide Valid, After;
    var s1 := Apply(INITIAL, Create(id));
    assert Apply(s1, Start(id)) == Started(id);
    Prepend(s1, Start(id), rest);
    Prepend(INITIAL, Create(id), [Start(id)] + rest);
  }

  /** It does happen: the run of a new lot overwrites an approval. */
  lemma ApprovalUndone(id: Id) returns (before: seq<Event>, e: Event)
    ensures Valid(INITIAL, before) && Closed(After(INITIAL, before), id)
    ensures Replay(id) !in before && !Human(e, id) && Enabled(After(INITIAL, before), e)
    ensures !Closed(Apply(After(INITIAL, before), e), id)
  {
    hide Valid, After;
    var approve := [Approve(id, None)];
    before := [Create(id)] + ([Start(id)] + approve);
    OneStep(Started(id), approve[0]);
    StartedReached(id, approve);
    e := RunWrites(Apply(Started(id), approve[0]), 0);
  }

  // ---- Who writes the decision ---------------------------------------------

  /** The last approval of the lot in a trace: its supplier and its time. */
  function LastApproval(s: Sys, trace: seq<Event>, id: Id, start: (Option<string>, Option<int>))
    : (Option<string>, Option<int>)
    requires Valid(s, trace)
    decreases |trace|
  {
    if trace == [] then start else
    var e := trace[0];
    var next := if e.Approve? && e.id == id then (e.supplier, Some(s.now)) else start;
    LastApproval(Apply(s, e), trace[1..], id, next)
  }

  /** The chosen supplier and the closing time are those of the last approval,
      whatever else happened. */
  lemma {:induction false} OnlyApprovalDecides(s: Sys, trace: seq<Event>, id: Id)
    requires Valid(s, trace) && id in s.rows
    ensures id in After(s, trace).rows
    ensures var l := After(s, trace).rows[id];
            (l.chosen, l.closedAt) == LastApproval(s, trace, id, (s.rows[id].chosen, s.rows[id].closedAt))
    decreases |trace|
  {
    if trace != [] { OnlyApprovalDecides(Apply(s, trace[0]), trace[1..], id); }
  }

  // ---- What the recovery picks up ------------------------------------------

  /** A trace in which nobody decides about the lot or replays it. */
  ghost predicate Unattended(trace: seq<Event>, id: Id) { forall e :: e in trace ==> !Human(e, id) }

  /** A lot whose run is lost in any status but the four: unattended, its row
      never changes and it is never queued, run or selected again. */
  lemma {:induction false} StalledForever(s: Sys, trace: seq<Event>, id: Id)
    requires WellFormed(s) && Valid(s, trace) && Unattended(trace, id)
    requires id in s.rows && s.rows[id].status !in STUCK && Quiet(s, id)
    ensures id in After(s, trace).rows && After(s, trace).rows[id] == s.rows[id] && Quiet(After(s, trace), id)
    decreases |trace|
  {
    if trace != [] {
      assert trace[0] in trace;
      StepElsewhere(s, trace[0], id);
      StepKeepsNoRun(s, trace[0], id);
      StepKeepsNotSelected(s, trace[0], id);
      StepWellFormed(s, trace[0]);
      assert Unattended(trace[1..], id);
      StalledForever(Apply(s, trace[0]), trace[1..], id);
    }
  }

  /** Unattended, some continuation queues the lot again. */
  ghost predicate Recoverable(s: Sys, id: Id) {
    exists trace :: Valid(s, trace) && Unattended(trace, id) && id in After(s, trace).queue
  }

  lemma RecoverableStep(s: Sys, e: Event, id: Id)
    requires Enabled(s, e) && !Human(e, id) && Recoverable(Apply(s, e), id)
    ensures Recoverable(s, id)
  {
    var rest :| Valid(Apply(s, e), rest) && Unattended(rest, id) && id in After(Apply(s, e), rest).queue;
    var trace := [e] + rest;
    assert trace[1..] == rest;
    assert Valid(s, trace) && Unattended(trace, id) && id in After(s, trace).queue;
  }

  /** A sweep that still has the overdue lot before it gets there. */
  lemma {:induction false} SweepFinds(s: Sys, w: nat, id: Id)
    requires w < |s.sweeps| && id in s.rows && s.rows[id].updatedAt < s.sweeps[w].threshold
    requires id in s.sweeps[w].selected || s.rows[id].status in s.sweeps[w].remaining
    ensures Recoverable(s, id)
    decreases |s.sweeps[w].remaining|, |s.sweeps[w].selected|
  {
    var sw := s.sweeps[w];
    if id in sw.selected {
      var s' := Apply(s, SweepQueue(w, id));
      assert Valid(s', []) && Unattended([], id) && id in After(s', []).queue;
      RecoverableStep(s, SweepQueue(w, id), id);
    } else if o :| o in sw.selected {
      SweepFinds(Apply(s, SweepQueue(w, o)), w, id);
      RecoverableStep(s, SweepQueue(w, o), id);
    } else {
      SweepFinds(Apply(s, SweepQuery(w)), w, id);
      RecoverableStep(s, SweepQuery(w), id);
    }
  }

  /** A lot that no run and no sweep knows of is picked up again if and only if
      it is in one of the four statuses that recovery queries. */
  lemma RecoverableIff(s: Sys, id: Id)
    requires WellFormed(s) && id in s.rows && Quiet(s, id)
    ensures Recoverable(s, id) <==> s.rows[id].status in {Draft, Sourcing, RfqSent, Negotiating}
  {
    if s.rows[id].status in STUCK {
      var late := s.rows[id].updatedAt + PATIENCE + 1 - s.now;
      var tick := Tick(if late > 0 then late else 0);
      var s1 := Apply(s, tick);
      SweepFinds(Apply(s1, SweepStart), |s.sweeps|, id);
      RecoverableStep(s1, SweepStart, id);
      RecoverableStep(s, tick, id);
    } else {
      forall trace | Valid(s, trace) && Unattended(trace, id) ensures id !in After(s, trace).queue {
        StalledForever(s, trace, id);
      }
    }
  }

  lemma LosesRun(id: Id)
    ensures var s, e := Started(id), Persist(0, Some(Planned), false, None);
            && Enabled(s, e) && Enabled(Apply(s, e), Crash(0, false))
            && var s' := Apply(Apply(s, e), Crash(0, false));
               && id in s'.rows && s'.rows[id].status == Planned
               && s'.runs == [] && s'.queue == multiset{} && s'.sweeps == []
  {
  }

  /** It does happen: a run that is lost right after the planner loses its lot. */
  lemma LotIsLost(id: Id) returns (trace: seq<Event>)
    ensures Valid(INITIAL, trace) && Unattended(trace, id)
    ensures var s := After(INITIAL, trace);
            id in s.rows && s.rows[id].status == Planned && Quiet(s, id) && !Recoverable(s, id)
  {
    hide Valid, After, Apply, Enabled, Started, Recoverable, WellFormed;
    var stored, lost := Persist(0, Some(Planned), false, None), Crash(0, false);
    trace := [Create(id)] + ([Start(id)] + ([stored] + [lost]));
    LosesRun(id);
    OneStep(Apply(Started(id), stored), lost);
    Prepend(Started(id), stored, [lost]);
    StartedReached(id, [stored] + [lost]);
    AlwaysWellFormed(trace, INITIAL);
    RecoverableIff(After(INITIAL, trace), id);
  }

  // ---- A sweep as a whole --------------------------------------------------

  /** What a sweep will still queue if nothing interrupts it. */
  ghost function Pending(s: Sys, w: nat): set<Id>
    requires w < |s.sweeps|
  {
    s.sweeps[w].selected + OverdueLots(s.rows, s.sweeps[w].remaining, s.sweeps[w].threshold)
  }

  /** Sweep w is past the statuses of the lots it has selected, and no status
      comes twice. */
  ghost predicate InOrder(s: Sys, w: nat) {
    && w < |s.sweeps|
    && (forall id :: id in s.sweeps[w].selected ==> id in s.rows && s.rows[id].status !in s.sweeps[w].remaining)
    && (forall i, j :: 0 <= i < j < |s.sweeps[w].remaining| ==> s.sweeps[w].remaining[i] != s.sweeps[w].remaining[j])
  }

  predicate StepOf(e: Event, w: nat) { (e.SweepQuery? || e.SweepQueue?) && e.w == w }

  lemma QueryMovesOn(s: Sys, w: nat)
    requires InOrder(s, w) && Enabled(s, SweepQuery(w))
    ensures var s' := Apply(s, SweepQuery(w));
            InOrder(s', w) && s'.rows == s.rows && s'.queue == s.queue && Pending(s', w) == Pending(s, w)
  {
    var s' := Apply(s, SweepQuery(w));
    var remaining := s.sweeps[w].remaining;
    assert remaining == [remaining[0]] + remaining[1..];
    forall i, j | 0 <= i < j < |remaining| - 1 ensures remaining[1..][i] != remaining[1..][j] {
      assert remaining[i + 1] != remaining[j + 1];
    }
    assert remaining[0] !in remaining[1..];
    forall id ensures id in Pending(s', w) <==> id in Pending(s, w) {}
  }

  /** Conservation: what is queued plus what is pending stays the same. */
  lemma {:induction false} SweepConserves(s: Sys, w: nat, trace: seq<Event>)
    requires InOrder(s, w) && Valid(s, trace) && forall e :: e in trace ==> StepOf(e, w)
    ensures var s' := After(s, trace);
            && InOrder(s', w) && s'.rows == s.rows
            && s'.queue + multiset(Pending(s', w)) == s.queue + multiset(Pending(s, w))
    decreases |trace|
  {
    if trace != [] {
      var e := trace[0];
      assert e in trace;
      hide Pending, InOrder, Apply, Enabled;
      if e.SweepQuery? {
        QueryMovesOn(s, w);
      } else {
        assert multiset(Pending(s, w)) == multiset(Pending(s, w) - {e.id}) + multiset{e.id};
      }
      SweepConserves(Apply(s, e), w, trace[1..]);
    }
  }

  /** Whatever order a sweep queues its lots in, if it is not interrupted it adds
      to the queue exactly the overdue lots, each once: what `RecoverStuck` does. */
  lemma UninterruptedSweep(s: Sys, trace: seq<Event>)
    requires var s0 := Apply(s, SweepStart); var w := |s.sweeps|;
             && Valid(s0, trace) && (forall e :: e in trace ==> StepOf(e, w))
             && w < |After(s0, trace).sweeps|
             && After(s0, trace).sweeps[w].remaining == [] && After(s0, trace).sweeps[w].selected == {}
    ensures After(Apply(s, SweepStart), trace).queue
            == s.queue + multiset(OverdueLots(s.rows, STUCK, s.now - PATIENCE))
  {
    var s0, w := Apply(s, SweepStart), |s.sweeps|;
    SweepConserves(s0, w, trace);
    assert Pending(s0, w) == OverdueLots(s.rows, STUCK, s.now - PATIENCE);
    assert Pending(After(s0, trace), w) == {};
  }
}
