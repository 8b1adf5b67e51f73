/** The publish-subscribe bus behind the lot WebSocket (`api/ws.py`,
    `api/routes/websocket.py`): bounded queues per subscriber, in every
    interleaving of subscribing, unsubscribing, publishing and consuming. */
module EventBus {
  import opened Options

  type Message = string

  const CAPACITY := 200

  /** A subscriber's queue, and what its handler has taken out of it. */
  datatype Mailbox = Mailbox(queued: seq<Message>, received: seq<Message>)

  /** Queues are known by identity: Q is the type of their references. */
  datatype Bus<!Q(==)> = Bus(subs: map<string, set<Q>>, boxes: map<Q, Mailbox>)

  function Subscribers<Q>(subs: map<string, set<Q>>, lot: string): set<Q> {
    if lot in subs then subs[lot] else {}
  }

  /** `put_nowait`: a full queue drops the message. */
  function Offered(queued: seq<Message>, m: Message): seq<Message> {
    if |queued| < CAPACITY then queued + [m] else queued
  }

  function Join<Q>(b: Bus<Q>, lot: string, q: Q): Bus<Q> {
    Bus(b.subs[lot := Subscribers(b.subs, lot) + {q}], b.boxes[q := Mailbox([], [])])
  }

  function Without<Q>(subs: map<string, set<Q>>, lot: string, q: Q): map<string, set<Q>> {
    var rest := Subscribers(subs, lot) - {q};
    if rest == {} then subs - {lot} else subs[lot := rest]
  }

  function Leave<Q>(b: Bus<Q>, lot: string, q: Q): Bus<Q> {
    b.(subs := Without(b.subs, lot, q))
  }

  function Deliver<Q>(b: Bus<Q>, lot: string, m: Message): Bus<Q> {
    b.(boxes := map q | q in b.boxes ::
      if q in Subscribers(b.subs, lot) then b.boxes[q].(queued := Offered(b.boxes[q].queued, m)) else b.boxes[q])
  }

  function Take<Q>(b: Bus<Q>, q: Q): Bus<Q>
    requires q in b.boxes && b.boxes[q].queued != []
  {
    var box := b.boxes[q];
    b.(boxes := b.boxes[q := Mailbox(box.queued[1..], box.received + [box.queued[0]])])
  }

  class Queue {
    var items: seq<Message>
    ghost var received: seq<Message>

    constructor ()
      ensures items == [] && received == []
    {
      items, received := [], [];
    }

    method PutNowait(m: Message) returns (ok: bool)
      modifies this`items
      ensures ok == (|old(items)| < 200) && items == if ok then old(items) + [m] else old(items)
    {
      ok := |items| < CAPACITY;
      if ok { items := items + [m]; }
    }

    ghost function Box(): Mailbox
      reads this
    {
      Mailbox(items, received)
    }
  }

  class LotEventBus {
    var subs: map<string, set<Queue>>
    ghost var queues: set<Queue>

    ghost predicate Valid()
      reads this
    {
      forall lot :: lot in subs ==> subs[lot] <= queues
    }

    ghost function State(): Bus<Queue>
      reads this, queues
    {
      Bus(subs, map q | q in queues :: q.Box())
    }

    constructor ()
      ensures Valid() && State() == Bus(map[], map[])
    {
      subs, queues := map[], {};
    }

    method Subscribe(lot: string) returns (q: Queue)
      requires Valid()
      modifies this
      ensures Valid() && fresh(q) && State() == Join(old(State()), lot, q)
    {
      q := new Queue();
      if lot !in subs { subs := subs[lot := {}]; }
      subs := subs[lot := subs[lot] + {q}];
      queues := queues + {q};
      assert State().boxes == Join(old(State()), lot, q).boxes;
    }

    /** The default dict first creates the missing set, then drops it again. */
    method Unsubscribe(lot: string, q: Queue)
      requires Valid()
      modifies this
      ensures Valid() && State() == Leave(old(State()), lot, q)
    {
      if lot !in subs { subs := subs[lot := {}]; }
      subs := subs[lot := subs[lot] - {q}];
      if subs[lot] == {} { subs := subs - {lot}; }
      assert subs == Without(old(subs), lot, q);
    }

    method Publish(lot: string, m: Message)
      requires Valid()
      modifies queues
      ensures Valid() && State() == Deliver(old(State()), lot, m)
    {
      var targets := if lot in subs then subs[lot] else {};
      var todo := targets;
      while todo != {}
        invariant todo <= targets
        invariant forall q :: q in queues ==> q.received == old(q.received)
        invariant forall q :: q in queues && (q in todo || q !in targets) ==> q.items == old(q.items)
        invariant forall q :: q in targets && q !in todo ==> q.items == Offered(old(q.items), m)
        decreases |todo|
      {
        var q :| q in todo;
        var _ := q.PutNowait(m);
        todo := todo - {q};
      }
      assert State().boxes == Deliver(old(State()), lot, m).boxes;
    }

    /** `queue.get()` of a handler whose queue is not empty. */
    method Consume(q: Queue) returns (m: Message)
      requires Valid() && q in queues && q.items != []
      modifies q
      ensures Valid() && m == old(q.items[0]) && State() == Take(old(State()), q)
    {
      m := q.items[0];
      q.items := q.items[1..];
      q.received := q.received + [m];
      assert State().boxes == Take(old(State()), q).boxes;
    }
  }

  // ---- Interleavings -------------------------------------------------------

  datatype Event<Q> =
    | Subscribed(lot: string, q: Q)
    | Unsubscribed(lot: string, q: Q)
    | Published(lot: string, message: Message)
    | Consumed(q: Q)

  type Trace<Q> = seq<Event<Q>>

  /** Subscribing creates the queue, so a queue is subscribed only once. */
  predicate Enabled<Q>(b: Bus<Q>, e: Event<Q>) {
    match e
    case Subscribed(_, q) => q !in b.boxes
    case Consumed(q) => q in b.boxes && b.boxes[q].queued != []
    case _ => true
  }

  function Step<Q>(b: Bus<Q>, e: Event<Q>): Bus<Q>
    requires Enabled(b, e)
  {
    match e
    case Subscribed(lot, q) => Join(b, lot, q)
    case Unsubscribed(lot, q) => Leave(b, lot, q)
    case Published(lot, m) => Deliver(b, lot, m)
    case Consumed(q) => Take(b, q)
  }

  predicate Valid<Q(==)>(t: Trace<Q>)
    decreases |t|, 0
  {
    t == [] || (Valid(t[..|t| - 1]) && Enabled(Run(t[..|t| - 1]), t[|t| - 1]))
  }

  function Run<Q>(t: Trace<Q>): Bus<Q>
    requires Valid(t)
    decreases |t|, 1
  {
    if t == [] then Bus(map[], map[]) else Step(Run(t[..|t| - 1]), t[|t| - 1])
  }

  // ---- What the trace alone says about one subscriber ----------------------

  /** The lot a queue is subscribed to, everything published to that lot during
      the subscription, what of it was published while fewer than 200 kept
      messages were waiting, and how many its handler has taken. */
  datatype View = View(lot: Option<string>, heard: seq<Message>, kept: seq<Message>, taken: int)

  predicate Full(v: View) { |v.kept| - v.taken >= 200 }

  function Observe<Q(==)>(v: View, e: Event<Q>, q: Q): View {
    match e
    case Subscribed(lot, p) => if p == q then v.(lot := Some(lot)) else v
    case Unsubscribed(lot, p) => if p == q && v.lot == Some(lot) then v.(lot := None) else v
    case Published(lot, m) =>
      if v.lot == Some(lot) then v.(heard := v.heard + [m], kept := if Full(v) then v.kept else v.kept + [m]) else v
    case Consumed(p) => if p == q then v.(taken := v.taken + 1) else v
  }

  const UNSEEN := View(None, [], [], 0)

  function Seen<Q(==)>(t: Trace<Q>, q: Q): View {
    if t == [] then UNSEEN else Observe(Seen(t[..|t| - 1], q), t[|t| - 1], q)
  }

  // ---- Theorems ------------------------------------------------------------

  lemma {:induction false} OnlySubscribed<Q>(t: Trace<Q>, q: Q)
    requires Valid(t) && q !in Run(t).boxes
    ensures Seen(t, q) == UNSEEN
  {
    if t != [] { OnlySubscribed(t[..|t| - 1], q); }
  }

  /** A queue is in the set of its own lot and in no other. */
  lemma {:induction false} SubscribedToOneLot<Q>(t: Trace<Q>, q: Q, lot: string)
    requires Valid(t)
    ensures q in Subscribers(Run(t).subs, lot) <==> Seen(t, q).lot == Some(lot)
  {
    if t != [] {
      var init, e := t[..|t| - 1], t[|t| - 1];
      SubscribedToOneLot(init, q, lot);
      if e.Subscribed? && e.q == q { OnlySubscribed(init, q); }
    }
  }

  lemma {:induction false} NoEmptySets<Q>(t: Trace<Q>, lot: string)
    requires Valid(t) && lot in Run(t).subs
    ensures Run(t).subs[lot] != {}
  {
    if t != [] {
      var init, e := t[..|t| - 1], t[|t| - 1];
      if lot in Run(init).subs { NoEmptySets(init, lot); }
      if e.Subscribed? && e.lot == lot { assert e.q in Run(t).subs[lot]; }
    }
  }

  /** What a subscriber has received, then what is queued, is what it kept: in
      order, complete, without repetition; and never more than 200 are queued. */
  lemma {:induction false} ReceivedThenQueued<Q>(t: Trace<Q>, q: Q)
    requires Valid(t) && q in Run(t).boxes
    ensures var box, v := Run(t).boxes[q], Seen(t, q);
            box.received + box.queued == v.kept && |box.received| == v.taken && |box.queued| <= 200
  {
    if t != [] {
      var init, e := t[..|t| - 1], t[|t| - 1];
      var b := Run(init);
      if q in b.boxes {
        ReceivedThenQueued(init, q);
        var box := b.boxes[q];
        match e
        case Published(lot, m) =>
          SubscribedToOneLot(init, q, lot);
          assert box.received + (box.queued + [m]) == Seen(init, q).kept + [m];
        case Consumed(p) =>
          if p == q { assert [box.queued[0]] + box.queued[1..] == box.queued; }
        case _ =>
      } else {
        OnlySubscribed(init, q);
      }
    }
  }

  /** xs is ys with some elements left out. */
  predicate Subsequence(xs: seq<Message>, ys: seq<Message>) {
    if xs == [] then true
    else if ys == [] then false
    else if Subsequence(xs, ys[..|ys| - 1]) then true
    else xs[|xs| - 1] == ys[|ys| - 1] && Subsequence(xs[..|xs| - 1], ys[..|ys| - 1])
  }

  /** Nothing is kept that was not published to its own lot, and in that order. */
  lemma {:induction false} KeptWasHeard<Q>(t: Trace<Q>, q: Q)
    ensures Subsequence(Seen(t, q).kept, Seen(t, q).heard)
  {
    if t != [] {
      var init, e := t[..|t| - 1], t[|t| - 1];
      KeptWasHeard(init, q);
      var v, w := Seen(init, q), Seen(t, q);
      if w.heard != v.heard {
        assert w.heard[..|w.heard| - 1] == v.heard;
        if w.kept != v.kept { assert w.kept[..|w.kept| - 1] == v.kept; }
      }
    }
  }

  /** Something was published to its lot while 200 messages were waiting. */
  ghost predicate Overflowed<Q>(t: Trace<Q>, q: Q) {
    exists n: nat :: n < |t| && OverflowAt(t, q, n)
  }

  predicate OverflowAt<Q(==)>(t: Trace<Q>, q: Q, n: nat)
    requires n < |t|
  {
    var v := Seen(t[..n], q); t[n].Published? && v.lot == Some(t[n].lot) && Full(v)
  }

  /** A subscriber misses nothing exactly when its queue was never full at a
      publication. */
  lemma {:induction false} NothingMissedIff<Q>(t: Trace<Q>, q: Q)
    ensures var v := Seen(t, q);
            && |v.kept| <= |v.heard|
            && (v.kept == v.heard <==> !Overflowed(t, q))
            && (Overflowed(t, q) ==> |v.kept| < |v.heard|)
  {
    if t != [] {
      var n := |t| - 1;
      var init := t[..n];
      NothingMissedIff(init, q);
      forall k: nat | k < n ensures OverflowAt(t, q, k) == OverflowAt(init, q, k) { assert init[..k] == t[..k]; }
      assert Overflowed(t, q) <==> Overflowed(init, q) || OverflowAt(t, q, n);
    }
  }

  /** The trace without what the other handlers consumed. */
  function WithoutOthers<Q(==)>(t: Trace<Q>, q: Q): Trace<Q> {
    if t == [] then [] else
    var e := t[|t| - 1];
    WithoutOthers(t[..|t| - 1], q) + (if e.Consumed? && e.q != q then [] else [e])
  }

  /** A lagging reader neither delays nor starves the others: what one queue
      keeps does not depend on what the others consume. */
  lemma {:induction false} ReadersAreIndependent<Q>(t: Trace<Q>, q: Q)
    ensures Seen(WithoutOthers(t, q), q) == Seen(t, q)
  {
    if t != [] {
      var init, e := t[..|t| - 1], t[|t| - 1];
      ReadersAreIndependent(init, q);
      var u := WithoutOthers(init, q);
      if e.Consumed? && e.q != q {
        assert u + [] == u;
      } else {
        assert (u + [e])[..|u|] == u;
      }
    }
  }
}
