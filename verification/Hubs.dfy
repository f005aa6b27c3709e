/** Fan-out to live listeners. An event bus cuts off a listener whose queue is
    full; an audio or spectrum hub drops that listener's oldest frame instead. */
module Hubs {
  import opened Basics

  // ----- Cut-off bus -----

  /** A listener's queue, and whether the bus still feeds it. */
  datatype Listener<E> = Listener(pending: seq<E>, fed: bool)

  /** start: events published before it subscribed. stop: when it was cut off or
      unsubscribed. read: what it has read. */
  datatype Mark<E> = Mark(start: nat, stop: Option<nat>, read: seq<E>)

  datatype Bus<E> = Bus(history: seq<E>, listeners: map<nat, Listener<E>>)

  datatype BusTrace<E> = BusTrace(published: seq<E>, marks: map<nat, Mark<E>>)

  datatype BusOp<E> =
    | Publish(event: E)
    | Subscribe(id: nat)
    | Unsubscribe(id: nat)
    | Read(id: nat)
    | Clear

  function Deliver<E>(room: nat, l: Listener<E>, e: E): Listener<E> {
    if !l.fed then l
    else if |l.pending| < room then l.(pending := l.pending + [e])
    else l.(fed := false)
  }

  function Remember<E>(maxlen: nat, history: seq<E>, e: E): seq<E> {
    var all := history + [e];
    if |all| > maxlen then all[|all| - maxlen..] else all
  }

  function BusStep<E>(maxlen: nat, room: nat, b: Bus<E>, op: BusOp<E>): Bus<E> {
    match op
    case Publish(e) =>
      Bus(Remember(maxlen, b.history, e), map id | id in b.listeners :: Deliver(room, b.listeners[id], e))
    case Subscribe(id) =>
      if id in b.listeners then b else b.(listeners := b.listeners[id := Listener([], true)])
    case Unsubscribe(id) =>
      if id in b.listeners then b.(listeners := b.listeners[id := b.listeners[id].(fed := false)]) else b
    case Read(id) =>
      if id in b.listeners && b.listeners[id].pending != []
      then b.(listeners := b.listeners[id := b.listeners[id].(pending := b.listeners[id].pending[1..])])
      else b
    case Clear => b.(history := [])
  }

  function MarkAfter<E>(room: nat, l: Listener<E>, m: Mark<E>, now: nat): Mark<E> {
    if l.fed && |l.pending| >= room then m.(stop := Some(now)) else m
  }

  function BusRecord<E>(room: nat, b: Bus<E>, t: BusTrace<E>, op: BusOp<E>): BusTrace<E>
    requires t.marks.Keys == b.listeners.Keys
  {
    match op
    case Publish(e) =>
      BusTrace(t.published + [e],
               map id | id in t.marks :: MarkAfter(room, b.listeners[id], t.marks[id], |t.published|))
    case Subscribe(id) =>
      if id in b.listeners then t else t.(marks := t.marks[id := Mark(|t.published|, None, [])])
    case Unsubscribe(id) =>
      if id in b.listeners && b.listeners[id].fed
      then t.(marks := t.marks[id := t.marks[id].(stop := Some(|t.published|))]) else t
    case Read(id) =>
      if id in b.listeners && b.listeners[id].pending != []
      then t.(marks := t.marks[id := t.marks[id].(read := t.marks[id].read + [b.listeners[id].pending[0]])])
      else t
    case Clear => t
  }

  /** What a listener has read and what waits for it is one gap-free segment of
      the published events, from its subscription to its end or to now. */
  ghost predicate GapFree<E>(room: nat, published: seq<E>, l: Listener<E>, m: Mark<E>) {
    var end := if m.stop.Some? then m.stop.value else |published|;
    && (l.fed <==> m.stop == None)
    && |l.pending| <= room
    && m.start <= end <= |published|
    && m.read + l.pending == published[m.start..end]
  }

  ghost predicate BusInv<E>(maxlen: nat, room: nat, b: Bus<E>, t: BusTrace<E>) {
    && t.marks.Keys == b.listeners.Keys
    && |b.history| <= maxlen && |b.history| <= |t.published|
    && b.history == t.published[|t.published| - |b.history|..]
    && forall id :: id in b.listeners ==> GapFree(room, t.published, b.listeners[id], t.marks[id])
  }

  lemma DeliverKeeps<E>(room: nat, published: seq<E>, l: Listener<E>, m: Mark<E>, e: E)
    requires GapFree(room, published, l, m)
    ensures GapFree(room, published + [e], Deliver(room, l, e), MarkAfter(room, l, m, |published|))
  {
    var all := published + [e];
    if l.fed && |l.pending| < room {
      assert all[m.start..|all|] == published[m.start..|published|] + [e];
    } else {
      var end := if m.stop.Some? then m.stop.value else |published|;
      assert all[m.start..end] == published[m.start..end];
    }
  }

  lemma RememberKeeps<E>(maxlen: nat, history: seq<E>, published: seq<E>, e: E)
    requires |history| <= maxlen && |history| <= |published|
    requires history == published[|published| - |history|..]
    ensures var h, p := Remember(maxlen, history, e), published + [e];
            |h| <= maxlen && |h| <= |p| && h == p[|p| - |h|..]
  {
  }

  lemma PublishKeeps<E>(maxlen: nat, room: nat, b: Bus<E>, t: BusTrace<E>, e: E)
    requires BusInv(maxlen, room, b, t)
    ensures BusInv(maxlen, room, BusStep(maxlen, room, b, Publish(e)), BusRecord(room, b, t, Publish(e)))
  {
    RememberKeeps(maxlen, b.history, t.published, e);
    forall id | id in b.listeners
      ensures GapFree(room, t.published + [e], Deliver(room, b.listeners[id], e),
                      MarkAfter(room, b.listeners[id], t.marks[id], |t.published|))
    {
      DeliverKeeps(room, t.published, b.listeners[id], t.marks[id], e);
    }
  }

  lemma TakeKeeps<E>(room: nat, published: seq<E>, l: Listener<E>, m: Mark<E>)
    requires GapFree(room, published, l, m) && l.pending != []
    ensures GapFree(room, published, l.(pending := l.pending[1..]), m.(read := m.read + [l.pending[0]]))
  {
    assert m.read + [l.pending[0]] + l.pending[1..] == m.read + l.pending;
  }

  lemma ReadKeeps<E>(maxlen: nat, room: nat, b: Bus<E>, t: BusTrace<E>, id: nat)
    requires BusInv(maxlen, room, b, t)
    ensures BusInv(maxlen, room, BusStep(maxlen, room, b, Read(id)), BusRecord(room, b, t, Read(id)))
  {
    if id in b.listeners && b.listeners[id].pending != [] {
      TakeKeeps(room, t.published, b.listeners[id], t.marks[id]);
    }
  }

  lemma BusStepKeeps<E>(maxlen: nat, room: nat, b: Bus<E>, t: BusTrace<E>, op: BusOp<E>)
    requires BusInv(maxlen, room, b, t)
    ensures BusInv(maxlen, room, BusStep(maxlen, room, b, op), BusRecord(room, b, t, op))
  {
    match op
    case Publish(e) => PublishKeeps(maxlen, room, b, t, e);
    case Read(id) => ReadKeeps(maxlen, room, b, t, id);
    case Subscribe(id) => SubscriptionKeeps(maxlen, room, b, t, op);
    case Unsubscribe(id) => SubscriptionKeeps(maxlen, room, b, t, op);
    case Clear =>
  }

  lemma SubscriptionKeeps<E>(maxlen: nat, room: nat, b: Bus<E>, t: BusTrace<E>, op: BusOp<E>)
    requires BusInv(maxlen, room, b, t) && (op.Subscribe? || op.Unsubscribe?)
    ensures BusInv(maxlen, room, BusStep(maxlen, room, b, op), BusRecord(room, b, t, op))
  {
  }

  function BusRun<E>(maxlen: nat, room: nat, ops: seq<BusOp<E>>): (r: (Bus<E>, BusTrace<E>))
    ensures r.1.marks.Keys == r.0.listeners.Keys
  {
    if ops == [] then (Bus([], map[]), BusTrace([], map[]))
    else
      var before := BusRun(maxlen, room, ops[..|ops| - 1]);
      var op := ops[|ops| - 1];
      (BusStep(maxlen, room, before.0, op), BusRecord(room, before.0, before.1, op))
  }

  /** Over any run, for any number of listeners. */
  lemma {:induction false} EveryListenerGapFree<E>(maxlen: nat, room: nat, ops: seq<BusOp<E>>)
    ensures BusInv(maxlen, room, BusRun(maxlen, room, ops).0, BusRun(maxlen, room, ops).1)
  {
    if ops != [] {
      var before := BusRun(maxlen, room, ops[..|ops| - 1]);
      EveryListenerGapFree(maxlen, room, ops[..|ops| - 1]);
      BusStepKeeps(maxlen, room, before.0, before.1, ops[|ops| - 1]);
    }
  }

  // ----- How much the history keeps -----

  /** Events published since the last clear, as far as there is room for them. */
  function Kept<E>(maxlen: nat, ops: seq<BusOp<E>>): nat {
    if ops == [] then 0
    else
      var before := Kept(maxlen, ops[..|ops| - 1]);
      match ops[|ops| - 1]
      case Publish(_) => if before < maxlen then before + 1 else before
      case Clear => 0
      case _ => before
  }

  /** Over any run the history is as long as its bound allows. */
  lemma {:induction false} HistoryIsFull<E>(maxlen: nat, room: nat, ops: seq<BusOp<E>>)
    ensures |BusRun(maxlen, room, ops).0.history| == Kept(maxlen, ops)
    ensures Kept(maxlen, ops) <= maxlen
  {
    if ops != [] {
      HistoryIsFull(maxlen, room, ops[..|ops| - 1]);
    }
  }

  // ----- When a listener is cut off -----

  /** What an unbounded queue that subscribed at step s would hold before step n:
      one more for every publish, one less for every read that finds something. */
  function Unread<E>(ops: seq<BusOp<E>>, id: nat, s: nat, n: nat): nat
    requires n <= |ops|
  {
    if n <= s + 1 then 0
    else
      var before := Unread(ops, id, s, n - 1);
      match ops[n - 1]
      case Publish(_) => before + 1
      case Read(i) => if i == id && before > 0 then before - 1 else before
      case _ => before
  }

  /** Before step n some publish would have left more than room events unread. */
  ghost predicate Overflows<E>(room: nat, ops: seq<BusOp<E>>, id: nat, s: nat, n: nat)
    requires n <= |ops|
  {
    exists k :: s < k < n && ops[k].Publish? && Unread(ops, id, s, k) >= room
  }

  function ListenerAfter<E>(room: nat, l: Listener<E>, id: nat, op: BusOp<E>): Listener<E> {
    match op
    case Publish(e) => Deliver(room, l, e)
    case Unsubscribe(i) => if i == id then l.(fed := false) else l
    case Read(i) => if i == id && l.pending != [] then l.(pending := l.pending[1..]) else l
    case _ => l
  }

  lemma ListenerStep<E>(maxlen: nat, room: nat, b: Bus<E>, id: nat, op: BusOp<E>)
    requires id in b.listeners
    ensures id in BusStep(maxlen, room, b, op).listeners
    ensures BusStep(maxlen, room, b, op).listeners[id] == ListenerAfter(room, b.listeners[id], id, op)
  {
  }

  lemma BusRunNext<E>(maxlen: nat, room: nat, ops: seq<BusOp<E>>, n: nat)
    requires n < |ops|
    ensures BusRun(maxlen, room, ops[..n + 1]).0 == BusStep(maxlen, room, BusRun(maxlen, room, ops[..n]).0, ops[n])
  {
    assert ops[..n + 1][..n] == ops[..n];
  }

  /** The listener that subscribed at step s, seen before step n. */
  ghost predicate Followed<E>(maxlen: nat, room: nat, ops: seq<BusOp<E>>, id: nat, s: nat, n: nat)
    requires n <= |ops|
  {
    var b := BusRun(maxlen, room, ops[..n]).0;
    && id in b.listeners
    && (b.listeners[id].fed <==> !Overflows(room, ops, id, s, n))
    && (b.listeners[id].fed ==> |b.listeners[id].pending| == Unread(ops, id, s, n))
  }

  lemma FollowedStep<E>(maxlen: nat, room: nat, ops: seq<BusOp<E>>, id: nat, s: nat, n: nat)
    requires s < n < |ops| && ops[n] != Unsubscribe(id) && Followed(maxlen, room, ops, id, s, n)
    ensures Followed(maxlen, room, ops, id, s, n + 1)
  {
    var b := BusRun(maxlen, room, ops[..n]).0;
    BusRunNext(maxlen, room, ops, n);
    ListenerStep(maxlen, room, b, id, ops[n]);
    OverflowsNext(room, ops, id, s, n);
  }

  lemma OverflowsNext<E>(room: nat, ops: seq<BusOp<E>>, id: nat, s: nat, n: nat)
    requires s < n < |ops|
    ensures Overflows(room, ops, id, s, n + 1) <==>
              Overflows(room, ops, id, s, n) || (ops[n].Publish? && Unread(ops, id, s, n) >= room)
  {
  }

  lemma FollowedStart<E>(maxlen: nat, room: nat, ops: seq<BusOp<E>>, id: nat, s: nat)
    requires s < |ops| && ops[s] == Subscribe(id) && id !in BusRun(maxlen, room, ops[..s]).0.listeners
    ensures Followed(maxlen, room, ops, id, s, s + 1)
  {
    BusRunNext(maxlen, room, ops, s);
  }

  lemma {:induction false} FollowedUpTo<E>(maxlen: nat, room: nat, ops: seq<BusOp<E>>, id: nat, s: nat, n: nat)
    requires s < n <= |ops| && Followed(maxlen, room, ops, id, s, s + 1)
    requires forall k :: s < k < n ==> ops[k] != Unsubscribe(id)
    ensures Followed(maxlen, room, ops, id, s, n)
    decreases n
  {
    if n > s + 1 {
      FollowedUpTo(maxlen, room, ops, id, s, n - 1);
      FollowedStep(maxlen, room, ops, id, s, n - 1);
    }
  }

  /** Over any run, a listener that does not unsubscribe is cut off exactly if at
      some publish an unbounded queue in its place would already have held as many
      unread events as its queue has room for. Until then it misses nothing that
      the unbounded queue would have. */
  lemma CutOffIff<E>(maxlen: nat, room: nat, ops: seq<BusOp<E>>, id: nat, s: nat)
    requires s < |ops| && ops[s] == Subscribe(id) && id !in BusRun(maxlen, room, ops[..s]).0.listeners
    requires forall k :: s < k < |ops| ==> ops[k] != Unsubscribe(id)
    ensures var b := BusRun(maxlen, room, ops).0;
            && id in b.listeners
            && (b.listeners[id].fed <==> !Overflows(room, ops, id, s, |ops|))
            && (b.listeners[id].fed ==> |b.listeners[id].pending| == Unread(ops, id, s, |ops|))
  {
    FollowedStart(maxlen, room, ops, id, s);
    FollowedUpTo(maxlen, room, ops, id, s, |ops|);
    assert ops[..|ops|] == ops;
  }

  /** The listener is not fed, and no more waits for it than this. */
  predicate Off<E>(b: Bus<E>, id: nat, n: nat) {
    id in b.listeners && !b.listeners[id].fed && |b.listeners[id].pending| <= n
  }

  lemma OffStays<E>(maxlen: nat, room: nat, b: Bus<E>, id: nat, n: nat, op: BusOp<E>)
    requires Off(b, id, n) || (op == Unsubscribe(id) && id in b.listeners && |b.listeners[id].pending| <= n)
    ensures Off(BusStep(maxlen, room, b, op), id, n)
  {
    ListenerStep(maxlen, room, b, id, op);
  }

  lemma OffNext<E>(maxlen: nat, room: nat, ops: seq<BusOp<E>>, id: nat, bound: nat, n: nat)
    requires n < |ops| && Off(BusRun(maxlen, room, ops[..n]).0, id, bound)
    ensures Off(BusRun(maxlen, room, ops[..n + 1]).0, id, bound)
  {
    BusRunNext(maxlen, room, ops, n);
    OffStays(maxlen, room, BusRun(maxlen, room, ops[..n]).0, id, bound, ops[n]);
  }

  lemma {:induction false} OffUpTo<E>(maxlen: nat, room: nat, ops: seq<BusOp<E>>, id: nat, bound: nat, k: nat, n: nat)
    requires k <= n <= |ops| && Off(BusRun(maxlen, room, ops[..k]).0, id, bound)
    ensures Off(BusRun(maxlen, room, ops[..n]).0, id, bound)
    decreases n
  {
    if n > k {
      OffUpTo(maxlen, room, ops, id, bound, k, n - 1);
      OffNext(maxlen, room, ops, id, bound, n - 1);
    }
  }

  /** After it has unsubscribed a listener is never fed again. */
  lemma UnsubscribedStaysOff<E>(maxlen: nat, room: nat, ops: seq<BusOp<E>>, id: nat, k: nat)
    requires k < |ops| && ops[k] == Unsubscribe(id) && id in BusRun(maxlen, room, ops[..k]).0.listeners
    ensures Off(BusRun(maxlen, room, ops).0, id, |BusRun(maxlen, room, ops[..k]).0.listeners[id].pending|)
  {
    var bound := |BusRun(maxlen, room, ops[..k]).0.listeners[id].pending|;
    BusRunNext(maxlen, room, ops, k);
    OffStays(maxlen, room, BusRun(maxlen, room, ops[..k]).0, id, bound, ops[k]);
    OffUpTo(maxlen, room, ops, id, bound, k + 1, |ops|);
    assert ops[..|ops|] == ops;
  }

  /** The queues once the listeners so far have been offered the event. */
  function PutInto<E>(room: nat, queues: map<nat, seq<E>>, offered: set<nat>, event: E): map<nat, seq<E>> {
    map id | id in queues :: if id in offered && |queues[id]| < room then queues[id] + [event] else queues[id]
  }

  function Full<E>(room: nat, queues: map<nat, seq<E>>, offered: set<nat>): set<nat> {
    set id | id in offered && id in queues && |queues[id]| >= room
  }

  lemma PutNext<E>(room: nat, queues: map<nat, seq<E>>, offered: set<nat>, id: nat, event: E)
    requires id in queues && id !in offered
    ensures var before, after := PutInto(room, queues, offered, event), PutInto(room, queues, offered + {id}, event);
            && id in before && before[id] == queues[id]
            && after == (if |queues[id]| < room then before[id := queues[id] + [event]] else before)
    ensures Full(room, queues, offered + {id}) ==
            Full(room, queues, offered) + (if |queues[id]| < room then {} else {id})
  {
  }

  /** stamp gives an event the time, if it has none. */
  class EventBus<E> {
    const stamp: (E, real) -> E
    const maxlen: nat
    const room: nat
    var history: seq<E>
    var queues: map<nat, seq<E>>
    var subscribers: set<nat>

    ghost predicate Valid()
      reads this
    {
      subscribers <= queues.Keys
    }

    ghost function View(): Bus<E>
      reads this
    {
      Bus(history, map id | id in queues :: Listener(queues[id], id in subscribers))
    }

    constructor (maxlen: nat, stamp: (E, real) -> E)
      ensures Valid() && View() == Bus([], map[]) && this.maxlen == maxlen && room == 200 && this.stamp == stamp
    {
      this.maxlen, this.stamp, room := maxlen, stamp, 200;
      history, queues, subscribers := [], map[], {};
    }

    /** Stamps the event, pushes it into every subscribed queue, then drops the
        subscribers found full. */
    method Publish(e: E, now: real)
      requires Valid()
      modifies this
      ensures Valid() && View() == BusStep(maxlen, room, old(View()), BusOp.Publish(stamp(e, now)))
    {
      var event := stamp(e, now);
      history := history + [event];
      if |history| > maxlen {
        history := history[|history| - maxlen..];
      }
      var dead := PutAll(event);
      subscribers := subscribers - dead;
    }

    /** Puts the event into every subscribed queue with room; dead are the others. */
    method PutAll(event: E) returns (dead: set<nat>)
      requires Valid()
      modifies this`queues
      ensures Valid() && dead == Full(room, old(queues), subscribers)
      ensures queues == PutInto(room, old(queues), subscribers, event)
    {
      dead := {};
      var todo := subscribers;
      assert PutInto(room, queues, subscribers - todo, event) == queues;
      while todo != {}
        invariant todo <= subscribers && subscribers <= old(queues).Keys
        invariant dead == Full(room, old(queues), subscribers - todo)
        invariant queues == PutInto(room, old(queues), subscribers - todo, event)
        decreases todo
      {
        var id :| id in todo;
        PutNext(room, old(queues), subscribers - todo, id, event);
        assert subscribers - (todo - {id}) == subscribers - todo + {id};
        todo := todo - {id};
        if |queues[id]| < room {
          queues := queues[id := queues[id] + [event]];
        } else {
          dead := dead + {id};
        }
      }
      assert subscribers - todo == subscribers;
    }

    method Subscribe(id: nat)
      requires Valid() && id !in queues
      modifies this
      ensures Valid() && View() == BusStep(maxlen, room, old(View()), BusOp.Subscribe(id))
    {
      queues := queues[id := []];
      subscribers := subscribers + {id};
    }

    method Unsubscribe(id: nat)
      requires Valid()
      modifies this
      ensures Valid() && View() == BusStep(maxlen, room, old(View()), BusOp.Unsubscribe(id))
    {
      subscribers := subscribers - {id};
    }

    /** A listener takes the next event from its queue, fed or not. */
    method Get(id: nat) returns (event: E)
      requires Valid() && id in queues && queues[id] != []
      modifies this
      ensures Valid() && View() == BusStep(maxlen, room, old(View()), BusOp.Read(id))
      ensures event == old(queues)[id][0]
    {
      event := queues[id][0];
      queues := queues[id := queues[id][1..]];
    }
  }

  // ----- Drop-oldest hub -----

  /** The frames waiting for each listener. */
  type Waiting<E> = map<nat, seq<E>>

  datatype HubTrace<E> = HubTrace(published: seq<E>, starts: map<nat, nat>)

  function Push<E>(room: nat, pending: seq<E>, frame: E): seq<E> {
    (if |pending| >= room && pending != [] then pending[1..] else pending) + [frame]
  }

  function HubStep<E>(room: nat, w: Waiting<E>, op: BusOp<E>): Waiting<E> {
    match op
    case Publish(f) => map id | id in w :: Push(room, w[id], f)
    case Subscribe(id) => if id in w then w else w[id := []]
    case Unsubscribe(id) => w - {id}
    case Read(id) => if id in w && w[id] != [] then w[id := w[id][1..]] else w
    case Clear => w
  }

  function HubRecord<E>(w: Waiting<E>, t: HubTrace<E>, op: BusOp<E>): HubTrace<E> {
    match op
    case Publish(f) => t.(published := t.published + [f])
    case Subscribe(id) => if id in w then t else t.(starts := t.starts[id := |t.published|])
    case Unsubscribe(id) => t.(starts := t.starts - {id})
    case _ => t
  }

  function HubRun<E>(room: nat, ops: seq<BusOp<E>>): (Waiting<E>, HubTrace<E>) {
    if ops == [] then (map[], HubTrace([], map[]))
    else
      var before := HubRun(room, ops[..|ops| - 1]);
      var op := ops[|ops| - 1];
      (HubStep(room, before.0, op), HubRecord(before.0, before.1, op))
  }

  /** What waits is the newest part of what was published since the subscription. */
  ghost predicate Newest<E>(room: nat, published: seq<E>, start: nat, pending: seq<E>) {
    && |pending| <= room
    && start + |pending| <= |published|
    && pending == published[|published| - |pending|..]
  }

  ghost predicate HubInv<E>(room: nat, w: Waiting<E>, t: HubTrace<E>) {
    && w.Keys == t.starts.Keys
    && forall id :: id in w ==> Newest(room, t.published, t.starts[id], w[id])
  }

  lemma PushKeeps<E>(room: nat, published: seq<E>, start: nat, pending: seq<E>, f: E)
    requires room > 0 && Newest(room, published, start, pending)
    ensures Newest(room, published + [f], start, Push(room, pending, f))
  {
    var kept := if |pending| >= room && pending != [] then pending[1..] else pending;
    assert kept == published[|published| - |kept|..];
    assert (published + [f])[|published| - |kept|..] == published[|published| - |kept|..] + [f];
  }

  lemma FrameKeeps<E>(room: nat, w: Waiting<E>, t: HubTrace<E>, f: E)
    requires room > 0 && HubInv(room, w, t)
    ensures HubInv(room, HubStep(room, w, Publish(f)), HubRecord(w, t, Publish(f)))
  {
    forall id | id in w ensures Newest(room, t.published + [f], t.starts[id], Push(room, w[id], f)) {
      PushKeeps(room, t.published, t.starts[id], w[id], f);
    }
  }

  lemma HubStepKeeps<E>(room: nat, w: Waiting<E>, t: HubTrace<E>, op: BusOp<E>)
    requires room > 0 && HubInv(room, w, t)
    ensures HubInv(room, HubStep(room, w, op), HubRecord(w, t, op))
  {
    match op
    case Publish(f) => FrameKeeps(room, w, t, f);
    case _ =>
  }

  /** Over any run, for any number of listeners: at most `room` frames wait, and
      they are the newest ones published since the listener subscribed. */
  lemma {:induction false} EveryListenerHasNewest<E>(room: nat, ops: seq<BusOp<E>>)
    requires room > 0
    ensures HubInv(room, HubRun(room, ops).0, HubRun(room, ops).1)
  {
    if ops != [] {
      var before := HubRun(room, ops[..|ops| - 1]);
      EveryListenerHasNewest(room, ops[..|ops| - 1]);
      HubStepKeeps(room, before.0, before.1, ops[|ops| - 1]);
    }
  }

  // ----- Frames stay while there is room -----

  /** What a queue of this room that was empty at step s holds before step n: one
      more for every publish while there is room, one less for every read that finds
      something. */
  function Waits<E>(room: nat, ops: seq<BusOp<E>>, id: nat, s: nat, n: nat): nat
    requires n <= |ops|
  {
    if n <= s + 1 then 0
    else
      var before := Waits(room, ops, id, s, n - 1);
      match ops[n - 1]
      case Publish(_) => if before < room then before + 1 else before
      case Read(i) => if i == id && before > 0 then before - 1 else before
      case _ => before
  }

  lemma HubRunNext<E>(room: nat, ops: seq<BusOp<E>>, n: nat)
    requires n < |ops|
    ensures HubRun(room, ops[..n + 1]).0 == HubStep(room, HubRun(room, ops[..n]).0, ops[n])
  {
    assert ops[..n + 1][..n] == ops[..n];
  }

  /** The length of one listener's queue after a step. */
  lemma QueueLength<E>(room: nat, w: Waiting<E>, id: nat, op: BusOp<E>)
    requires room > 0 && id in w && |w[id]| <= room && op != Unsubscribe(id)
    ensures var w' := HubStep(room, w, op);
            && id in w' && |w'[id]| <= room
            && |w'[id]| == match op
                 case Publish(_) => if |w[id]| < room then |w[id]| + 1 else |w[id]|
                 case Read(i) => if i == id && |w[id]| > 0 then |w[id]| - 1 else |w[id]|
                 case _ => |w[id]|
  {
  }

  lemma {:induction false} WaitsUpTo<E>(room: nat, ops: seq<BusOp<E>>, id: nat, s: nat, n: nat)
    requires room > 0 && s < n <= |ops| && ops[s] == Subscribe(id) && id !in HubRun(room, ops[..s]).0
    requires forall k :: s < k < n ==> ops[k] != Unsubscribe(id)
    ensures var w := HubRun(room, ops[..n]).0;
            id in w && |w[id]| == Waits(room, ops, id, s, n) && |w[id]| <= room
    decreases n
  {
    HubRunNext(room, ops, n - 1);
    if n > s + 1 {
      WaitsUpTo(room, ops, id, s, n - 1);
      QueueLength(room, HubRun(room, ops[..n - 1]).0, id, ops[n - 1]);
    }
  }

  /** Over any run, for a listener that does not unsubscribe: as many frames wait as
      a counter says that only looks at publishes, reads and the room. With
      EveryListenerHasNewest this fixes what waits: a frame is dropped only when the
      queue is full. */
  lemma WaitingCount<E>(room: nat, ops: seq<BusOp<E>>, id: nat, s: nat)
    requires room > 0 && s < |ops| && ops[s] == Subscribe(id) && id !in HubRun(room, ops[..s]).0
    requires forall k :: s < k < |ops| ==> ops[k] != Unsubscribe(id)
    ensures id in HubRun(room, ops).0 && |HubRun(room, ops).0[id]| == Waits(room, ops, id, s, |ops|)
  {
    WaitsUpTo(room, ops, id, s, |ops|);
    assert ops[..|ops|] == ops;
  }

  /** After it has unsubscribed nothing waits for a listener until it subscribes anew. */
  lemma {:induction false} NothingWaitsUnsubscribed<E>(room: nat, ops: seq<BusOp<E>>, id: nat, k: nat, n: nat)
    requires k < n <= |ops| && ops[k] == Unsubscribe(id)
    requires forall i :: k < i < n ==> ops[i] != Subscribe(id)
    ensures id !in HubRun(room, ops[..n]).0
    decreases n
  {
    HubRunNext(room, ops, n - 1);
    if n > k + 1 {
      NothingWaitsUnsubscribed(room, ops, id, k, n - 1);
    }
  }

  // ----- Audio frames -----

  /** A parsed audio message; the flags are the truth values of its fields. */
  datatype Message = Message(
    schemaMatches: bool, hasPcm: bool, hasEncrypted: bool,
    encrypted: bool, pcm: string, end: bool, silence: bool, sampleRate: int)

  datatype Frame = Frame(encrypted: bool, silence: bool, end: bool, sampleRate: nat, pcm: string)

  function ParseFrame(m: Message): Option<Frame> {
    if !m.schemaMatches && !m.hasPcm && !m.hasEncrypted then None
    else
      var pcm := if m.encrypted then "" else m.pcm;
      if pcm == "" && !m.encrypted && !m.end && !m.silence then None
      else
        var rate := if m.sampleRate == 0 then 8000 else m.sampleRate;
        Some(Frame(m.encrypted, m.silence || m.encrypted || pcm == "", m.end,
                   if 4000 <= rate <= 48000 then rate else 8000, pcm))
  }

  /** Which messages are accepted, and that a clear one keeps its sound and its
      marks, an encrypted one its marks only. */
  lemma AcceptedIff(m: Message)
    ensures ParseFrame(m).Some? <==>
              && (m.schemaMatches || m.hasPcm || m.hasEncrypted)
              && (m.encrypted || m.pcm != "" || m.end || m.silence)
    ensures ParseFrame(m).Some? ==>
              var f := ParseFrame(m).value;
              && f.encrypted == m.encrypted && f.end == m.end
              && f.pcm == (if m.encrypted then "" else m.pcm)
              && (!f.silence <==> !m.silence && !m.encrypted && m.pcm != "")
              && (4000 <= m.sampleRate <= 48000 ==> f.sampleRate == m.sampleRate)
              && (!(4000 <= m.sampleRate <= 48000) ==> f.sampleRate == 8000)
  {
  }

  /** An encrypted frame is silent and carries no PCM. */
  predicate Guarded(f: Frame) { f.encrypted ==> f.pcm == "" && f.silence }

  predicate AllParsed(ops: seq<BusOp<Frame>>, sources: seq<Message>) {
    |sources| == |ops| &&
    forall i :: 0 <= i < |ops| && ops[i].Publish? ==> ParseFrame(sources[i]) == Some(ops[i].event)
  }

  /** Every frame a hub was given over a run in which it was given parsed frames. */
  lemma {:induction false} PublishedGuarded(room: nat, ops: seq<BusOp<Frame>>, sources: seq<Message>)
    requires AllParsed(ops, sources)
    ensures forall f :: f in HubRun(room, ops).1.published ==> Guarded(f)
    decreases ops
  {
    if ops != [] {
      var n := |ops| - 1;
      assert AllParsed(ops[..n], sources[..n]);
      PublishedGuarded(room, ops[..n], sources[..n]);
    }
  }

  /** No encrypted frame that waits for any listener carries PCM, over any run
      that publishes what the parser accepted. */
  lemma NoPendingEncryptedPcm(room: nat, ops: seq<BusOp<Frame>>, sources: seq<Message>, id: nat)
    requires room > 0 && AllParsed(ops, sources) && id in HubRun(room, ops).0
    ensures forall f :: f in HubRun(room, ops).0[id] ==> Guarded(f)
  {
    EveryListenerHasNewest(room, ops);
    PublishedGuarded(room, ops, sources);
    var (w, t) := HubRun(room, ops);
    forall f | f in w[id] ensures Guarded(f) {
      assert Newest(room, t.published, t.starts[id], w[id]);
      assert f in t.published;
    }
  }

  /** A frame without its sound. */
  datatype Meta = Meta(encrypted: bool, silence: bool, end: bool, sampleRate: nat)

  /** The audio hub: 24 frames per listener, the latest frame's attributes and time,
      and counters. */
  class AudioHub {
    const room: nat
    var subscribers: map<nat, seq<Frame>>
    var latestMeta: Option<Meta>
    var lastFrameAt: Option<real>
    var framesReceived: nat
    var pcmFrames: nat
    var encryptedFrames: nat

    constructor ()
      ensures subscribers == map[] && room == 24 && framesReceived == pcmFrames == encryptedFrames == 0
      ensures latestMeta == None && lastFrameAt == None
    {
      room := 24;
      latestMeta, lastFrameAt := None, None;
      subscribers, framesReceived, pcmFrames, encryptedFrames := map[], 0, 0, 0;
    }

    method Publish(frame: Frame, now: real)
      modifies this
      ensures latestMeta == Some(Meta(frame.encrypted, frame.silence, frame.end, frame.sampleRate))
      ensures lastFrameAt == Some(now)
      ensures subscribers == HubStep(room, old(subscribers), BusOp.Publish(frame))
      ensures framesReceived == old(framesReceived) + 1
      ensures encryptedFrames == old(encryptedFrames) + (if frame.encrypted then 1 else 0)
      ensures pcmFrames == old(pcmFrames) + (if !frame.encrypted && frame.pcm != "" then 1 else 0)
    {
      latestMeta := Some(Meta(frame.encrypted, frame.silence, frame.end, frame.sampleRate));
      lastFrameAt := Some(now);
      framesReceived := framesReceived + 1;
      if frame.encrypted {
        encryptedFrames := encryptedFrames + 1;
      } else if frame.pcm != "" {
        pcmFrames := pcmFrames + 1;
      }
      PushAll(frame);
    }

    /** Every listener's queue takes the frame, the oldest one making room. */
    method PushAll(frame: Frame)
      modifies this`subscribers
      ensures subscribers == PushedBut(room, old(subscribers), {}, frame)
    {
      var todo := subscribers.Keys;
      assert PushedBut(room, subscribers, todo, frame) == subscribers;
      while todo != {}
        invariant todo <= old(subscribers).Keys
        invariant subscribers == PushedBut(room, old(subscribers), todo, frame)
        decreases todo
      {
        var id :| id in todo;
        PushNext(room, old(subscribers), todo, id, frame);
        todo := todo - {id};
        var q := subscribers[id];
        if |q| >= room {
          if q != [] {
            q := q[1..];
          }
        }
        subscribers := subscribers[id := q + [frame]];
      }
    }
  }

  /** The queues when all listeners but some have taken the frame. */
  function PushedBut<E>(room: nat, w: Waiting<E>, todo: set<nat>, frame: E): Waiting<E> {
    map id | id in w :: if id in todo then w[id] else Push(room, w[id], frame)
  }

  lemma PushNext<E>(room: nat, w: Waiting<E>, todo: set<nat>, id: nat, frame: E)
    requires id in todo && todo <= w.Keys
    ensures id in PushedBut(room, w, todo, frame) && PushedBut(room, w, todo, frame)[id] == w[id]
    ensures PushedBut(room, w, todo - {id}, frame) == PushedBut(room, w, todo, frame)[id := Push(room, w[id], frame)]
  {
  }
}
