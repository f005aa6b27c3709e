/** One TAK server connection: a drop-oldest queue drained by a pump that
    reconnects. An item leaves the queue before it is written, so a failed write
    loses it without counting it; the in-flight item is kept apart across the
    write. Histories record what became of every queued item. */
module TakManager {
  import opened Basics

  datatype QueuedCot = QueuedCot(xml: string, uid: string, enqueuedAt: real)

  datatype Config = Config(queueMax: nat, staleDrop: real, reconnectMin: real, reconnectMax: real)

  /** Configurations the manager is built with: room for one item at least. */
  predicate ValidConfig(c: Config) { c.queueMax > 0 && c.reconnectMin >= 0.0 }

  datatype Connection = Disconnected | Connecting | Connected | TlsError

  /** Where the reconnect task stands: not running, at its loop head (or asleep
      before it), or inside one connection attempt. */
  datatype Task = Idle | LoopHead | Attempting

  datatype State = State(
    queue: seq<QueuedCot>, sending: Option<QueuedCot>,
    connection: Connection, task: Task, stop: bool, delay: real,
    generated: nat, sent: nat, dropped: nat, attempts: nat)

  function Initial(c: Config): State {
    State([], None, Disconnected, Idle, false, c.reconnectMin, 0, 0, 0, 0)
  }

  datatype Op =
    | Enqueue(xml: string, uid: string, now: real)
    | Start          // clear the stop flag; create the task if none is alive
    | RequestStop    // first half of stop()
    | MarkStopped    // second half of stop()
    | LoopTurn       // head of the reconnect loop
    | ConnectOk
    | PresenceOk     // a presence or disconnect message written outside the queue
    | Pop(now: real) // first half of a drain: up to the write
    | WriteOk        // second half of a drain
    | Fail           // an exception leaves the attempt
    | PumpReturn     // the pump saw the stop flag
    | Cancel         // the task is cancelled, inside an attempt or asleep

  predicate Enabled(s: State, op: Op) {
    match op
    case LoopTurn => s.task == LoopHead
    case ConnectOk => s.task == Attempting
    case PresenceOk => s.task == Attempting
    case Pop(_) => s.task == Attempting && s.sending == None
    case WriteOk => s.task == Attempting && s.sending.Some?
    case Fail => s.task == Attempting
    case PumpReturn => s.task == Attempting && s.sending == None
    case Cancel => s.task != Idle
    case _ => true
  }

  function MinReal(a: real, b: real): real { if a <= b then a else b }

  function Step(c: Config, s: State, op: Op): State
    requires ValidConfig(c)
  {
    if !Enabled(s, op) then s
    else match op
      case Enqueue(xml, uid, now) =>
        var item := QueuedCot(xml, uid, now);
        if |s.queue| >= c.queueMax
        then s.(queue := s.queue[1..] + [item], generated := s.generated + 1, dropped := s.dropped + 1)
        else s.(queue := s.queue + [item], generated := s.generated + 1)
      case Start =>
        if s.task == Idle then s.(stop := false, task := LoopHead, delay := c.reconnectMin) else s.(stop := false)
      case RequestStop => s.(stop := true)
      case MarkStopped => s.(connection := Disconnected)
      case LoopTurn =>
        if s.stop then s.(task := Idle)
        else s.(task := Attempting, connection := Connecting, attempts := s.attempts + 1)
      case ConnectOk => s.(connection := Connected)
      case PresenceOk => s.(generated := s.generated + 1, sent := s.sent + 1)
      case Pop(now) =>
        if s.queue == [] then s
        else if now - s.queue[0].enqueuedAt > c.staleDrop
        then s.(queue := s.queue[1..], dropped := s.dropped + 1)
        else s.(queue := s.queue[1..], sending := Some(s.queue[0]))
      case WriteOk => s.(sending := None, sent := s.sent + 1)
      case Fail =>
        s.(sending := None, task := LoopHead, connection := TlsError,
           delay := MinReal(s.delay * 2.0, c.reconnectMax))
      case PumpReturn => s.(task := LoopHead, delay := c.reconnectMin)
      case Cancel => s.(sending := None, task := Idle)
  }

  // ----- History -----

  /** What became of an item that left the queue. */
  datatype Fate = Evicted | Expired(at: real) | InFlight(at: real) | Written(at: real) | Lost(at: real)

  /** enqueued: every item, in order. fates: of the items that left the queue.
      flight: the index of the item being written. failures: since the delay was
      last reset. ended: connection attempts that are over. */
  datatype Trace = Trace(
    enqueued: seq<QueuedCot>, fates: seq<Fate>, flight: nat,
    written: seq<QueuedCot>, presence: nat, failures: nat, ended: nat)

  const NO_TRACE := Trace([], [], 0, [], 0, 0, 0)

  /** The in-flight item lands: written, or lost. */
  function Landed(t: Trace, written: bool): seq<Fate> {
    if t.flight < |t.fates| && t.fates[t.flight].InFlight? then
      var at := t.fates[t.flight].at;
      t.fates[t.flight := if written then Written(at) else Lost(at)]
    else t.fates
  }

  function Record(c: Config, s: State, t: Trace, op: Op): Trace {
    if !Enabled(s, op) then t
    else match op
      case Enqueue(xml, uid, now) =>
        t.(enqueued := t.enqueued + [QueuedCot(xml, uid, now)],
           fates := if |s.queue| >= c.queueMax then t.fates + [Evicted] else t.fates)
      case Start => if s.task == Idle then t.(failures := 0) else t
      case PresenceOk => t.(presence := t.presence + 1)
      case Pop(now) =>
        if s.queue == [] then t
        else if now - s.queue[0].enqueuedAt > c.staleDrop then t.(fates := t.fates + [Expired(now)])
        else t.(flight := |t.fates|, fates := t.fates + [InFlight(now)])
      case WriteOk => t.(fates := Landed(t, true), written := t.written + [s.sending.value])
      case Fail => t.(fates := if s.sending.Some? then Landed(t, false) else t.fates, failures := t.failures + 1,
           ended := t.ended + 1)
      case PumpReturn => t.(failures := 0, ended := t.ended + 1)
      case Cancel =>
        t.(fates := if s.sending.Some? then Landed(t, false) else t.fates,
           ended := if s.task == Attempting then t.ended + 1 else t.ended)
      case _ => t
  }

  function Run(c: Config, ops: seq<Op>): (State, Trace)
    requires ValidConfig(c)
  {
    if ops == [] then (Initial(c), NO_TRACE)
    else
      var before := Run(c, ops[..|ops| - 1]);
      var op := ops[|ops| - 1];
      (Step(c, before.0, op), Record(c, before.0, before.1, op))
  }

  // ----- Counting fates -----

  datatype Kind = Dropped | Delivered | Gone | Flying

  function KindOf(f: Fate): Kind {
    match f
    case Evicted => Dropped
    case Expired(_) => Dropped
    case InFlight(_) => Flying
    case Written(_) => Delivered
    case Lost(_) => Gone
  }

  function Count(fates: seq<Fate>, k: Kind): nat {
    if fates == [] then 0
    else Count(fates[..|fates| - 1], k) + (if KindOf(fates[|fates| - 1]) == k then 1 else 0)
  }

  lemma CountSnoc(fates: seq<Fate>, f: Fate, k: Kind)
    ensures Count(fates + [f], k) == Count(fates, k) + (if KindOf(f) == k then 1 else 0)
  {
    assert (fates + [f])[..|fates|] == fates;
  }

  lemma {:induction false} CountUpdate(fates: seq<Fate>, j: nat, f: Fate, k: Kind)
    requires j < |fates|
    ensures Count(fates[j := f], k) + (if KindOf(fates[j]) == k then 1 else 0)
         == Count(fates, k) + (if KindOf(f) == k then 1 else 0)
    decreases fates
  {
    var n := |fates| - 1;
    if j < n {
      assert fates[j := f][..n] == fates[..n][j := f];
      CountUpdate(fates[..n], j, f, k);
    } else {
      assert fates[j := f][..n] == fates[..n];
    }
  }

  lemma {:induction false} CountsAddUp(fates: seq<Fate>)
    ensures Count(fates, Dropped) + Count(fates, Delivered) + Count(fates, Gone) + Count(fates, Flying) == |fates|
  {
    if fates != [] {
      CountsAddUp(fates[..|fates| - 1]);
    }
  }

  /** The delivered items, in queue order. */
  function Deliveries(items: seq<QueuedCot>, fates: seq<Fate>): seq<QueuedCot>
    requires |fates| <= |items|
  {
    if fates == [] then []
    else
      var n := |fates| - 1;
      Deliveries(items, fates[..n]) + (if fates[n].Written? then [items[n]] else [])
  }

  lemma {:induction false} DeliveriesFrame(items: seq<QueuedCot>, more: seq<QueuedCot>, fates: seq<Fate>)
    requires |fates| <= |items|
    ensures Deliveries(items + more, fates) == Deliveries(items, fates)
    decreases fates
  {
    if fates != [] {
      DeliveriesFrame(items, more, fates[..|fates| - 1]);
    }
  }

  lemma DeliveriesSnoc(items: seq<QueuedCot>, fates: seq<Fate>, f: Fate)
    requires |fates| < |items| && !f.Written?
    ensures Deliveries(items, fates + [f]) == Deliveries(items, fates)
  {
    assert (fates + [f])[..|fates|] == fates;
  }

  /** When item j lands, with only evictions behind it, it joins at the end. */
  lemma {:induction false} DeliveriesLand(items: seq<QueuedCot>, fates: seq<Fate>, j: nat, f: Fate)
    requires j < |fates| <= |items| && !fates[j].Written?
    requires forall i :: j < i < |fates| ==> !fates[i].Written?
    ensures Deliveries(items, fates[j := f])
         == Deliveries(items, fates) + (if f.Written? then [items[j]] else [])
    decreases fates
  {
    var n := |fates| - 1;
    if j < n {
      assert fates[j := f][..n] == fates[..n][j := f];
      DeliveriesLand(items, fates[..n], j, f);
    } else {
      assert fates[j := f][..n] == fates[..n];
    }
  }

  // ----- Reconnect delay -----

  /** The delay after k failures in a row. */
  function Backoff(c: Config, k: nat): real {
    if k == 0 then c.reconnectMin else MinReal(Backoff(c, k - 1) * 2.0, c.reconnectMax)
  }

  lemma {:induction false} BackoffGrows(c: Config, k: nat)
    requires 0.0 <= c.reconnectMin <= c.reconnectMax
    ensures c.reconnectMin <= Backoff(c, k) <= Backoff(c, k + 1) <= c.reconnectMax
  {
    if k > 0 {
      BackoffGrows(c, k - 1);
    }
  }

  /** Between resets the delay never shrinks, exactly when the configured bounds
      are in order. */
  lemma DelayNeverShrinksIff(c: Config)
    requires ValidConfig(c)
    ensures (forall k: nat :: Backoff(c, k) <= Backoff(c, k + 1)) <==> c.reconnectMin <= c.reconnectMax
  {
    if c.reconnectMin <= c.reconnectMax {
      forall k: nat ensures Backoff(c, k) <= Backoff(c, k + 1) {
        BackoffGrows(c, k);
      }
    } else {
      assert Backoff(c, 0 + 1) < Backoff(c, 0);
    }
  }

  // ----- The invariant -----

  ghost predicate QueueIsSuffix(c: Config, s: State, t: Trace) {
    && |s.queue| <= c.queueMax
    && |t.fates| <= |t.enqueued|
    && s.queue == t.enqueued[|t.fates|..]
  }

  ghost predicate FlightTracked(s: State, t: Trace) {
    && (s.sending == None ==> Count(t.fates, Flying) == 0)
    && (s.sending.Some? ==>
         && Count(t.fates, Flying) == 1
         && s.task == Attempting
         && t.flight < |t.fates| <= |t.enqueued|
         && t.fates[t.flight].InFlight?
         && s.sending.value == t.enqueued[t.flight]
         && forall i :: t.flight < i < |t.fates| ==> t.fates[i].Evicted?)
  }

  ghost predicate CountersMatch(s: State, t: Trace) {
    && s.generated == |t.enqueued| + t.presence
    && s.sent == Count(t.fates, Delivered) + t.presence
    && s.dropped == Count(t.fates, Dropped)
    && Count(t.fates, Gone) <= t.ended
    && s.attempts == t.ended + (if s.task == Attempting then 1 else 0)
  }

  ghost predicate AgesChecked(c: Config, t: Trace) {
    && |t.fates| <= |t.enqueued|
    && forall i {:trigger t.fates[i]} :: 0 <= i < |t.fates| ==>
         && (t.fates[i].Expired? ==> t.fates[i].at - t.enqueued[i].enqueuedAt > c.staleDrop)
         && (t.fates[i].InFlight? || t.fates[i].Written? || t.fates[i].Lost? ==>
              t.fates[i].at - t.enqueued[i].enqueuedAt <= c.staleDrop)
  }

  ghost predicate Inv(c: Config, s: State, t: Trace) {
    && QueueIsSuffix(c, s, t)
    && FlightTracked(s, t)
    && CountersMatch(s, t)
    && AgesChecked(c, t)
    && t.written == Deliveries(t.enqueued, t.fates)
    && s.delay == Backoff(c, t.failures)
  }

  /** One more fate: how the counts grow. */
  lemma CountsSnoc(fates: seq<Fate>, f: Fate)
    ensures Count(fates + [f], Dropped) == Count(fates, Dropped) + (if KindOf(f) == Dropped then 1 else 0)
    ensures Count(fates + [f], Delivered) == Count(fates, Delivered) + (if KindOf(f) == Delivered then 1 else 0)
    ensures Count(fates + [f], Gone) == Count(fates, Gone) + (if KindOf(f) == Gone then 1 else 0)
    ensures Count(fates + [f], Flying) == Count(fates, Flying) + (if KindOf(f) == Flying then 1 else 0)
  {
    CountSnoc(fates, f, Dropped);
    CountSnoc(fates, f, Delivered);
    CountSnoc(fates, f, Gone);
    CountSnoc(fates, f, Flying);
  }

  lemma AgesSnoc(c: Config, t: Trace, f: Fate)
    requires AgesChecked(c, t) && |t.fates| < |t.enqueued|
    requires var age := t.enqueued[|t.fates|].enqueuedAt;
             f.Evicted? || (f.Expired? && f.at - age > c.staleDrop) || (f.InFlight? && f.at - age <= c.staleDrop)
    ensures AgesChecked(c, t.(fates := t.fates + [f]))
  {
  }

  lemma AgesFrame(c: Config, t: Trace, item: QueuedCot)
    requires AgesChecked(c, t)
    ensures AgesChecked(c, t.(enqueued := t.enqueued + [item]))
  {
  }

  lemma FlightEnds(c: Config, s: State, t: Trace, written: bool)
    requires Inv(c, s, t) && s.sending.Some?
    ensures var fates := Landed(t, written);
            && |fates| == |t.fates|
            && AgesChecked(c, t.(fates := fates))
            && Deliveries(t.enqueued, fates) == t.written + (if written then [s.sending.value] else [])
            && Count(fates, Flying) == 0
            && Count(fates, Dropped) == Count(t.fates, Dropped)
            && Count(fates, Delivered) == Count(t.fates, Delivered) + (if written then 1 else 0)
            && Count(fates, Gone) == Count(t.fates, Gone) + (if written then 0 else 1)
  {
    var at := t.fates[t.flight].at;
    var f := if written then Written(at) else Lost(at);
    CountUpdate(t.fates, t.flight, f, Flying);
    CountUpdate(t.fates, t.flight, f, Dropped);
    CountUpdate(t.fates, t.flight, f, Delivered);
    CountUpdate(t.fates, t.flight, f, Gone);
    DeliveriesLand(t.enqueued, t.fates, t.flight, f);
  }

  lemma EvictionKeeps(c: Config, s: State, t: Trace, item: QueuedCot)
    requires ValidConfig(c) && Inv(c, s, t) && |s.queue| >= c.queueMax
    ensures var op := Enqueue(item.xml, item.uid, item.enqueuedAt);
            Inv(c, Step(c, s, op), Record(c, s, t, op))
  {
    var all := t.enqueued + [item];
    assert all[|t.fates| + 1..] == s.queue[1..] + [item];
    DeliveriesFrame(t.enqueued, [item], t.fates);
    DeliveriesSnoc(all, t.fates, Evicted);
    CountsSnoc(t.fates, Evicted);
    AgesFrame(c, t, item);
    AgesSnoc(c, t.(enqueued := all), Evicted);
  }

  lemma EnqueueKeeps(c: Config, s: State, t: Trace, item: QueuedCot)
    requires ValidConfig(c) && Inv(c, s, t) && |s.queue| < c.queueMax
    ensures var op := Enqueue(item.xml, item.uid, item.enqueuedAt);
            Inv(c, Step(c, s, op), Record(c, s, t, op))
  {
    assert (t.enqueued + [item])[|t.fates|..] == s.queue + [item];
    DeliveriesFrame(t.enqueued, [item], t.fates);
    AgesFrame(c, t, item);
  }

  /** The oldest item leaves the queue with this fate, which is not a delivery. */
  lemma Leaves(c: Config, s: State, t: Trace, f: Fate)
    requires QueueIsSuffix(c, s, t) && s.queue != [] && t.written == Deliveries(t.enqueued, t.fates) && !f.Written?
    ensures s.queue[0] == t.enqueued[|t.fates|] && s.queue[1..] == t.enqueued[|t.fates| + 1..]
    ensures t.written == Deliveries(t.enqueued, t.fates + [f])
  {
    DeliveriesSnoc(t.enqueued, t.fates, f);
  }

  lemma ExpiryKeeps(c: Config, s: State, t: Trace, now: real)
    requires ValidConfig(c) && Inv(c, s, t) && Enabled(s, Pop(now)) && s.queue != []
    requires now - s.queue[0].enqueuedAt > c.staleDrop
    ensures Inv(c, Step(c, s, Pop(now)), Record(c, s, t, Pop(now)))
  {
    Leaves(c, s, t, Expired(now));
    CountsSnoc(t.fates, Expired(now));
    AgesSnoc(c, t, Expired(now));
  }

  lemma FlightStarts(s: State, t: Trace, now: real)
    requires FlightTracked(s, t) && s.sending == None && s.task == Attempting && s.queue != []
    requires |t.fates| < |t.enqueued| && s.queue[0] == t.enqueued[|t.fates|]
    ensures FlightTracked(s.(queue := s.queue[1..], sending := Some(s.queue[0])),
                          t.(flight := |t.fates|, fates := t.fates + [InFlight(now)]))
  {
    CountSnoc(t.fates, InFlight(now), Flying);
  }

  lemma TakeOffInv(c: Config, s: State, t: Trace, now: real)
    requires Inv(c, s, t) && s.queue != [] && s.sending == None && s.task == Attempting
    requires now - s.queue[0].enqueuedAt <= c.staleDrop
    ensures Inv(c, s.(queue := s.queue[1..], sending := Some(s.queue[0])),
                t.(flight := |t.fates|, fates := t.fates + [InFlight(now)]))
  {
    Leaves(c, s, t, InFlight(now));
    FlightStarts(s, t, now);
    CountsSnoc(t.fates, InFlight(now));
    AgesSnoc(c, t, InFlight(now));
  }

  lemma TakeOffKeeps(c: Config, s: State, t: Trace, now: real)
    requires ValidConfig(c) && Inv(c, s, t) && Enabled(s, Pop(now)) && s.queue != []
    requires now - s.queue[0].enqueuedAt <= c.staleDrop
    ensures Inv(c, Step(c, s, Pop(now)), Record(c, s, t, Pop(now)))
  {
    TakeOffInv(c, s, t, now);
  }

  lemma PopKeeps(c: Config, s: State, t: Trace, now: real)
    requires ValidConfig(c) && Inv(c, s, t) && Enabled(s, Pop(now))
    ensures Inv(c, Step(c, s, Pop(now)), Record(c, s, t, Pop(now)))
  {
    if s.queue != [] {
      if now - s.queue[0].enqueuedAt > c.staleDrop {
        ExpiryKeeps(c, s, t, now);
      } else {
        TakeOffKeeps(c, s, t, now);
      }
    }
  }

  lemma LandingKeeps(c: Config, s: State, t: Trace, op: Op)
    requires ValidConfig(c) && Inv(c, s, t) && Enabled(s, op) && (op.WriteOk? || op.Fail? || op.Cancel?)
    ensures Inv(c, Step(c, s, op), Record(c, s, t, op))
  {
    if s.sending.Some? {
      FlightEnds(c, s, t, op.WriteOk?);
    }
    assert t.written + [] == t.written;
  }

  lemma StepKeeps(c: Config, s: State, t: Trace, op: Op)
    requires ValidConfig(c) && Inv(c, s, t)
    ensures Inv(c, Step(c, s, op), Record(c, s, t, op))
  {
    if !Enabled(s, op) {
    } else if op.Enqueue? {
      var item := QueuedCot(op.xml, op.uid, op.now);
      if |s.queue| >= c.queueMax {
        EvictionKeeps(c, s, t, item);
      } else {
        EnqueueKeeps(c, s, t, item);
      }
    } else if op.Pop? {
      PopKeeps(c, s, t, op.now);
    } else if op.WriteOk? || op.Fail? || op.Cancel? {
      LandingKeeps(c, s, t, op);
    } else {
      OtherKeeps(c, s, t, op);
    }
  }

  lemma OtherKeeps(c: Config, s: State, t: Trace, op: Op)
    requires ValidConfig(c) && Inv(c, s, t) && Enabled(s, op)
    requires op.Start? || op.RequestStop? || op.MarkStopped? || op.LoopTurn? || op.ConnectOk?
          || op.PresenceOk? || op.PumpReturn?
    ensures Inv(c, Step(c, s, op), Record(c, s, t, op))
  {
  }

  lemma {:induction false} RunKeeps(c: Config, ops: seq<Op>)
    requires ValidConfig(c)
    ensures Inv(c, Run(c, ops).0, Run(c, ops).1)
  {
    if ops != [] {
      var before := Run(c, ops[..|ops| - 1]);
      RunKeeps(c, ops[..|ops| - 1]);
      StepKeeps(c, before.0, before.1, ops[|ops| - 1]);
    }
  }

  // ----- What holds in every reachable state -----

  /** The queue is the newest part of everything enqueued, within its bound;
      what was written is what was enqueued, in order, minus what was evicted,
      expired or lost; nothing written was too old when it was popped. */
  lemma QueueAndWritesInOrder(c: Config, ops: seq<Op>)
    requires ValidConfig(c)
    ensures var (s, t) := Run(c, ops);
            && |s.queue| <= c.queueMax
            && |t.fates| <= |t.enqueued| && s.queue == t.enqueued[|t.fates|..]
            && t.written == Deliveries(t.enqueued, t.fates)
            && forall i :: 0 <= i < |t.fates| && t.fates[i].Written? ==>
                 t.fates[i].at - t.enqueued[i].enqueuedAt <= c.staleDrop
  {
    RunKeeps(c, ops);
  }

  ghost predicate EvictedLate(c: Config, t: Trace) {
    && |t.fates| <= |t.enqueued|
    && forall i :: 0 <= i < |t.fates| && t.fates[i].Evicted? ==> i + c.queueMax < |t.enqueued|
  }

  lemma EvictedLateKeeps(c: Config, s: State, t: Trace, op: Op)
    requires ValidConfig(c) && Inv(c, s, t) && EvictedLate(c, t)
    ensures EvictedLate(c, Record(c, s, t, op))
  {
    StepKeeps(c, s, t, op);
  }

  /** Over any run an item is evicted only once as many newer items as the queue
      has room for have been enqueued after it. */
  lemma {:induction false} EvictionNeedsFullQueue(c: Config, ops: seq<Op>)
    requires ValidConfig(c)
    ensures EvictedLate(c, Run(c, ops).1)
  {
    if ops != [] {
      var before := Run(c, ops[..|ops| - 1]);
      RunKeeps(c, ops[..|ops| - 1]);
      EvictionNeedsFullQueue(c, ops[..|ops| - 1]);
      EvictedLateKeeps(c, before.0, before.1, ops[|ops| - 1]);
    }
  }

  /** What the counters leave unexplained is exactly what failed writes lost plus
      the item being written, and every attempt, counted once, loses at most one. */
  lemma UncountedAtMostAttempts(c: Config, ops: seq<Op>)
    requires ValidConfig(c)
    ensures var (s, t) := Run(c, ops);
            var uncounted := s.generated - s.sent - s.dropped - |s.queue|;
            && uncounted == Count(t.fates, Gone) + (if s.sending.Some? then 1 else 0)
            && 0 <= uncounted <= s.attempts
            && s.attempts == t.ended + (if s.task == Attempting then 1 else 0)
  {
    RunKeeps(c, ops);
    CountsAddUp(Run(c, ops).1.fates);
  }

  /** The delay depends only on the failures since it was last reset, and resets
      happen only when a task starts or the pump returns for a stop. */
  lemma DelayFollowsFailures(c: Config, ops: seq<Op>, op: Op)
    requires ValidConfig(c) && c.reconnectMin <= c.reconnectMax
    ensures var s := Run(c, ops).0;
            && s.delay == Backoff(c, Run(c, ops).1.failures)
            && (op.PumpReturn? || (op.Start? && s.task == Idle) || s.delay <= Step(c, s, op).delay)
  {
    RunKeeps(c, ops);
    BackoffGrows(c, Run(c, ops).1.failures);
  }

  /** The delay d doubled k times. */
  function Doubled(d: real, k: nat): real { if k == 0 then d else 2.0 * Doubled(d, k - 1) }

  /** With the bounds in order, the delay after k failures in a row is the minimum
      doubled k times, cut at the maximum. */
  lemma {:induction false} BackoffDoubles(c: Config, k: nat)
    requires 0.0 <= c.reconnectMin <= c.reconnectMax
    ensures Backoff(c, k) == MinReal(Doubled(c.reconnectMin, k), c.reconnectMax)
  {
    if k > 0 {
      BackoffDoubles(c, k - 1);
    }
  }

  // ----- A queue that waited is written -----

  /** The pump's turns: a drain up to the write and, if there is one, the write. */
  function Drains(now: real, n: nat): seq<Op> {
    if n == 0 then [] else Drains(now, n - 1) + [Pop(now)] + [WriteOk]
  }

  /** The items that are not too old. */
  function FreshOf(c: Config, items: seq<QueuedCot>, now: real): seq<QueuedCot> {
    if items == [] then []
    else
      var last := items[|items| - 1];
      FreshOf(c, items[..|items| - 1], now) + (if now - last.enqueuedAt <= c.staleDrop then [last] else [])
  }

  lemma RunNext(c: Config, ops: seq<Op>, op: Op)
    requires ValidConfig(c)
    ensures Run(c, ops + [op]).0 == Step(c, Run(c, ops).0, op)
    ensures Run(c, ops + [op]).1 == Record(c, Run(c, ops).0, Run(c, ops).1, op)
  {
    assert (ops + [op])[..|ops|] == ops;
  }

  /** A pump with its connection and nothing in flight. */
  predicate Pumping(s: State) { s.task == Attempting && s.sending == None && s.connection == Connected }

  /** What a start, or n drains, have done to this state and history. */
  ghost predicate Drained(c: Config, was: State, then_: Trace, now: real, n: nat, s: State, t: Trace)
    requires n <= |was.queue|
  {
    var young := FreshOf(c, was.queue[..n], now);
    && Pumping(s) && s.queue == was.queue[n..] && s.attempts == was.attempts + 1
    && t.written == then_.written + young
    && s.sent == was.sent + |young|
    && s.dropped == was.dropped + n - |young|
  }

  /** One drain on a queue that is not empty: its oldest item is written or dropped. */
  lemma DrainOnce(c: Config, s: State, t: Trace, now: real)
    requires ValidConfig(c) && Pumping(s) && s.queue != []
    ensures var s1, t1 := Step(c, s, Pop(now)), Record(c, s, t, Pop(now));
            var s2, t2 := Step(c, s1, WriteOk), Record(c, s1, t1, WriteOk);
            var young := now - s.queue[0].enqueuedAt <= c.staleDrop;
            && Pumping(s2) && s2.queue == s.queue[1..] && s2.attempts == s.attempts
            && t2.written == t.written + (if young then [s.queue[0]] else [])
            && s2.dropped == s.dropped + (if young then 0 else 1)
            && s2.sent == s.sent + (if young then 1 else 0)
  {
  }

  lemma FreshNext(c: Config, items: seq<QueuedCot>, n: nat, now: real)
    requires n < |items|
    ensures FreshOf(c, items[..n + 1], now) ==
            FreshOf(c, items[..n], now) + (if now - items[n].enqueuedAt <= c.staleDrop then [items[n]] else [])
    ensures items[n..][0] == items[n] && items[n..][1..] == items[n + 1..]
  {
    assert items[..n + 1][..n] == items[..n];
  }

  lemma DrainedNext(c: Config, was: State, then_: Trace, now: real, n: nat, ops: seq<Op>)
    requires ValidConfig(c) && n < |was.queue| && Drained(c, was, then_, now, n, Run(c, ops).0, Run(c, ops).1)
    ensures var more := ops + [Pop(now)] + [WriteOk];
            Drained(c, was, then_, now, n + 1, Run(c, more).0, Run(c, more).1)
  {
    FreshNext(c, was.queue, n, now);
    RunNext(c, ops, Pop(now));
    RunNext(c, ops + [Pop(now)], WriteOk);
    DrainOnce(c, Run(c, ops).0, Run(c, ops).1, now);
  }

  lemma {:induction false} DrainedBy(c: Config, was: State, then_: Trace, now: real, n: nat, ops: seq<Op>)
    requires ValidConfig(c) && n <= |was.queue| && Drained(c, was, then_, now, 0, Run(c, ops).0, Run(c, ops).1)
    ensures Drained(c, was, then_, now, n, Run(c, ops + Drains(now, n)).0, Run(c, ops + Drains(now, n)).1)
  {
    if n == 0 {
      assert ops + [] == ops;
    } else {
      var before := Drains(now, n - 1);
      DrainedBy(c, was, then_, now, n - 1, ops);
      DrainedNext(c, was, then_, now, n - 1, ops + before);
      AppendTwo(ops, before, Pop(now), WriteOk);
    }
  }

  lemma AppendTwo(a: seq<Op>, b: seq<Op>, x: Op, y: Op)
    ensures a + b + [x] + [y] == a + (b + [x] + [y])
  {
  }

  /** A start, a turn of the loop and a connection, from no task. */
  lemma StartTurnConnect(c: Config, s: State, t: Trace)
    requires ValidConfig(c) && s.task == Idle && s.sending == None
    ensures var s1, t1 := Step(c, s, Start), Record(c, s, t, Start);
            var s2, t2 := Step(c, s1, LoopTurn), Record(c, s1, t1, LoopTurn);
            var s3, t3 := Step(c, s2, ConnectOk), Record(c, s2, t2, ConnectOk);
            && Pumping(s3) && s3.queue == s.queue && s3.attempts == s.attempts + 1
            && t3.written == t.written && s3.sent == s.sent && s3.dropped == s.dropped
  {
  }

  lemma Connects(c: Config, ops: seq<Op>, now: real)
    requires ValidConfig(c) && Run(c, ops).0.task == Idle && Run(c, ops).0.sending == None
    ensures var up := ops + [Start] + [LoopTurn] + [ConnectOk];
            Drained(c, Run(c, ops).0, Run(c, ops).1, now, 0, Run(c, up).0, Run(c, up).1)
  {
    RunNext(c, ops, Start);
    RunNext(c, ops + [Start], LoopTurn);
    RunNext(c, ops + [Start] + [LoopTurn], ConnectOk);
    StartTurnConnect(c, Run(c, ops).0, Run(c, ops).1);
    var up := ops + [Start] + [LoopTurn] + [ConnectOk];
    NoneDrained(c, Run(c, ops).0, Run(c, ops).1, now, Run(c, up).0, Run(c, up).1);
  }

  lemma NoneDrained(c: Config, was: State, then_: Trace, now: real, s: State, t: Trace)
    requires Pumping(s) && s.queue == was.queue && s.attempts == was.attempts + 1
    requires t.written == then_.written && s.sent == was.sent && s.dropped == was.dropped
    ensures Drained(c, was, then_, now, 0, s, t)
  {
    assert was.queue[..0] == [] && was.queue[0..] == was.queue && then_.written + [] == then_.written;
  }

  /** From any reachable state without a task: once the manager is started and gets
      its connection, as many drains as items wait write exactly those that are not
      too old, in order, count the others as dropped, and leave the queue empty. */
  lemma WaitingItemsAreWritten(c: Config, ops: seq<Op>, now: real)
    requires ValidConfig(c) && Run(c, ops).0.task == Idle
    ensures var (s, t) := Run(c, ops);
            var (s', t') := Run(c, ops + [Start] + [LoopTurn] + [ConnectOk] + Drains(now, |s.queue|));
            var young := FreshOf(c, s.queue, now);
            && s'.queue == [] && t'.written == t.written + young
            && s'.sent == s.sent + |young| && s'.dropped == s.dropped + |s.queue| - |young|
            && s'.attempts == s.attempts + 1 && s'.connection == Connected
  {
    RunKeeps(c, ops);
    Connects(c, ops, now);
    var q := Run(c, ops).0.queue;
    DrainedBy(c, Run(c, ops).0, Run(c, ops).1, now, |q|, ops + [Start] + [LoopTurn] + [ConnectOk]);
    assert q[..|q|] == q;
  }

  // ----- Stopping -----

  /** After a request to stop, a task whose pump is idle, or that is about to try
      again, ends without another attempt; what waits stays queued. */
  lemma StopEnds(c: Config, ops: seq<Op>)
    requires ValidConfig(c)
    requires var s := Run(c, ops).0; s.task != Idle && s.sending == None
    ensures var s, s' := Run(c, ops).0, Run(c, ops + [RequestStop] + [PumpReturn] + [LoopTurn]).0;
            s'.task == Idle && s'.attempts == s.attempts && s'.queue == s.queue && s'.sent == s.sent
  {
    RunNext(c, ops, RequestStop);
    RunNext(c, ops + [RequestStop], PumpReturn);
    RunNext(c, ops + [RequestStop] + [PumpReturn], LoopTurn);
  }

  // ----- The object -----

  class TakConnectionManager {
    const config: Config
    const dryRun: bool
    const host: string
    var queue: seq<QueuedCot>
    var sending: Option<QueuedCot>
    var connection: Connection
    var task: Task
    var stop: bool
    var delay: real
    var generated: nat
    var sent: nat
    var dropped: nat
    var attempts: nat
    ghost var trace: Trace

    ghost function View(): State
      reads this
    {
      State(queue, sending, connection, task, stop, delay, generated, sent, dropped, attempts)
    }

    ghost predicate Valid()
      reads this
    {
      ValidConfig(config) && Inv(config, View(), trace)
    }

    constructor (config: Config, dryRun: bool, host: string)
      requires ValidConfig(config)
      ensures Valid() && View() == Initial(config) && trace == NO_TRACE
      ensures this.config == config && this.dryRun == dryRun && this.host == host
    {
      this.config, this.dryRun, this.host := config, dryRun, host;
      queue, sending, connection, task, stop := [], None, Disconnected, Idle, false;
      delay := config.reconnectMin;
      generated, sent, dropped, attempts := 0, 0, 0, 0;
      trace := NO_TRACE;
    }

    /** One operation, stated by the transition function. */
    twostate predicate Performed(op: Op)
      requires ValidConfig(config)
      reads this
    {
      View() == Step(config, old(View()), op) && trace == Record(config, old(View()), old(trace), op)
    }

    twostate lemma Kept(op: Op)
      requires old(Valid()) && Performed(op)
      ensures Valid()
    {
      StepKeeps(config, old(View()), old(trace), op);
    }

    method Enqueue(xml: string, uid: string, now: real)
      requires ValidConfig(config)
      modifies this
      ensures old(Valid()) ==> Valid()
      ensures Performed(Op.Enqueue(xml, uid, now))
      ensures connection == old(connection)
      ensures trace.enqueued == old(trace.enqueued) + [QueuedCot(xml, uid, now)]
    {
      trace := Record(config, View(), trace, Op.Enqueue(xml, uid, now));
      generated := generated + 1;
      if |queue| >= config.queueMax {
        queue := queue[1..];
        dropped := dropped + 1;
      }
      queue := queue + [QueuedCot(xml, uid, now)];
      if old(Valid()) {
        Kept(Op.Enqueue(xml, uid, now));
      }
    }

    method Start()
      requires Valid()
      modifies this
      ensures Valid() && Performed(Op.Start)
    {
      trace := Record(config, View(), trace, Op.Start);
      stop := false;
      if task == Idle {
        task := LoopHead;
        delay := config.reconnectMin;
      }
      Kept(Op.Start);
    }

    /** First half of stop: the task sees the flag at its next turn. */
    method RequestStop()
      requires Valid()
      modifies this
      ensures Valid() && Performed(Op.RequestStop)
    {
      stop := true;
      Kept(Op.RequestStop);
    }

    /** Second half of stop, after waiting for the task, whether it ended or not. */
    method MarkStopped()
      requires Valid()
      modifies this
      ensures Valid() && Performed(Op.MarkStopped)
    {
      connection := Disconnected;
      Kept(Op.MarkStopped);
    }

    /** The connection is up, or there is none to make. */
    method ConnectionMade()
      requires Valid() && Enabled(View(), ConnectOk)
      modifies this
      ensures Valid() && Performed(ConnectOk)
    {
      connection := Connected;
      Kept(ConnectOk);
    }

    /** One turn of the reconnect loop up to the connection attempt. */
    method LoopTurn()
      requires Valid() && task == LoopHead
      modifies this
      ensures Valid() && Performed(Op.LoopTurn)
    {
      if stop {
        task := Idle;
      } else {
        task := Attempting;
        connection := Connecting;
        attempts := attempts + 1;
      }
      Kept(Op.LoopTurn);
    }

    /** A drain up to the write: the oldest item is taken off, or nothing happens. */
    method DrainPop(now: real)
      requires Valid() && Enabled(View(), Pop(now))
      modifies this
      ensures Valid() && Performed(Pop(now))
    {
      trace := Record(config, View(), trace, Pop(now));
      if queue != [] {
        var item := queue[0];
        queue := queue[1..];
        if now - item.enqueuedAt > config.staleDrop {
          dropped := dropped + 1;
        } else {
          sending := Some(item);
        }
      }
      Kept(Pop(now));
    }

    method DrainWritten()
      requires Valid() && Enabled(View(), WriteOk)
      modifies this
      ensures Valid() && Performed(WriteOk)
    {
      trace := Record(config, View(), trace, WriteOk);
      sending := None;
      sent := sent + 1;
      Kept(WriteOk);
    }

    /** An exception leaves the attempt; the loop sleeps and doubles its delay. */
    method AttemptFailed()
      requires Valid() && Enabled(View(), Fail)
      modifies this
      ensures Valid() && Performed(Fail)
    {
      trace := Record(config, View(), trace, Fail);
      sending := None;
      connection := TlsError;
      task := LoopHead;
      delay := MinReal(delay * 2.0, config.reconnectMax);
      Kept(Fail);
    }

    method PresenceWritten()
      requires Valid() && Enabled(View(), PresenceOk)
      modifies this
      ensures Valid() && Performed(PresenceOk)
    {
      trace := Record(config, View(), trace, PresenceOk);
      generated := generated + 1;
      sent := sent + 1;
      Kept(PresenceOk);
    }

    /** The pump saw the stop flag and returned; the delay starts over. */
    method PumpReturned()
      requires Valid() && Enabled(View(), PumpReturn)
      modifies this
      ensures Valid() && Performed(PumpReturn)
    {
      trace := Record(config, View(), trace, PumpReturn);
      task := LoopHead;
      delay := config.reconnectMin;
      Kept(PumpReturn);
    }

    method Cancelled()
      requires Valid() && Enabled(View(), Cancel)
      modifies this
      ensures Valid() && Performed(Cancel)
    {
      trace := Record(config, View(), trace, Cancel);
      sending := None;
      task := Idle;
      Kept(Cancel);
    }
  }
}
