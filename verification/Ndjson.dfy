/** The NDJSON client: producer threads put lines into a bounded queue, one
    consumer thread takes and writes them. A send is three separate atomic steps
    (offer, poll, offer again) that other threads may come between. */
module Ndjson {
  import opened Basics

  /** A send that found the queue full: before its poll, or before its second offer. */
  datatype Pending = MustEvict(line: string) | MustRetry(line: string)

  /** queue and backoff are the client's; senders are the threads inside send;
      hand is the line the consumer has taken but not yet written. */
  datatype State = State(
    queue: seq<string>, running: bool, senders: map<nat, Pending>, hand: Option<string>, backoff: nat)

  /** started: lines of all sends begun. accepted: lines put into the queue, in
      order. left: of the lines that left it, whether the consumer took them.
      taken, written: the taken lines, and whether their write succeeded. */
  datatype Trace = Trace(
    started: seq<string>, accepted: seq<string>, left: seq<bool>,
    taken: seq<string>, written: seq<bool>, delivered: seq<string>, refused: nat)

  const INITIAL := State([], false, map[], None, 500)
  const NO_TRACE := Trace([], [], [], [], [], [], 0)

  datatype Op =
    | Start
    | Stop
    | Offer(thread: nat, line: string)
    | Evict(thread: nat)
    | Retry(thread: nat)
    | Take
    | WriteOk
    | Fail

  predicate Enabled(s: State, op: Op) {
    match op
    case Offer(p, line) => p !in s.senders && s.running && line != ""
    case Evict(p) => p in s.senders && s.senders[p].MustEvict?
    case Retry(p) => p in s.senders && s.senders[p].MustRetry?
    case Take => s.queue != [] && s.hand == None
    case WriteOk => s.hand.Some?
    case _ => true
  }

  function Doubled(backoff: nat): nat { if backoff * 2 <= 15_000 then backoff * 2 else 15_000 }

  function Step(cap: nat, s: State, op: Op): State {
    if !Enabled(s, op) then s
    else match op
      case Start => s.(running := true)
      case Stop => s.(running := false)
      case Offer(p, line) =>
        if |s.queue| < cap then s.(queue := s.queue + [line]) else s.(senders := s.senders[p := MustEvict(line)])
      case Evict(p) =>
        s.(queue := if s.queue == [] then [] else s.queue[1..],
           senders := s.senders[p := MustRetry(s.senders[p].line)])
      case Retry(p) =>
        s.(queue := if |s.queue| < cap then s.queue + [s.senders[p].line] else s.queue,
           senders := s.senders - {p})
      case Take => s.(queue := s.queue[1..], hand := Some(s.queue[0]))
      case WriteOk => s.(hand := None, backoff := 500)
      case Fail => s.(hand := None, backoff := Doubled(s.backoff))
  }

  function Record(cap: nat, s: State, t: Trace, op: Op): Trace {
    if !Enabled(s, op) then t
    else match op
      case Offer(p, line) =>
        t.(started := t.started + [line], accepted := if |s.queue| < cap then t.accepted + [line] else t.accepted)
      case Evict(p) => if s.queue == [] then t else t.(left := t.left + [false])
      case Retry(p) =>
        if |s.queue| < cap then t.(accepted := t.accepted + [s.senders[p].line]) else t.(refused := t.refused + 1)
      case Take => t.(left := t.left + [true], taken := t.taken + [s.queue[0]])
      case WriteOk => t.(written := t.written + [true], delivered := t.delivered + [s.hand.value])
      case Fail => if s.hand.Some? then t.(written := t.written + [false]) else t
      case _ => t
  }

  function Run(cap: nat, ops: seq<Op>): (State, Trace) {
    if ops == [] then (INITIAL, NO_TRACE)
    else
      var before := Run(cap, ops[..|ops| - 1]);
      var op := ops[|ops| - 1];
      (Step(cap, before.0, op), Record(cap, before.0, before.1, op))
  }

  ghost predicate Inv(cap: nat, s: State, t: Trace) {
    && |s.queue| <= cap
    && |t.left| <= |t.accepted| && s.queue == t.accepted[|t.left|..]
    && t.taken == Pick(t.accepted, t.left)
    && |t.written| <= |t.taken| && t.delivered == Pick(t.taken, t.written)
    && |t.taken| == |t.written| + (if s.hand.Some? then 1 else 0)
    && (s.hand.Some? ==> s.hand.value == t.taken[|t.written|])
    && |t.started| == |t.accepted| + t.refused + |s.senders|
    && 500 <= s.backoff <= 15_000
  }

  lemma AcceptKeeps(cap: nat, s: State, t: Trace, line: string)
    requires Inv(cap, s, t)
    ensures var accepted := t.accepted + [line];
            s.queue + [line] == accepted[|t.left|..] && t.taken == Pick(accepted, t.left)
  {
    PickFrame(t.accepted, [line], t.left);
  }

  lemma LeaveKeeps(cap: nat, s: State, t: Trace, took: bool)
    requires Inv(cap, s, t) && s.queue != []
    ensures var left := t.left + [took];
            && |left| <= |t.accepted| && s.queue[1..] == t.accepted[|left|..]
            && Pick(t.accepted, left) == t.taken + (if took then [s.queue[0]] else [])
  {
    PickSnoc(t.accepted, t.left, took);
  }

  lemma ProducerKeeps(cap: nat, s: State, t: Trace, op: Op)
    requires Inv(cap, s, t) && Enabled(s, op) && (op.Offer? || op.Evict? || op.Retry?)
    ensures Inv(cap, Step(cap, s, op), Record(cap, s, t, op))
  {
    if op.Offer? {
      AcceptKeeps(cap, s, t, op.line);
      assert |s.senders[op.thread := MustEvict(op.line)]| == |s.senders| + 1;
    } else if op.Evict? {
      assert |s.senders[op.thread := MustRetry(s.senders[op.thread].line)]| == |s.senders|;
      if s.queue != [] {
        LeaveKeeps(cap, s, t, false);
      }
    } else {
      AcceptKeeps(cap, s, t, s.senders[op.thread].line);
      assert s.senders.Keys == (s.senders - {op.thread}).Keys + {op.thread};
      assert |s.senders - {op.thread}| == |s.senders| - 1;
    }
  }

  lemma ConsumerKeeps(cap: nat, s: State, t: Trace, op: Op)
    requires Inv(cap, s, t) && Enabled(s, op) && (op.Take? || op.WriteOk? || op.Fail?)
    ensures Inv(cap, Step(cap, s, op), Record(cap, s, t, op))
  {
    if op.Take? {
      LeaveKeeps(cap, s, t, true);
      PickFrame(t.taken, [s.queue[0]], t.written);
    } else if s.hand.Some? {
      PickSnoc(t.taken, t.written, op.WriteOk?);
    }
  }

  lemma {:induction false} RunKeeps(cap: nat, ops: seq<Op>)
    ensures Inv(cap, Run(cap, ops).0, Run(cap, ops).1)
  {
    if ops != [] {
      var before := Run(cap, ops[..|ops| - 1]);
      var op := ops[|ops| - 1];
      RunKeeps(cap, ops[..|ops| - 1]);
      if Enabled(before.0, op) {
        if op.Offer? || op.Evict? || op.Retry? {
          ProducerKeeps(cap, before.0, before.1, op);
        } else if op.Take? || op.WriteOk? || op.Fail? {
          ConsumerKeeps(cap, before.0, before.1, op);
        }
      }
    }
  }

  function CountFalse(marks: seq<bool>): nat {
    if marks == [] then 0 else CountFalse(marks[..|marks| - 1]) + (if marks[|marks| - 1] then 0 else 1)
  }

  lemma {:induction false} PickedAndNot<T>(items: seq<T>, marks: seq<bool>)
    requires |marks| <= |items|
    ensures |Pick(items, marks)| + CountFalse(marks) == |marks|
    decreases marks
  {
    if marks != [] {
      PickedAndNot(items, marks[..|marks| - 1]);
    }
  }

  /** In every reachable state, however the threads interleave: the queue is
      within its capacity and is the newest part of what was accepted; the lines
      taken and the lines delivered are what was accepted, in that order, minus
      evictions and failed writes; and every send is accounted for. */
  lemma ConservationAndOrder(cap: nat, ops: seq<Op>)
    ensures var (s, t) := Run(cap, ops);
            && |s.queue| <= cap
            && |t.left| <= |t.accepted| && s.queue == t.accepted[|t.left|..]
            && t.taken == Pick(t.accepted, t.left)
            && |t.written| <= |t.taken| && t.delivered == Pick(t.taken, t.written)
            && |t.started| == |s.queue| + |t.taken| + CountFalse(t.left) + t.refused + |s.senders|
  {
    RunKeeps(cap, ops);
    var t := Run(cap, ops).1;
    PickedAndNot(t.accepted, t.left);
  }

  // ----- Nothing is lost while there is room -----

  /** The client was started and not stopped since. */
  predicate RunningAfter(ops: seq<Op>) {
    ops != [] &&
    match ops[|ops| - 1]
    case Start => true
    case Stop => false
    case _ => RunningAfter(ops[..|ops| - 1])
  }

  lemma {:induction false} RunningIs(cap: nat, ops: seq<Op>)
    ensures Run(cap, ops).0.running == RunningAfter(ops)
  {
    if ops != [] {
      RunningIs(cap, ops[..|ops| - 1]);
    }
  }

  /** The lines of all sends begun while the client runs, empty ones aside, by threads
      that were not inside one. */
  function Offered(cap: nat, ops: seq<Op>): seq<string> {
    if ops == [] then []
    else
      var n := |ops| - 1;
      Offered(cap, ops[..n]) +
      (if ops[n].Offer? && RunningAfter(ops[..n]) && ops[n].line != "" && ops[n].thread !in Run(cap, ops[..n]).0.senders
       then [ops[n].line] else [])
  }

  /** How many of them found the queue full. */
  function FullOffers(cap: nat, ops: seq<Op>): nat {
    if ops == [] then 0
    else
      var n := |ops| - 1;
      var s := Run(cap, ops[..n]).0;
      FullOffers(cap, ops[..n]) + (if ops[n].Offer? && Enabled(s, ops[n]) && |s.queue| == cap then 1 else 0)
  }

  /** The threads that are about to evict. */
  function Evicting(senders: map<nat, Pending>): set<nat> {
    set p | p in senders && senders[p].MustEvict?
  }

  lemma EvictingNext(senders: map<nat, Pending>, p: nat, line: string)
    ensures p !in senders ==> |Evicting(senders[p := MustEvict(line)])| == |Evicting(senders)| + 1
    ensures p in senders && senders[p].MustEvict? ==>
               |Evicting(senders[p := MustRetry(line)])| == |Evicting(senders)| - 1
    ensures p in senders && senders[p].MustRetry? ==> Evicting(senders - {p}) == Evicting(senders)
  {
    if p !in senders {
      assert Evicting(senders[p := MustEvict(line)]) == Evicting(senders) + {p};
    } else if senders[p].MustEvict? {
      assert Evicting(senders[p := MustRetry(line)]) == Evicting(senders) - {p};
    }
  }

  ghost predicate LossBound(s: State, t: Trace, full: nat) {
    CountFalse(t.left) + |Evicting(s.senders)| <= full && t.refused + |s.senders| <= full
  }

  lemma CountFalseSnoc(marks: seq<bool>, mark: bool)
    ensures CountFalse(marks + [mark]) == CountFalse(marks) + (if mark then 0 else 1)
  {
    assert (marks + [mark])[..|marks|] == marks;
  }

  lemma LossStep(cap: nat, s: State, t: Trace, op: Op, full: nat)
    requires Inv(cap, s, t) && LossBound(s, t, full)
    ensures LossBound(Step(cap, s, op), Record(cap, s, t, op),
                      full + (if op.Offer? && Enabled(s, op) && |s.queue| == cap then 1 else 0))
  {
    if Enabled(s, op) {
      match op
      case Offer(p, line) =>
        EvictingNext(s.senders, p, line);
        assert |s.senders[p := MustEvict(line)]| == |s.senders| + 1;
      case Evict(p) =>
        EvictingNext(s.senders, p, s.senders[p].line);
        CountFalseSnoc(t.left, false);
        assert |s.senders[p := MustRetry(s.senders[p].line)]| == |s.senders|;
      case Retry(p) =>
        EvictingNext(s.senders, p, "");
        assert |s.senders - {p}| == |s.senders| - 1 by {
          assert s.senders.Keys == (s.senders - {p}).Keys + {p};
        }
      case Take => CountFalseSnoc(t.left, true);
      case _ =>
    }
  }

  lemma {:induction false} LossUpTo(cap: nat, ops: seq<Op>)
    ensures LossBound(Run(cap, ops).0, Run(cap, ops).1, FullOffers(cap, ops))
  {
    if ops == [] {
      assert Evicting(map[]) == {};
    } else {
      var n := |ops| - 1;
      RunKeeps(cap, ops[..n]);
      LossUpTo(cap, ops[..n]);
      LossStep(cap, Run(cap, ops[..n]).0, Run(cap, ops[..n]).1, ops[n], FullOffers(cap, ops[..n]));
    }
  }

  lemma StartedStep(cap: nat, s: State, t: Trace, op: Op)
    ensures Record(cap, s, t, op).started == t.started + (if op.Offer? && Enabled(s, op) then [op.line] else [])
  {
  }

  lemma {:induction false} StartedIsOffered(cap: nat, ops: seq<Op>)
    ensures Run(cap, ops).1.started == Offered(cap, ops)
  {
    if ops != [] {
      var n := |ops| - 1;
      StartedIsOffered(cap, ops[..n]);
      RunningIs(cap, ops[..n]);
      StartedStep(cap, Run(cap, ops[..n]).0, Run(cap, ops[..n]).1, ops[n]);
    }
  }

  /** However the threads interleave: every send begun while the client runs is on
      the books, and no more lines are evicted, and no more refused, than sends found
      the queue full. */
  lemma LossNeedsFullQueue(cap: nat, ops: seq<Op>)
    ensures var t := Run(cap, ops).1;
            && t.started == Offered(cap, ops)
            && CountFalse(t.left) <= FullOffers(cap, ops) && t.refused <= FullOffers(cap, ops)
  {
    LossUpTo(cap, ops);
    StartedIsOffered(cap, ops);
  }

  // ----- The consumer empties the queue -----

  function Writes(n: nat): seq<Op> {
    if n == 0 then [] else Writes(n - 1) + [Take] + [WriteOk]
  }

  /** n lines further than this state and history. */
  ghost predicate WrittenOut(was: State, then_: Trace, n: nat, s: State, t: Trace)
    requires n <= |was.queue|
  {
    && s.hand == None && s.queue == was.queue[n..]
    && t.delivered == then_.delivered + was.queue[..n]
    && s.backoff == (if n == 0 then was.backoff else 500)
  }

  lemma WriteOne(cap: nat, s: State, t: Trace)
    requires s.hand == None && s.queue != []
    ensures var s1, t1 := Step(cap, s, Take), Record(cap, s, t, Take);
            var s2, t2 := Step(cap, s1, WriteOk), Record(cap, s1, t1, WriteOk);
            && s2.hand == None && s2.queue == s.queue[1..] && s2.backoff == 500
            && t2.delivered == t.delivered + [s.queue[0]]
  {
  }

  ghost predicate WrittenAt(cap: nat, was: State, then_: Trace, n: nat, ops: seq<Op>)
    requires n <= |was.queue|
  {
    WrittenOut(was, then_, n, Run(cap, ops).0, Run(cap, ops).1)
  }

  lemma WrittenNext(cap: nat, was: State, then_: Trace, n: nat, ops: seq<Op>)
    requires n < |was.queue| && WrittenAt(cap, was, then_, n, ops)
    ensures WrittenAt(cap, was, then_, n + 1, ops + [Take] + [WriteOk])
  {
    var q := was.queue;
    RunNext(cap, ops, Take);
    RunNext(cap, ops + [Take], WriteOk);
    WriteOne(cap, Run(cap, ops).0, Run(cap, ops).1);
    assert q[n..][0] == q[n] && q[n..][1..] == q[n + 1..] && q[..n] + [q[n]] == q[..n + 1];
  }

  lemma {:induction false} WrittenBy(cap: nat, was: State, then_: Trace, n: nat, ops: seq<Op>)
    requires n <= |was.queue| && WrittenAt(cap, was, then_, 0, ops + Writes(0))
    ensures WrittenAt(cap, was, then_, n, ops + Writes(n))
  {
    if n > 0 {
      WrittenBy(cap, was, then_, n - 1, ops);
      WrittenNext(cap, was, then_, n - 1, ops + Writes(n - 1));
      AppendTwo(ops, Writes(n - 1), Take, WriteOk);
    }
  }

  lemma AppendTwo(a: seq<Op>, b: seq<Op>, x: Op, y: Op)
    ensures a + b + [x] + [y] == a + (b + [x] + [y])
  {
  }

  /** From any reachable state with empty hands, as many takes and writes as lines
      wait deliver exactly these, in order. */
  lemma WaitingLinesAreWritten(cap: nat, ops: seq<Op>)
    requires Run(cap, ops).0.hand == None
    ensures var (s, t) := Run(cap, ops);
            var (s', t') := Run(cap, ops + Writes(|s.queue|));
            s'.queue == [] && t'.delivered == t.delivered + s.queue
  {
    var (s, t) := Run(cap, ops);
    assert s.queue[..0] == [] && t.delivered + [] == t.delivered && ops + Writes(0) == ops;
    WrittenBy(cap, s, t, |s.queue|, ops);
    assert s.queue[..|s.queue|] == s.queue;
  }

  // ----- Backoff -----

  /** Failures since the last write. */
  function Failures(cap: nat, ops: seq<Op>): nat {
    if ops == [] then 0
    else
      var n := |ops| - 1;
      match ops[n]
      case Fail => Failures(cap, ops[..n]) + 1
      case WriteOk => if Run(cap, ops[..n]).0.hand.Some? then 0 else Failures(cap, ops[..n])
      case _ => Failures(cap, ops[..n])
  }

  /** 500 doubled k times. */
  function HalfSeconds(k: nat): nat { if k == 0 then 500 else 2 * HalfSeconds(k - 1) }

  /** The wait after k failures in a row is half a second doubled k times, at most 15 s. */
  lemma {:induction false} BackoffDoubles(cap: nat, ops: seq<Op>)
    ensures var k := Failures(cap, ops);
            Run(cap, ops).0.backoff == if HalfSeconds(k) < 15_000 then HalfSeconds(k) else 15_000
  {
    if ops != [] {
      BackoffDoubles(cap, ops[..|ops| - 1]);
    }
  }

  // ----- One producer -----

  /** All sends come from one thread. */
  predicate OneProducer(ops: seq<Op>, p: nat) {
    forall i :: 0 <= i < |ops| && (ops[i].Offer? || ops[i].Evict? || ops[i].Retry?) ==> ops[i].thread == p
  }

  /** The line the one producer is still trying to place. */
  function Unplaced(s: State, p: nat): seq<string> {
    if p in s.senders then [s.senders[p].line] else []
  }

  ghost predicate SoloInv(cap: nat, s: State, t: Trace, p: nat) {
    && (forall q :: q in s.senders ==> q == p)
    && (p in s.senders && s.senders[p].MustRetry? ==> |s.queue| < cap)
    && t.refused == 0
    && t.started == t.accepted + Unplaced(s, p)
  }

  lemma SoloStep(cap: nat, s: State, t: Trace, p: nat, op: Op)
    requires cap > 0 && Inv(cap, s, t) && SoloInv(cap, s, t, p) && OneProducer([op], p)
    ensures SoloInv(cap, Step(cap, s, op), Record(cap, s, t, op), p)
  {
    assert [op][0] == op;
    if Enabled(s, op) && op.Offer? {
      assert t.accepted + [] == t.accepted;
    }
  }

  /** With one producer no line is ever refused: the lines of all finished sends
      have been placed, in the order they were sent, so only older lines are
      evicted to make room. */
  lemma {:induction false} OneProducerNeverRefused(cap: nat, ops: seq<Op>, p: nat)
    requires cap > 0 && OneProducer(ops, p)
    ensures var (s, t) := Run(cap, ops);
            t.refused == 0 && t.started == t.accepted + Unplaced(s, p)
    ensures SoloInv(cap, Run(cap, ops).0, Run(cap, ops).1, p)
  {
    if ops != [] {
      var before := Run(cap, ops[..|ops| - 1]);
      OneProducerNeverRefused(cap, ops[..|ops| - 1], p);
      RunKeeps(cap, ops[..|ops| - 1]);
      SoloStep(cap, before.0, before.1, p, ops[|ops| - 1]);
    }
  }

  // ----- How many producers are safe -----

  /** All sends come from these threads. */
  predicate ByProducers(ops: seq<Op>, producers: set<nat>) {
    forall i :: 0 <= i < |ops| && (ops[i].Offer? || ops[i].Evict? || ops[i].Retry?) ==> ops[i].thread in producers
  }

  lemma RunNext(cap: nat, ops: seq<Op>, op: Op)
    ensures Run(cap, ops + [op]) ==
            (Step(cap, Run(cap, ops).0, op), Record(cap, Run(cap, ops).0, Run(cap, ops).1, op))
  {
    assert (ops + [op])[..|ops|] == ops;
  }

  /** The place a send has freed is taken by another thread before it offers again. */
  lemma RefusalSteps(cap: nat, s: State, t: Trace, p: nat, q: nat, line: string)
    requires cap > 0 && |s.queue| == cap && s.running && line != ""
    requires p in s.senders && s.senders[p].MustEvict? && q !in s.senders
    ensures var s1, t1 := Step(cap, s, Evict(p)), Record(cap, s, t, Evict(p));
            var s2, t2 := Step(cap, s1, Offer(q, line)), Record(cap, s1, t1, Offer(q, line));
            Record(cap, s2, t2, Retry(p)).refused == t.refused + 1
  {
  }

  /** n lines by one thread into an empty client that runs. */
  lemma {:induction false} Filled(cap: nat, p: nat, n: nat) returns (ops: seq<Op>)
    requires n <= cap
    ensures ByProducers(ops, {p})
    ensures var s := Run(cap, ops).0; |s.queue| == n && s.running && s.senders == map[]
  {
    if n == 0 {
      RunNext(cap, [], Start);
      assert [] + [Start] == [Start];
      ops := [Start];
    } else {
      var before := Filled(cap, p, n - 1);
      RunNext(cap, before, Offer(p, "x"));
      ops := before + [Offer(p, "x")];
    }
  }

  lemma TwoProducersRefuse(cap: nat, p: nat, q: nat) returns (ops: seq<Op>)
    requires cap > 0 && p != q
    ensures ByProducers(ops, {p, q}) && Run(cap, ops).1.refused > 0
  {
    var full := Filled(cap, p, cap);
    var stuck := full + [Offer(p, "x")];
    RunNext(cap, full, Offer(p, "x"));
    RefusalSteps(cap, Run(cap, stuck).0, Run(cap, stuck).1, p, q, "x");
    RunNext(cap, stuck, Evict(p));
    RunNext(cap, stuck + [Evict(p)], Offer(q, "x"));
    RunNext(cap, stuck + [Evict(p)] + [Offer(q, "x")], Retry(p));
    ops := stuck + [Evict(p)] + [Offer(q, "x")] + [Retry(p)];
  }

  lemma AtMost(producers: set<nat>) returns (p: nat)
    requires |producers| <= 1
    ensures producers <= {p}
  {
    if producers == {} {
      p := 0;
    } else {
      p :| p in producers;
      assert |producers - {p}| == 0;
    }
  }

  ghost predicate NeverRefuses(cap: nat, producers: set<nat>) {
    forall ops :: ByProducers(ops, producers) ==> Run(cap, ops).1.refused == 0
  }

  /** A finished send has placed its line, in every run, exactly when at most one
      thread sends. */
  lemma NeverRefusedIff(cap: nat, producers: set<nat>)
    requires cap > 0
    ensures NeverRefuses(cap, producers) <==> |producers| <= 1
  {
    if |producers| <= 1 {
      var p := AtMost(producers);
      forall ops | ByProducers(ops, producers) ensures Run(cap, ops).1.refused == 0 {
        OneProducerNeverRefused(cap, ops, p);
      }
    } else {
      var p :| p in producers;
      assert |producers - {p}| == |producers| - 1;
      var q :| q in producers - {p};
      var ops := TwoProducersRefuse(cap, p, q);
      assert ByProducers(ops, producers);
    }
  }

  // ----- The object -----

  /** The client; every method is one atomic step of one of its threads. */
  class NdjsonTcpClient {
    const capacity: nat
    var queue: seq<string>
    var running: bool
    var senders: map<nat, Pending>
    var hand: Option<string>
    var backoffMs: nat

    ghost function View(): State
      reads this
    {
      State(queue, running, senders, hand, backoffMs)
    }

    constructor (queueSize: nat)
      ensures View() == INITIAL && capacity >= 8 && capacity >= queueSize
    {
      capacity := if queueSize > 8 then queueSize else 8;
      queue, running, senders, hand, backoffMs := [], false, map[], None, 500;
    }

    /** send up to its first offer; false when the queue was full. */
    method FirstOffer(thread: nat, line: string) returns (done: bool)
      requires thread !in senders
      modifies this
      ensures View() == Step(capacity, old(View()), Offer(thread, line))
      ensures done <==> thread !in senders
    {
      if !running || line == "" {
        return true;
      }
      done := |queue| < capacity;
      if done {
        queue := queue + [line];
      } else {
        senders := senders[thread := MustEvict(line)];
      }
    }

    method PollOldest(thread: nat)
      requires Enabled(View(), Evict(thread))
      modifies this
      ensures View() == Step(capacity, old(View()), Evict(thread))
    {
      if queue != [] {
        queue := queue[1..];
      }
      senders := senders[thread := MustRetry(senders[thread].line)];
    }

    method SecondOffer(thread: nat)
      requires Enabled(View(), Retry(thread))
      modifies this
      ensures View() == Step(capacity, old(View()), Retry(thread))
    {
      if |queue| < capacity {
        queue := queue + [senders[thread].line];
      }
      senders := senders - {thread};
    }

    /** The consumer's poll; a timeout takes nothing. */
    method TakeLine() returns (line: Option<string>)
      requires hand == None
      modifies this
      ensures View() == Step(capacity, old(View()), Take) && line == hand
    {
      if queue == [] {
        return None;
      }
      line := Some(queue[0]);
      hand := line;
      queue := queue[1..];
    }

    method LineWritten()
      requires hand.Some?
      modifies this
      ensures View() == Step(capacity, old(View()), WriteOk)
    {
      hand := None;
      backoffMs := 500;
    }

    /** Connecting or writing failed; the line in hand is lost. */
    method LoopFailed()
      modifies this
      ensures View() == Step(capacity, old(View()), Fail)
    {
      hand := None;
      backoffMs := if backoffMs * 2 <= 15_000 then backoffMs * 2 else 15_000;
    }
  }
}
