/** How often one radio is forwarded: never too often, and never too rarely, over
    any run of the forwarding engine that mixes events of any radios. */
module Pacing {
  import opened Basics
  import opened Forwarding

  /** Event k is a position report of the radio with this UID. */
  predicate Reports(xs: seq<Input>, uid: string, k: nat) {
    k < |xs| && xs[k].Location? && UidOf(xs[k]) == uid
  }

  predicate ForwardsUid(env: Env, w: World, xs: seq<Input>, uid: string, k: nat) {
    Reports(xs, uid, k) && Forwards(env, w, xs, k)
  }

  predicate SteadyClock(xs: seq<Input>) {
    forall i, j :: 0 <= i < j < |xs| && xs[i].Location? && xs[j].Location? ==> xs[i].mono <= xs[j].mono
  }

  /** The last number below n with this property. */
  function LastWhere(p: nat -> bool, n: nat): Option<nat> {
    if n == 0 then None else if p(n - 1) then Some(n - 1) else LastWhere(p, n - 1)
  }

  lemma {:induction false} LastWhereIsLast(p: nat -> bool, n: nat)
    ensures var r := LastWhere(p, n);
            && (r.Some? ==> r.value < n && p(r.value))
            && forall k :: 0 <= k < n && p(k) ==> r.Some? && k <= r.value
  {
    if n > 0 {
      LastWhereIsLast(p, n - 1);
    }
  }

  lemma LastWhereAfter(p: nat -> bool, i: nat, n: nat) returns (k: nat)
    requires i < n && p(i)
    ensures LastWhere(p, n) == Some(k) && i <= k < n
  {
    LastWhereIsLast(p, n);
    k := LastWhere(p, n).value;
  }

  function ForwardOf(env: Env, w: World, xs: seq<Input>, uid: string): nat -> bool {
    (k: nat) => ForwardsUid(env, w, xs, uid, k)
  }

  /** The latest forward of this UID before step n. */
  function LastForward(env: Env, w: World, xs: seq<Input>, uid: string, n: nat): Option<nat> {
    LastWhere(ForwardOf(env, w, xs, uid), n)
  }

  /** What step n does to the table entry of this UID. */
  lemma EntryAfter(env: Env, w: World, xs: seq<Input>, uid: string, n: nat)
    requires n < |xs|
    ensures var before, after := Run(env, w, xs[..n]).lastSent, Run(env, w, xs[..n + 1]).lastSent;
            if ForwardOf(env, w, xs, uid)(n)
            then xs[n].Location? && uid in after &&
                 after[uid] == Sent(xs[n].event.latitude, xs[n].event.longitude, xs[n].mono)
            else (uid in after <==> uid in before) && (uid in before ==> after[uid] == before[uid])
  {
    RunPrefix(env, w, xs, n);
    if !(xs[n].Location? && Judge(env, Run(env, w, xs[..n]), xs[n]) == Queued) {
      NothingForwarded(env, Run(env, w, xs[..n]), xs[n]);
    }
  }

  /** The table holds position and time of the latest forward, or what it held at
      the start if there was none. */
  ghost predicate TableRight(env: Env, w: World, xs: seq<Input>, uid: string, n: nat)
    requires n <= |xs|
  {
    var r, table := LastForward(env, w, xs, uid, n), Run(env, w, xs[..n]).lastSent;
    match r
    case Some(i) =>
      && i < n && xs[i].Location? && uid in table
      && table[uid] == Sent(xs[i].event.latitude, xs[i].event.longitude, xs[i].mono)
    case None => (uid in table <==> uid in w.lastSent) && (uid in table ==> table[uid] == w.lastSent[uid])
  }

  /** The dedupe table holds position and time of the latest forward. */
  lemma {:induction false} TableHoldsLastForward(env: Env, w: World, xs: seq<Input>, uid: string, n: nat)
    requires n <= |xs|
    ensures TableRight(env, w, xs, uid, n)
  {
    if n == 0 {
      assert xs[..0] == [];
    } else {
      TableHoldsLastForward(env, w, xs, uid, n - 1);
      EntryAfter(env, w, xs, uid, n - 1);
    }
  }

  // ----- Exactly when -----

  /** How long report k comes after this forward, and how far from it. */
  predicate FarEnough(env: Env, last: Sent, x: Input)
    requires x.Location?
  {
    var dt := x.mono - last.at;
    var moved := env.distance(last.latitude, last.longitude, x.event.latitude, x.event.longitude);
    dt >= x.settings.minInterval && (moved >= x.settings.minMovement || dt >= x.settings.heartbeat)
  }

  /** Position and time of the latest forward of this UID before step n. */
  function LatestSent(env: Env, w: World, xs: seq<Input>, uid: string, n: nat): Option<Sent> {
    match LastForward(env, w, xs, uid, n)
    case Some(i) =>
      if i < |xs| && xs[i].Location?
      then Some(Sent(xs[i].event.latitude, xs[i].event.longitude, xs[i].mono)) else None
    case None => if uid in w.lastSent then Some(w.lastSent[uid]) else None
  }

  lemma GatesOpenIff(env: Env, lastSent: map<string, Sent>, approved: bool, x: Input)
    requires x.Location?
    ensures Gates(env, lastSent, approved, x) == Queued <==>
              && approved
              && (x.event.emergency || x.wall - x.event.observedAt <= 2.0 * x.settings.staleSeconds)
              && (x.event.emergency || !x.settings.suppression || UidOf(x) !in lastSent
                  || FarEnough(env, lastSent[UidOf(x)], x))
  {
  }

  /** Over any run, report k of a radio is forwarded exactly if the radio is
      approved when it comes and, unless it is an emergency, it is no older than
      twice the stale time and, with suppression on, either nothing of the radio was
      forwarded before, or it comes at least the minimum interval after the latest
      forward and is far enough from it or at least a heartbeat later. */
  lemma ForwardedIff(env: Env, w: World, xs: seq<Input>, uid: string, k: nat)
    requires Reports(xs, uid, k)
    ensures var x, latest := xs[k], LatestSent(env, w, xs, uid, k);
            ForwardsUid(env, w, xs, uid, k) <==>
              && Approved(Run(env, w, xs[..k]).rows, x.event)
              && (x.event.emergency || x.wall - x.event.observedAt <= 2.0 * x.settings.staleSeconds)
              && (x.event.emergency || !x.settings.suppression || latest == None || FarEnough(env, latest.value, x))
  {
    TableHoldsLastForward(env, w, xs, uid, k);
    var world := Run(env, w, xs[..k]);
    GatesOpenIff(env, world.lastSent, Approved(world.rows, xs[k].event), xs[k]);
  }

  // ----- Not too often -----

  /** What the gates demand of a forward of a radio in the table. */
  lemma GatesSpace(env: Env, lastSent: map<string, Sent>, x: Input)
    requires x.Location? && UidOf(x) in lastSent && x.settings.suppression && !x.event.emergency
    requires Gates(env, lastSent, true, x) == Queued
    ensures x.mono - lastSent[UidOf(x)].at >= x.settings.minInterval
  {
  }

  /** The forward before this one: where it was, and how long ago. */
  lemma SpacedFromLast(env: Env, w: World, xs: seq<Input>, uid: string, k: nat, j: nat)
    requires ForwardsUid(env, w, xs, uid, j) && xs[j].settings.suppression && !xs[j].event.emergency
    requires LastForward(env, w, xs, uid, j) == Some(k)
    ensures k < j && xs[k].Location? && xs[j].mono - xs[k].mono >= xs[j].settings.minInterval
  {
    TableHoldsLastForward(env, w, xs, uid, j);
    GatesSpace(env, Run(env, w, xs[..j]).lastSent, xs[j]);
  }

  /** A non-emergency forward comes at least the minimum interval after every
      earlier forward of the same radio. */
  lemma RateLimit(env: Env, w: World, xs: seq<Input>, uid: string, i: nat, j: nat)
    requires SteadyClock(xs) && i < j
    requires ForwardsUid(env, w, xs, uid, i) && ForwardsUid(env, w, xs, uid, j)
    requires xs[j].settings.suppression && !xs[j].event.emergency
    ensures xs[j].mono - xs[i].mono >= xs[j].settings.minInterval
  {
    var k := LastWhereAfter(ForwardOf(env, w, xs, uid), i, j);
    SpacedFromLast(env, w, xs, uid, k, j);
    assert xs[i].mono <= xs[k].mono;
  }

  /** Strictly increasing steps, all of them non-emergency forwards of one radio. */
  predicate ForwardSteps(env: Env, w: World, xs: seq<Input>, uid: string, minInterval: real, ks: seq<nat>) {
    && (forall a {:trigger ks[a]} :: 0 <= a < |ks| ==>
         && ForwardsUid(env, w, xs, uid, ks[a])
         && xs[ks[a]].settings.suppression && !xs[ks[a]].event.emergency
         && xs[ks[a]].settings.minInterval == minInterval)
    && forall a, b :: 0 <= a < b < |ks| ==> ks[a] < ks[b]
  }

  /** n intervals in a row. */
  function Intervals(n: nat, d: real): real {
    if n == 0 then 0.0 else Intervals(n - 1, d) + d
  }

  lemma {:induction false} IntervalsIsProduct(n: nat, d: real)
    ensures Intervals(n, d) == n as real * d
  {
    if n > 0 {
      IntervalsIsProduct(n - 1, d);
      assert n as real == (n - 1) as real + 1.0;
      assert n as real * d == (n - 1) as real * d + d;
    }
  }

  lemma {:induction false} SpacedSpan(times: seq<real>, d: real)
    requires times != [] && forall a :: 0 < a < |times| ==> times[a] - times[a - 1] >= d
    ensures times[|times| - 1] - times[0] >= Intervals(|times| - 1, d)
    decreases times
  {
    var last := |times| - 1;
    if last > 0 {
      SpacedSpan(times[..last], d);
    }
  }

  lemma SpanAtLeast(
    env: Env, w: World, xs: seq<Input>, uid: string, minInterval: real, ks: seq<nat>)
    requires SteadyClock(xs) && ks != [] && ForwardSteps(env, w, xs, uid, minInterval, ks)
    ensures var last := |ks| - 1;
            xs[ks[last]].mono - xs[ks[0]].mono >= Intervals(last, minInterval)
  {
    var times := Times(xs, ks);
    forall a | 0 < a < |times| ensures times[a] - times[a - 1] >= minInterval {
      OneStep(env, w, xs, uid, minInterval, ks, a);
    }
    SpacedSpan(times, minInterval);
  }

  /** The times of these steps. */
  function Times(xs: seq<Input>, ks: seq<nat>): (times: seq<real>)
    requires forall a :: 0 <= a < |ks| ==> ks[a] < |xs| && xs[ks[a]].Location?
    ensures |times| == |ks| && forall a :: 0 <= a < |ks| ==> times[a] == xs[ks[a]].mono
  {
    seq(|ks|, a requires 0 <= a < |ks| => xs[ks[a]].mono)
  }

  lemma OneStep(env: Env, w: World, xs: seq<Input>, uid: string, minInterval: real, ks: seq<nat>, a: nat)
    requires SteadyClock(xs) && 0 < a < |ks| && ForwardSteps(env, w, xs, uid, minInterval, ks)
    ensures xs[ks[a]].mono - xs[ks[a - 1]].mono >= minInterval
  {
    RateLimit(env, w, xs, uid, ks[a - 1], ks[a]);
  }

  /** Any span of time holds at most floor(span / interval) + 1 of them. */
  lemma ForwardsPerSpan(
    env: Env, w: World, xs: seq<Input>, uid: string, minInterval: real, ks: seq<nat>, span: real)
    requires SteadyClock(xs) && ForwardSteps(env, w, xs, uid, minInterval, ks)
    requires minInterval > 0.0 && span >= 0.0
    requires ks != [] ==> xs[ks[|ks| - 1]].mono - xs[ks[0]].mono <= span
    ensures |ks| <= (span / minInterval).Floor + 1
  {
    if ks != [] {
      SpanAtLeast(env, w, xs, uid, minInterval, ks);
      DivideOut(|ks| - 1, span, minInterval);
    } else {
      DivideOut(0, span, minInterval);
    }
  }

  lemma DivideOut(n: nat, span: real, d: real)
    requires d > 0.0 && span >= Intervals(n, d)
    ensures (span / d).Floor >= n
  {
    var q, m := span / d, n as real;
    assert q * d == span;
    IntervalsIsProduct(n, d);
    FactorAtLeast(q, m, d, span);
  }

  lemma FactorAtLeast(q: real, n: real, d: real, span: real)
    requires d > 0.0 && q * d == span && span >= n * d
    ensures q >= n
  {
    PositiveProduct(n - q, d);
    assert (n - q) * d == n * d - q * d;
  }

  lemma PositiveProduct(a: real, b: real)
    requires b > 0.0
    ensures a > 0.0 ==> a * b > 0.0
  {
  }

  // ----- Not too rarely -----

  function ReportOf(xs: seq<Input>, uid: string): nat -> bool {
    (k: nat) => Reports(xs, uid, k)
  }

  /** The report of this UID before step n. */
  function PreviousReport(xs: seq<Input>, uid: string, n: nat): Option<nat> {
    LastWhere(ReportOf(xs, uid), n)
  }

  /** Reports of this UID come at most g apart. */
  ghost predicate GapsAtMost(xs: seq<Input>, uid: string, g: real) {
    forall n: nat :: Reports(xs, uid, n) && PreviousReport(xs, uid, n).Some? ==>
      PreviousReport(xs, uid, n).value < n && xs[PreviousReport(xs, uid, n).value].Location? &&
      xs[n].mono - xs[PreviousReport(xs, uid, n).value].mono <= g
  }

  /** Report k passed the allowlist and the staleness cut. */
  predicate Admitted(env: Env, w: World, xs: seq<Input>, k: nat) {
    k < |xs| && xs[k].Location? && Judge(env, Run(env, w, xs[..k]), xs[k]) !in {Blocked, TooOld}
  }

  function MaxReal(a: real, b: real): real { if a >= b then a else b }

  /** What holds an admitted report back: too little time since the last forward. */
  lemma GatesHoldBack(env: Env, lastSent: map<string, Sent>, x: Input)
    requires x.Location? && UidOf(x) in lastSent && Gates(env, lastSent, true, x) in {RateLimited, Stationary}
    ensures x.mono - lastSent[UidOf(x)].at < MaxReal(x.settings.minInterval, x.settings.heartbeat)
  {
  }

  lemma LastForwardIs(env: Env, w: World, xs: seq<Input>, uid: string, i: nat, p: nat)
    requires i < p && ForwardsUid(env, w, xs, uid, i)
    requires forall k :: i < k < p ==> !ForwardsUid(env, w, xs, uid, k)
    ensures LastForward(env, w, xs, uid, p) == Some(i)
  {
    forall k: nat | i < k < p ensures !ForwardOf(env, w, xs, uid)(k) {
      assert !ForwardsUid(env, w, xs, uid, k);
    }
    LastWhereIs(ForwardOf(env, w, xs, uid), i, p);
  }

  lemma LastWhereIs(f: nat -> bool, i: nat, n: nat)
    requires i < n && f(i) && forall k: nat :: i < k < n ==> !f(k)
    ensures LastWhere(f, n) == Some(i)
  {
    LastWhereIsLast(f, n);
  }

  lemma HeldBack(env: Env, w: World, xs: seq<Input>, uid: string, i: nat, p: nat)
    requires Reports(xs, uid, p) && LastForward(env, w, xs, uid, p) == Some(i)
    requires Admitted(env, w, xs, p) && !ForwardsUid(env, w, xs, uid, p)
    ensures i < p && xs[i].Location?
    ensures xs[p].mono - xs[i].mono < MaxReal(xs[p].settings.minInterval, xs[p].settings.heartbeat)
  {
    TableHoldsLastForward(env, w, xs, uid, p);
    GatesHoldBack(env, Run(env, w, xs[..p]).lastSent, xs[p]);
  }

  /** After a forward, while the radio stays allowed and keeps sending fresh
      reports at most g apart, no report comes later than the larger of interval
      and heartbeat, plus g, without a forward in between. In particular two
      consecutive forwards are never further apart than that. */
  lemma HeartbeatBound(
    env: Env, w: World, xs: seq<Input>, uid: string, i: nat, j: nat, g: real, minInterval: real, heartbeat: real)
    requires SteadyClock(xs) && i < j && g >= 0.0 && minInterval >= 0.0
    requires ForwardsUid(env, w, xs, uid, i) && Reports(xs, uid, j)
    requires forall k :: i < k < j ==> !ForwardsUid(env, w, xs, uid, k)
    requires forall k :: i < k < j && Reports(xs, uid, k) ==>
               && Admitted(env, w, xs, k)
               && xs[k].settings.minInterval == minInterval && xs[k].settings.heartbeat == heartbeat
    requires GapsAtMost(xs, uid, g)
    ensures xs[j].mono - xs[i].mono <= MaxReal(minInterval, heartbeat) + g
  {
    LastWhereIsLast(ReportOf(xs, uid), j);
    assert ReportOf(xs, uid)(i);
    var p := PreviousReport(xs, uid, j).value;
    if p > i {
      LastForwardIs(env, w, xs, uid, i, p);
      HeldBack(env, w, xs, uid, i, p);
    }
  }
}
