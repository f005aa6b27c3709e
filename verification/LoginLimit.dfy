/** The login rate limit: failed attempts per address, pruned whenever they are
    checked. A time window holds at most the limit of failures, because nothing
    comes between the check and the outcome of a login; what it could hold if
    something did is stated beside it. */
module LoginLimit {

  /** The attempts younger than the window. */
  function Recent(ts: seq<real>, now: real, window: real): seq<real> {
    if ts == [] then []
    else
      var last := ts[|ts| - 1];
      Recent(ts[..|ts| - 1], now, window) + (if now - last < window then [last] else [])
  }

  function CountRecent(ts: seq<real>, now: real, window: real): nat {
    |Recent(ts, now, window)|
  }

  /** attempts: the module's lists. failures: all failures of an address since it
      was last cleared. passes: its logins between a passed check and their end. */
  datatype State = State(
    attempts: map<string, seq<real>>, failures: map<string, seq<real>>, passes: map<string, nat>, clock: real)

  function ListOf(m: map<string, seq<real>>, ip: string): seq<real> { if ip in m then m[ip] else [] }

  function PassesOf(s: State, ip: string): nat { if ip in s.passes then s.passes[ip] else 0 }

  datatype Op =
    | Check(ip: string, now: real)
    | Fail(ip: string, now: real)    // a login that passed its check records a failure
    | Succeed(ip: string, now: real) // a login that passed its check clears the address

  /** limit: failures allowed; parallel: logins of one address at a time. */
  datatype Config = Config(window: real, limit: nat, parallel: nat)

  predicate Enabled(c: Config, s: State, op: Op) {
    && op.now >= s.clock
    && (op.Check? ==> PassesOf(s, op.ip) < c.parallel)
    && (!op.Check? ==> PassesOf(s, op.ip) > 0)
  }

  function Step(c: Config, s: State, op: Op): State {
    if !Enabled(c, s, op) then s
    else match op
      case Check(ip, now) =>
        var bucket := Recent(ListOf(s.attempts, ip), now, c.window);
        State(s.attempts[ip := bucket], s.failures,
              if |bucket| < c.limit then s.passes[ip := PassesOf(s, ip) + 1] else s.passes, now)
      case Fail(ip, now) =>
        State(s.attempts[ip := ListOf(s.attempts, ip) + [now]], s.failures[ip := ListOf(s.failures, ip) + [now]],
              s.passes[ip := PassesOf(s, ip) - 1], now)
      case Succeed(ip, now) =>
        State(s.attempts - {ip}, s.failures - {ip}, s.passes[ip := PassesOf(s, ip) - 1], now)
  }

  const INITIAL := State(map[], map[], map[], 0.0)

  function Run(c: Config, ops: seq<Op>): State {
    if ops == [] then INITIAL else Step(c, Run(c, ops[..|ops| - 1]), ops[|ops| - 1])
  }

  // ----- The login handler, which nothing interrupts -----

  /** checkedAt, endedAt: the times of the check and of the recorded outcome. */
  datatype Login = Login(ip: string, checkedAt: real, endedAt: real, correct: bool)

  /** One login: the check and, if it passes, the outcome, with no other login in
      between. Only steady clocks are of interest. */
  function Attempt(c: Config, s: State, l: Login): State {
    if l.endedAt < l.checkedAt then s
    else
      var checked := Step(c, s, Check(l.ip, l.checkedAt));
      if PassesOf(checked, l.ip) == PassesOf(s, l.ip) then checked
      else Step(c, checked, if l.correct then Succeed(l.ip, l.endedAt) else Fail(l.ip, l.endedAt))
  }

  function Logins(c: Config, ls: seq<Login>): State {
    if ls == [] then INITIAL else Attempt(c, Logins(c, ls[..|ls| - 1]), ls[|ls| - 1])
  }

  /** The module's lists; the failures, passes and clock beside them are history. */
  class RateLimiter {
    const config: Config
    var attempts: map<string, seq<real>>
    ghost var failures: map<string, seq<real>>
    ghost var passes: map<string, nat>
    ghost var clock: real

    ghost function View(): State
      reads this
    {
      State(attempts, failures, passes, clock)
    }

    constructor (config: Config)
      ensures View() == INITIAL && this.config == config
    {
      this.config := config;
      attempts, failures, passes, clock := map[], map[], map[], 0.0;
    }

    method CheckRateLimit(ip: string, now: real) returns (allowed: bool)
      requires Enabled(config, View(), Check(ip, now))
      modifies this
      ensures View() == Step(config, old(View()), Check(ip, now))
      ensures allowed <==> CountRecent(ListOf(old(attempts), ip), now, config.window) < config.limit
    {
      var known, bucket: seq<real> := ListOf(attempts, ip), [];
      for i := 0 to |known|
        invariant bucket == Recent(known[..i], now, config.window)
      {
        assert known[..i + 1][..i] == known[..i];
        if now - known[i] < config.window {
          bucket := bucket + [known[i]];
        }
      }
      assert known[..|known|] == known;
      clock := now;
      passes := if |bucket| < config.limit then passes[ip := PassesOf(View(), ip) + 1] else passes;
      attempts := attempts[ip := bucket];
      allowed := |bucket| < config.limit;
    }

    method RecordFailedLogin(ip: string, now: real)
      requires Enabled(config, View(), Fail(ip, now))
      modifies this
      ensures View() == Step(config, old(View()), Fail(ip, now))
    {
      clock := now;
      passes := passes[ip := PassesOf(View(), ip) - 1];
      failures := failures[ip := ListOf(failures, ip) + [now]];
      if ip !in attempts {
        attempts := attempts[ip := []];
      }
      attempts := attempts[ip := attempts[ip] + [now]];
    }

    method ClearFailedLogins(ip: string, now: real)
      requires Enabled(config, View(), Succeed(ip, now))
      modifies this
      ensures View() == Step(config, old(View()), Succeed(ip, now))
    {
      clock := now;
      passes := passes[ip := PassesOf(View(), ip) - 1];
      failures := failures - {ip};
      attempts := attempts - {ip};
    }

    /** The login handler: nothing awaits between the check and the outcome, which
        takes a time of its own. */
    method LoginPost(ip: string, now: real, later: real, correct: bool) returns (allowed: bool)
      requires clock <= now <= later && PassesOf(View(), ip) == 0 && config.parallel > 0
      modifies this
      ensures View() == Attempt(config, old(View()), Login(ip, now, later, correct))
      ensures PassesOf(View(), ip) == 0
      ensures allowed <==> CountRecent(ListOf(old(attempts), ip), now, config.window) < config.limit
    {
      allowed := CheckRateLimit(ip, now);
      if !allowed {
        return;
      }
      if !correct {
        RecordFailedLogin(ip, later);
        return;
      }
      ClearFailedLogins(ip, later);
    }
  }

  // ----- Pruning forgets nothing that still counts -----

  /** Pruning keeps exactly the attempts younger than the window, each as often as
      before. */
  lemma {:induction false} RecentMeans(ts: seq<real>, now: real, window: real, t: real)
    ensures multiset(Recent(ts, now, window))[t] == if now - t < window then multiset(ts)[t] else 0
    decreases ts
  {
    if ts != [] {
      var n := |ts| - 1;
      RecentMeans(ts[..n], now, window, t);
      assert ts == ts[..n] + [ts[n]];
    }
  }

  lemma RecentSnoc(ts: seq<real>, t: real, now: real, window: real)
    ensures Recent(ts + [t], now, window) == Recent(ts, now, window) + (if now - t < window then [t] else [])
  {
    assert (ts + [t])[..|ts|] == ts;
  }

  lemma {:induction false} RecentOfRecent(ts: seq<real>, a: real, b: real, window: real)
    requires a <= b
    ensures Recent(Recent(ts, a, window), b, window) == Recent(ts, b, window)
    ensures CountRecent(ts, b, window) <= CountRecent(ts, a, window)
    decreases ts
  {
    if ts != [] {
      var before, last := ts[..|ts| - 1], ts[|ts| - 1];
      var kept := Recent(before, a, window);
      RecentOfRecent(before, a, b, window);
      RecentSnoc(kept, last, b, window);
      assert Recent(ts, a, window) == if a - last < window then kept + [last] else kept;
    }
  }

  // ----- The invariant -----

  function Bound(c: Config): nat {
    if c.limit == 0 || c.parallel == 0 then 0 else c.limit + c.parallel - 1
  }

  /** At the moment of each failure, the window that ends there was within bounds. */
  ghost predicate WithinBound(c: Config, ts: seq<real>) {
    forall k :: 0 <= k < |ts| ==> CountRecent(ts[..k + 1], ts[k], c.window) <= Bound(c)
  }

  predicate Ordered(ts: seq<real>) { forall i, j :: 0 <= i < j < |ts| ==> ts[i] <= ts[j] }

  /** From this time on the pruned list and the full one agree. */
  ghost predicate Agree(known: seq<real>, ts: seq<real>, clock: real, window: real) {
    forall now :: now >= clock ==> Recent(known, now, window) == Recent(ts, now, window)
  }

  ghost predicate Past(ts: seq<real>, clock: real) {
    Ordered(ts) && forall i :: 0 <= i < |ts| ==> ts[i] <= clock
  }

  /** The invariant of one address: its pruned list, all its failures, the clock,
      and its logins between check and end. */
  ghost predicate Sound(c: Config, known: seq<real>, ts: seq<real>, clock: real, passes: nat) {
    && Agree(known, ts, clock, c.window)
    && CountRecent(ts, clock, c.window) + passes <= Bound(c)
    && passes <= c.parallel
    && Past(ts, clock)
    && WithinBound(c, ts)
  }

  ghost predicate Inv(c: Config, s: State, ip: string) {
    Sound(c, ListOf(s.attempts, ip), ListOf(s.failures, ip), s.clock, PassesOf(s, ip))
  }

  lemma PruneAgrees(known: seq<real>, ts: seq<real>, clock: real, now: real, window: real)
    requires clock <= now && Agree(known, ts, clock, window)
    ensures Agree(Recent(known, now, window), ts, now, window)
  {
    forall t | t >= now ensures Recent(Recent(known, now, window), t, window) == Recent(ts, t, window) {
      RecentOfRecent(known, now, t, window);
    }
  }

  lemma AppendAgrees(known: seq<real>, ts: seq<real>, clock: real, now: real, window: real)
    requires clock <= now && Agree(known, ts, clock, window)
    ensures Agree(known + [now], ts + [now], now, window)
  {
    forall t | t >= now ensures Recent(known + [now], t, window) == Recent(ts + [now], t, window) {
      RecentSnoc(known, now, t, window);
      RecentSnoc(ts, now, t, window);
    }
  }

  lemma AppendWithin(c: Config, ts: seq<real>, now: real)
    requires WithinBound(c, ts) && CountRecent(ts + [now], now, c.window) <= Bound(c)
    ensures WithinBound(c, ts + [now])
  {
    var all := ts + [now];
    forall k | 0 <= k < |all| ensures CountRecent(all[..k + 1], all[k], c.window) <= Bound(c) {
      assert all[..k + 1] == if k < |ts| then ts[..k + 1] else all;
    }
  }

  /** Time passes: fewer failures are recent. */
  lemma Later(c: Config, known: seq<real>, ts: seq<real>, clock: real, passes: nat, now: real)
    requires Sound(c, known, ts, clock, passes) && clock <= now
    ensures Sound(c, known, ts, now, passes)
  {
    RecentOfRecent(ts, clock, now, c.window);
  }

  /** The list is pruned and, if that leaves room, a login passes. */
  lemma Checked(c: Config, known: seq<real>, ts: seq<real>, now: real, passes: nat)
    requires Sound(c, known, ts, now, passes) && passes < c.parallel
    ensures var bucket := Recent(known, now, c.window);
            Sound(c, bucket, ts, now, if |bucket| < c.limit then passes + 1 else passes)
  {
    PruneAgrees(known, ts, now, now, c.window);
  }

  /** A login that passed its check fails. */
  lemma Failed(c: Config, known: seq<real>, ts: seq<real>, now: real, passes: nat)
    requires Sound(c, known, ts, now, passes) && passes > 0
    ensures Sound(c, known + [now], ts + [now], now, passes - 1)
  {
    RecentSnoc(ts, now, now, c.window);
    AppendAgrees(known, ts, now, now, c.window);
    AppendPast(ts, now);
    AppendWithin(c, ts, now);
  }

  lemma AppendPast(ts: seq<real>, now: real)
    requires Past(ts, now)
    ensures Past(ts + [now], now)
  {
  }

  /** Operations of other addresses only move the clock. */
  lemma OthersKeep(c: Config, s: State, op: Op, ip: string)
    requires Inv(c, s, ip) && Enabled(c, s, op) && op.ip != ip
    ensures Inv(c, Step(c, s, op), ip)
  {
    Later(c, ListOf(s.attempts, ip), ListOf(s.failures, ip), s.clock, PassesOf(s, ip), op.now);
  }

  lemma CheckKeeps(c: Config, s: State, now: real, ip: string)
    requires Inv(c, s, ip) && Enabled(c, s, Check(ip, now))
    ensures Inv(c, Step(c, s, Check(ip, now)), ip)
  {
    var known, ts, passes := ListOf(s.attempts, ip), ListOf(s.failures, ip), PassesOf(s, ip);
    Later(c, known, ts, s.clock, passes, now);
    Checked(c, known, ts, now, passes);
  }

  lemma FailKeeps(c: Config, s: State, now: real, ip: string)
    requires Inv(c, s, ip) && Enabled(c, s, Fail(ip, now))
    ensures Inv(c, Step(c, s, Fail(ip, now)), ip)
  {
    var known, ts, passes := ListOf(s.attempts, ip), ListOf(s.failures, ip), PassesOf(s, ip);
    Later(c, known, ts, s.clock, passes, now);
    Failed(c, known, ts, now, passes);
  }

  lemma SucceedKeeps(c: Config, s: State, now: real, ip: string)
    requires Inv(c, s, ip) && Enabled(c, s, Succeed(ip, now))
    ensures Inv(c, Step(c, s, Succeed(ip, now)), ip)
  {
  }

  lemma StepKeeps(c: Config, s: State, op: Op, ip: string)
    requires Inv(c, s, ip)
    ensures Inv(c, Step(c, s, op), ip)
  {
    if Enabled(c, s, op) {
      if op.ip != ip {
        OthersKeep(c, s, op, ip);
      } else {
        match op
        case Check(_, now) => CheckKeeps(c, s, now, ip);
        case Fail(_, now) => FailKeeps(c, s, now, ip);
        case Succeed(_, now) => SucceedKeeps(c, s, now, ip);
      }
    }
  }

  lemma {:induction false} RunKeeps(c: Config, ops: seq<Op>, ip: string)
    ensures Inv(c, Run(c, ops), ip)
  {
    if ops != [] {
      RunKeeps(c, ops[..|ops| - 1], ip);
      StepKeeps(c, Run(c, ops[..|ops| - 1]), ops[|ops| - 1], ip);
    }
  }

  // ----- Any window -----

  /** How many of these times lie in the half-open window from a. */
  function CountIn(ts: seq<real>, a: real, window: real): nat {
    if ts == [] then 0
    else
      var last := ts[|ts| - 1];
      CountIn(ts[..|ts| - 1], a, window) + (if a <= last < a + window then 1 else 0)
  }

  lemma {:induction false} WindowInRecent(ts: seq<real>, a: real, now: real, window: real)
    requires a <= now < a + window
    requires forall i :: 0 <= i < |ts| ==> ts[i] <= now
    ensures CountIn(ts, a, window) <= CountRecent(ts, now, window)
    decreases ts
  {
    if ts != [] {
      WindowInRecent(ts[..|ts| - 1], a, now, window);
    }
  }

  lemma WithinPrefix(c: Config, ts: seq<real>, n: nat)
    requires n <= |ts| && WithinBound(c, ts)
    ensures WithinBound(c, ts[..n])
  {
    forall k | 0 <= k < n ensures CountRecent(ts[..n][..k + 1], ts[..n][k], c.window) <= Bound(c) {
      assert ts[..n][..k + 1] == ts[..k + 1];
    }
  }

  lemma {:induction false} CountInBound(c: Config, ts: seq<real>, a: real)
    requires Ordered(ts) && WithinBound(c, ts)
    ensures CountIn(ts, a, c.window) <= Bound(c)
    decreases ts
  {
    if ts != [] {
      var n := |ts| - 1;
      if a <= ts[n] < a + c.window {
        assert ts[..n + 1] == ts;
        WindowInRecent(ts, a, ts[n], c.window);
      } else {
        WithinPrefix(c, ts, n);
        CountInBound(c, ts[..n], a);
      }
    }
  }

  /** Over any run in which failures follow passed checks under a steady clock, any
      half-open window of the configured length holds at most limit + parallel - 1
      failures of one address between clears. */
  lemma FailuresPerWindow(c: Config, ops: seq<Op>, ip: string, a: real)
    ensures CountIn(ListOf(Run(c, ops).failures, ip), a, c.window) <= Bound(c)
  {
    RunKeeps(c, ops, ip);
    CountInBound(c, ListOf(Run(c, ops).failures, ip), a);
  }

  lemma AttemptKeeps(c: Config, s: State, l: Login, ip: string)
    requires Inv(c, s, ip) && c.parallel == 1 && PassesOf(s, l.ip) == 0
    ensures Inv(c, Attempt(c, s, l), ip) && PassesOf(Attempt(c, s, l), l.ip) == 0
    ensures PassesOf(s, ip) == 0 ==> PassesOf(Attempt(c, s, l), ip) == 0
  {
    var checked := Step(c, s, Check(l.ip, l.checkedAt));
    StepKeeps(c, s, Check(l.ip, l.checkedAt), ip);
    StepKeeps(c, checked, if l.correct then Succeed(l.ip, l.endedAt) else Fail(l.ip, l.endedAt), ip);
  }

  lemma {:induction false} LoginsKeep(c: Config, ls: seq<Login>, ip: string)
    requires c.parallel == 1
    ensures Inv(c, Logins(c, ls), ip) && PassesOf(Logins(c, ls), ip) == 0
  {
    if ls != [] {
      var front, last := ls[..|ls| - 1], ls[|ls| - 1];
      LoginsKeep(c, front, ip);
      LoginsKeep(c, front, last.ip);
      AttemptKeeps(c, Logins(c, front), last, ip);
    }
  }

  /** Logins one after the other, by the clock. */
  predicate Steady(ls: seq<Login>) {
    && (forall i :: 0 <= i < |ls| ==> 0.0 <= ls[i].checkedAt <= ls[i].endedAt)
    && forall i, j :: 0 <= i < j < |ls| ==> ls[i].endedAt <= ls[j].checkedAt
  }

  /** The times of the wrong passwords of an address that were let through since its
      last right one that was. */
  function Wrong(c: Config, ls: seq<Login>, ip: string): seq<real>
    decreases |ls|, 1
  {
    if ls == [] then []
    else
      var front, l := ls[..|ls| - 1], ls[|ls| - 1];
      var before := Wrong(c, front, ip);
      if l.ip != ip || !LetThrough(c, front, l) then before
      else if l.correct then []
      else before + [l.endedAt]
  }

  /** A login is let through while fewer of these than the limit are recent. */
  predicate LetThrough(c: Config, before: seq<Login>, l: Login)
    decreases |before|, 2
  {
    CountRecent(Wrong(c, before, l.ip), l.checkedAt, c.window) < c.limit
  }

  /** What one uninterrupted login does to the failures on record, if it is let
      through or not. */
  lemma AttemptRecords(c: Config, s: State, l: Login, ip: string)
    requires c.parallel == 1 && PassesOf(s, l.ip) == 0 && s.clock <= l.checkedAt <= l.endedAt
    ensures var s' := Attempt(c, s, l);
            var allowed := CountRecent(ListOf(s.attempts, l.ip), l.checkedAt, c.window) < c.limit;
            && s'.clock <= l.endedAt
            && ListOf(s'.failures, ip) ==
               (if l.ip != ip || !allowed then ListOf(s.failures, ip)
                else if l.correct then [] else ListOf(s.failures, ip) + [l.endedAt])
  {
  }

  lemma SteadyPrefix(ls: seq<Login>)
    requires ls != [] && Steady(ls)
    ensures Steady(ls[..|ls| - 1])
    ensures |ls| > 1 ==> ls[|ls| - 2].endedAt <= ls[|ls| - 1].checkedAt
  {
  }

  /** Over any run of logins through the handler, the failures on record are exactly
      the wrong passwords let through since the last right one. */
  lemma {:induction false} FailuresAreWrong(c: Config, ls: seq<Login>, ip: string)
    requires c.parallel == 1 && Steady(ls)
    ensures ListOf(Logins(c, ls).failures, ip) == Wrong(c, ls, ip)
    ensures Logins(c, ls).clock <= if ls == [] then 0.0 else ls[|ls| - 1].endedAt
    decreases |ls|, 1
  {
    if ls != [] {
      var front, l := ls[..|ls| - 1], ls[|ls| - 1];
      SteadyPrefix(ls);
      FailuresAreWrong(c, front, ip);
      LoginsKeep(c, front, l.ip);
      HandlerDecides(c, front, l);
      AttemptRecords(c, Logins(c, front), l, ip);
    }
  }

  /** The check, which only sees the pruned list, lets a login through exactly if
      fewer wrong passwords than the limit are recent. */
  lemma {:induction false} HandlerDecides(c: Config, ls: seq<Login>, l: Login)
    requires c.parallel == 1 && Steady(ls)
    requires ls != [] ==> ls[|ls| - 1].endedAt <= l.checkedAt
    requires 0.0 <= l.checkedAt
    ensures CountRecent(ListOf(Logins(c, ls).attempts, l.ip), l.checkedAt, c.window) < c.limit <==> LetThrough(c, ls, l)
    decreases |ls|, 2
  {
    LoginsKeep(c, ls, l.ip);
    if ls != [] {
      FailuresAreWrong(c, ls, l.ip);
    }
  }

  /** The limit itself, for the handler as it is: over any run of logins of any
      addresses, any half-open window holds at most the configured number of wrong
      passwords of one address let through between right ones. */
  lemma LoginLimitHolds(c: Config, ls: seq<Login>, ip: string, a: real)
    requires c.parallel == 1 && Steady(ls)
    ensures CountIn(Wrong(c, ls, ip), a, c.window) <= c.limit
  {
    FailuresAreWrong(c, ls, ip);
    LoginsKeep(c, ls, ip);
    CountInBound(c, ListOf(Logins(c, ls).failures, ip), a);
  }

  // ----- A caller that interrupts itself -----

  const IP := "ip"

  function Zeros(n: nat): (ts: seq<real>)
    ensures |ts| == n
  {
    seq(n, _ => 0.0)
  }

  /** n failures on record, all at time zero, and p logins past their check. */
  ghost predicate At(s: State, n: nat, p: nat) {
    && ListOf(s.attempts, IP) == ListOf(s.failures, IP) == Zeros(n)
    && PassesOf(s, IP) == p && s.clock == 0.0
  }

  lemma {:induction false} ZerosCount(n: nat, window: real)
    requires window > 0.0
    ensures Recent(Zeros(n), 0.0, window) == Zeros(n) && CountIn(Zeros(n), 0.0, window) == n
  {
    if n > 0 {
      assert Zeros(n)[..n - 1] == Zeros(n - 1) && Zeros(n - 1) + [0.0] == Zeros(n);
      ZerosCount(n - 1, window);
    }
  }

  lemma CheckAt(c: Config, s: State, n: nat, p: nat)
    requires c.window > 0.0 && At(s, n, p) && n < c.limit && p < c.parallel
    ensures At(Step(c, s, Check(IP, 0.0)), n, p + 1)
  {
    ZerosCount(n, c.window);
  }

  lemma FailAt(c: Config, s: State, n: nat, p: nat)
    requires At(s, n, p) && p > 0
    ensures At(Step(c, s, Fail(IP, 0.0)), n + 1, p - 1)
  {
    assert Zeros(n) + [0.0] == Zeros(n + 1);
  }

  lemma RunNext(c: Config, ops: seq<Op>, op: Op)
    ensures Run(c, ops + [op]) == Step(c, Run(c, ops), op)
  {
    assert (ops + [op])[..|ops|] == ops;
  }

  /** Fewer failures than the limit, and any number of logins past their check. */
  lemma {:induction false} Reach(c: Config, n: nat, p: nat) returns (ops: seq<Op>)
    requires c.window > 0.0 && n < c.limit && p <= c.parallel && c.parallel > 0
    ensures At(Run(c, ops), n, p)
    decreases n, p
  {
    if p > 0 {
      var before := Reach(c, n, p - 1);
      CheckAt(c, Run(c, before), n, p - 1);
      RunNext(c, before, Check(IP, 0.0));
      ops := before + [Check(IP, 0.0)];
    } else if n > 0 {
      var before := Reach(c, n - 1, 1);
      FailAt(c, Run(c, before), n - 1, 1);
      RunNext(c, before, Fail(IP, 0.0));
      ops := before + [Fail(IP, 0.0)];
    } else {
      ops := [];
    }
  }

  /** All of them fail, k of them so far. */
  lemma {:induction false} Overrun(c: Config, k: nat) returns (ops: seq<Op>)
    requires c.window > 0.0 && c.limit > 0 && c.parallel > 0 && k <= c.parallel
    ensures At(Run(c, ops), c.limit - 1 + k, c.parallel - k)
  {
    if k == 0 {
      ops := Reach(c, c.limit - 1, c.parallel);
    } else {
      var before := Overrun(c, k - 1);
      FailAt(c, Run(c, before), c.limit - 2 + k, c.parallel - k + 1);
      RunNext(c, before, Fail(IP, 0.0));
      ops := before + [Fail(IP, 0.0)];
    }
  }

  /** The bound is reached: from the start, some run puts limit + parallel - 1
      failures into one window. */
  lemma BoundReached(c: Config) returns (ops: seq<Op>)
    requires c.window > 0.0 && c.limit > 0 && c.parallel > 0
    ensures CountIn(ListOf(Run(c, ops).failures, IP), 0.0, c.window) == c.limit + c.parallel - 1
  {
    ops := Overrun(c, c.parallel);
    ZerosCount(c.limit - 1 + c.parallel, c.window);
  }

  ghost predicate WithinLimit(c: Config) {
    forall ops, ip, a :: CountIn(ListOf(Run(c, ops).failures, ip), a, c.window) <= c.limit
  }

  /** If a caller could begin a login before the last one of the address is done,
      the limit would hold exactly if it never did. */
  lemma LimitHoldsIff(c: Config)
    requires c.window > 0.0 && c.limit > 0 && c.parallel > 0
    ensures WithinLimit(c) <==> c.parallel == 1
  {
    if c.parallel == 1 {
      forall ops, ip, a ensures CountIn(ListOf(Run(c, ops).failures, ip), a, c.window) <= c.limit {
        FailuresPerWindow(c, ops, ip, a);
      }
    } else {
      var ops := BoundReached(c);
      assert CountIn(ListOf(Run(c, ops).failures, IP), 0.0, c.window) > c.limit;
    }
  }
}
