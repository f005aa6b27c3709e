/** The forwarding engine: allowlist, staleness cut, per-radio rate limit,
    movement and heartbeat dedupe, and fan-out to the queues of TAK servers.
    One event is one atomic step; distance and CoT rendering are parameters. */
module Forwarding {
  import opened Basics
  import opened Identities
  import opened Registry
  import opened TakManager

  datatype Event = Event(
    radioId: string, systemId: Option<string>, alias: Option<string>,
    latitude: real, longitude: real, observedAt: real, emergency: bool)

  datatype Settings = Settings(
    staleSeconds: real, minInterval: real, minMovement: real, heartbeat: real, suppression: bool)

  /** The code outside the model: distance in metres, and the CoT text of an
      event in the style of a server, or in default style. */
  datatype Env = Env(
    distance: (real, real, real, real) -> real,
    render: (Event, Option<string>) -> string)

  function Dashed(s: string): string {
    seq(|s|, i requires 0 <= i < |s| => if s[i] == ' ' then '-' else s[i])
  }

  /** The system part of a UID, before its spaces become dashes. */
  function SystemName(system: Option<string>): string {
    if Truthy(system) then system.value else "UNK"
  }

  function StableUid(system: Option<string>, radio: string): string {
    "RADIOTAK-" + Dashed(SystemName(system)) + "-" + radio
  }

  datatype Sent = Sent(latitude: real, longitude: real, at: real)

  datatype Verdict = Blocked | TooOld | RateLimited | Stationary | Queued

  /** Everything the engine keeps: identity rows, the last forward per UID, and
      what every server's queue has been given since its manager was registered. */
  datatype World = World(rows: seq<Identity>, lastSent: map<string, Sent>, logs: Logs)

  /** One thing that happens. wall and mono are the two clocks at that moment;
      servers the enabled ones; reachable what a broadcast would feed. A manager
      that is registered, for the first time or in place of another, starts with
      an empty queue. */
  datatype Input =
    | Location(event: Event, settings: Settings, wall: real, mono: real,
               servers: seq<string>, reachable: set<string>)
    | Decode(radioId: string, systemId: Option<string>, alias: Option<string>)
    | Operator(row: nat, enabled: bool, forwardToTak: bool)
    | Register(id: string)
    | Unregister(id: string)

  predicate Fresh(x: Input)
    requires x.Location?
  {
    x.event.emergency || x.wall - x.event.observedAt <= x.settings.staleSeconds * 2.0
  }

  function UidOf(x: Input): string
    requires x.Location?
  {
    StableUid(x.event.systemId, x.event.radioId)
  }

  /** The identity an event belongs to exists, is enabled and approved. */
  predicate Approved(rows: seq<Identity>, event: Event) {
    var found := FindIdentity(rows, event.radioId, event.systemId);
    found.Some? && found.value < |rows| && Allowed(rows[found.value])
  }

  /** The gates an event passes, in order. */
  function Gates(env: Env, lastSent: map<string, Sent>, approved: bool, x: Input): Verdict
    requires x.Location?
  {
    if !approved then Blocked
    else if !Fresh(x) then TooOld
    else if UidOf(x) in lastSent && x.settings.suppression && !x.event.emergency then
      var last := lastSent[UidOf(x)];
      var dt := x.mono - last.at;
      var moved := env.distance(last.latitude, last.longitude, x.event.latitude, x.event.longitude);
      if dt < x.settings.minInterval then RateLimited
      else if moved < x.settings.minMovement && dt < x.settings.heartbeat then Stationary
      else Queued
    else Queued
  }

  function Judge(env: Env, w: World, x: Input): Verdict
    requires x.Location?
  {
    Gates(env, w.lastSent, Approved(w.rows, x.event), x)
  }

  function Item(env: Env, x: Input, style: Option<string>): QueuedCot
    requires x.Location?
  {
    QueuedCot(env.render(x.event, style), UidOf(x), x.wall)
  }

  /** One CoT per enabled server; a server without a manager broadcasts instead. */
  function Serve(env: Env, x: Input, servers: seq<string>, logs: Logs): Logs
    requires x.Location?
    decreases servers
  {
    if servers == [] then logs
    else
      var item := Item(env, x, Some(servers[0]));
      Serve(env, x, servers[1..],
        if servers[0] in logs then AddFor(logs, servers[0], item) else AddAll(logs, x.reachable, item))
  }

  function FanOut(env: Env, x: Input, logs: Logs): Logs
    requires x.Location?
  {
    if x.servers == [] then AddAll(logs, x.reachable, Item(env, x, None))
    else Serve(env, x, x.servers, logs)
  }

  function Process(env: Env, w: World, x: Input): (World, Verdict)
    requires x.Location?
  {
    var e := x.event;
    var rows := Observe(w.rows, e.radioId, e.systemId, e.alias, Some(e.latitude), Some(e.longitude)).0;
    var verdict := Judge(env, w, x);
    if verdict == Queued then
      (World(rows, w.lastSent[UidOf(x) := Sent(e.latitude, e.longitude, x.mono)], FanOut(env, x, w.logs)), verdict)
    else (w.(rows := rows), verdict)
  }

  function Step(env: Env, w: World, x: Input): World {
    match x
    case Location(_, _, _, _, _, _) => Process(env, w, x).0
    case Decode(radio, system, alias) => w.(rows := Observe(w.rows, radio, system, alias, None, None).0)
    case Operator(i, enabled, forward) =>
      if i < |w.rows| then w.(rows := w.rows[i := w.rows[i].(enabled := enabled, forwardToTak := forward)]) else w
    case Register(id) => w.(logs := w.logs[id := []])
    case Unregister(id) => w.(logs := w.logs - {id})
  }

  function Run(env: Env, w: World, xs: seq<Input>): World {
    if xs == [] then w else Step(env, Run(env, w, xs[..|xs| - 1]), xs[|xs| - 1])
  }

  /** Event k of the run was forwarded. */
  predicate Forwards(env: Env, w: World, xs: seq<Input>, k: nat) {
    k < |xs| && xs[k].Location? && Judge(env, Run(env, w, xs[..k]), xs[k]) == Queued
  }

  lemma RunPrefix(env: Env, w: World, xs: seq<Input>, n: nat)
    requires n < |xs|
    ensures Run(env, w, xs[..n + 1]) == Step(env, Run(env, w, xs[..n]), xs[n])
  {
    assert xs[..n + 1][..n] == xs[..n];
  }

  // ----- Fan-out: how many copies each queue gets -----

  function Missing(servers: seq<string>, logs: Logs): nat {
    if servers == [] then 0 else (if servers[0] in logs then 0 else 1) + Missing(servers[1..], logs)
  }

  predicate NoRepeats(servers: seq<string>) {
    forall i, j :: 0 <= i < j < |servers| ==> servers[i] != servers[j]
  }

  /** Copies one forwarded event puts into the queue of server m: its own, plus
      one per enabled server without a manager (and one if no server is enabled)
      when the broadcast reaches m. */
  function Copies(x: Input, logs: Logs, m: string): nat
    requires x.Location?
  {
    (if m in x.servers then 1 else 0) +
    (if m in x.reachable then Missing(x.servers, logs) + (if x.servers == [] then 1 else 0) else 0)
  }

  ghost predicate OfEvent(env: Env, x: Input, item: QueuedCot)
    requires x.Location?
  {
    exists style :: item == Item(env, x, style)
  }

  /** A queue is only added to, and every added CoT is of this event. */
  ghost predicate Grows(env: Env, x: Input, old_: Logs, new_: Logs, m: string, n: nat)
    requires x.Location?
  {
    && m in old_ && m in new_
    && |new_[m]| == |old_[m]| + n
    && old_[m] <= new_[m]
    && forall i :: |old_[m]| <= i < |new_[m]| ==> OfEvent(env, x, new_[m][i])
  }

  lemma GrowsTransitive(env: Env, x: Input, a: Logs, b: Logs, c: Logs, m: string, j: nat, k: nat)
    requires x.Location? && Grows(env, x, a, b, m, j) && Grows(env, x, b, c, m, k)
    ensures Grows(env, x, a, c, m, j + k)
  {
    forall i | |a[m]| <= i < |c[m]| ensures OfEvent(env, x, c[m][i]) {
      if i < |b[m]| {
        assert c[m][i] == b[m][i];
      }
    }
  }

  lemma MissingFrame(servers: seq<string>, a: Logs, b: Logs)
    requires a.Keys == b.Keys
    ensures Missing(servers, a) == Missing(servers, b)
  {
  }

  lemma {:induction false} ServeCopies(env: Env, x: Input, servers: seq<string>, logs: Logs, m: string)
    requires x.Location? && m in logs && NoRepeats(servers)
    ensures Serve(env, x, servers, logs).Keys == logs.Keys
    ensures Grows(env, x, logs, Serve(env, x, servers, logs), m,
              (if m in servers then 1 else 0) + (if m in x.reachable then Missing(servers, logs) else 0))
    decreases servers
  {
    if servers != [] {
      var item := Item(env, x, Some(servers[0]));
      var registered := servers[0] in logs;
      var logs' := if registered then AddFor(logs, servers[0], item) else AddAll(logs, x.reachable, item);
      var takes := if registered then m == servers[0] else m in x.reachable;
      assert logs'.Keys == logs.Keys;
      assert logs'[m] == logs[m] + (if takes then [item] else []);
      assert Grows(env, x, logs, logs', m, if takes then 1 else 0);
      ServeCopies(env, x, servers[1..], logs', m);
      MissingFrame(servers[1..], logs', logs);
      var rest := (if m in servers[1..] then 1 else 0) + (if m in x.reachable then Missing(servers[1..], logs) else 0);
      GrowsTransitive(env, x, logs, logs', Serve(env, x, servers, logs), m, if takes then 1 else 0, rest);
    }
  }

  /** The exact number of copies, for any set of servers, managers and states. */
  lemma FanOutCopies(env: Env, x: Input, logs: Logs, m: string)
    requires x.Location? && m in logs && NoRepeats(x.servers)
    ensures Grows(env, x, logs, FanOut(env, x, logs), m, Copies(x, logs, m))
  {
    if x.servers == [] {
      assert FanOut(env, x, logs)[m] == logs[m] + (if m in x.reachable then [Item(env, x, None)] else []);
    } else {
      ServeCopies(env, x, x.servers, logs, m);
    }
  }

  /** The configuration the one-copy promise is about. */
  predicate AllServed(x: Input, logs: Logs)
    requires x.Location?
  {
    x.servers != [] && NoRepeats(x.servers) && forall i :: 0 <= i < |x.servers| ==> x.servers[i] in logs
  }

  /** Every queue is reached by its own server only, exactly when every enabled
      server has a manager and one is enabled, or no broadcast would reach any. */
  lemma OneCopyIff(x: Input, logs: Logs)
    requires x.Location? && NoRepeats(x.servers)
    ensures (forall m :: m in logs ==> Copies(x, logs, m) == if m in x.servers then 1 else 0)
       <==> (x.servers != [] && forall i :: 0 <= i < |x.servers| ==> x.servers[i] in logs)
            || logs.Keys !! x.reachable
  {
    MissingZero(x.servers, logs);
    if m :| m in logs.Keys * x.reachable {
      assert m in logs;
    }
  }

  lemma {:induction false} MissingZero(servers: seq<string>, logs: Logs)
    ensures Missing(servers, logs) == 0 <==> forall i :: 0 <= i < |servers| ==> servers[i] in logs
    decreases servers
  {
    if servers != [] {
      MissingZero(servers[1..], logs);
      assert servers == [servers[0]] + servers[1..];
    }
  }

  lemma {:induction false} ServeInPlace(env: Env, x: Input, servers: seq<string>, logs: Logs)
    requires x.Location? && NoRepeats(servers) && forall i :: 0 <= i < |servers| ==> servers[i] in logs
    ensures Serve(env, x, servers, logs) ==
            map m | m in logs :: if m in servers then logs[m] + [Item(env, x, Some(m))] else logs[m]
    decreases servers
  {
    if servers != [] {
      var logs' := AddFor(logs, servers[0], Item(env, x, Some(servers[0])));
      ServeInPlace(env, x, servers[1..], logs');
      assert servers == [servers[0]] + servers[1..];
      assert servers[0] !in servers[1..];
    }
  }

  // ----- Whole runs: what each queue was given -----

  /** Server m has a manager before step n. */
  predicate RegisteredAt(w: World, xs: seq<Input>, n: nat, m: string)
    requires n <= |xs|
  {
    if n == 0 then m in w.logs
    else match xs[n - 1]
      case Register(id) => id == m || RegisteredAt(w, xs, n - 1, m)
      case Unregister(id) => id != m && RegisteredAt(w, xs, n - 1, m)
      case _ => RegisteredAt(w, xs, n - 1, m)
  }

  lemma {:induction false} ServeKeys(env: Env, x: Input, servers: seq<string>, logs: Logs)
    requires x.Location?
    ensures Serve(env, x, servers, logs).Keys == logs.Keys
    decreases servers
  {
    if servers != [] {
      var item := Item(env, x, Some(servers[0]));
      var logs' := if servers[0] in logs then AddFor(logs, servers[0], item) else AddAll(logs, x.reachable, item);
      assert logs'.Keys == logs.Keys;
      ServeKeys(env, x, servers[1..], logs');
    }
  }

  lemma FanOutKeys(env: Env, x: Input, logs: Logs)
    requires x.Location?
    ensures FanOut(env, x, logs).Keys == logs.Keys
  {
    ServeKeys(env, x, x.servers, logs);
  }

  lemma StepKeys(env: Env, w: World, x: Input, m: string)
    ensures m in Step(env, w, x).logs <==>
              if x.Register? then x.id == m || m in w.logs
              else if x.Unregister? then x.id != m && m in w.logs
              else m in w.logs
  {
    if x.Location? {
      FanOutKeys(env, x, w.logs);
    }
  }

  /** Queues come and go with their managers and with nothing else. */
  lemma {:induction false} QueueIffRegistered(env: Env, w: World, xs: seq<Input>, n: nat, m: string)
    requires n <= |xs|
    ensures m in Run(env, w, xs[..n]).logs <==> RegisteredAt(w, xs, n, m)
  {
    if n > 0 {
      QueueIffRegistered(env, w, xs, n - 1, m);
      RunPrefix(env, w, xs, n - 1);
      StepKeys(env, Run(env, w, xs[..n - 1]), xs[n - 1], m);
    }
  }

  /** The CoTs of the events forwarded since m was last registered for which m was
      an enabled server, behind what it had if it never was. */
  function Deserved(env: Env, w: World, xs: seq<Input>, n: nat, m: string): Log
    requires n <= |xs|
  {
    if n == 0 then if m in w.logs then w.logs[m] else []
    else if xs[n - 1] == Register(m) then []
    else
      Deserved(env, w, xs, n - 1, m) +
      (if Forwards(env, w, xs, n - 1) && m in xs[n - 1].servers 
       then [QueuedCot(env.render(xs[n - 1].event, Some(m)), UidOf(xs[n - 1]), xs[n - 1].wall)] else [])
  }

  /** At every report at least one server is enabled and all enabled ones have
      managers. */
  predicate EveryStepServed(w: World, xs: seq<Input>) {
    forall k {:trigger xs[k]} :: 0 <= k < |xs| && xs[k].Location? ==>
      && xs[k].servers != [] && NoRepeats(xs[k].servers)
      && forall i :: 0 <= i < |xs[k].servers| ==> RegisteredAt(w, xs, k, xs[k].servers[i])
  }

  lemma OneCopyStep(env: Env, w: World, x: Input, m: string)
    requires m in w.logs && (x.Location? ==> AllServed(x, w.logs)) && x != Register(m) && x != Unregister(m)
    ensures m in Step(env, w, x).logs
    ensures Step(env, w, x).logs[m] == w.logs[m] +
              (if x.Location? && Judge(env, w, x) == Queued && m in x.servers then [Item(env, x, Some(m))] else [])
  {
    if x.Location? && Judge(env, w, x) == Queued {
      ServeInPlace(env, x, x.servers, w.logs);
    }
  }

  lemma ServedNow(env: Env, w: World, xs: seq<Input>, k: nat)
    requires k < |xs| && xs[k].Location? && EveryStepServed(w, xs)
    ensures AllServed(xs[k], Run(env, w, xs[..k]).logs)
  {
    forall i | 0 <= i < |xs[k].servers| ensures xs[k].servers[i] in Run(env, w, xs[..k]).logs {
      QueueIffRegistered(env, w, xs, k, xs[k].servers[i]);
    }
  }

  /** Over any run in which at least one server is enabled and all enabled ones
      have managers, however managers come and go: each queue has got exactly one
      CoT per event forwarded since its manager was registered for which its server
      was enabled, in forwarding order, and nothing else. */
  lemma {:induction false} OneCopyPerForward(env: Env, w: World, xs: seq<Input>, n: nat, m: string)
    requires n <= |xs| && EveryStepServed(w, xs) && RegisteredAt(w, xs, n, m)
    ensures var logs := Run(env, w, xs[..n]).logs;
            m in logs && logs[m] == Deserved(env, w, xs, n, m)
  {
    if n > 0 {
      RunPrefix(env, w, xs, n - 1);
      if xs[n - 1] != Register(m) {
        OneCopyPerForward(env, w, xs, n - 1, m);
        if xs[n - 1].Location? {
          ServedNow(env, w, xs, n - 1);
        }
        OneCopyStep(env, Run(env, w, xs[..n - 1]), xs[n - 1], m);
      }
    }
  }

  /** A step that forwards nothing leaves the dedupe table alone, and the queues
      of the managers it does not register. */
  lemma NothingForwarded(env: Env, w: World, x: Input)
    requires !x.Location? || Judge(env, w, x) != Queued
    ensures Step(env, w, x).lastSent == w.lastSent
    ensures forall m :: m in Step(env, w, x).logs && x != Register(m) ==>
              m in w.logs && Step(env, w, x).logs[m] == w.logs[m]
  {
  }

  predicate RepeatFree(xs: seq<Input>) {
    forall k {:trigger xs[k]} :: 0 <= k < |xs| && xs[k].Location? ==> NoRepeats(xs[k].servers)
  }

  /** Step k forwarded an event of a radio that was approved when it came, and this
      CoT is of that event. */
  ghost predicate CameFrom(env: Env, w: World, xs: seq<Input>, item: QueuedCot, k: nat) {
    && Forwards(env, w, xs, k)
    && Approved(Run(env, w, xs[..k]).rows, xs[k].event)
    && OfEvent(env, xs[k], item)
  }

  /** The manager of m is not replaced from step k up to step n. */
  predicate Undisturbed(xs: seq<Input>, k: nat, n: nat, m: string)
    requires n <= |xs|
  {
    forall j :: k <= j < n ==> xs[j] != Register(m) && xs[j] != Unregister(m)
  }

  /** The steps this CoT may have come from. */
  ghost function Origins(env: Env, w: World, xs: seq<Input>, item: QueuedCot): nat -> bool {
    (k: nat) => CameFrom(env, w, xs, item, k)
  }

  /** What step n adds to a queue. */
  lemma AddedBy(env: Env, w: World, xs: seq<Input>, n: nat, m: string, i: nat)
    requires n < |xs| && RepeatFree(xs) && xs[n] != Register(m) && m in Run(env, w, xs[..n + 1]).logs
    ensures var old_, new_ := Run(env, w, xs[..n]).logs, Run(env, w, xs[..n + 1]).logs;
            m in old_ && xs[n] != Unregister(m) && old_[m] <= new_[m] &&
            (|old_[m]| <= i < |new_[m]| ==> Origins(env, w, xs, new_[m][i])(n))
  {
    RunPrefix(env, w, xs, n);
    var before := Run(env, w, xs[..n]);
    StepKeys(env, before, xs[n], m);
    if xs[n].Location? && Judge(env, before, xs[n]) == Queued {
      FanOutCopies(env, xs[n], before.logs, m);
    } else {
      NothingForwarded(env, before, xs[n]);
    }
  }

  /** Some step with this property since the manager of m was registered. */
  ghost predicate Since(xs: seq<Input>, n: nat, m: string, p: nat -> bool)
    requires n <= |xs|
  {
    exists k: nat :: k < n && p(k) && Undisturbed(xs, k, n, m)
  }

  /** This CoT was item i of the queue from the start. */
  predicate WasThere(w: World, xs: seq<Input>, n: nat, m: string, i: nat, item: QueuedCot)
    requires n <= |xs|
  {
    m in w.logs && i < |w.logs[m]| && item == w.logs[m][i] && Undisturbed(xs, 0, n, m)
  }

  /** Where item i of the queue of m comes from: the start, or such a step since the
      manager was registered. */
  ghost predicate HasOrigin(
    w: World, xs: seq<Input>, n: nat, m: string, i: nat, item: QueuedCot, origins: nat -> bool)
    requires n <= |xs|
  {
    WasThere(w, xs, n, m, i, item) || Since(xs, n, m, origins)
  }

  lemma OriginNext(w: World, xs: seq<Input>, n: nat, m: string, i: nat, item: QueuedCot, origins: nat -> bool)
    requires n < |xs| && xs[n] != Register(m) && xs[n] != Unregister(m)
    requires HasOrigin(w, xs, n, m, i, item, origins) || origins(n)
    ensures HasOrigin(w, xs, n + 1, m, i, item, origins)
  {
    if !WasThere(w, xs, n, m, i, item) {
      var k: nat := n;
      if Since(xs, n, m, origins) {
        k :| k < n && origins(k) && Undisturbed(xs, k, n, m);
      }
      assert Undisturbed(xs, k, n + 1, m);
    }
  }

  /** Item i of the queue of m before step n, if there is one, was there from the
      start, or came, since the manager was registered, from a forwarded event of a
      radio that was approved then. */
  ghost predicate Accounted(env: Env, w: World, xs: seq<Input>, n: nat, m: string, i: nat)
    requires n <= |xs|
  {
    var logs := Run(env, w, xs[..n]).logs;
    m in logs && i < |logs[m]| ==> HasOrigin(w, xs, n, m, i, logs[m][i], Origins(env, w, xs, logs[m][i]))
  }

  lemma AccountedNext(env: Env, w: World, xs: seq<Input>, n: nat, m: string, i: nat)
    requires n < |xs| && RepeatFree(xs) && xs[n] != Register(m) && Accounted(env, w, xs, n, m, i)
    ensures Accounted(env, w, xs, n + 1, m, i)
  {
    var logs := Run(env, w, xs[..n + 1]).logs;
    if m in logs && i < |logs[m]| {
      AddedBy(env, w, xs, n, m, i);
      OriginNext(w, xs, n, m, i, logs[m][i], Origins(env, w, xs, logs[m][i]));
    }
  }

  lemma AccountedAfresh(env: Env, w: World, xs: seq<Input>, n: nat, m: string, i: nat)
    requires n < |xs| && xs[n] == Register(m)
    ensures Accounted(env, w, xs, n + 1, m, i)
  {
    RunPrefix(env, w, xs, n);
  }

  lemma AccountedAtStart(env: Env, w: World, xs: seq<Input>, m: string, i: nat)
    ensures Accounted(env, w, xs, 0, m, i)
  {
    assert xs[..0] == [];
  }

  /** Over any run, whatever managers there are and however they come and go: every
      CoT a queue holds that it did not have from the start came, since its manager
      was registered, from a forwarded event of a radio whose identity was enabled
      and approved at that step, never from a call event or an operator's edit. */
  lemma {:induction false} OnlyApprovedForwarded(env: Env, w: World, xs: seq<Input>, n: nat, m: string, i: nat)
    requires n <= |xs| && RepeatFree(xs)
    ensures Accounted(env, w, xs, n, m, i)
  {
    if n == 0 {
      AccountedAtStart(env, w, xs, m, i);
    } else if xs[n - 1] == Register(m) {
      AccountedAfresh(env, w, xs, n - 1, m, i);
    } else {
      OnlyApprovedForwarded(env, w, xs, n - 1, m, i);
      AccountedNext(env, w, xs, n - 1, m, i);
    }
  }

  /** An operator's edit of the row a radio's lookup finds decides, from then on,
      whether the radio is approved. */
  lemma EditDecides(env: Env, w: World, xs: seq<Input>, i: nat, enabled: bool, forwardToTak: bool, event: Event)
    requires FindIdentity(Run(env, w, xs).rows, event.radioId, event.systemId) == Some(i)
    ensures Approved(Run(env, w, xs + [Operator(i, enabled, forwardToTak)]).rows, event) <==> enabled && forwardToTak
  {
    var x := Operator(i, enabled, forwardToTak);
    assert (xs + [x])[..|xs|] == xs;
    var rows := Run(env, w, xs).rows;
    LookupRespectsSystem(rows, event.radioId, event.systemId);
    EditKeepsLookup(rows, i, rows[i].(enabled := enabled, forwardToTak := forwardToTak), event.radioId, event.systemId);
  }

  /** Over any run, an emergency report of an approved radio is forwarded, however
      old it is and however soon after the last one: every queue gets exactly the
      copies its server and the broadcasts account for, all of this event. */
  lemma EmergencyForwarded(env: Env, w: World, xs: seq<Input>, k: nat, m: string)
    requires k < |xs| && xs[k].Location? && xs[k].event.emergency && NoRepeats(xs[k].servers)
    requires Approved(Run(env, w, xs[..k]).rows, xs[k].event) && m in Run(env, w, xs[..k]).logs
    ensures var before, after := Run(env, w, xs[..k]).logs, Run(env, w, xs[..k + 1]).logs;
            Grows(env, xs[k], before, after, m, Copies(xs[k], before, m))
  {
    RunPrefix(env, w, xs, k);
    FanOutCopies(env, xs[k], Run(env, w, xs[..k]).logs, m);
  }

  // ----- Radios that share a UID -----

  /** The longer radio id carries the end of the other's system part. */
  predicate Overlap(system1: string, radio1: string, system2: string, radio2: string) {
    |radio1| > |radio2| &&
    var n := |radio1| - |radio2| - 1;
    radio1[n..] == "-" + radio2 && system2 == system1 + "-" + radio1[..n]
  }

  lemma PairsEqualIff(d1: string, r1: string, d2: string, r2: string)
    ensures d1 + "-" + r1 == d2 + "-" + r2 <==>
            (d1 == d2 && r1 == r2) || Overlap(d1, r1, d2, r2) || Overlap(d2, r2, d1, r1)
  {
    if d1 + "-" + r1 == d2 + "-" + r2 {
      if |r1| >= |r2| {
        EqualPairs(d1, r1, d2, r2);
      } else {
        EqualPairs(d2, r2, d1, r1);
      }
    } else if Overlap(d1, r1, d2, r2) {
      OverlapEqual(d1, r1, d2, r2);
    } else if Overlap(d2, r2, d1, r1) {
      OverlapEqual(d2, r2, d1, r1);
    }
  }

  lemma EqualPairs(d1: string, r1: string, d2: string, r2: string)
    requires d1 + "-" + r1 == d2 + "-" + r2 && |r1| >= |r2|
    ensures (d1 == d2 && r1 == r2) || Overlap(d1, r1, d2, r2)
  {
    var all := d1 + "-" + r1;
    assert all[|all| - |r2|..] == r2 && all[|d2|] == '-' && all[..|d2|] == d2;
    if |r1| == |r2| {
      assert all[|all| - |r1|..] == r1 && all[..|d1|] == d1;
    } else {
      var n := |r1| - |r2| - 1;
      assert r1[n..] == all[|d2|..] == "-" + r2;
      assert all[..|d2|] == d1 + "-" + r1[..n];
    }
  }

  lemma OverlapEqual(d1: string, r1: string, d2: string, r2: string)
    requires Overlap(d1, r1, d2, r2)
    ensures d1 + "-" + r1 == d2 + "-" + r2
  {
    var n := |r1| - |r2| - 1;
    assert d1 + "-" + r1 == d1 + "-" + r1[..n] + r1[n..];
  }

  lemma UidParts(system: Option<string>, radio: string)
    ensures StableUid(system, radio)[9..] == Dashed(SystemName(system)) + "-" + radio
    ensures StableUid(system, radio)[..9] == "RADIOTAK-"
  {
    var rest := Dashed(SystemName(system)) + "-" + radio;
    assert StableUid(system, radio) == "RADIOTAK-" + rest;
  }

  /** For any two radios: they share a UID exactly when radio id and dashed system
      name are the same, or one radio id ends in a dash and the other radio id and
      what stands before is the end of the other's system name. */
  lemma UidsEqualIff(s1: Option<string>, r1: string, s2: Option<string>, r2: string)
    ensures var d1, d2 := Dashed(SystemName(s1)), Dashed(SystemName(s2));
            StableUid(s1, r1) == StableUid(s2, r2) <==>
              (d1 == d2 && r1 == r2) || Overlap(d1, r1, d2, r2) || Overlap(d2, r2, d1, r1)
  {
    UidParts(s1, r1);
    UidParts(s2, r2);
    var a, b := StableUid(s1, r1), StableUid(s2, r2);
    assert a == a[..9] + a[9..] && b == b[..9] + b[9..];
    PairsEqualIff(Dashed(SystemName(s1)), r1, Dashed(SystemName(s2)), r2);
  }

  /** The same name, a space and a dash being the same. */
  predicate SameName(a: string, b: string) {
    |a| == |b| && forall i :: 0 <= i < |a| ==> a[i] == b[i] || (a[i] in {' ', '-'} && b[i] in {' ', '-'})
  }

  lemma DashedEqualIff(a: string, b: string)
    ensures Dashed(a) == Dashed(b) <==> SameName(a, b)
  {
    assert forall i :: 0 <= i < |a| ==> Dashed(a)[i] == if a[i] == ' ' then '-' else a[i];
    assert forall i :: 0 <= i < |b| ==> Dashed(b)[i] == if b[i] == ' ' then '-' else b[i];
  }

  /** Radio ids without a dash: the UID tells radios apart up to spaces and dashes
      in the name of their system, a missing or empty one being "UNK". */
  lemma UidsOfDashlessRadios(s1: Option<string>, r1: string, s2: Option<string>, r2: string)
    requires '-' !in r1 && '-' !in r2
    ensures StableUid(s1, r1) == StableUid(s2, r2) <==> r1 == r2 && SameName(SystemName(s1), SystemName(s2))
  {
    UidsEqualIff(s1, r1, s2, r2);
    DashedEqualIff(SystemName(s1), SystemName(s2));
    NoDashNoOverlap(Dashed(SystemName(s1)), r1, Dashed(SystemName(s2)), r2);
    NoDashNoOverlap(Dashed(SystemName(s2)), r2, Dashed(SystemName(s1)), r1);
  }

  lemma NoDashNoOverlap(d1: string, r1: string, d2: string, r2: string)
    requires '-' !in r1
    ensures !Overlap(d1, r1, d2, r2)
  {
    if |r1| > |r2| {
      var n := |r1| - |r2| - 1;
      assert r1[n..][0] == r1[n] && r1[n] in r1;
    }
  }

  /** Different radios with one UID: an unknown system and one named so, and a
      dash that may belong to either part. */
  lemma UidNotInjective(system: string, middle: string, radio: string)
    requires system != "" && ' ' !in middle
    ensures StableUid(None, radio) == StableUid(Some(""), radio) == StableUid(Some("UNK"), radio)
    ensures StableUid(Some(system), middle + "-" + radio) == StableUid(Some(system + "-" + middle), radio)
  {
    var longer := middle + "-" + radio;
    UidsEqualIff(Some(system), longer, Some(system + "-" + middle), radio);
    assert Dashed(middle) == middle;
    assert Dashed(system + "-" + middle) == Dashed(system) + "-" + middle;
    assert longer[|middle|..] == "-" + radio && longer[..|middle|] == middle;
  }
}
