/** The pipeline object: one location event through identity table, gates and
    registry, stated by the forwarding engine's step. */
module Pipeline {
  import opened Basics
  import opened Identities
  import opened Registry
  import opened Forwarding

  class LocationPipeline {
    var lastSent: map<string, Sent>

    constructor ()
      ensures lastSent == map[]
    {
      lastSent := map[];
    }

    ghost function View(table: IdentityTable, registry: TakManagerRegistry): World
      reads this, table, registry, registry.managers.Values
    {
      World(table.rows, lastSent, registry.Logs())
    }

    /** The gates behind the identity lookup; allowed is what the lookup said. */
    method Gate(env: Env, event: Event, settings: Settings, allowed: bool, wall: real, mono: real)
      returns (verdict: Verdict)
      ensures verdict == Gates(env, lastSent, allowed, Location(event, settings, wall, mono, [], {}))
    {
      if !allowed {
        return Blocked;
      }
      var age := wall - event.observedAt;
      if age > settings.staleSeconds * 2.0 && !event.emergency {
        return TooOld;
      }
      var key := StableUid(event.systemId, event.radioId);
      if key in lastSent && settings.suppression && !event.emergency {
        var last := lastSent[key];
        var dt := mono - last.at;
        var dist := env.distance(last.latitude, last.longitude, event.latitude, event.longitude);
        if dt < settings.minInterval {
          return RateLimited;
        }
        if dist < settings.minMovement && dt < settings.heartbeat {
          return Stationary;
        }
      }
      return Queued;
    }

    /** One CoT per enabled server, or one broadcast in default style. */
    method Send(env: Env, registry: TakManagerRegistry, event: Event, settings: Settings,
                wall: real, mono: real, servers: seq<string>, ghost x: Input)
      requires registry.Valid() && x == Location(event, settings, wall, mono, servers, registry.Reachable())
      modifies registry.managers.Values
      ensures registry.Valid() && registry.Reachable() == old(registry.Reachable())
      ensures registry.Logs() == FanOut(env, x, old(registry.Logs()))
    {
      var uid := StableUid(event.systemId, event.radioId);
      for i := 0 to |servers|
        invariant registry.Valid() && registry.managers == old(registry.managers)
        invariant registry.Reachable() == x.reachable
        invariant Serve(env, x, servers[i..], registry.Logs()) == Serve(env, x, servers, old(registry.Logs()))
      {
        assert servers[i..][0] == servers[i] && servers[i..][1..] == servers[i + 1..];
        var xml := env.render(event, Some(servers[i]));
        var ok := registry.EnqueueFor(servers[i], xml, uid, wall);
        if !ok {
          var n := registry.EnqueueAll(xml, uid, wall);
        }
      }
      if servers == [] {
        var n := registry.EnqueueAll(env.render(event, None), uid, wall);
      }
    }

    /** Observation and gates: everything up to the decision. */
    method Decide(env: Env, table: IdentityTable, event: Event, settings: Settings, wall: real, mono: real,
                  ghost w: World, ghost x: Input)
      returns (verdict: Verdict)
      requires w.rows == table.rows && w.lastSent == lastSent
      requires x.Location? && x == Location(event, settings, wall, mono, x.servers, x.reachable)
      modifies table
      ensures table.rows == Process(env, w, x).0.rows && verdict == Process(env, w, x).1
    {
      ObservingApprovesNobody(table.rows, event.radioId, event.systemId, event.alias,
                              Some(event.latitude), Some(event.longitude));
      var i := table.ObserveOrCreate(
        event.radioId, event.systemId, event.alias, Some(event.latitude), Some(event.longitude));
      verdict := Gate(env, event, settings, Allowed(table.rows[i]), wall, mono);
    }

    /** What processing does besides the identity table. */
    static lemma Outcome(env: Env, w: World, x: Input)
      requires x.Location?
      ensures var (w', verdict) := Process(env, w, x);
              && w'.logs == (if verdict == Queued then FanOut(env, x, w.logs) else w.logs)
              && w'.lastSent == (if verdict == Queued
                                 then w.lastSent[UidOf(x) := Sent(x.event.latitude, x.event.longitude, x.mono)]
                                 else w.lastSent)
    {
    }

    /** A queued event: sent, then remembered for the gates. */
    method Forward(env: Env, registry: TakManagerRegistry, event: Event, settings: Settings,
                   wall: real, mono: real, servers: seq<string>, ghost x: Input)
      requires registry.Valid() && x == Location(event, settings, wall, mono, servers, registry.Reachable())
      modifies this, registry.managers.Values
      ensures registry.Valid() && registry.Logs() == FanOut(env, x, old(registry.Logs()))
      ensures lastSent == old(lastSent)[UidOf(x) := Sent(event.latitude, event.longitude, mono)]
    {
      Send(env, registry, event, settings, wall, mono, servers, x);
      lastSent := lastSent[StableUid(event.systemId, event.radioId) := Sent(event.latitude, event.longitude, mono)];
    }

    method ProcessEvent(env: Env, table: IdentityTable, registry: TakManagerRegistry, event: Event,
                        settings: Settings, wall: real, mono: real, servers: seq<string>)
      returns (verdict: Verdict)
      requires registry.Valid()
      modifies this, table, registry.managers.Values
      ensures registry.Valid()
      ensures var x := Location(event, settings, wall, mono, servers, old(registry.Reachable()));
              var (w, v) := Process(env, old(View(table, registry)), x);
              View(table, registry) == w && verdict == v
    {
      ghost var w := View(table, registry);
      ghost var x := Location(event, settings, wall, mono, servers, registry.Reachable());
      Outcome(env, w, x);
      verdict := Decide(env, table, event, settings, wall, mono, w, x);
      if verdict == Queued {
        Forward(env, registry, event, settings, wall, mono, servers, x);
      }
    }
  }
}
