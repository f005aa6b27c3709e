/** The registry of TAK managers: one queue per server, reached one by one or all
    together. */
module Registry {
  import opened TakManager

  type Log = seq<QueuedCot>

  /** Everything ever enqueued, per server. */
  type Logs = map<string, Log>

  /** enqueue_for: one server's queue, if it has a manager. */
  function AddFor(logs: Logs, id: string, item: QueuedCot): Logs {
    if id in logs then logs[id := logs[id] + [item]] else logs
  }

  /** enqueue_all: every manager in the given set. */
  function AddAll(logs: Logs, reachable: set<string>, item: QueuedCot): Logs {
    map id | id in logs :: if id in reachable then logs[id] + [item] else logs[id]
  }

  class TakManagerRegistry {
    var managers: map<string, TakConnectionManager>

    ghost predicate Valid()
      reads this, managers.Values
    {
      && (forall id :: id in managers ==> ValidConfig(managers[id].config))
      && (forall a, b :: a in managers && b in managers && a != b ==> managers[a] != managers[b])
    }

    ghost function Logs(): Logs
      reads this, managers.Values
    {
      map id | id in managers :: managers[id].trace.enqueued
    }

    /** Managers that enqueue_all feeds: connected at some point, dry-run, or
        with a host to connect to. */
    ghost function Reachable(): set<string>
      reads this, managers.Values
    {
      set id | id in managers && Takes(managers[id])
    }

    static predicate Takes(m: TakConnectionManager)
      reads m
    {
      m.connection != Disconnected || m.dryRun || m.host != ""
    }

    constructor ()
      ensures Valid() && managers == map[]
    {
      managers := map[];
    }

    /** A manager takes the place of the server's last one, if it had one, with the
        queue it brings. */
    method Upsert(id: string, manager: TakConnectionManager)
      requires Valid() && ValidConfig(manager.config) && manager !in managers.Values
      modifies this
      ensures Valid() && managers == old(managers)[id := manager]
      ensures Logs() == old(Logs())[id := manager.trace.enqueued]
    {
      managers := managers[id := manager];
    }

    method StopAll()
      modifies this
      ensures Valid() && managers == map[] && Logs() == map[]
    {
      managers := map[];
    }

    /** One registered manager takes the item; the others do not change. */
    method Feed(id: string, xml: string, uid: string, now: real)
      requires Valid() && id in managers
      modifies managers[id]
      ensures Valid() && Reachable() == old(Reachable())
      ensures Logs() == AddFor(old(Logs()), id, QueuedCot(xml, uid, now))
    {
      var m := managers[id];
      m.Enqueue(xml, uid, now);
      assert forall b :: b in managers && b != id ==> old(managers[b]) != m;
      assert Takes(m) == old(Takes(m));
      assert m.trace.enqueued == old(m.trace.enqueued) + [QueuedCot(xml, uid, now)];
    }

    method EnqueueFor(id: string, xml: string, uid: string, now: real) returns (ok: bool)
      requires Valid()
      modifies managers.Values
      ensures Valid() && managers == old(managers) && Reachable() == old(Reachable())
      ensures ok <==> id in managers
      ensures Logs() == AddFor(old(Logs()), id, QueuedCot(xml, uid, now))
    {
      if id !in managers {
        return false;
      }
      Feed(id, xml, uid, now);
      ok := true;
    }

    /** One turn of the broadcast: the manager takes the item if it is reachable. */
    method FeedIfReachable(id: string, xml: string, uid: string, now: real) returns (took: bool)
      requires Valid() && id in managers
      modifies managers.Values
      ensures Valid() && managers == old(managers) && Reachable() == old(Reachable())
      ensures took <==> id in Reachable()
      ensures Logs() == if took then AddFor(old(Logs()), id, QueuedCot(xml, uid, now)) else old(Logs())
    {
      InReach(id);
      took := Takes(managers[id]);
      if took {
        Feed(id, xml, uid, now);
      }
    }

    method EnqueueAll(xml: string, uid: string, now: real) returns (n: nat)
      requires Valid()
      modifies managers.Values
      ensures Valid() && managers == old(managers) && Reachable() == old(Reachable())
      ensures n == |Reachable()|
      ensures Logs() == AddAll(old(Logs()), Reachable(), QueuedCot(xml, uid, now))
    {
      n := 0;
      var todo := managers.Keys;
      ghost var logs, item, reach := Logs(), QueuedCot(xml, uid, now), Reachable();
      OnlyRegistered();
      NothingFed(logs, reach, todo, item);
      while todo != {}
        invariant Valid() && managers == old(managers) && Reachable() == reach
        invariant todo <= managers.Keys
        invariant n == |reach - todo| && Logs() == AddAll(logs, reach - todo, item)
        decreases todo
      {
        var id :| id in todo;
        OneTurn(logs, reach, todo, id, item);
        var took := FeedIfReachable(id, xml, uid, now);
        n := if took then n + 1 else n;
        todo := todo - {id};
      }
      assert reach - todo == reach;
    }

    lemma OnlyRegistered()
      ensures Reachable() <= managers.Keys
    {
    }

    lemma InReach(id: string)
      requires id in managers
      ensures id in Reachable() <==> Takes(managers[id])
    {
    }
  }

  lemma NothingFed(logs: Logs, reach: set<string>, todo: set<string>, item: QueuedCot)
    requires reach <= todo
    ensures reach - todo == {} && AddAll(logs, reach - todo, item) == logs
  {
  }

  lemma OneTurn(logs: Logs, reach: set<string>, todo: set<string>, id: string, item: QueuedCot)
    requires id in todo
    ensures var before, after := reach - todo, reach - (todo - {id});
            if id in reach
            then AddAll(logs, after, item) == AddFor(AddAll(logs, before, item), id, item) && |after| == |before| + 1
            else AddAll(logs, after, item) == AddAll(logs, before, item) && |after| == |before|
  {
    var before, after := reach - todo, reach - (todo - {id});
    assert after == if id in reach then before + {id} else before;
  }
}
