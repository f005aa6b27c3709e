/** Operational alerts: when one counts as new, what its time is, and how long an
    acknowledgement hides it. A streak of an alert is a maximal run of polls in
    which it is active. */
module Alerts {

  datatype Published = Published(id: string, at: real)

  datatype Row = Row(id: string, createdAt: real, acked: bool)

  /** seen: active alerts and the time they were first seen. acked: the time of
      the acknowledgement. */
  datatype State = State(seen: map<string, real>, acked: map<string, real>)

  /** ids: the alerts a poll finds active; now: its time; later: the time at which
      it checks acknowledgements. */
  datatype Op =
    | Poll(ids: seq<string>, now: real, later: real)
    | Ack(id: string, now: real)

  predicate IsAcked(s: State, ttl: real, id: string, at: real) {
    id in s.acked && at - s.acked[id] <= ttl
  }

  /** The active alerts with their first-seen times. */
  function Noted(seen: map<string, real>, ids: seq<string>, now: real): map<string, real> {
    map id | id in ids :: if id in seen then seen[id] else now
  }

  /** Acknowledgements left once those of ended streaks are gone. */
  function Streaking(s: State, ids: seq<string>): map<string, real> {
    map id | id in s.acked && !(id in s.seen && id !in ids) :: s.acked[id]
  }

  /** Acknowledgements left once the active alerts' expired ones are gone. */
  function Unexpired(acked: map<string, real>, ttl: real, ids: seq<string>, later: real): map<string, real> {
    map id | id in acked && !(id in ids && later - acked[id] > ttl) :: acked[id]
  }

  function AckedAfter(s: State, ttl: real, ids: seq<string>, later: real): map<string, real> {
    Unexpired(Streaking(s, ids), ttl, ids, later)
  }

  lemma NoteOne(seen: map<string, real>, ids: seq<string>, i: nat, now: real)
    requires i < |ids|
    ensures var before := seen + Noted(seen, ids[..i], now);
            && (ids[i] in before <==> ids[i] in seen || ids[i] in ids[..i])
            && seen + Noted(seen, ids[..i + 1], now) == (if ids[i] in before then before else before[ids[i] := now])
            && NewEvents(seen, ids[..i + 1], now) ==
               NewEvents(seen, ids[..i], now) + (if ids[i] in before then [] else [Published(ids[i], now)])
  {
    assert ids[..i + 1] == ids[..i] + [ids[i]];
    assert ids[..i + 1][..i] == ids[..i];
  }

  function Active(seen: map<string, real>, ids: seq<string>): map<string, real> {
    map id | id in seen && id in ids :: seen[id]
  }

  lemma NotedOnly(s: State, ids: seq<string>, now: real)
    ensures var noted := s.seen + Noted(s.seen, ids, now);
            && Active(noted, ids) == Noted(s.seen, ids, now)
            && Streaking(State(noted, s.acked), ids) == Streaking(s, ids)
  {
  }

  lemma PrunedOnly(s: State, ids: seq<string>, later: real, ttl: real)
    ensures Unexpired(Streaking(s, ids), ttl, ids[..0], later) == Streaking(s, ids)
  {
  }

  lemma ExpireOne(s: State, ids: seq<string>, i: nat, ttl: real, later: real)
    requires i < |ids|
    ensures var pruned := Streaking(s, ids);
            var before := Unexpired(pruned, ttl, ids[..i], later);
            && (IsAcked(State(map[], before), ttl, ids[i], later) <==> IsAcked(s, ttl, ids[i], later))
            && Unexpired(pruned, ttl, ids[..i + 1], later) ==
               if IsAcked(s, ttl, ids[i], later) then before else before - {ids[i]}
  {
    assert ids[..i + 1] == ids[..i] + [ids[i]];
  }

  function Step(ttl: real, s: State, op: Op): State {
    match op
    case Poll(ids, now, later) => State(Noted(s.seen, ids, now), AckedAfter(s, ttl, ids, later))
    case Ack(id, now) => if id == "" then s else s.(acked := s.acked[id := now])
  }

  /** The "alert" events one poll publishes. */
  function NewEvents(seen: map<string, real>, ids: seq<string>, now: real): seq<Published> {
    if ids == [] then []
    else
      var n := |ids| - 1;
      NewEvents(seen, ids[..n], now) +
      (if ids[n] in seen || ids[n] in ids[..n] then [] else [Published(ids[n], now)])
  }

  function Run(ttl: real, h: seq<Op>): (State, seq<Published>) {
    if h == [] then (State(map[], map[]), [])
    else
      var before := Run(ttl, h[..|h| - 1]);
      var op := h[|h| - 1];
      (Step(ttl, before.0, op), before.1 + (if op.Poll? then NewEvents(before.0.seen, op.ids, op.now) else []))
  }

  // ----- The object -----

  class AlertStore {
    const ackTtl: real
    var acked: map<string, real>
    var seen: map<string, real>
    var published: seq<Published>

    ghost function View(): State
      reads this
    {
      State(seen, acked)
    }

    constructor (ackTtl: real)
      ensures View() == State(map[], map[]) && published == [] && this.ackTtl == ackTtl
    {
      this.ackTtl := ackTtl;
      acked, seen, published := map[], map[], [];
    }

    method Acknowledge(id: string, now: real) returns (ok: bool)
      modifies this
      ensures View() == Step(ackTtl, old(View()), Ack(id, now)) && published == old(published)
      ensures ok <==> id != ""
    {
      if id == "" {
        return false;
      }
      acked := acked[id := now];
      ok := true;
    }

    /** Expired acknowledgements are forgotten when asked for. */
    method CheckAcked(id: string, at: real) returns (r: bool)
      modifies this`acked
      ensures r <==> IsAcked(old(View()), ackTtl, id, at)
      ensures acked == if r then old(acked) else old(acked) - {id}
    {
      if id !in acked {
        return false;
      }
      if at - acked[id] > ackTtl {
        acked := acked - {id};
        return false;
      }
      r := true;
    }

    /** The tail of a collection: note, prune, list, then sort; place is where an
        alert stands in the order of severity and title. */
    method Collect(ids: seq<string>, now: real, later: real, includeAcked: bool, place: string -> int)
      returns (out: seq<Row>)
      modifies this
      ensures View() == Step(ackTtl, old(View()), Poll(ids, now, later))
      ensures published == old(published) + NewEvents(old(seen), ids, now)
      ensures out == Sorted(Listed(old(View()), ackTtl, ids, now, later, includeAcked), place)
    {
      NoteAndPrune(ids, now);
      ghost var was, pruned := old(View()), acked;
      out := [];
      PrunedOnly(was, ids, later, ackTtl);
      for i := 0 to |ids|
        invariant seen == Noted(was.seen, ids, now)
        invariant published == old(published) + NewEvents(was.seen, ids, now)
        invariant acked == Unexpired(pruned, ackTtl, ids[..i], later)
        invariant out == Listed(was, ackTtl, ids[..i], now, later, includeAcked)
      {
        ExpireOne(was, ids, i, ackTtl, later);
        ListOne(was, ackTtl, ids, i, now, later, includeAcked);
        var hidden := CheckAcked(ids[i], later);
        if !(hidden && !includeAcked) {
          out := out + [Row(ids[i], seen[ids[i]], hidden)];
        }
      }
      assert ids[..|ids|] == ids;
      out := Sorted(out, place);
    }

    method NoteAndPrune(ids: seq<string>, now: real)
      modifies this
      ensures seen == Noted(old(seen), ids, now) && acked == Streaking(old(View()), ids)
      ensures published == old(published) + NewEvents(old(seen), ids, now)
    {
      ghost var was := View();
      NoteAll(ids, now);
      NotedOnly(was, ids, now);
      Prune(ids);
    }

    method NoteAll(ids: seq<string>, now: real)
      modifies this`seen, this`published
      ensures published == old(published) + NewEvents(old(seen), ids, now)
      ensures seen == old(seen) + Noted(old(seen), ids, now)
    {
      for i := 0 to |ids|
        invariant seen == old(seen) + Noted(old(seen), ids[..i], now)
        invariant published == old(published) + NewEvents(old(seen), ids[..i], now)
      {
        NoteOne(old(seen), ids, i, now);
        if ids[i] !in seen {
          seen := seen[ids[i] := now];
          published := published + [Published(ids[i], now)];
        }
      }
      assert ids[..|ids|] == ids;
    }

    method Prune(ids: seq<string>)
      modifies this`seen, this`acked
      ensures seen == Active(old(seen), ids)
      ensures acked == Streaking(old(View()), ids)
    {
      var todo := seen.Keys;
      while todo != {}
        invariant todo <= old(seen).Keys
        invariant seen == map id | id in old(seen) && (id in ids || id in todo) :: old(seen)[id]
        invariant acked == map id |
                    id in old(acked) && !(id in old(seen) && id !in ids && id !in todo) :: old(acked)[id]
        decreases todo
      {
        var key :| key in todo;
        todo := todo - {key};
        if key !in ids {
          seen := seen - {key};
          acked := acked - {key};
        }
      }
    }
  }

  /** The rows a poll lists: each active alert with its first-seen time and whether
      it is acknowledged, acknowledged ones only on request. */
  function Listed(s: State, ttl: real, ids: seq<string>, now: real, later: real, includeAcked: bool): seq<Row> {
    if ids == [] then []
    else
      var n := |ids| - 1;
      var id := ids[n];
      var acked := IsAcked(s, ttl, id, later);
      Listed(s, ttl, ids[..n], now, later, includeAcked) +
      (if acked && !includeAcked then [] else [Row(id, if id in s.seen then s.seen[id] else now, acked)])
  }

  lemma ListOne(s: State, ttl: real, ids: seq<string>, i: nat, now: real, later: real, includeAcked: bool)
    requires i < |ids|
    ensures var acked := IsAcked(s, ttl, ids[i], later);
            Listed(s, ttl, ids[..i + 1], now, later, includeAcked) ==
            Listed(s, ttl, ids[..i], now, later, includeAcked) +
            (if acked && !includeAcked then [] else [Row(ids[i], Noted(s.seen, ids, now)[ids[i]], acked)])
  {
    assert ids[..i + 1][..i] == ids[..i];
  }

  // ----- The order of the list -----

  /** The row behind all rows that do not come after it. */
  function Inserted(rows: seq<Row>, row: Row, place: string -> int): seq<Row> {
    if rows == [] then [row]
    else
      var n := |rows| - 1;
      if place(rows[n].id) <= place(row.id) then rows + [row]
      else Inserted(rows[..n], row, place) + [rows[n]]
  }

  /** A stable sort. */
  function Sorted(rows: seq<Row>, place: string -> int): seq<Row> {
    if rows == [] then []
    else
      var n := |rows| - 1;
      Inserted(Sorted(rows[..n], place), rows[n], place)
  }

  predicate InOrder(rows: seq<Row>, place: string -> int) {
    forall i, j :: 0 <= i < j < |rows| ==> place(rows[i].id) <= place(rows[j].id)
  }

  /** The rows that share a place, in order. */
  function At(rows: seq<Row>, place: string -> int, k: int): seq<Row> {
    if rows == [] then []
    else
      var last := rows[|rows| - 1];
      At(rows[..|rows| - 1], place, k) + (if place(last.id) == k then [last] else [])
  }

  lemma AtSnoc(rows: seq<Row>, row: Row, place: string -> int, k: int)
    ensures At(rows + [row], place, k) == At(rows, place, k) + (if place(row.id) == k then [row] else [])
  {
    assert (rows + [row])[..|rows|] == rows;
  }

  /** Inserting keeps the order, and any upper bound of all places. */
  lemma {:induction false} InsertedBounds(rows: seq<Row>, row: Row, place: string -> int, top: int)
    requires InOrder(rows, place) && place(row.id) <= top
    requires forall i :: 0 <= i < |rows| ==> place(rows[i].id) <= top
    ensures InOrder(Inserted(rows, row, place), place)
    ensures forall i :: 0 <= i < |Inserted(rows, row, place)| ==> place(Inserted(rows, row, place)[i].id) <= top
    decreases rows
  {
    if rows != [] {
      var n := |rows| - 1;
      if place(rows[n].id) > place(row.id) {
        InsertedBounds(rows[..n], row, place, place(rows[n].id));
      }
    }
  }

  lemma {:induction false} InsertedAt(rows: seq<Row>, row: Row, place: string -> int, k: int)
    requires InOrder(rows, place)
    ensures At(Inserted(rows, row, place), place, k) ==
            At(rows, place, k) + (if place(row.id) == k then [row] else [])
    decreases rows
  {
    if rows == [] {
      AtSnoc([], row, place, k);
      assert [] + [row] == [row];
    } else {
      var front, last := rows[..|rows| - 1], rows[|rows| - 1];
      assert rows == front + [last];
      if place(last.id) <= place(row.id) {
        AtSnoc(rows, row, place, k);
      } else {
        InsertedAt(front, row, place, k);
        AtSnoc(front, last, place, k);
        AtSnoc(Inserted(front, row, place), last, place, k);
        Exchange(At(front, place, k), row, last, place, k);
      }
    }
  }

  /** At most one of two rows with different places is at k. */
  lemma Exchange(before: seq<Row>, row: Row, last: Row, place: string -> int, k: int)
    requires place(row.id) != place(last.id)
    ensures var r, l := if place(row.id) == k then [row] else [], if place(last.id) == k then [last] else [];
            before + r + l == before + l + r
  {
  }

  lemma TopOf(rows: seq<Row>, row: Row, place: string -> int) returns (top: int)
    ensures place(row.id) <= top && forall i :: 0 <= i < |rows| ==> place(rows[i].id) <= top
  {
    top := place(row.id);
    for n := 0 to |rows|
      invariant place(row.id) <= top && forall i :: 0 <= i < n ==> place(rows[i].id) <= top
    {
      if place(rows[n].id) > top {
        top := place(rows[n].id);
      }
    }
  }

  /** The list is in order, and the alerts that share a place keep theirs: nothing
      is lost, added or needlessly moved. */
  lemma {:induction false} SortedStably(rows: seq<Row>, place: string -> int, k: int)
    ensures InOrder(Sorted(rows, place), place)
    ensures At(Sorted(rows, place), place, k) == At(rows, place, k)
    decreases rows
  {
    if rows != [] {
      var n := |rows| - 1;
      SortedStably(rows[..n], place, k);
      var top := TopOf(Sorted(rows[..n], place), rows[n], place);
      InsertedBounds(Sorted(rows[..n], place), rows[n], place, top);
      InsertedAt(Sorted(rows[..n], place), rows[n], place, k);
    }
  }

  // ----- Histories -----

  /** Operation k is a poll that finds this alert active. */
  predicate Finds(h: seq<Op>, id: string, k: nat) {
    k < |h| && h[k].Poll? && id in h[k].ids
  }

  /** The last poll before n found it active: the alert is in a streak. */
  predicate InStreak(h: seq<Op>, id: string, n: nat)
    requires n <= |h|
  {
    n > 0 && if h[n - 1].Poll? then id in h[n - 1].ids else InStreak(h, id, n - 1)
  }

  /** A streak begins with poll k. */
  predicate Begins(h: seq<Op>, id: string, k: nat) {
    Finds(h, id, k) && !InStreak(h, id, k)
  }

  /** A streak ends with poll k, which does not find it. */
  predicate Ends(h: seq<Op>, id: string, k: nat) {
    k < |h| && h[k].Poll? && !Finds(h, id, k) && InStreak(h, id, k)
  }

  /** The streak that began with poll k is the current one. */
  ghost predicate CurrentSince(h: seq<Op>, id: string, k: nat) {
    Begins(h, id, k) && forall m :: k < m < |h| && h[m].Poll? ==> Finds(h, id, m)
  }

  lemma {:induction false} InStreakPrefix(h: seq<Op>, op: Op, id: string, n: nat)
    requires n <= |h|
    ensures InStreak(h + [op], id, n) == InStreak(h, id, n)
  {
    if n > 0 && !h[n - 1].Poll? {
      InStreakPrefix(h, op, id, n - 1);
    }
  }

  lemma BeginsPrefix(h: seq<Op>, op: Op, id: string, k: nat)
    requires k < |h|
    ensures Begins(h + [op], id, k) == Begins(h, id, k)
    ensures Ends(h + [op], id, k) == Ends(h, id, k)
  {
    InStreakPrefix(h, op, id, k);
  }

  lemma CurrentExtends(h: seq<Op>, op: Op, id: string, k: nat)
    requires CurrentSince(h, id, k) && (op.Poll? ==> id in op.ids)
    ensures CurrentSince(h + [op], id, k)
  {
    BeginsPrefix(h, op, id, k);
    var h' := h + [op];
    forall m | k < m < |h'| && h'[m].Poll? ensures Finds(h', id, m) {
      if m < |h| {
        assert Finds(h, id, m);
      }
    }
  }

  /** An alert is seen exactly while it is in a streak, and its time is that of
      the first poll of that streak. */
  lemma {:induction false} TimeIsStreakStart(ttl: real, h: seq<Op>, id: string) returns (k: nat)
    ensures id in Run(ttl, h).0.seen <==> InStreak(h, id, |h|)
    ensures id in Run(ttl, h).0.seen ==> CurrentSince(h, id, k) && Run(ttl, h).0.seen[id] == h[k].now
    decreases h
  {
    k := 0;
    if h != [] {
      var n := |h| - 1;
      var before, op := h[..n], h[n];
      assert before + [op] == h;
      k := TimeIsStreakStart(ttl, before, id);
      InStreakPrefix(before, op, id, n);
      if op.Poll? && id in op.ids && id !in Run(ttl, before).0.seen {
        k := n;
        assert Begins(h, id, n);
      } else if id in Run(ttl, h).0.seen {
        CurrentExtends(before, op, id, k);
      }
    }
  }

  // ----- One event per streak -----

  function EventsFor(events: seq<Published>, id: string): seq<real> {
    if events == [] then []
    else
      var last := events[|events| - 1];
      EventsFor(events[..|events| - 1], id) + (if last.id == id then [last.at] else [])
  }

  /** The times of the first polls of all streaks, in order. */
  function StreakStarts(h: seq<Op>, id: string): seq<real> {
    if h == [] then []
    else
      var n := |h| - 1;
      StreakStarts(h[..n], id) + (if Begins(h, id, n) then [h[n].now] else [])
  }

  lemma {:induction false} EventsConcat(a: seq<Published>, b: seq<Published>, id: string)
    ensures EventsFor(a + b, id) == EventsFor(a, id) + EventsFor(b, id)
    decreases b
  {
    if b == [] {
      assert a + b == a;
    } else {
      var n := |b| - 1;
      assert (a + b)[..|a + b| - 1] == a + b[..n];
      EventsConcat(a, b[..n], id);
    }
  }

  lemma {:induction false} EventsOfPoll(seen: map<string, real>, ids: seq<string>, now: real, id: string)
    ensures EventsFor(NewEvents(seen, ids, now), id) == if id in ids && id !in seen then [now] else []
    decreases ids
  {
    if ids != [] {
      var n := |ids| - 1;
      var before, last := NewEvents(seen, ids[..n], now), ids[n];
      var new_ := if last in seen || last in ids[..n] then [] else [Published(last, now)];
      EventsOfPoll(seen, ids[..n], now, id);
      EventsConcat(before, new_, id);
      OneEvent(last, now, id);
      InPrefixOrLast(ids, id);
    }
  }

  lemma InPrefixOrLast(ids: seq<string>, id: string)
    requires ids != []
    ensures id in ids <==> id in ids[..|ids| - 1] || id == ids[|ids| - 1]
  {
    assert ids[..|ids| - 1] + [ids[|ids| - 1]] == ids;
  }

  lemma OneEvent(last: string, now: real, id: string)
    ensures EventsFor([Published(last, now)], id) == if last == id then [now] else []
    ensures EventsFor([], id) == []
  {
    assert [Published(last, now)][..0] == [];
  }

  /** One more operation: what it publishes for this alert. */
  lemma EventsNext(ttl: real, h: seq<Op>, op: Op, id: string)
    ensures EventsFor(Run(ttl, h + [op]).1, id) == EventsFor(Run(ttl, h).1, id) +
              (if op.Poll? && id in op.ids && id !in Run(ttl, h).0.seen then [op.now] else [])
  {
    assert (h + [op])[..|h|] == h;
    var (s, events) := Run(ttl, h);
    if op.Poll? {
      EventsConcat(events, NewEvents(s.seen, op.ids, op.now), id);
      EventsOfPoll(s.seen, op.ids, op.now, id);
    } else {
      assert events + [] == events;
    }
  }

  lemma StartsNext(h: seq<Op>, op: Op, id: string)
    ensures StreakStarts(h + [op], id) == StreakStarts(h, id) +
              (if op.Poll? && id in op.ids && !InStreak(h, id, |h|) then [op.now] else [])
  {
    assert (h + [op])[..|h|] == h;
    InStreakPrefix(h, op, id, |h|);
  }

  /** Over any history the "alert" events published for an id are exactly one per
      streak, each carrying the time of the streak's first poll. */
  lemma {:induction false} OneEventPerStreak(ttl: real, h: seq<Op>, id: string)
    ensures EventsFor(Run(ttl, h).1, id) == StreakStarts(h, id)
    decreases h
  {
    if h != [] {
      var before, op := h[..|h| - 1], h[|h| - 1];
      OneEventPerStreak(ttl, before, id);
      var k := TimeIsStreakStart(ttl, before, id);
      EventsNext(ttl, before, op, id);
      StartsNext(before, op, id);
      assert before + [op] == h;
    }
  }

  // ----- How long an acknowledgement lasts -----

  function TimeOf(op: Op): real { if op.Poll? then op.later else op.now }

  /** The time of the last operation. */
  function Clock(h: seq<Op>): real {
    if h == [] then 0.0 else TimeOf(h[|h| - 1])
  }

  predicate SteadyClock(h: seq<Op>) {
    && (forall i :: 0 <= i < |h| && h[i].Poll? ==> h[i].now <= h[i].later)
    && forall i, j :: 0 <= i < j < |h| ==> TimeOf(h[i]) <= h[j].now
  }

  /** Operation j acknowledges the alert, and no streak of it has ended since. */
  ghost predicate InForce(h: seq<Op>, id: string, j: nat) {
    && j < |h| && h[j] == Ack(id, h[j].now) && id != ""
    && forall k :: j < k < |h| ==> !Ends(h, id, k)
  }

  ghost predicate AckInv(ttl: real, h: seq<Op>, id: string, s: State) {
    && (id in s.acked ==>
         && (exists j: nat :: InForce(h, id, j) && s.acked[id] == h[j].now)
         && forall j: nat :: InForce(h, id, j) ==> h[j].now <= s.acked[id])
    && (id !in s.acked ==> forall j: nat :: InForce(h, id, j) ==> Clock(h) - h[j].now > ttl)
  }

  lemma InForcePrefix(h: seq<Op>, op: Op, id: string, j: nat)
    requires j < |h|
    ensures InForce(h + [op], id, j) <==> InForce(h, id, j) && !Ends(h + [op], id, |h|)
  {
    var h' := h + [op];
    assert h'[j] == h[j];
    forall k | 0 <= k < |h| ensures Ends(h', id, k) == Ends(h, id, k) {
      BeginsPrefix(h, op, id, k);
    }
  }

  lemma AckStep(ttl: real, h: seq<Op>, op: Op, id: string, s: State)
    requires SteadyClock(h + [op]) && AckInv(ttl, h, id, s)
    requires id in s.seen <==> InStreak(h, id, |h|)
    ensures AckInv(ttl, h + [op], id, Step(ttl, s, op))
  {
    var h', n := h + [op], |h|;
    InStreakPrefix(h, op, id, n);
    assert h'[n] == op && Clock(h') == TimeOf(op);
    assert n > 0 ==> h'[n - 1] == h[n - 1] && Clock(h) <= op.now <= TimeOf(op);
    assert Ends(h', id, n) <==> op.Poll? && id !in op.ids && id in s.seen;
    forall j: nat | j < n ensures h'[j] == h[j] && (InForce(h', id, j) <==> InForce(h, id, j) && !Ends(h', id, n)) {
      InForcePrefix(h, op, id, j);
    }
    if op.Ack? {
      AckByAck(ttl, h, op, id, s);
    } else {
      assert !InForce(h', id, n);
      AckByPoll(ttl, h, op, id, s);
    }
  }

  lemma AckByAck(ttl: real, h: seq<Op>, op: Op, id: string, s: State)
    requires op.Ack? && AckInv(ttl, h, id, s) && (h != [] ==> Clock(h) <= op.now)
    requires forall j: nat :: j < |h| ==> (h + [op])[j] == h[j] && (InForce(h + [op], id, j) <==> InForce(h, id, j))
    requires forall j: nat :: j < |h| ==> h[j].Ack? ==> h[j].now <= op.now
    ensures AckInv(ttl, h + [op], id, Step(ttl, s, op))
  {
    var h', n := h + [op], |h|;
    assert h'[n] == op;
    if op.id == id && id != "" {
      assert InForce(h', id, n);
    } else {
      assert !InForce(h', id, n);
      if id in s.acked {
        var j: nat :| InForce(h, id, j) && s.acked[id] == h[j].now;
        assert InForce(h', id, j) && h'[j].now == s.acked[id];
      }
    }
  }

  lemma AckByPoll(ttl: real, h: seq<Op>, op: Op, id: string, s: State)
    requires op.Poll? && AckInv(ttl, h, id, s) && (h != [] ==> Clock(h) <= op.now) && op.now <= op.later
    requires var ends := id !in op.ids && id in s.seen;
             forall j: nat :: j < |h| ==>
               (h + [op])[j] == h[j] && (InForce(h + [op], id, j) <==> InForce(h, id, j) && !ends)
    requires !InForce(h + [op], id, |h|)
    ensures AckInv(ttl, h + [op], id, Step(ttl, s, op))
  {
    var h', s' := h + [op], Step(ttl, s, op);
    assert forall j: nat :: InForce(h', id, j) ==> j < |h| && InForce(h, id, j);
    if id in s'.acked {
      var j: nat :| InForce(h, id, j) && s.acked[id] == h[j].now;
      assert InForce(h', id, j) && h'[j].now == s'.acked[id];
    }
  }

  lemma {:induction false} RunAcks(ttl: real, h: seq<Op>, id: string)
    requires SteadyClock(h)
    ensures AckInv(ttl, h, id, Run(ttl, h).0)
    decreases h
  {
    if h != [] {
      var n := |h| - 1;
      assert h[..n] + [h[n]] == h;
      RunAcks(ttl, h[..n], id);
      var k := TimeIsStreakStart(ttl, h[..n], id);
      AckStep(ttl, h[..n], h[n], id, Run(ttl, h[..n]).0);
    }
  }

  /** After any history under a steady clock, at any later time: an alert counts as
      acknowledged exactly if some acknowledgement of it is no older than the TTL
      and no streak of it has ended since. */
  lemma AckedIff(ttl: real, h: seq<Op>, id: string, at: real)
    requires SteadyClock(h) && (h != [] ==> TimeOf(h[|h| - 1]) <= at)
    ensures IsAcked(Run(ttl, h).0, ttl, id, at) <==> exists j: nat :: InForce(h, id, j) && at - h[j].now <= ttl
  {
    RunAcks(ttl, h, id);
    var s := Run(ttl, h).0;
    if id in s.acked {
      var j: nat :| InForce(h, id, j) && s.acked[id] == h[j].now;
    }
  }

  /** A row of this alert is listed. */
  ghost predicate Shows(rows: seq<Row>, id: string, createdAt: real, acked: bool) {
    exists i :: 0 <= i < |rows| && rows[i] == Row(id, createdAt, acked)
  }

  lemma ShowsSnoc(rows: seq<Row>, row: Row, id: string, createdAt: real, acked: bool)
    ensures Shows(rows + [row], id, createdAt, acked) <==>
             Shows(rows, id, createdAt, acked) || row == Row(id, createdAt, acked)
  {
    var all := rows + [row];
    assert all[|rows|] == row;
    if i :| 0 <= i < |rows| && rows[i] == Row(id, createdAt, acked) {
      assert all[i] == rows[i];
    }
  }

  lemma {:induction false} ListedShows(
    s: State, ttl: real, ids: seq<string>, now: real, later: real, includeAcked: bool,
    id: string, createdAt: real, acked: bool)
    ensures Shows(Listed(s, ttl, ids, now, later, includeAcked), id, createdAt, acked) <==>
              && id in ids && acked == IsAcked(s, ttl, id, later) && (includeAcked || !acked)
              && createdAt == (if id in s.seen then s.seen[id] else now)
    decreases ids
  {
    if ids != [] {
      var n := |ids| - 1;
      var last := Row(ids[n], if ids[n] in s.seen then s.seen[ids[n]] else now, IsAcked(s, ttl, ids[n], later));
      var before := Listed(s, ttl, ids[..n], now, later, includeAcked);
      ListedShows(s, ttl, ids[..n], now, later, includeAcked, id, createdAt, acked);
      InPrefixOrLast(ids, id);
      if includeAcked || !last.acked {
        ShowsSnoc(before, last, id, createdAt, acked);
      } else {
        assert before + [] == before;
      }
    }
  }

  /** After any history under a steady clock, a poll lists an alert exactly if it is
      active and either acknowledged ones are asked for or no acknowledgement in force
      is younger than the TTL; the row says which, and since when the current streak
      lasts. */
  lemma PollLists(ttl: real, h: seq<Op>, ids: seq<string>, now: real, later: real, includeAcked: bool, id: string)
    returns (k: nat)
    requires SteadyClock(h + [Poll(ids, now, later)])
    ensures var rows := Listed(Run(ttl, h).0, ttl, ids, now, later, includeAcked);
            var acked := exists j: nat :: InForce(h, id, j) && later - h[j].now <= ttl;
            && (id !in ids || (acked && !includeAcked) ==> forall at, a :: !Shows(rows, id, at, a))
            && (id in ids && (includeAcked || !acked) ==>
                 CurrentSince(h + [Poll(ids, now, later)], id, k) &&
                 Shows(rows, id, (h + [Poll(ids, now, later)])[k].now, acked))
  {
    var op := Poll(ids, now, later);
    var all := h + [op];
    var s := Run(ttl, h).0;
    assert all[..|h|] == h && all[|h|] == op;
    SteadyPrefix(h, op);
    AckedIff(ttl, h, id, later);
    k := TimeIsStreakStart(ttl, all, id);
    var at := if id in s.seen then s.seen[id] else now;
    ListedShows(s, ttl, ids, now, later, includeAcked, id, at, IsAcked(s, ttl, id, later));
    forall createdAt, a | !(id in ids && (includeAcked || !IsAcked(s, ttl, id, later)))
      ensures !Shows(Listed(s, ttl, ids, now, later, includeAcked), id, createdAt, a)
    {
      ListedShows(s, ttl, ids, now, later, includeAcked, id, createdAt, a);
    }
  }

  lemma SteadyPrefix(h: seq<Op>, op: Op)
    requires SteadyClock(h + [op]) && op.Poll?
    ensures SteadyClock(h) && (h != [] ==> TimeOf(h[|h| - 1]) <= op.later)
  {
    var all := h + [op];
    assert forall i :: 0 <= i < |h| ==> all[i] == h[i];
    assert all[|h|] == op;
  }

  lemma StreakMustEnd(h: seq<Op>, id: string, j: nat, k: nat) returns (e: nat)
    requires j < k < |h| && InStreak(h, id, j) && h[j].Ack? && Begins(h, id, k)
    ensures j < e < k && Ends(h, id, e)
  {
    assert InStreak(h, id, j + 1);
    e := j + 1;
    while InStreak(h, id, e + 1)
      invariant j < e < k && InStreak(h, id, e)
      decreases k - e
    {
      e := e + 1;
    }
  }

  /** An acknowledgement given while the alert is active never reaches a later
      streak of it. */
  lemma NeverIntoLaterStreak(h: seq<Op>, id: string, j: nat, k: nat)
    requires j < k < |h| && h[j] == Ack(id, h[j].now) && InStreak(h, id, j) && Begins(h, id, k)
    ensures !InForce(h, id, j)
  {
    var e := StreakMustEnd(h, id, j, k);
  }

  /** One given while the alert is not active does reach the next streak, and it is
      in force throughout it. */
  lemma EarlyAckReachesNextStreak(h: seq<Op>, id: string, j: nat, k: nat)
    requires j < k < |h| && h[j] == Ack(id, h[j].now) && id != "" && !InStreak(h, id, j)
    requires CurrentSince(h, id, k)
    requires forall m :: j < m < k ==> !Finds(h, id, m)
    ensures InForce(h, id, j)
  {
    NotInStreakUntil(h, id, j, k);
    forall m | j < m < |h| ensures !Ends(h, id, m) {
      if m > k && h[m].Poll? {
        assert Finds(h, id, m);
      }
    }
  }

  lemma {:induction false} NotInStreakUntil(h: seq<Op>, id: string, j: nat, k: nat)
    requires j < k < |h| && h[j].Ack? && !InStreak(h, id, j)
    requires forall m :: j < m < k ==> !Finds(h, id, m)
    ensures forall m :: j <= m <= k ==> !InStreak(h, id, m)
    decreases k
  {
    if k == j + 1 {
      assert InStreak(h, id, k) == InStreak(h, id, j);
    } else {
      NotInStreakUntil(h, id, j, k - 1);
      assert !Finds(h, id, k - 1);
      assert InStreak(h, id, k) == if h[k - 1].Poll? then false else InStreak(h, id, k - 1);
    }
  }
}
