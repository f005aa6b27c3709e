/** The hearing gauge: a deque of event times trimmed from the front equals the
    full history filtered to the window. */
module Hearing {
  import opened Basics

  predicate Ordered(ts: seq<real>) { forall i, j :: 0 <= i < j < |ts| ==> ts[i] <= ts[j] }

  /** The times not before the cutoff. */
  function Since(ts: seq<real>, cutoff: real): seq<real> {
    if ts == [] then []
    else (if ts[0] >= cutoff then [ts[0]] else []) + Since(ts[1..], cutoff)
  }

  /** Dropping from the front while too old. */
  function Trim(ts: seq<real>, cutoff: real): seq<real> {
    if ts != [] && ts[0] < cutoff then Trim(ts[1..], cutoff) else ts
  }

  datatype Op = Note(now: real) | Query(now: real)

  /** The deque after a run, its window in seconds. */
  function Run(window: real, ops: seq<Op>): seq<real> {
    if ops == [] then []
    else
      var n := |ops| - 1;
      var before := Run(window, ops[..n]);
      Trim(if ops[n].Note? then before + [ops[n].now] else before, ops[n].now - window)
  }

  /** Every time ever noted. */
  function Notes(ops: seq<Op>): seq<real> {
    if ops == [] then []
    else
      var n := |ops| - 1;
      Notes(ops[..n]) + (if ops[n].Note? then [ops[n].now] else [])
  }

  predicate SteadyClock(ops: seq<Op>) {
    forall i, j :: 0 <= i < j < |ops| ==> ops[i].now <= ops[j].now
  }

  class HearingGauges {
    const window: real
    var events: seq<real>
    var lastEventAt: Option<real>

    method Note(now: real)
      modifies this
      ensures events == Trim(old(events) + [now], now - window) && lastEventAt == Some(now)
    {
      lastEventAt := Some(now);
      events := events + [now];
      TrimEvents(now);
    }

    method TrimEvents(now: real)
      modifies this`events
      ensures events == Trim(old(events), now - window)
    {
      var cutoff := now - window;
      while events != [] && events[0] < cutoff
        invariant Trim(events, cutoff) == Trim(old(events), cutoff)
        decreases |events|
      {
        events := events[1..];
      }
    }

    /** Events per minute, rounded to one decimal. */
    method MessagesPerMinute(now: real) returns (rate: real)
      requires window > 0.0
      modifies this`events
      ensures events == Trim(old(events), now - window)
      ensures IsTenth(rate, |events| as real * (60.0 / window))
    {
      TrimEvents(now);
      rate := RoundTenth(|events| as real * (60.0 / window));
    }
  }

  /** r is x rounded to one decimal: a nearest multiple of a tenth, of two the even
      one. */
  ghost predicate IsTenth(r: real, x: real) {
    NearestTenth(r, x * 10.0)
  }

  ghost predicate NearestTenth(r: real, y: real) {
    exists k: int :: r == Tenths(k) && Nearest(k, y)
  }

  function Tenths(k: int): real { k as real / 10.0 }

  predicate Nearest(k: int, y: real) {
    -0.5 <= y - k as real <= 0.5 && (y - k as real == 0.5 || y - k as real == -0.5 ==> k % 2 == 0)
  }

  /** Python's round(x, 1) on exact numbers. */
  function RoundTenth(x: real): (r: real)
    ensures IsTenth(r, x)
  {
    var y := x * 10.0;
    var below := y.Floor;
    var rest := y - below as real;
    var k := if rest < 0.5 || (rest == 0.5 && below % 2 == 0) then below else below + 1;
    assert Nearest(k, y);
    Tenths(k)
  }

  // ----- Trimming is filtering -----

  lemma {:induction false} SinceConcat(a: seq<real>, b: seq<real>, cutoff: real)
    ensures Since(a + b, cutoff) == Since(a, cutoff) + Since(b, cutoff)
    decreases a
  {
    if a == [] {
      assert a + b == b;
    } else {
      var first := if a[0] >= cutoff then [a[0]] else [];
      assert (a + b)[0] == a[0] && (a + b)[1..] == a[1..] + b;
      SinceConcat(a[1..], b, cutoff);
      Regroup(first, Since(a[1..], cutoff), Since(b, cutoff));
    }
  }

  lemma Regroup(a: seq<real>, b: seq<real>, c: seq<real>)
    ensures a + (b + c) == a + b + c
  {
  }

  /** Filtering keeps exactly the times not before the cutoff, each as often as before. */
  lemma {:induction false} SinceMeans(ts: seq<real>, cutoff: real, t: real)
    ensures multiset(Since(ts, cutoff))[t] == if t >= cutoff then multiset(ts)[t] else 0
    decreases ts
  {
    if ts != [] {
      SinceMeans(ts[1..], cutoff, t);
      assert ts == [ts[0]] + ts[1..];
    }
  }

  lemma {:induction false} SinceAll(ts: seq<real>, cutoff: real)
    requires forall i :: 0 <= i < |ts| ==> ts[i] >= cutoff
    ensures Since(ts, cutoff) == ts
    decreases ts
  {
    if ts != [] {
      SinceAll(ts[1..], cutoff);
    }
  }

  lemma {:induction false} TrimIsSince(ts: seq<real>, cutoff: real)
    requires Ordered(ts)
    ensures Trim(ts, cutoff) == Since(ts, cutoff)
    decreases ts
  {
    if ts != [] {
      if ts[0] < cutoff {
        TrimIsSince(ts[1..], cutoff);
      } else {
        SinceAll(ts, cutoff);
      }
    }
  }

  lemma {:induction false} SinceTwice(ts: seq<real>, a: real, b: real)
    requires a <= b
    ensures Since(Since(ts, a), b) == Since(ts, b)
    decreases ts
  {
    if ts != [] {
      SinceTwice(ts[1..], a, b);
      SinceConcat(if ts[0] >= a then [ts[0]] else [], Since(ts[1..], a), b);
      assert Since([ts[0]], b) == if ts[0] >= b then [ts[0]] else [] by {
        assert [ts[0]][1..] == [];
      }
    }
  }

  lemma {:induction false} SinceOrdered(ts: seq<real>, cutoff: real, top: real)
    requires Ordered(ts) && forall i :: 0 <= i < |ts| ==> ts[i] <= top
    ensures Ordered(Since(ts, cutoff)) && forall i :: 0 <= i < |Since(ts, cutoff)| ==> Since(ts, cutoff)[i] <= top
    decreases ts
  {
    TrimIsSince(ts, cutoff);
    TrimIsSuffix(ts, cutoff);
  }

  lemma {:induction false} TrimIsSuffix(ts: seq<real>, cutoff: real)
    ensures |Trim(ts, cutoff)| <= |ts| && Trim(ts, cutoff) == ts[|ts| - |Trim(ts, cutoff)|..]
    decreases ts
  {
    if ts != [] && ts[0] < cutoff {
      TrimIsSuffix(ts[1..], cutoff);
    }
  }

  lemma {:induction false} NotesOrdered(ops: seq<Op>)
    requires SteadyClock(ops)
    ensures Ordered(Notes(ops))
    ensures ops != [] ==> forall i :: 0 <= i < |Notes(ops)| ==> Notes(ops)[i] <= ops[|ops| - 1].now
    decreases ops
  {
    if ops != [] {
      NotesOrdered(ops[..|ops| - 1]);
    }
  }

  /** One operation: trimming the old window with the new note is filtering. */
  lemma OneOperation(notes: seq<real>, last: real, added: seq<real>, now: real, window: real)
    requires last <= now && Ordered(notes + added) && (forall i :: 0 <= i < |notes| ==> notes[i] <= last)
    requires added == [] || added == [now]
    ensures Trim(Since(notes, last - window) + added, now - window) == Since(notes + added, now - window)
  {
    var before, cutoff := Since(notes, last - window), now - window;
    assert Ordered(notes) by {
      assert notes == (notes + added)[..|notes|];
    }
    SinceOrdered(notes, last - window, last);
    TrimIsSince(before + added, cutoff);
    SinceConcat(before, added, cutoff);
    SinceConcat(notes, added, cutoff);
    SinceTwice(notes, last - window, cutoff);
  }

  /** One more operation, on the history and on the deque. */
  lemma RunNext(window: real, ops: seq<Op>, op: Op)
    ensures var added := if op.Note? then [op.now] else [];
            && Notes(ops + [op]) == Notes(ops) + added
            && Run(window, ops + [op]) == Trim(Run(window, ops) + added, op.now - window)
  {
    assert (ops + [op])[..|ops|] == ops;
    assert Run(window, ops) + [] == Run(window, ops);
  }

  lemma DequeNext(window: real, ops: seq<Op>, op: Op, last: real)
    requires Run(window, ops) == Since(Notes(ops), last - window) && last <= op.now
    requires Ordered(Notes(ops + [op])) && forall i :: 0 <= i < |Notes(ops)| ==> Notes(ops)[i] <= last
    ensures Run(window, ops + [op]) == Since(Notes(ops + [op]), op.now - window)
  {
    RunNext(window, ops, op);
    OneOperation(Notes(ops), last, if op.Note? then [op.now] else [], op.now, window);
  }

  lemma DequeStart(window: real, op: Op)
    ensures Run(window, [op]) == Since(Notes([op]), op.now - window)
  {
    RunNext(window, [], op);
    assert [] + [op] == [op];
    DequeNext(window, [], op, op.now);
  }

  lemma DequeMore(window: real, ops: seq<Op>, op: Op)
    requires ops != [] && SteadyClock(ops + [op])
    requires Run(window, ops) == Since(Notes(ops), ops[|ops| - 1].now - window)
    ensures Run(window, ops + [op]) == Since(Notes(ops + [op]), op.now - window)
  {
    var last := ops[|ops| - 1];
    assert (ops + [op])[|ops| - 1] == last && (ops + [op])[|ops|] == op;
    assert forall i :: 0 <= i < |ops| ==> (ops + [op])[i] == ops[i];
    NotesOrdered(ops + [op]);
    NotesOrdered(ops);
    DequeNext(window, ops, op, last.now);
  }

  /** After any run under a steady clock the deque is the whole history of notes
      filtered to the window that ends at the last operation. */
  lemma {:induction false} DequeIsWindow(window: real, ops: seq<Op>)
    requires SteadyClock(ops) && ops != []
    ensures Run(window, ops) == Since(Notes(ops), ops[|ops| - 1].now - window)
    decreases ops
  {
    var n := |ops| - 1;
    var before, op := ops[..n], ops[n];
    assert before + [op] == ops;
    if n == 0 {
      assert ops == [op];
      DequeStart(window, op);
    } else {
      DequeIsWindow(window, before);
      DequeMore(window, before, op);
    }
  }
}
