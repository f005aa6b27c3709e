/** The encrypted-traffic archive: a call is merged into a recent row of the same
    key or opens a new row. Times are in seconds. */
module Archive {
  import opened Basics

  const WINDOW := 15.0

  datatype Key = Key(
    radio: string, talkgroup: Option<string>, algid: Option<int>, kid: Option<int>, encrypted: bool)

  datatype Call = Call(
    key: Key, at: real, keyLoaded: bool, emergency: bool, header: bool, state: string,
    indicator: Option<string>, systemId: Option<string>, siteId: Option<string>,
    frequency: Option<int>, uplink: Option<int>)

  datatype Row = Row(
    key: Key, observedAt: real, lastSeenAt: real, hearCount: nat,
    keyLoaded: bool, emergency: bool, header: bool, state: string,
    indicator: Option<string>, systemId: Option<string>, siteId: Option<string>,
    frequency: Option<int>, uplink: Option<int>)

  /** A value Python calls true; blank is the empty one of its type. */
  predicate Given<T(==)>(value: Option<T>, blank: T) { value.Some? && value.value != blank }

  /** The stored value, unless only the new one is given. */
  function First<T(==)>(old_: Option<T>, new_: Option<T>, blank: T): Option<T> {
    if Given(new_, blank) && !Given(old_, blank) then new_ else old_
  }

  /** The key the query asks for: an empty talkgroup is asked for as NULL. */
  function Asked(k: Key): Key {
    k.(talkgroup := if Blank(k) then None else k.talkgroup)
  }

  /** An empty talkgroup (a blank one, trimmed). */
  predicate Blank(k: Key) { k.talkgroup == Some("") }

  predicate Matches(row: Row, call: Call) {
    row.key == Asked(call.key) && row.observedAt >= call.at - WINDOW
  }

  /** The newest matching row among the first n. */
  function FindRow(rows: seq<Row>, call: Call, n: nat): Option<nat>
    requires n <= |rows|
  {
    if n == 0 then None
    else
      var before := FindRow(rows, call, n - 1);
      if !Matches(rows[n - 1], call) then before
      else match before
        case None => Some(n - 1)
        case Some(i) => if i < |rows| && rows[i].observedAt >= rows[n - 1].observedAt then before else Some(n - 1)
  }

  function Opened(c: Call): Row {
    Row(c.key, c.at, c.at, 1, c.keyLoaded, c.emergency, c.header, c.state,
        c.indicator, c.systemId, c.siteId, c.frequency, c.uplink)
  }

  function Merged(r: Row, c: Call): Row {
    Row(r.key, r.observedAt, c.at, r.hearCount + 1, r.keyLoaded || c.keyLoaded,
        r.emergency || c.emergency, r.header || c.header, c.state,
        First(r.indicator, c.indicator, ""), First(r.systemId, c.systemId, ""), First(r.siteId, c.siteId, ""),
        First(r.frequency, c.frequency, 0), First(r.uplink, c.uplink, 0))
  }

  lemma {:induction false} FindRowMeaning(rows: seq<Row>, call: Call, n: nat)
    requires n <= |rows|
    ensures var r := FindRow(rows, call, n);
            && (r.Some? ==>
                 && r.value < n && Matches(rows[r.value], call)
                 && forall i :: 0 <= i < n && Matches(rows[i], call) ==> rows[i].observedAt <= rows[r.value].observedAt)
            && (r.None? ==> forall i :: 0 <= i < n ==> !Matches(rows[i], call))
  {
    if n > 0 {
      FindRowMeaning(rows, call, n - 1);
    }
  }

  /** One decode event: the table after it, and the row it went to. */
  function Record(rows: seq<Row>, call: Call): (r: (seq<Row>, nat))
    ensures r.1 < |r.0|
  {
    FindRowMeaning(rows, call, |rows|);
    match FindRow(rows, call, |rows|)
    case Some(i) => (rows[i := Merged(rows[i], call)], i)
    case None => (rows + [Opened(call)], |rows|)
  }

  /** A run over an empty archive: the rows, and where each call went. */
  function Run(calls: seq<Call>): (r: (seq<Row>, seq<nat>))
    ensures |r.1| == |calls|
  {
    if calls == [] then ([], [])
    else
      var n := |calls| - 1;
      var before := Run(calls[..n]);
      var last := Record(before.0, calls[n]);
      (last.0, before.1 + [last.1])
  }

  /** One more call. */
  lemma RunNext(calls: seq<Call>, call: Call)
    ensures Run(calls + [call]).0 == Record(Run(calls).0, call).0
    ensures Run(calls + [call]).1 == Run(calls).1 + [Record(Run(calls).0, call).1]
  {
    assert (calls + [call])[..|calls|] == calls;
  }

  class EncryptionArchive {
    var enabled: bool
    var rows: seq<Row>

    method RecordDecode(call: Call) returns (row: Option<nat>)
      modifies this`rows
      ensures !enabled ==> row == None && rows == old(rows)
      ensures enabled ==> row.Some? && (rows, row.value) == Record(old(rows), call)
    {
      if !enabled {
        return None;
      }
      var found: Option<nat> := None;
      for n := 0 to |rows|
        invariant found == FindRow(rows, call, n)
      {
        if Matches(rows[n], call) {
          if found.None? || !(found.value < |rows| && rows[found.value].observedAt >= rows[n].observedAt) {
            found := Some(n);
          }
        }
      }
      FindRowMeaning(rows, call, |rows|);
      if found.Some? {
        var r := rows[found.value];
        r := r.(lastSeenAt := call.at, hearCount := r.hearCount + 1);
        r := r.(keyLoaded := r.keyLoaded || call.keyLoaded, state := call.state);
        r := r.(indicator := First(r.indicator, call.indicator, ""));
        r := r.(systemId := First(r.systemId, call.systemId, ""));
        r := r.(siteId := First(r.siteId, call.siteId, ""));
        r := r.(frequency := First(r.frequency, call.frequency, 0));
        r := r.(uplink := First(r.uplink, call.uplink, 0));
        if call.header {
          r := r.(header := true);
        }
        if call.emergency {
          r := r.(emergency := true);
        }
        rows := rows[found.value := r];
        return found;
      }
      rows := rows + [Opened(call)];
      row := Some(|rows| - 1);
    }
  }

  // ----- Bookkeeping, in any order of arrival -----

  function Assigned(went: seq<nat>, r: nat): nat {
    if went == [] then 0 else Assigned(went[..|went| - 1], r) + (if went[|went| - 1] == r then 1 else 0)
  }

  /** kept is what the calls of row r gave first: no earlier one gave anything, or
      none at all did. */
  ghost predicate KeepsFirst<T>(went: seq<nat>, r: nat, given: seq<Option<T>>, blank: T, kept: Option<T>)
    requires |given| == |went|
  {
    if Given(kept, blank) then
      exists c :: 0 <= c < |went| && went[c] == r && given[c] == kept && NoneBefore(went, r, given, blank, c)
    else NoneBefore(went, r, given, blank, |went|)
  }

  /** None of the calls before n that went to row r gave a value. */
  ghost predicate NoneBefore<T>(went: seq<nat>, r: nat, given: seq<Option<T>>, blank: T, n: nat)
    requires n <= |went| == |given|
  {
    forall d :: 0 <= d < n && went[d] == r ==> !Given(given[d], blank)
  }

  /** One attribute of every call. */
  function Column<T>(calls: seq<Call>, get: Call -> T): (g: seq<T>)
    ensures |g| == |calls|
    ensures forall i :: 0 <= i < |g| ==> g[i] == get(calls[i])
  {
    seq(|calls|, i requires 0 <= i < |calls| => get(calls[i]))
  }

  const INDICATOR := (c: Call) => c.indicator
  const SYSTEM := (c: Call) => c.systemId
  const SITE := (c: Call) => c.siteId
  const FREQUENCY := (c: Call) => c.frequency
  const UPLINK := (c: Call) => c.uplink
  const KEY_LOADED := (c: Call) => c.keyLoaded
  const EMERGENCY := (c: Call) => c.emergency
  const HEADER := (c: Call) => c.header

  ghost predicate KeepsFirstValues(calls: seq<Call>, went: seq<nat>, r: nat, row: Row)
    requires |calls| == |went|
  {
    && KeepsFirst(went, r, Column(calls, INDICATOR), "", row.indicator)
    && KeepsFirst(went, r, Column(calls, SYSTEM), "", row.systemId)
    && KeepsFirst(went, r, Column(calls, SITE), "", row.siteId)
    && KeepsFirst(went, r, Column(calls, FREQUENCY), 0, row.frequency)
    && KeepsFirst(went, r, Column(calls, UPLINK), 0, row.uplink)
  }

  /** Some call of row r carries the mark. */
  ghost predicate Raised(went: seq<nat>, r: nat, marks: seq<bool>)
    requires |marks| == |went|
  {
    exists c :: 0 <= c < |went| && went[c] == r && marks[c]
  }

  /** The last call of row r came at this time in this state. */
  ghost predicate Latest(calls: seq<Call>, went: seq<nat>, r: nat, at: real, state: string)
    requires |calls| == |went|
  {
    exists c {:trigger went[c]} :: 0 <= c < |calls| && went[c] == r && calls[c].at == at && calls[c].state == state
      && forall d :: c < d < |calls| ==> went[d] != r
  }

  /** Count, sticky flags and latest values are those of the calls of row r. */
  ghost predicate Tallies(calls: seq<Call>, went: seq<nat>, r: nat, row: Row)
    requires |calls| == |went|
  {
    && row.hearCount == Assigned(went, r)
    && (row.keyLoaded <==> Raised(went, r, Column(calls, KEY_LOADED)))
    && (row.emergency <==> Raised(went, r, Column(calls, EMERGENCY)))
    && (row.header <==> Raised(went, r, Column(calls, HEADER)))
    && Latest(calls, went, r, row.lastSeenAt, row.state)
  }

  /** Row r summarises exactly the calls that went to it. */
  ghost predicate Summarises(calls: seq<Call>, went: seq<nat>, r: nat, row: Row)
    requires |calls| == |went|
  {
    Tallies(calls, went, r, row) && KeepsFirstValues(calls, went, r, row)
  }

  ghost predicate Bookkept(calls: seq<Call>, rows: seq<Row>, went: seq<nat>)
    requires |calls| == |went|
  {
    && (forall c :: 0 <= c < |went| ==> went[c] < |rows|)
    && forall r :: 0 <= r < |rows| ==> Summarises(calls, went, r, rows[r])
  }

  lemma {:induction false} NotAssigned(went: seq<nat>, r: nat)
    requires forall c :: 0 <= c < |went| ==> went[c] != r
    ensures Assigned(went, r) == 0
  {
    if went != [] {
      NotAssigned(went[..|went| - 1], r);
    }
  }

  /** One more call: what row r keeps of one column. */
  lemma FirstNext<T>(
    went: seq<nat>, r: nat, given: seq<Option<T>>, blank: T, kept: Option<T>, target: nat, value: Option<T>)
    requires |given| == |went| && KeepsFirst(went, r, given, blank, kept)
    ensures KeepsFirst(went + [target], r, given + [value], blank,
                       if target == r then First(kept, value, blank) else kept)
  {
    var went', given', n := went + [target], given + [value], |went|;
    assert forall c :: 0 <= c < n ==> went'[c] == went[c] && given'[c] == given[c];
    assert went'[n] == target && given'[n] == value;
    if Given(kept, blank) {
      var c :| 0 <= c < n && went[c] == r && given[c] == kept && NoneBefore(went, r, given, blank, c);
      assert went'[c] == r && NoneBefore(went', r, given', blank, c);
    } else if target == r && Given(value, blank) {
      assert NoneBefore(went', r, given', blank, n);
    }
  }

  /** The first call of a row: it keeps what that call gives. */
  lemma FirstOpens<T>(went: seq<nat>, r: nat, given: seq<Option<T>>, blank: T, value: Option<T>)
    requires |given| == |went| && forall c :: 0 <= c < |went| ==> went[c] != r
    ensures KeepsFirst(went + [r], r, given + [value], blank, value)
  {
    var went', given', n := went + [r], given + [value], |went|;
    assert forall c :: 0 <= c < n ==> went'[c] != r;
    assert NoneBefore(went', r, given', blank, n) && went'[n] == r && given'[n] == value;
  }

  lemma ColumnSnoc<T>(calls: seq<Call>, call: Call, get: Call -> T)
    ensures Column(calls + [call], get) == Column(calls, get) + [get(call)]
  {
  }

  lemma TextNext(
    calls: seq<Call>, went: seq<nat>, r: nat, get: Call -> Option<string>, kept: Option<string>,
    call: Call, target: nat)
    requires |calls| == |went| && KeepsFirst(went, r, Column(calls, get), "", kept)
    ensures KeepsFirst(went + [target], r, Column(calls + [call], get), "",
                       if target == r then First(kept, get(call), "") else kept)
  {
    ColumnSnoc(calls, call, get);
    FirstNext(went, r, Column(calls, get), "", kept, target, get(call));
  }

  lemma NumberNext(
    calls: seq<Call>, went: seq<nat>, r: nat, get: Call -> Option<int>, kept: Option<int>,
    call: Call, target: nat)
    requires |calls| == |went| && KeepsFirst(went, r, Column(calls, get), 0, kept)
    ensures KeepsFirst(went + [target], r, Column(calls + [call], get), 0,
                       if target == r then First(kept, get(call), 0) else kept)
  {
    ColumnSnoc(calls, call, get);
    FirstNext(went, r, Column(calls, get), 0, kept, target, get(call));
  }

  lemma FirstValuesNext(calls: seq<Call>, went: seq<nat>, r: nat, row: Row, call: Call, target: nat)
    requires |calls| == |went| && KeepsFirstValues(calls, went, r, row)
    ensures KeepsFirstValues(calls + [call], went + [target], r, if target == r then Merged(row, call) else row)
  {
    TextNext(calls, went, r, INDICATOR, row.indicator, call, target);
    TextNext(calls, went, r, SYSTEM, row.systemId, call, target);
    TextNext(calls, went, r, SITE, row.siteId, call, target);
    NumberNext(calls, went, r, FREQUENCY, row.frequency, call, target);
    NumberNext(calls, went, r, UPLINK, row.uplink, call, target);
  }

  lemma FirstValuesOpen(calls: seq<Call>, went: seq<nat>, r: nat, call: Call)
    requires |calls| == |went| && forall c :: 0 <= c < |went| ==> went[c] != r
    ensures KeepsFirstValues(calls + [call], went + [r], r, Opened(call))
  {
    ColumnSnoc(calls, call, INDICATOR);
    ColumnSnoc(calls, call, SYSTEM);
    ColumnSnoc(calls, call, SITE);
    ColumnSnoc(calls, call, FREQUENCY);
    ColumnSnoc(calls, call, UPLINK);
    FirstOpens(went, r, Column(calls, INDICATOR), "", call.indicator);
    FirstOpens(went, r, Column(calls, SYSTEM), "", call.systemId);
    FirstOpens(went, r, Column(calls, SITE), "", call.siteId);
    FirstOpens(went, r, Column(calls, FREQUENCY), 0, call.frequency);
    FirstOpens(went, r, Column(calls, UPLINK), 0, call.uplink);
  }

  lemma RaisedSnoc(went: seq<nat>, r: nat, marks: seq<bool>, target: nat, mark: bool)
    requires |marks| == |went|
    ensures Raised(went + [target], r, marks + [mark]) <==> Raised(went, r, marks) || (target == r && mark)
  {
    var went', marks', n := went + [target], marks + [mark], |went|;
    assert forall c :: 0 <= c < n ==> went'[c] == went[c] && marks'[c] == marks[c];
    assert went'[n] == target && marks'[n] == mark;
    if Raised(went, r, marks) {
      var c :| 0 <= c < n && went[c] == r && marks[c];
      assert went'[c] == r && marks'[c];
    }
  }

  lemma MarksRaised(calls: seq<Call>, went: seq<nat>, r: nat, mark: Call -> bool, call: Call, target: nat)
    requires |calls| == |went|
    ensures Raised(went + [target], r, Column(calls + [call], mark)) <==>
              Raised(went, r, Column(calls, mark)) || (target == r && mark(call))
  {
    assert Column(calls + [call], mark) == Column(calls, mark) + [mark(call)];
    RaisedSnoc(went, r, Column(calls, mark), target, mark(call));
  }

  lemma LatestSnoc(calls: seq<Call>, went: seq<nat>, r: nat, at: real, state: string, call: Call, target: nat)
    requires |calls| == |went|
    ensures target == r ==> Latest(calls + [call], went + [target], r, call.at, call.state)
    ensures target != r && Latest(calls, went, r, at, state) ==> Latest(calls + [call], went + [target], r, at, state)
  {
    var calls', went', n := calls + [call], went + [target], |calls|;
    assert forall c :: 0 <= c < n ==> calls'[c] == calls[c] && went'[c] == went[c];
    assert went'[n] == target && calls'[n] == call;
    if target != r && Latest(calls, went, r, at, state) {
      var c :| 0 <= c < n && went[c] == r && calls[c].at == at && calls[c].state == state
               && forall d :: c < d < n ==> went[d] != r;
      assert went'[c] == r;
    }
  }

  /** How the tallies of row r grow with one call, whichever row takes it. */
  lemma TalliesSnoc(calls: seq<Call>, went: seq<nat>, r: nat, call: Call, target: nat)
    requires |calls| == |went|
    ensures Assigned(went + [target], r) == Assigned(went, r) + (if target == r then 1 else 0)
    ensures Raised(went + [target], r, Column(calls + [call], KEY_LOADED)) <==>
              Raised(went, r, Column(calls, KEY_LOADED)) || (target == r && call.keyLoaded)
    ensures Raised(went + [target], r, Column(calls + [call], EMERGENCY)) <==>
              Raised(went, r, Column(calls, EMERGENCY)) || (target == r && call.emergency)
    ensures Raised(went + [target], r, Column(calls + [call], HEADER)) <==>
              Raised(went, r, Column(calls, HEADER)) || (target == r && call.header)
  {
    assert (went + [target])[..|went|] == went;
    MarksRaised(calls, went, r, KEY_LOADED, call, target);
    MarksRaised(calls, went, r, EMERGENCY, call, target);
    MarksRaised(calls, went, r, HEADER, call, target);
  }

  lemma TalliesNext(calls: seq<Call>, went: seq<nat>, r: nat, row: Row, call: Call, target: nat)
    requires |calls| == |went| && Tallies(calls, went, r, row)
    ensures Tallies(calls + [call], went + [target], r, if target == r then Merged(row, call) else row)
  {
    TalliesSnoc(calls, went, r, call, target);
    LatestSnoc(calls, went, r, row.lastSeenAt, row.state, call, target);
  }

  lemma TalliesOpened(calls: seq<Call>, went: seq<nat>, r: nat, call: Call)
    requires |calls| == |went| && forall c :: 0 <= c < |went| ==> went[c] != r
    ensures Tallies(calls + [call], went + [r], r, Opened(call))
  {
    NotAssigned(went, r);
    TalliesSnoc(calls, went, r, call, r);
    LatestSnoc(calls, went, r, call.at, call.state, call, r);
  }

  lemma SummaryNext(calls: seq<Call>, went: seq<nat>, r: nat, row: Row, call: Call, target: nat)
    requires |calls| == |went| && Summarises(calls, went, r, row)
    ensures Summarises(calls + [call], went + [target], r, if target == r then Merged(row, call) else row)
  {
    FirstValuesNext(calls, went, r, row, call, target);
    TalliesNext(calls, went, r, row, call, target);
  }

  lemma SummaryOpened(calls: seq<Call>, went: seq<nat>, r: nat, call: Call)
    requires |calls| == |went| && forall c :: 0 <= c < |went| ==> went[c] != r
    ensures Summarises(calls + [call], went + [r], r, Opened(call))
  {
    TalliesOpened(calls, went, r, call);
    FirstValuesOpen(calls, went, r, call);
  }

  lemma BookkeptStep(calls: seq<Call>, rows: seq<Row>, went: seq<nat>, call: Call)
    requires |calls| == |went| && Bookkept(calls, rows, went)
    ensures Bookkept(calls + [call], Record(rows, call).0, went + [Record(rows, call).1])
  {
    FindRowMeaning(rows, call, |rows|);
    var (rows', target) := Record(rows, call);
    forall r | 0 <= r < |rows'| ensures Summarises(calls + [call], went + [target], r, rows'[r]) {
      if r < |rows| {
        SummaryNext(calls, went, r, rows[r], call, target);
      } else {
        SummaryOpened(calls, went, r, call);
      }
    }
  }

  lemma BookkeptNext(calls: seq<Call>, call: Call, rows: seq<Row>, went: seq<nat>)
    requires |calls| == |went| && Bookkept(calls, rows, went) && Run(calls) == (rows, went)
    ensures Bookkept(calls + [call], Run(calls + [call]).0, Run(calls + [call]).1)
  {
    RunNext(calls, call);
    BookkeptStep(calls, rows, went, call);
  }

  /** Whatever the order of arrival, every row's hear count, sticky flags,
      first-given values, last-seen time and decrypt state are those of exactly the
      calls it took. */
  lemma {:induction false} RowsSummariseCalls(calls: seq<Call>)
    ensures Bookkept(calls, Run(calls).0, Run(calls).1)
    decreases calls
  {
    if calls != [] {
      var front, call := calls[..|calls| - 1], calls[|calls| - 1];
      RowsSummariseCalls(front);
      BookkeptNext(front, call, Run(front).0, Run(front).1);
      assert front + [call] == calls;
    }
  }

  function TotalHeard(rows: seq<Row>): nat {
    if rows == [] then 0 else TotalHeard(rows[..|rows| - 1]) + rows[|rows| - 1].hearCount
  }

  lemma {:induction false} TotalUpdate(rows: seq<Row>, i: nat, r: Row)
    requires i < |rows|
    ensures TotalHeard(rows[i := r]) + rows[i].hearCount == TotalHeard(rows) + r.hearCount
    decreases rows
  {
    var n := |rows| - 1;
    if i < n {
      assert rows[i := r][..n] == rows[..n][i := r];
      TotalUpdate(rows[..n], i, r);
    } else {
      assert rows[i := r][..n] == rows[..n];
    }
  }

  lemma {:induction false} HearCountsAddUp(calls: seq<Call>)
    ensures TotalHeard(Run(calls).0) == |calls|
    decreases calls
  {
    if calls != [] {
      var n := |calls| - 1;
      HearCountsAddUp(calls[..n]);
      var rows, call := Run(calls[..n]).0, calls[n];
      FindRowMeaning(rows, call, |rows|);
      var found := FindRow(rows, call, |rows|);
      if found.Some? {
        TotalUpdate(rows, found.value, Merged(rows[found.value], call));
      } else {
        assert (rows + [Opened(call)])[..|rows|] == rows;
      }
    }
  }

  // ----- Windows, for calls in time order -----

  /** Calls that ask for the same key arrive in time order. */
  predicate InOrder(calls: seq<Call>) {
    forall i, j :: 0 <= i < j < |calls| && Asked(calls[i].key) == Asked(calls[j].key) ==> calls[i].at <= calls[j].at
  }

  /** Rows of one key start far apart, unless their talkgroup is blank. */
  ghost predicate RowsSpaced(rows: seq<Row>) {
    forall r, q :: 0 <= r < q < |rows| && rows[r].key == rows[q].key && !Blank(rows[r].key) ==>
      rows[q].observedAt - rows[r].observedAt > WINDOW
  }

  ghost predicate Windowed(calls: seq<Call>, rows: seq<Row>, went: seq<nat>)
    requires |calls| == |went|
  {
    && (forall c {:trigger went[c]} :: 0 <= c < |calls| ==>
         && went[c] < |rows| && rows[went[c]].key in {calls[c].key, Asked(calls[c].key)}
         && rows[went[c]].observedAt <= calls[c].at <= rows[went[c]].observedAt + WINDOW)
    && (forall r :: 0 <= r < |rows| ==> Founded(calls, rows[r]))
    && RowsSpaced(rows)
  }

  /** Some call opened this row. */
  ghost predicate Founded(calls: seq<Call>, row: Row) {
    exists c :: 0 <= c < |calls| && calls[c].key == row.key && calls[c].at == row.observedAt
  }

  lemma FoundedStays(calls: seq<Call>, call: Call, row: Row)
    requires Founded(calls, row)
    ensures Founded(calls + [call], row)
  {
    var c :| 0 <= c < |calls| && calls[c].key == row.key && calls[c].at == row.observedAt;
    assert (calls + [call])[c] == calls[c];
  }

  /** In time order no row the query asks for starts after the new call. */
  lemma RowsNotLater(calls: seq<Call>, call: Call, row: Row)
    requires InOrder(calls + [call]) && Founded(calls, row) && row.key == Asked(call.key)
    ensures row.observedAt <= call.at
  {
    var c :| 0 <= c < |calls| && calls[c].key == row.key && calls[c].at == row.observedAt;
    var all := calls + [call];
    assert all[c] == calls[c] && all[|calls|] == call;
  }

  lemma MergeWindowed(calls: seq<Call>, rows: seq<Row>, went: seq<nat>, call: Call, i: nat)
    requires |calls| == |went| && Windowed(calls, rows, went) && InOrder(calls + [call])
    requires i < |rows| && rows[i].key == Asked(call.key) && rows[i].observedAt >= call.at - WINDOW
    ensures Windowed(calls + [call], rows[i := Merged(rows[i], call)], went + [i])
  {
    RowsNotLater(calls, call, rows[i]);
    forall r | 0 <= r < |rows| ensures Founded(calls + [call], rows[r]) {
      FoundedStays(calls, call, rows[r]);
    }
    assert Founded(calls + [call], rows[i]) ==> Founded(calls + [call], Merged(rows[i], call));
  }

  lemma OpenWindowed(calls: seq<Call>, rows: seq<Row>, went: seq<nat>, call: Call)
    requires |calls| == |went| && Windowed(calls, rows, went)
    requires forall r :: 0 <= r < |rows| && rows[r].key == Asked(call.key) ==> call.at - rows[r].observedAt > WINDOW
    ensures Windowed(calls + [call], rows + [Opened(call)], went + [|rows|])
  {
    forall r | 0 <= r < |rows| ensures Founded(calls + [call], rows[r]) {
      FoundedStays(calls, call, rows[r]);
    }
    assert (calls + [call])[|calls|] == call;
    assert Founded(calls + [call], Opened(call));
  }

  lemma WindowedStep(calls: seq<Call>, rows: seq<Row>, went: seq<nat>, call: Call)
    requires |calls| == |went| && Windowed(calls, rows, went) && InOrder(calls + [call])
    ensures var (rows', target) := Record(rows, call);
            Windowed(calls + [call], rows', went + [target])
  {
    FindRowMeaning(rows, call, |rows|);
    match FindRow(rows, call, |rows|)
    case Some(i) => MergeWindowed(calls, rows, went, call, i);
    case None =>
      forall r | 0 <= r < |rows| && rows[r].key == Asked(call.key) ensures call.at - rows[r].observedAt > WINDOW {
        assert !Matches(rows[r], call);
      }
      OpenWindowed(calls, rows, went, call);
  }

  lemma {:induction false} RunWindowed(calls: seq<Call>)
    requires InOrder(calls)
    ensures Windowed(calls, Run(calls).0, Run(calls).1)
    decreases calls
  {
    if calls != [] {
      var n := |calls| - 1;
      RunWindowed(calls[..n]);
      var before := Run(calls[..n]);
      assert calls[..n] + [calls[n]] == calls;
      WindowedStep(calls[..n], before.0, before.1, calls[n]);
    }
  }

  /** Rows of one key start more than 15 s apart, and each call lies within the
      15 s after the start of the row it went to, which has its key. Calls with a
      blank talkgroup may also be in a row without one; their own rows may start
      at any distance. */
  lemma RowsAreWindows(calls: seq<Call>)
    requires InOrder(calls)
    ensures var (rows, went) := Run(calls);
            && (forall c {:trigger went[c]} :: 0 <= c < |calls| ==>
                 && went[c] < |rows| && rows[went[c]].key in {calls[c].key, Asked(calls[c].key)}
                 && rows[went[c]].observedAt <= calls[c].at <= rows[went[c]].observedAt + WINDOW)
            && forall r, q :: 0 <= r < q < |rows| && rows[r].key == rows[q].key && !Blank(rows[r].key) ==>
                 rows[q].observedAt - rows[r].observedAt > WINDOW
  {
    RunWindowed(calls);
  }

  // ----- The number of rows is the least number of windows -----

  function Starts(rows: seq<Row>, k: Key): seq<real> {
    if rows == [] then []
    else
      var last := rows[|rows| - 1];
      Starts(rows[..|rows| - 1], k) + (if last.key == k then [last.observedAt] else [])
  }

  /** Closed windows of 15 s at these starts contain the time. */
  ghost predicate Covered(at: real, starts: seq<real>) {
    exists i :: 0 <= i < |starts| && starts[i] <= at <= starts[i] + WINDOW
  }

  ghost predicate CoversKey(calls: seq<Call>, k: Key, starts: seq<real>) {
    forall c :: 0 <= c < |calls| && calls[c].key == k ==> Covered(calls[c].at, starts)
  }

  predicate Spaced(starts: seq<real>) {
    forall i, j :: 0 <= i < j < |starts| ==> starts[j] - starts[i] > WINDOW
  }

  /** Some row of the key starts at this time. */
  ghost predicate IsStart(rows: seq<Row>, k: Key, at: real) {
    exists r :: 0 <= r < |rows| && rows[r].key == k && rows[r].observedAt == at
  }

  lemma StartStays(rows: seq<Row>, more: seq<Row>, k: Key, at: real)
    requires rows <= more && IsStart(rows, k, at)
    ensures IsStart(more, k, at)
  {
    var r :| 0 <= r < |rows| && rows[r].key == k && rows[r].observedAt == at;
    assert more[r] == rows[r];
  }

  lemma {:induction false} StartsAreStarts(rows: seq<Row>, k: Key)
    ensures forall i :: 0 <= i < |Starts(rows, k)| ==> IsStart(rows, k, Starts(rows, k)[i])
    ensures forall r :: 0 <= r < |rows| && rows[r].key == k ==> rows[r].observedAt in Starts(rows, k)
    decreases rows
  {
    if rows != [] {
      var n := |rows| - 1;
      var before := Starts(rows[..n], k);
      StartsAreStarts(rows[..n], k);
      forall i | 0 <= i < |before| ensures IsStart(rows, k, before[i]) {
        StartStays(rows[..n], rows, k, before[i]);
      }
      assert rows[n].key == k ==> IsStart(rows, k, rows[n].observedAt);
    }
  }

  lemma {:induction false} StartsSpaced(rows: seq<Row>, k: Key)
    requires RowsSpaced(rows) && !Blank(k)
    ensures Spaced(Starts(rows, k))
    decreases rows
  {
    if rows != [] {
      var n := |rows| - 1;
      var before := Starts(rows[..n], k);
      StartsSpaced(rows[..n], k);
      StartsAreStarts(rows[..n], k);
      if rows[n].key == k {
        forall i | 0 <= i < |before| ensures rows[n].observedAt - before[i] > WINDOW {
          assert IsStart(rows[..n], k, before[i]);
        }
      }
    }
  }

  /** Spaced times each need a window of their own. */
  lemma {:induction false} SpacedNeedWindows(starts: seq<real>, windows: seq<real>)
    requires Spaced(starts) && forall i :: 0 <= i < |starts| ==> Covered(starts[i], windows)
    ensures |starts| <= |windows|
    decreases starts
  {
    if starts != [] {
      var n := |starts| - 1;
      var j :| 0 <= j < |windows| && windows[j] <= starts[n] <= windows[j] + WINDOW;
      var rest := windows[..j] + windows[j + 1..];
      forall i | 0 <= i < n ensures Covered(starts[..n][i], rest) {
        assert Covered(starts[i], windows);
        var w :| 0 <= w < |windows| && windows[w] <= starts[i] <= windows[w] + WINDOW;
        assert w != j;
        assert windows[w] == rest[if w < j then w else w - 1];
      }
      SpacedNeedWindows(starts[..n], rest);
    }
  }

  /** For calls in time order, the rows of a key whose talkgroup is not blank cover
      all its calls, and no smaller family of closed 15-second windows does. */
  lemma FewestWindows(calls: seq<Call>, k: Key, windows: seq<real>)
    requires InOrder(calls) && !Blank(k)
    ensures CoversKey(calls, k, Starts(Run(calls).0, k))
    ensures CoversKey(calls, k, windows) ==> |Starts(Run(calls).0, k)| <= |windows|
  {
    var (rows, went) := Run(calls);
    RunWindowed(calls);
    StartsAreStarts(rows, k);
    StartsSpaced(rows, k);
    var starts := Starts(rows, k);
    forall c | 0 <= c < |calls| && calls[c].key == k ensures Covered(calls[c].at, starts) {
      assert rows[went[c]].observedAt in starts;
    }
    if CoversKey(calls, k, windows) {
      forall i | 0 <= i < |starts| ensures Covered(starts[i], windows) {
        assert IsStart(rows, k, starts[i]);
        var r :| 0 <= r < |rows| && rows[r].key == k && rows[r].observedAt == starts[i];
        assert Founded(calls, rows[r]);
      }
      SpacedNeedWindows(starts, windows);
    }
  }

  // ----- When a call merges, and with what -----

  /** Some row of the key starts no earlier than 15 s before this time. */
  ghost predicate HasRecent(rows: seq<Row>, k: Key, at: real) {
    exists r :: 0 <= r < |rows| && rows[r].key == k && rows[r].observedAt >= at - WINDOW
  }

  /** On any table: a call merges exactly if the table has a recent row of the key
      it asks for, and then into the one that started last. The key asked for is
      never blank, so a call with a blank talkgroup merges into rows without one. */
  lemma MergesIff(rows: seq<Row>, call: Call)
    ensures var target := Record(rows, call).1;
            && (target < |rows| <==> HasRecent(rows, Asked(call.key), call.at))
            && (target < |rows| ==>
                 && rows[target].key == Asked(call.key)
                 && forall r :: 0 <= r < |rows| && rows[r].key == Asked(call.key) ==>
                      rows[r].observedAt <= rows[target].observedAt)
            && (target >= |rows| ==> Record(rows, call).0 == rows + [Opened(call)])
  {
    FindRowMeaning(rows, call, |rows|);
    if HasRecent(rows, Asked(call.key), call.at) {
      var r :| 0 <= r < |rows| && rows[r].key == Asked(call.key) && rows[r].observedAt >= call.at - WINDOW;
      assert Matches(rows[r], call);
    }
  }

  /** What a run keeps of its first n calls: where they went, and key and start of
      every row they opened. */
  ghost predicate Extends(calls: seq<Call>, n: nat)
    requires n <= |calls|
  {
    var (early, late) := (Run(calls[..n]), Run(calls));
    && early.1 == late.1[..n]
    && |early.0| <= |late.0|
    && forall r :: 0 <= r < |early.0| ==>
         early.0[r].key == late.0[r].key && early.0[r].observedAt == late.0[r].observedAt
  }

  lemma RecordExtends(rows: seq<Row>, call: Call)
    ensures var rows' := Record(rows, call).0;
            |rows| <= |rows'| && forall r :: 0 <= r < |rows| ==>
              rows'[r].key == rows[r].key && rows'[r].observedAt == rows[r].observedAt
  {
    FindRowMeaning(rows, call, |rows|);
  }

  lemma {:induction false} RunExtends(calls: seq<Call>, n: nat)
    requires n <= |calls|
    ensures Extends(calls, n)
    decreases calls
  {
    if n == |calls| {
      assert calls[..n] == calls;
    } else {
      var m := |calls| - 1;
      assert calls[..m][..n] == calls[..n];
      RunExtends(calls[..m], n);
      RecordExtends(Run(calls[..m]).0, calls[m]);
      assert Run(calls).1[..n] == Run(calls[..m]).1[..n];
    }
  }

  /** Call d of a run: where it went, decided on the table it found. */
  lemma CallInRun(calls: seq<Call>, d: nat)
    requires d < |calls|
    ensures Extends(calls, d)
    ensures var rows, went := Run(calls[..d]).0, Run(calls).1;
            went[d] == Record(rows, calls[d]).1 && went[d] < |Run(calls).0|
    ensures Run(calls).0[Run(calls).1[d]].key ==
            if HasRecent(Run(calls[..d]).0, Asked(calls[d].key), calls[d].at) then Asked(calls[d].key) else calls[d].key
  {
    var rows, call := Run(calls[..d]).0, calls[d];
    var upTo := calls[..d + 1];
    assert upTo[..d] == calls[..d] && upTo[d] == call;
    RunExtends(calls, d);
    RunExtends(calls, d + 1);
    assert Run(upTo).1[d] == Record(rows, call).1;
    MergesIff(rows, call);
    RecordExtends(rows, call);
  }

  /** Call c has a blank talkgroup and finds a recent row without one. */
  ghost predicate Strays(calls: seq<Call>, c: nat)
    requires c < |calls|
  {
    Blank(calls[c].key) && HasRecent(Run(calls[..c]).0, Asked(calls[c].key), calls[c].at)
  }

  /** Call c is in a row of its own key. */
  predicate AtHome(calls: seq<Call>, c: nat)
    requires c < |calls|
  {
    Run(calls).1[c] < |Run(calls).0| && Run(calls).0[Run(calls).1[c]].key == calls[c].key
  }

  /** Every row of a run holds calls of its own key only, exactly when no call with
      a blank talkgroup ever found a recent row without one. */
  lemma OneKeyPerRowIff(calls: seq<Call>)
    ensures (forall c :: 0 <= c < |calls| ==> AtHome(calls, c)) <==> forall c :: 0 <= c < |calls| ==> !Strays(calls, c)
  {
    forall c | 0 <= c < |calls| ensures AtHome(calls, c) <==> !Strays(calls, c) {
      CallInRun(calls, c);
    }
  }

  /** On a spaced table, a call that comes no earlier than the rows it asks for
      goes to row r exactly when it asks for its key within 15 s of its start. */
  lemma JoinsIff(rows: seq<Row>, call: Call, r: nat)
    requires r < |rows| && RowsSpaced(rows)
    requires forall q :: 0 <= q < |rows| && rows[q].key == Asked(call.key) ==> rows[q].observedAt <= call.at
    ensures Record(rows, call).1 == r <==>
              rows[r].key == Asked(call.key) && call.at - rows[r].observedAt <= WINDOW
  {
    MergesIff(rows, call);
    FindRowMeaning(rows, call, |rows|);
  }

  /** In time order no row that call d finds under the key it asks for starts later. */
  lemma NoneLater(calls: seq<Call>, d: nat)
    requires InOrder(calls) && d < |calls|
    ensures var rows := Run(calls[..d]).0;
            RowsSpaced(rows) &&
            forall q :: 0 <= q < |rows| && rows[q].key == Asked(calls[d].key) ==> rows[q].observedAt <= calls[d].at
  {
    RunWindowed(calls[..d]);
    assert calls[..d] + [calls[d]] == calls[..d + 1];
    var rows := Run(calls[..d]).0;
    forall q | 0 <= q < |rows| && rows[q].key == Asked(calls[d].key) ensures rows[q].observedAt <= calls[d].at {
      RowsNotLater(calls[..d], calls[d], rows[q]);
    }
  }

  /** In time order, a later call d joins the row of an earlier call c exactly when
      d asks for the key of that row and comes no later than 15 s after its start. */
  lemma ShareRowIff(calls: seq<Call>, c: nat, d: nat)
    requires InOrder(calls) && c < d < |calls|
    ensures var r := Run(calls).1[c];
            && r < |Run(calls).0|
            && (Run(calls).1[d] == r <==>
                 && Run(calls).0[r].key == Asked(calls[d].key)
                 && calls[d].at - Run(calls).0[r].observedAt <= WINDOW)
  {
    CallInRun(calls[..d], c);
    CallInRun(calls, d);
    NoneLater(calls, d);
    assert Run(calls[..d]).1[c] == Run(calls).1[c];
    JoinsIff(Run(calls[..d]).0, calls[d], Run(calls).1[c]);
  }

  /** A row with a blank talkgroup is never asked for: it holds one call. */
  lemma {:induction false} BlankRowHoldsOneCall(calls: seq<Call>, r: nat)
    requires r < |Run(calls).0| && Blank(Run(calls).0[r].key)
    ensures Run(calls).0[r].hearCount == 1 && Assigned(Run(calls).1, r) == 1
    decreases calls
  {
    var n := |calls| - 1;
    RowsSummariseCalls(calls);
    var rows := Run(calls[..n]).0;
    MergesIff(rows, calls[n]);
    if r < |rows| {
      RecordExtends(rows, calls[n]);
      BlankRowHoldsOneCall(calls[..n], r);
    }
  }

  /** The query has no upper bound: a late call may merge into a row that started
      after it. It lies within 15 s of the start of its row exactly when no row of
      the key it asks for starts more than 15 s after it. */
  lemma MergeDistance(rows: seq<Row>, call: Call)
    requires Record(rows, call).1 < |rows|
    ensures var start := rows[Record(rows, call).1].observedAt;
            -WINDOW <= call.at - start <= WINDOW <==>
            forall r :: 0 <= r < |rows| && rows[r].key == Asked(call.key) ==> rows[r].observedAt - call.at <= WINDOW
  {
    MergesIff(rows, call);
    FindRowMeaning(rows, call, |rows|);
  }

  /** However late a call is, it merges into the only row of its key. */
  lemma OldCallMerges(c: Call, late: real)
    requires !Blank(c.key) && late >= 0.0
    ensures var old_ := c.(at := c.at - late);
            Record([Opened(c)], old_) == ([Merged(Opened(c), old_)], 0)
  {
    var old_ := c.(at := c.at - late);
    FindRowMeaning([Opened(c)], old_, 1);
    assert Matches([Opened(c)][0], old_);
    assert [Opened(c)][0 := Merged(Opened(c), old_)] == [Merged(Opened(c), old_)];
  }
}
