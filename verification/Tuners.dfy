/** Tuner allocation: which listening systems get a dongle. The page and the
    playlist decide separately; this is when they agree. */
module Tuners {
  import opened Basics

  /** A row of the systems table: enabled flag, auto_start, frequencies. */
  datatype SystemRow = SystemRow(enabled: bool, autoStart: bool, frequencies: seq<int>)

  datatype Listen = Off | Active | Starved

  /** A playlist entry. */
  datatype Entry = Entry(frequencies: seq<int>, autoStart: bool)

  predicate IsListening(row: SystemRow) { row.enabled && row.autoStart }

  function Slots(tunerCount: int): nat { if tunerCount > 0 then tunerCount else 0 }

  // ----- What the page shows -----

  /** How many of the first n rows are on. */
  function OnBefore(listening: seq<bool>, n: nat): nat
    requires n <= |listening|
  {
    if n == 0 then 0 else OnBefore(listening, n - 1) + (if listening[n - 1] then 1 else 0)
  }

  function StateAt(listening: seq<bool>, tunerCount: int, i: nat): Listen
    requires i < |listening|
  {
    if !listening[i] then Off
    else if OnBefore(listening, i) < Slots(tunerCount) then Active
    else Starved
  }

  method AssignListenStates(listening: seq<bool>, tunerCount: int) returns (states: seq<Listen>)
    ensures |states| == |listening|
    ensures forall i :: 0 <= i < |states| ==> states[i] == StateAt(listening, tunerCount, i)
  {
    var slots := if tunerCount > 0 then tunerCount else 0;
    var used := 0;
    states := [];
    for i := 0 to |listening|
      invariant |states| == i
      invariant used == if OnBefore(listening, i) < slots then OnBefore(listening, i) else slots
      invariant forall k :: 0 <= k < i ==> states[k] == StateAt(listening, tunerCount, k)
    {
      if !listening[i] {
        states := states + [Off];
      } else if used < slots {
        states := states + [Active];
        used := used + 1;
      } else {
        states := states + [Starved];
      }
    }
  }

  function ActiveBefore(listening: seq<bool>, tunerCount: int, n: nat): nat
    requires n <= |listening|
  {
    if n == 0 then 0
    else ActiveBefore(listening, tunerCount, n - 1) + (if StateAt(listening, tunerCount, n - 1) == Active then 1 else 0)
  }

  lemma {:induction false} ActiveCount(listening: seq<bool>, tunerCount: int, n: nat)
    requires n <= |listening|
    ensures ActiveBefore(listening, tunerCount, n)
         == if OnBefore(listening, n) < Slots(tunerCount) then OnBefore(listening, n) else Slots(tunerCount)
  {
    if n > 0 {
      ActiveCount(listening, tunerCount, n - 1);
    }
  }

  lemma {:induction false} OnBeforeGrows(listening: seq<bool>, i: nat, j: nat)
    requires i <= j <= |listening|
    ensures OnBefore(listening, i) <= OnBefore(listening, j)
    decreases j
  {
    if i < j {
      OnBeforeGrows(listening, i, j - 1);
    }
  }

  /** Exactly min(listening, tuners) rows are active, and none after a starved one. */
  lemma FirstComeFirstServed(listening: seq<bool>, tunerCount: int)
    ensures var on, slots := OnBefore(listening, |listening|), Slots(tunerCount);
            ActiveBefore(listening, tunerCount, |listening|) == if on < slots then on else slots
    ensures forall i, j :: 0 <= i < j < |listening| && StateAt(listening, tunerCount, i) == Starved ==>
              StateAt(listening, tunerCount, j) != Active
    ensures forall i :: 0 <= i < |listening| ==> (StateAt(listening, tunerCount, i) == Off <==> !listening[i])
  {
    ActiveCount(listening, tunerCount, |listening|);
    forall i, j | 0 <= i < j < |listening| ensures OnBefore(listening, i) <= OnBefore(listening, j) {
      OnBeforeGrows(listening, i, j);
    }
  }

  // ----- What the playlist says -----

  predicate Kept(row: SystemRow) { row.enabled && row.frequencies != [] }

  /** Entries of the rows that are enabled and have a frequency, in order. */
  function Systems(rows: seq<SystemRow>): seq<Entry> {
    if rows == [] then []
    else
      var last := rows[|rows| - 1];
      Systems(rows[..|rows| - 1]) + (if Kept(last) then [Entry(last.frequencies, last.autoStart)] else [])
  }

  method SystemsFromRows(rows: seq<SystemRow>) returns (out: seq<Entry>)
    ensures out == Systems(rows)
  {
    out := [];
    for i := 0 to |rows|
      invariant out == Systems(rows[..i])
    {
      assert rows[..i + 1][..i] == rows[..i];
      if !rows[i].enabled {
        continue;
      }
      if rows[i].frequencies == [] {
        continue;
      }
      out := out + [Entry(rows[i].frequencies, rows[i].autoStart)];
    }
    assert rows[..|rows|] == rows;
  }

  function AutoBefore(systems: seq<Entry>, n: nat): nat
    requires n <= |systems|
  {
    if n == 0 then 0 else AutoBefore(systems, n - 1) + (if systems[n - 1].autoStart then 1 else 0)
  }

  /** Entry e after the surplus auto-starts are switched off. */
  function Slotted(systems: seq<Entry>, tunerCount: int, e: nat): Entry
    requires e < |systems|
  {
    systems[e].(autoStart := systems[e].autoStart && AutoBefore(systems, e) < Slots(tunerCount))
  }

  /** Switches the surplus off in place. */
  method ApplyTunerSlots(systems: array<Entry>, tunerCount: int)
    modifies systems
    ensures forall e :: 0 <= e < systems.Length ==> systems[e] == Slotted(old(systems[..]), tunerCount, e)
  {
    ghost var was := systems[..];
    var slots := if tunerCount > 0 then tunerCount else 0;
    var used := 0;
    for e := 0 to systems.Length
      invariant used == if AutoBefore(was, e) < slots then AutoBefore(was, e) else slots
      invariant forall k :: 0 <= k < e ==> systems[k] == Slotted(was, tunerCount, k)
      invariant forall k :: e <= k < systems.Length ==> systems[k] == was[k]
    {
      if !systems[e].autoStart {
        continue;
      }
      if used < slots {
        used := used + 1;
      } else {
        systems[e] := systems[e].(autoStart := false);
      }
    }
  }

  function Playlist(rows: seq<SystemRow>, tunerCount: int): (p: seq<Entry>)
    ensures |p| == |Systems(rows)|
    ensures forall e :: 0 <= e < |p| ==> p[e] == Slotted(Systems(rows), tunerCount, e)
  {
    var systems := Systems(rows);
    seq(|systems|, e requires 0 <= e < |systems| => Slotted(systems, tunerCount, e))
  }

  /** The control channel of the first entry that starts and has one. */
  function CenterFrom(systems: seq<Entry>, e: nat): Option<int>
    requires e <= |systems|
    decreases |systems| - e
  {
    if e == |systems| then None
    else if systems[e].autoStart && systems[e].frequencies != [] then Some(systems[e].frequencies[0])
    else CenterFrom(systems, e + 1)
  }

  method ListeningCenter(systems: seq<Entry>) returns (hz: Option<int>)
    ensures hz == CenterFrom(systems, 0)
  {
    for e := 0 to |systems|
      invariant CenterFrom(systems, e) == CenterFrom(systems, 0)
    {
      if !systems[e].autoStart {
        continue;
      }
      if systems[e].frequencies != [] {
        return Some(systems[e].frequencies[0]);
      }
    }
    hz := None;
  }

  // ----- When the two agree -----

  function Listening(rows: seq<SystemRow>): (l: seq<bool>)
    ensures |l| == |rows|
    ensures forall i :: 0 <= i < |rows| ==> l[i] == IsListening(rows[i])
  {
    seq(|rows|, i requires 0 <= i < |rows| => IsListening(rows[i]))
  }

  /** The index of row i's entry, if it has one: the number of entries before it. */
  function EntryOf(rows: seq<SystemRow>, i: nat): nat
    requires i <= |rows|
  {
    |Systems(rows[..i])|
  }

  lemma {:induction false} SystemsPrefix(rows: seq<SystemRow>, i: nat)
    requires i <= |rows|
    ensures Systems(rows[..i]) <= Systems(rows)
    decreases rows
  {
    if i == |rows| {
      assert rows[..i] == rows;
    } else {
      var n := |rows| - 1;
      assert rows[..n][..i] == rows[..i];
      SystemsPrefix(rows[..n], i);
    }
  }

  lemma EntryIs(rows: seq<SystemRow>, i: nat)
    requires i < |rows| && Kept(rows[i])
    ensures EntryOf(rows, i) < |Systems(rows)|
    ensures Systems(rows)[EntryOf(rows, i)] == Entry(rows[i].frequencies, rows[i].autoStart)
  {
    SystemsPrefix(rows, i + 1);
    assert rows[..i + 1][..i] == rows[..i];
    var upTo := Systems(rows[..i + 1]);
    assert upTo[EntryOf(rows, i)] == Entry(rows[i].frequencies, rows[i].autoStart);
  }

  /** Listening rows before i that have no frequency. */
  function SilentBefore(rows: seq<SystemRow>, i: nat): nat
    requires i <= |rows|
  {
    if i == 0 then 0
    else SilentBefore(rows, i - 1) + (if IsListening(rows[i - 1]) && rows[i - 1].frequencies == [] then 1 else 0)
  }

  /** The two counters differ by the listening rows without a frequency. */
  lemma {:induction false} CountersDiffer(rows: seq<SystemRow>, i: nat)
    requires i <= |rows|
    ensures EntryOf(rows, i) <= |Systems(rows)|
    ensures OnBefore(Listening(rows), i) == AutoBefore(Systems(rows), EntryOf(rows, i)) + SilentBefore(rows, i)
  {
    SystemsPrefix(rows, i);
    if i > 0 {
      CountersDiffer(rows, i - 1);
      assert rows[..i][..i - 1] == rows[..i - 1];
      if Kept(rows[i - 1]) {
        EntryIs(rows, i - 1);
      }
    }
  }

  /** Row i has an entry, and it auto-starts. */
  predicate Plays(rows: seq<SystemRow>, tunerCount: int, i: nat)
    requires i < |rows|
  {
    && Kept(rows[i])
    && EntryOf(rows, i) < |Playlist(rows, tunerCount)|
    && Playlist(rows, tunerCount)[EntryOf(rows, i)].autoStart
  }

  /** A caller's check: the listening rows that come first, as many as there are
      tuners, all have a frequency. */
  predicate ServedRowsHaveFrequency(rows: seq<SystemRow>, tunerCount: int) {
    forall i :: 0 <= i < |rows| && IsListening(rows[i]) && OnBefore(Listening(rows), i) < Slots(tunerCount) ==>
      rows[i].frequencies != []
  }

  lemma {:induction false} SilentZero(rows: seq<SystemRow>, i: nat)
    requires i <= |rows|
    ensures SilentBefore(rows, i) == 0 <==>
              forall k :: 0 <= k < i && IsListening(rows[k]) ==> rows[k].frequencies != []
  {
    if i > 0 {
      SilentZero(rows, i - 1);
    }
  }

  lemma AgreeAt(rows: seq<SystemRow>, tunerCount: int, i: nat)
    requires i < |rows| && ServedRowsHaveFrequency(rows, tunerCount)
    ensures StateAt(Listening(rows), tunerCount, i) == Active <==> Plays(rows, tunerCount, i)
  {
    CountersDiffer(rows, i);
    SilentZero(rows, i);
    if Kept(rows[i]) {
      EntryIs(rows, i);
    }
    var on := Listening(rows);
    if SilentBefore(rows, i) != 0 {
      var k :| 0 <= k < i && IsListening(rows[k]) && rows[k].frequencies == [];
      AllServedBefore(rows, tunerCount, k, i);
    }
  }

  /** Behind a starved row every playlist slot is used up as well. */
  lemma AllServedBefore(rows: seq<SystemRow>, tunerCount: int, k: nat, i: nat)
    requires k < i < |rows| && ServedRowsHaveFrequency(rows, tunerCount)
    requires IsListening(rows[k]) && rows[k].frequencies == []
    ensures OnBefore(Listening(rows), i) >= Slots(tunerCount)
    ensures EntryOf(rows, i) <= |Systems(rows)| && AutoBefore(Systems(rows), EntryOf(rows, i)) >= Slots(tunerCount)
  {
    var first := FirstSilent(rows, k);
    OnBeforeGrows(Listening(rows), first, i);
    CountersDiffer(rows, first);
    SilentZero(rows, first);
    CountersDiffer(rows, i);
    SystemsPrefixOrder(rows, first, i);
    AutoGrows(Systems(rows), EntryOf(rows, first), EntryOf(rows, i));
  }

  lemma FirstSilent(rows: seq<SystemRow>, k: nat) returns (f: nat)
    requires k < |rows| && IsListening(rows[k]) && rows[k].frequencies == []
    ensures f <= k && IsListening(rows[f]) && rows[f].frequencies == []
    ensures forall j :: 0 <= j < f && IsListening(rows[j]) ==> rows[j].frequencies != []
  {
    f := 0;
    while !(IsListening(rows[f]) && rows[f].frequencies == [])
      invariant f <= k
      invariant forall j :: 0 <= j < f && IsListening(rows[j]) ==> rows[j].frequencies != []
      decreases k - f
    {
      f := f + 1;
    }
  }

  lemma SystemsPrefixOrder(rows: seq<SystemRow>, i: nat, j: nat)
    requires i <= j <= |rows|
    ensures EntryOf(rows, i) <= EntryOf(rows, j)
  {
    assert rows[..j][..i] == rows[..i];
    SystemsPrefix(rows[..j], i);
  }

  lemma {:induction false} AutoGrows(systems: seq<Entry>, i: nat, j: nat)
    requires i <= j <= |systems|
    ensures AutoBefore(systems, i) <= AutoBefore(systems, j)
    decreases j
  {
    if i < j {
      AutoGrows(systems, i, j - 1);
    }
  }

  /** Page and playlist agree on every row, exactly when every listening row that
      gets a tuner has a frequency. */
  lemma AgreeIff(rows: seq<SystemRow>, tunerCount: int)
    ensures (forall i :: 0 <= i < |rows| ==>
              (StateAt(Listening(rows), tunerCount, i) == Active <==> Plays(rows, tunerCount, i)))
       <==> ServedRowsHaveFrequency(rows, tunerCount)
  {
    if ServedRowsHaveFrequency(rows, tunerCount) {
      forall i | 0 <= i < |rows|
        ensures StateAt(Listening(rows), tunerCount, i) == Active <==> Plays(rows, tunerCount, i)
      {
        AgreeAt(rows, tunerCount, i);
      }
    } else {
      var i :| 0 <= i < |rows| && IsListening(rows[i]) && OnBefore(Listening(rows), i) < Slots(tunerCount)
               && rows[i].frequencies == [];
      assert StateAt(Listening(rows), tunerCount, i) == Active && !Plays(rows, tunerCount, i);
    }
  }

  // ----- The tuner's centre -----

  lemma {:induction false} CenterSkips(systems: seq<Entry>, e: nat, f: nat)
    requires e <= f < |systems|
    requires forall k :: e <= k < f ==> !systems[k].autoStart
    requires systems[f].autoStart && systems[f].frequencies != []
    ensures CenterFrom(systems, e) == Some(systems[f].frequencies[0])
    decreases f - e
  {
    if e < f {
      CenterSkips(systems, e + 1, f);
    }
  }

  /** When they agree, the centre is the first frequency of the first active row. */
  lemma CenterIsFirstActive(rows: seq<SystemRow>, tunerCount: int, i: nat)
    requires ServedRowsHaveFrequency(rows, tunerCount) && i < |rows|
    requires StateAt(Listening(rows), tunerCount, i) == Active
    requires forall k :: 0 <= k < i ==> StateAt(Listening(rows), tunerCount, k) != Active
    ensures rows[i].frequencies != []
    ensures CenterFrom(Playlist(rows, tunerCount), 0) == Some(rows[i].frequencies[0])
  {
    AgreeAt(rows, tunerCount, i);
    EntryIs(rows, i);
    CountersDiffer(rows, i);
    NoneOnBefore(rows, tunerCount, i);
    var systems, e := Systems(rows), EntryOf(rows, i);
    forall k | 0 <= k < e ensures !systems[k].autoStart {
      AutoPositive(systems, k, e);
    }
    CenterSkips(Playlist(rows, tunerCount), 0, e);
  }

  lemma {:induction false} CenterNone(systems: seq<Entry>, e: nat)
    requires e <= |systems| && forall k :: e <= k < |systems| ==> !systems[k].autoStart
    ensures CenterFrom(systems, e) == None
    decreases |systems| - e
  {
    if e < |systems| {
      CenterNone(systems, e + 1);
    }
  }

  /** Without an active row there is no centre. */
  lemma NoCenterWithoutActive(rows: seq<SystemRow>, tunerCount: int)
    requires forall k :: 0 <= k < |rows| ==> StateAt(Listening(rows), tunerCount, k) != Active
    ensures CenterFrom(Playlist(rows, tunerCount), 0) == None
  {
    var on, n := Listening(rows), |rows|;
    NoActive(on, tunerCount, n);
    ActiveCount(on, tunerCount, n);
    CountersDiffer(rows, n);
    assert rows[..n] == rows;
    var systems := Systems(rows);
    forall e | 0 <= e < |systems| ensures !Playlist(rows, tunerCount)[e].autoStart {
      AutoPositive(systems, e, |systems|);
    }
    CenterNone(Playlist(rows, tunerCount), 0);
  }

  lemma NoneOnBefore(rows: seq<SystemRow>, tunerCount: int, i: nat)
    requires i < |rows| && OnBefore(Listening(rows), i) < Slots(tunerCount)
    requires forall k :: 0 <= k < i ==> StateAt(Listening(rows), tunerCount, k) != Active
    ensures OnBefore(Listening(rows), i) == 0
  {
    var on := Listening(rows);
    ActiveCount(on, tunerCount, i);
    NoActive(on, tunerCount, i);
  }

  lemma {:induction false} NoActive(on: seq<bool>, tunerCount: int, n: nat)
    requires n <= |on| && forall k :: 0 <= k < n ==> StateAt(on, tunerCount, k) != Active
    ensures ActiveBefore(on, tunerCount, n) == 0
  {
    if n > 0 {
      NoActive(on, tunerCount, n - 1);
    }
  }

  lemma AutoPositive(systems: seq<Entry>, k: nat, e: nat)
    requires k < e <= |systems|
    ensures systems[k].autoStart ==> AutoBefore(systems, e) > 0
  {
    AutoGrows(systems, k + 1, e);
  }
}
