/** The radio identity table: lookup by radio and system, observation, allowlist. */
module Identities {
  import opened Basics

  datatype Identity = Identity(
    radioId: string, systemId: Option<string>, enabled: bool, forwardToTak: bool,
    callsign: Option<string>, observations: nat, latitude: Option<real>, longitude: Option<real>)

  /** A non-empty optional string, what Python calls true. */
  predicate Truthy(s: Option<string>) { s.Some? && s.value != "" }

  predicate Exact(row: Identity, radio: string, system: Option<string>) {
    row.radioId == radio && Truthy(system) && row.systemId == system
  }

  /** Rows the query returns: the radio, on that system or on no system. */
  predicate Candidate(row: Identity, radio: string, system: Option<string>) {
    row.radioId == radio && (Truthy(system) ==> row.systemId == system || row.systemId == None)
  }

  /** i is the first index at which p holds. */
  ghost predicate FirstWhere(rows: seq<Identity>, p: Identity -> bool, i: nat) {
    i < |rows| && p(rows[i]) && forall k :: 0 <= k < i ==> !p(rows[k])
  }

  function FirstIndex(rows: seq<Identity>, p: Identity -> bool): (r: Option<nat>)
    ensures r.Some? ==> FirstWhere(rows, p, r.value)
    ensures r.None? ==> forall k :: 0 <= k < |rows| ==> !p(rows[k])
  {
    if rows == [] then None
    else if p(rows[0]) then Some(0)
    else match FirstIndex(rows[1..], p)
      case None => None
      case Some(i) => Some(i + 1)
  }

  function IsExact(radio: string, system: Option<string>): Identity -> bool {
    row => Exact(row, radio, system)
  }

  function IsCandidate(radio: string, system: Option<string>): Identity -> bool {
    row => Candidate(row, radio, system)
  }

  /** The row an event belongs to: an exact one if there is one, else the first
      candidate. */
  function FindIdentity(rows: seq<Identity>, radio: string, system: Option<string>): Option<nat> {
    match FirstIndex(rows, IsExact(radio, system))
    case Some(i) => Some(i)
    case None => FirstIndex(rows, IsCandidate(radio, system))
  }

  /** Lookup never crosses systems, and an exact row always wins over a row
      without a system. */
  lemma LookupRespectsSystem(rows: seq<Identity>, radio: string, system: Option<string>)
    ensures var r := FindIdentity(rows, radio, system);
            && (r.Some? ==> r.value < |rows| && Candidate(rows[r.value], radio, system))
            && (r.None? ==> forall k :: 0 <= k < |rows| ==> !Candidate(rows[k], radio, system))
            && ((exists k :: 0 <= k < |rows| && Exact(rows[k], radio, system)) ==>
                 r.Some? && Exact(rows[r.value], radio, system))
  {
    var exact := FirstIndex(rows, IsExact(radio, system));
    if exact.None? {
      assert forall k :: 0 <= k < |rows| ==> !IsExact(radio, system)(rows[k]);
      var first := FirstIndex(rows, IsCandidate(radio, system));
      assert first.None? ==> forall k :: 0 <= k < |rows| ==> !IsCandidate(radio, system)(rows[k]);
    }
  }

  /** The same in the table's own terms: the row found is of the radio, and of the
      event's system or of none if the event names one; there is none only if the
      table has no such row; and a row of the system goes before one without. */
  lemma LookupMeans(rows: seq<Identity>, radio: string, system: Option<string>)
    ensures var r := FindIdentity(rows, radio, system);
            var named := system != None && system != Some("");
            && (r.Some? ==> r.value < |rows| && rows[r.value].radioId == radio)
            && (r.Some? && named ==> rows[r.value].systemId in {system, None})
            && (r.None? ==> forall k :: 0 <= k < |rows| && rows[k].radioId == radio ==>
                 named && rows[k].systemId !in {system, None})
            && (r.Some? && named && rows[r.value].systemId != system ==>
                 forall k :: 0 <= k < |rows| && rows[k].radioId == radio ==> rows[k].systemId != system)
  {
    LookupRespectsSystem(rows, radio, system);
    var r := FindIdentity(rows, radio, system);
    if r.None? {
      forall k | 0 <= k < |rows| && rows[k].radioId == radio
        ensures system != None && system != Some("") && rows[k].systemId !in {system, None}
      {
        assert !Candidate(rows[k], radio, system);
      }
    } else if Truthy(system) && rows[r.value].systemId != system {
      forall k | 0 <= k < |rows| && rows[k].radioId == radio ensures rows[k].systemId != system {
        assert !Exact(rows[r.value], radio, system);
        assert !Exact(rows[k], radio, system);
      }
    }
  }

  function Seen(row: Identity, alias: Option<string>, lat: Option<real>, lon: Option<real>): Identity {
    row.(observations := row.observations + 1,
         latitude := if lat.Some? then lat else row.latitude,
         longitude := if lon.Some? then lon else row.longitude,
         callsign := if Truthy(alias) && !Truthy(row.callsign) then alias else row.callsign)
  }

  function NewRow(radio: string, system: Option<string>, alias: Option<string>): Identity {
    Identity(radio, system, true, false, alias, 0, None, None)
  }

  /** The table after an observation, and the row it landed in. */
  function Observe(
    rows: seq<Identity>, radio: string, system: Option<string>, alias: Option<string>,
    lat: Option<real>, lon: Option<real>): (r: (seq<Identity>, nat))
    ensures r.1 < |r.0|
  {
    match FindIdentity(rows, radio, system)
    case Some(i) =>
      LookupRespectsSystem(rows, radio, system);
      (rows[i := Seen(rows[i], alias, lat, lon)], i)
    case None =>
      (rows + [Seen(NewRow(radio, system, alias), alias, lat, lon)], |rows|)
  }

  predicate Allowed(row: Identity) { row.enabled && row.forwardToTak }

  /** An observation approves nobody: the row it lands in is allowed only if the
      lookup found it allowed before, and no other row changes. */
  lemma ObservingApprovesNobody(
    rows: seq<Identity>, radio: string, system: Option<string>, alias: Option<string>,
    lat: Option<real>, lon: Option<real>)
    ensures var (rows', i) := Observe(rows, radio, system, alias, lat, lon);
            var found := FindIdentity(rows, radio, system);
            && (Allowed(rows'[i]) <==> found.Some? && found.value < |rows| && Allowed(rows[found.value]))
            && |rows| <= |rows'| <= |rows| + 1
            && (forall k :: 0 <= k < |rows| && k != i ==> rows'[k] == rows[k])
            && rows'[i].radioId == radio
  {
    LookupRespectsSystem(rows, radio, system);
  }

  lemma FirstIndexIs(rows: seq<Identity>, p: Identity -> bool, i: nat)
    requires FirstWhere(rows, p, i)
    ensures FirstIndex(rows, p) == Some(i)
  {
    var r := FirstIndex(rows, p);
    assert p(rows[i]);
  }

  lemma SameMarks(rows: seq<Identity>, rows': seq<Identity>, p: Identity -> bool)
    requires |rows| == |rows'| && forall k :: 0 <= k < |rows| ==> p(rows[k]) == p(rows'[k])
    ensures FirstIndex(rows, p) == FirstIndex(rows', p)
  {
    var r := FirstIndex(rows, p);
    if r.Some? {
      FirstIndexIs(rows', p, r.value);
    } else {
      assert forall k :: 0 <= k < |rows'| ==> !p(rows'[k]);
    }
  }

  /** A change that leaves radio and system alone does not change any lookup. */
  lemma EditKeepsLookup(rows: seq<Identity>, i: nat, row: Identity, radio: string, system: Option<string>)
    requires i < |rows| && row.radioId == rows[i].radioId && row.systemId == rows[i].systemId
    ensures FindIdentity(rows[i := row], radio, system) == FindIdentity(rows, radio, system)
  {
    SameMarks(rows, rows[i := row], IsExact(radio, system));
    SameMarks(rows, rows[i := row], IsCandidate(radio, system));
  }

  /** A radio seen for the first time gets a row of its own: enabled, not approved,
      with its system, alias and position, seen once. The same lookup finds that row
      from then on. */
  lemma NewRadioIsKept(
    rows: seq<Identity>, radio: string, system: Option<string>, alias: Option<string>,
    lat: Option<real>, lon: Option<real>)
    requires FindIdentity(rows, radio, system) == None
    ensures var (rows', i) := Observe(rows, radio, system, alias, lat, lon);
            && rows' == rows + [Identity(radio, system, true, false, alias, 1, lat, lon)] && i == |rows|
            && FindIdentity(rows', radio, system) == Some(i)
  {
    LookupRespectsSystem(rows, radio, system);
    var (rows', i) := Observe(rows, radio, system, alias, lat, lon);
    forall k | 0 <= k < |rows| ensures !IsCandidate(radio, system)(rows'[k]) && !IsExact(radio, system)(rows'[k]) {
      assert !Candidate(rows[k], radio, system);
    }
    if Truthy(system) {
      FirstIndexIs(rows', IsExact(radio, system), i);
    } else {
      var exact := FirstIndex(rows', IsExact(radio, system));
      FirstIndexIs(rows', IsCandidate(radio, system), i);
    }
  }

  /** A radio seen again: its row counts one more, takes what the event gives of its
      position, gets a callsign only if it had none, and keeps the rest; the lookup
      still finds it. */
  lemma KnownRadioIsUpdated(
    rows: seq<Identity>, radio: string, system: Option<string>, alias: Option<string>,
    lat: Option<real>, lon: Option<real>, i: nat)
    requires FindIdentity(rows, radio, system) == Some(i)
    ensures var (rows', j) := Observe(rows, radio, system, alias, lat, lon);
            && j == i && |rows'| == |rows| && i < |rows|
            && FindIdentity(rows', radio, system) == Some(i)
            && rows'[i].observations == rows[i].observations + 1
            && rows'[i].latitude == (if lat == None then rows[i].latitude else lat)
            && rows'[i].longitude == (if lon == None then rows[i].longitude else lon)
            && (Truthy(rows[i].callsign) || !Truthy(alias) ==> rows'[i].callsign == rows[i].callsign)
            && (!Truthy(rows[i].callsign) && Truthy(alias) ==> rows'[i].callsign == alias)
            && rows'[i].enabled == rows[i].enabled && rows'[i].forwardToTak == rows[i].forwardToTak
            && rows'[i].systemId == rows[i].systemId
  {
    LookupRespectsSystem(rows, radio, system);
    EditKeepsLookup(rows, i, Seen(rows[i], alias, lat, lon), radio, system);
  }

  /** The table object. */
  class IdentityTable {
    var rows: seq<Identity>

    /** The row query, then the loop that prefers an exact row. */
    method Find(radio: string, system: Option<string>) returns (r: Option<nat>)
      ensures r == FindIdentity(rows, radio, system)
    {
      LookupRespectsSystem(rows, radio, system);
      var first := FirstIndex(rows, IsCandidate(radio, system));
      if first.None? {
        assert forall k :: 0 <= k < |rows| ==> !IsCandidate(radio, system)(rows[k]);
        return None;
      }
      for i := 0 to |rows|
        invariant forall k :: 0 <= k < i ==> !Exact(rows[k], radio, system)
      {
        if Exact(rows[i], radio, system) {
          ExactIs(rows, radio, system, i);
          return Some(i);
        }
      }
      return first;
    }

    method ObserveOrCreate(
      radio: string, system: Option<string>, alias: Option<string>, lat: Option<real>, lon: Option<real>)
      returns (i: nat)
      modifies this
      ensures (rows, i) == Observe(old(rows), radio, system, alias, lat, lon)
    {
      var found := Find(radio, system);
      LookupRespectsSystem(rows, radio, system);
      if found.None? {
        rows := rows + [NewRow(radio, system, alias)];
        i := |rows| - 1;
      } else {
        i := found.value;
      }
      var row := rows[i];
      row := row.(observations := row.observations + 1);
      if lat.Some? {
        row := row.(latitude := lat);
      }
      if lon.Some? {
        row := row.(longitude := lon);
      }
      if Truthy(alias) && !Truthy(row.callsign) {
        row := row.(callsign := alias);
      }
      rows := rows[i := row];
      assert found.None? ==> rows == old(rows) + [row];
    }
  }

  lemma ExactIs(rows: seq<Identity>, radio: string, system: Option<string>, i: nat)
    requires i < |rows| && Exact(rows[i], radio, system)
    requires forall k :: 0 <= k < i ==> !Exact(rows[k], radio, system)
    ensures FindIdentity(rows, radio, system) == Some(i)
  {
    var r := FirstIndex(rows, IsExact(radio, system));
    assert IsExact(radio, system)(rows[i]);
  }
}
