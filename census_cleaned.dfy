/** The census cleaning stage: new integer household and person IDs for the raw census
    persons, sorting by household, and the recoding of the coded census columns. */
module CensusCleaned {
  import opened Wrappers
  import opened Strings
  import opened Sorting
  import opened Attributes

  /** One person of the raw census extract, with the coded columns the stage reads. */
  datatype RawPerson = RawPerson(
    cantville: string, nummi: string, iris: string, dept: string,
    aged: string, couple: string, trans: string, sexe: string,
    tact: string, etud: string, voit: string, derou: string,
    cs1: string, typl: string, sfm: string, garl: string, achlr: string)

  datatype CommuteMode = Walk | Bike | Car | PublicTransport

  datatype HousingType = House | Flat | OtherHousing

  /** Household types: single man, single woman, single-parent families (MFF, MFM),
      couple without children, couple with children, and the rest. */
  datatype HouseholdType = SM | SW | MFF | MFM | CWOC | CWC | OtherHousehold

  /** The cleaned person. Absent values (NaN in the source) are None. */
  datatype CensusPerson = CensusPerson(
    personId: nat, householdId: nat,
    irisId: string, communeId: string, departementId: string,
    age: nat, sex: Option<Sex>, couple: bool, ageRange: AgeRange,
    commuteMode: Option<CommuteMode>, employed: bool, studies: bool,
    numberOfVehicles: nat, householdSize: nat, socioprofessionalClass: nat,
    housingType: Option<HousingType>, householdType: Option<HouseholdType>,
    parking: nat, buildingAge: string, urbanType: Option<string>)

  /** The ways the stage aborts: a failing astype(int) or the final urban-type assertion. */
  datatype CensusError =
    | NoOrdinaryHousehold
    | AgeNotInteger
    | VehiclesNotInteger
    | SocioprofessionalClassNotInteger
    | ParkingUndefined
    | UrbanTypeMissing

  const Undefined: string := "undefined"

  // ---------------------------------------------------------------------------
  // Household numbering

  /** The (CANTVILLE, NUMMI) pair that identifies a dwelling. */
  datatype Dwelling = Dwelling(cantville: string, nummi: string)

  function DwellingOf(p: RawPerson): Dwelling { Dwelling(p.cantville, p.nummi) }

  /** The concatenated key the deduplication runs on. */
  function KeyOf(d: Dwelling): string { d.cantville + d.nummi }

  /** NUMMI == "Z" marks a person outside any ordinary household. */
  predicate InOrdinaryHousehold(p: RawPerson) { p.nummi != "Z" }

  predicate HasKey(table: seq<Dwelling>, key: string)
  {
    exists j :: 0 <= j < |table| && KeyOf(table[j]) == key
  }

  /** The key table: the dwellings of ordinary-household persons, deduplicated on the
      concatenated key with the first occurrence kept, in row order. Position j holds
      household ID j. */
  function KeyTable(rows: seq<RawPerson>): (table: seq<Dwelling>)
    ensures |table| <= |rows|
    ensures forall j, l :: 0 <= j < l < |table| ==> KeyOf(table[j]) != KeyOf(table[l])
  {
    if rows == [] then []
    else
      var table := KeyTable(rows[..|rows| - 1]);
      var p := rows[|rows| - 1];
      if InOrdinaryHousehold(p) && !HasKey(table, KeyOf(DwellingOf(p))) then
        var table' := table + [DwellingOf(p)];
        assert forall j :: 0 <= j < |table| ==> table'[j] == table[j];
        table'
      else
        table
  }

  /** Every key-table entry is the dwelling of an ordinary-household person. */
  lemma {:induction false} KeyTableEntriesFromRows(rows: seq<RawPerson>)
    ensures forall j :: 0 <= j < |KeyTable(rows)| ==>
      KeyTable(rows)[j].nummi != "Z" && exists i :: 0 <= i < |rows| && DwellingOf(rows[i]) == KeyTable(rows)[j]
  {
    if rows != [] {
      var init := rows[..|rows| - 1];
      KeyTableEntriesFromRows(init);
      var table := KeyTable(rows);
      forall j | 0 <= j < |table|
        ensures table[j].nummi != "Z" && exists i :: 0 <= i < |rows| && DwellingOf(rows[i]) == table[j]
      {
        if j < |KeyTable(init)| {
          assert table[j] == KeyTable(init)[j];
          var i :| 0 <= i < |init| && DwellingOf(init[i]) == table[j];
          assert rows[i] == init[i];
        } else {
          assert DwellingOf(rows[|rows| - 1]) == table[j];
        }
      }
    }
  }

  /** Every ordinary-household person's key is in the key table. */
  lemma {:induction false} KeyTableCoversRows(rows: seq<RawPerson>)
    ensures forall i :: 0 <= i < |rows| && InOrdinaryHousehold(rows[i]) ==>
      HasKey(KeyTable(rows), KeyOf(DwellingOf(rows[i])))
  {
    if rows != [] {
      var init := rows[..|rows| - 1];
      KeyTableCoversRows(init);
      var table := KeyTable(rows);
      assert KeyTable(init) <= table;
      forall i | 0 <= i < |rows| && InOrdinaryHousehold(rows[i])
        ensures HasKey(table, KeyOf(DwellingOf(rows[i])))
      {
        if i < |init| {
          assert rows[i] == init[i];
          var j :| 0 <= j < |KeyTable(init)| && KeyOf(KeyTable(init)[j]) == KeyOf(DwellingOf(rows[i]));
          assert table[j] == KeyTable(init)[j];
        } else if table != KeyTable(init) {
          assert table[|table| - 1] == DwellingOf(rows[i]);
        }
      }
    }
  }

  /** The position of a dwelling in the key table: the left merge on (CANTVILLE, NUMMI). */
  function TableIndex(table: seq<Dwelling>, d: Dwelling): (r: Option<nat>)
    ensures r.Some? ==> r.value < |table| && table[r.value] == d
    ensures r.None? <==> d !in table
  {
    if table == [] then None
    else if table[|table| - 1] == d then Some(|table| - 1)
    else
      var r := TableIndex(table[..|table| - 1], d);
      assert table == table[..|table| - 1] + [table[|table| - 1]];
      r
  }

  /** How many rows of `rows` find no dwelling in the table (their ID is NaN after the merge). */
  function UnmatchedCount(rows: seq<RawPerson>, table: seq<Dwelling>): (n: nat)
    ensures n <= |rows|
  {
    if rows == [] then 0
    else UnmatchedCount(rows[..|rows| - 1], table) + (if DwellingOf(rows[|rows| - 1]) in table then 0 else 1)
  }

  /** The household ID of row i against a key table: its table position, or, when the
      merge found nothing, the next free ID above the table in row order. */
  function IdAgainst(rows: seq<RawPerson>, table: seq<Dwelling>, i: nat): nat
    requires i < |rows|
  {
    match TableIndex(table, DwellingOf(rows[i]))
    case Some(j) => j
    case None => |table| + UnmatchedCount(rows[..i], table)
  }

  function IdsAgainst(rows: seq<RawPerson>, table: seq<Dwelling>): (ids: seq<nat>)
    ensures |ids| == |rows|
  {
    seq(|rows|, i requires 0 <= i < |rows| => IdAgainst(rows, table, i))
  }

  /** The household IDs the stage assigns to the raw persons, in row order. */
  function HouseholdIds(rows: seq<RawPerson>): (ids: seq<nat>)
    ensures |ids| == |rows|
  {
    IdsAgainst(rows, KeyTable(rows))
  }

  /** Every key-table position is the household ID of some person: the first step's IDs
      are exactly 0 .. |table| - 1. */
  lemma KeyedIdsCoverTable(rows: seq<RawPerson>)
    ensures forall j :: 0 <= j < |KeyTable(rows)| ==>
      exists i :: 0 <= i < |rows| && TableIndex(KeyTable(rows), DwellingOf(rows[i])) == Some(j)
  {
    var table := KeyTable(rows);
    KeyTableEntriesFromRows(rows);
    forall j | 0 <= j < |table|
      ensures exists i :: 0 <= i < |rows| && TableIndex(table, DwellingOf(rows[i])) == Some(j)
    {
      var i :| 0 <= i < |rows| && DwellingOf(rows[i]) == table[j];
      assert table[j] in table;
      var r := TableIndex(table, table[j]);
      DistinctKeysSamePosition(table, r.value, j);
      assert TableIndex(table, DwellingOf(rows[i])) == Some(j);
    }
  }

  /** In a table with distinct keys, two positions with the same key are the same position. */
  lemma DistinctKeysSamePosition(table: seq<Dwelling>, a: nat, b: nat)
    requires forall j, l :: 0 <= j < l < |table| ==> KeyOf(table[j]) != KeyOf(table[l])
    requires a < |table| && b < |table| && KeyOf(table[a]) == KeyOf(table[b])
    ensures a == b
  {
  }

  /** The key table is empty exactly when nobody lives in an ordinary household. */
  lemma EmptyKeyTable(rows: seq<RawPerson>)
    ensures KeyTable(rows) == [] <==> forall p :: p in rows ==> !InOrdinaryHousehold(p)
  {
    var table := KeyTable(rows);
    KeyTableEntriesFromRows(rows);
    KeyTableCoversRows(rows);
    if table != [] {
      var i :| 0 <= i < |rows| && DwellingOf(rows[i]) == table[0];
      assert rows[i] in rows && InOrdinaryHousehold(rows[i]);
    }
    if exists p :: p in rows && InOrdinaryHousehold(p) {
      var p :| p in rows && InOrdinaryHousehold(p);
      var i :| 0 <= i < |rows| && rows[i] == p;
      assert HasKey(table, KeyOf(DwellingOf(rows[i])));
    }
  }

  /** Lines 23-27: the key table, built with a map from concatenated key to position. */
  method BuildKeyTable(rows: seq<RawPerson>) returns (table: seq<Dwelling>, position: map<string, nat>)
    ensures table == KeyTable(rows)
    ensures forall k :: k in position <==> HasKey(table, k)
    ensures forall k :: k in position ==> position[k] < |table| && KeyOf(table[position[k]]) == k
  {
    table, position := [], map[];
    for i := 0 to |rows|
      invariant table == KeyTable(rows[..i])
      invariant forall k :: k in position <==> HasKey(table, k)
      invariant forall k :: k in position ==> position[k] < |table| && KeyOf(table[position[k]]) == k
    {
      PrefixStep(rows, i);
      KeyTableStep(rows[..i], rows[i]);
      var d := DwellingOf(rows[i]);
      if InOrdinaryHousehold(rows[i]) && KeyOf(d) !in position {
        AppendKey(table, d);
        position := position[KeyOf(d) := |table|];
        table := table + [d];
      }
    }
    assert rows[..|rows|] == rows;
  }

  /** Appending a dwelling keeps the earlier positions and adds its key. */
  lemma AppendKey(table: seq<Dwelling>, d: Dwelling)
    ensures forall j :: 0 <= j < |table| ==> (table + [d])[j] == table[j]
    ensures KeyOf((table + [d])[|table|]) == KeyOf(d)
    ensures forall k :: HasKey(table + [d], k) <==> HasKey(table, k) || k == KeyOf(d)
  {
    assert KeyOf((table + [d])[|table|]) == KeyOf(d);
  }

  /** Looking a dwelling up by its concatenated key and then checking the pair finds the same
      position as the merge on the pair, because the table's keys are distinct. */
  lemma MergeOnPair(table: seq<Dwelling>, d: Dwelling, position: map<string, nat>)
    requires forall j, l :: 0 <= j < l < |table| ==> KeyOf(table[j]) != KeyOf(table[l])
    requires forall k :: k in position <==> HasKey(table, k)
    requires forall k :: k in position ==> position[k] < |table| && KeyOf(table[position[k]]) == k
    ensures TableIndex(table, d) ==
      if KeyOf(d) in position && table[position[KeyOf(d)]] == d then Some(position[KeyOf(d)]) else None
  {
    var r := TableIndex(table, d);
    if r.Some? {
      assert HasKey(table, KeyOf(d));
      assert KeyOf(table[position[KeyOf(d)]]) == KeyOf(table[r.value]);
    }
  }

  /** Line 28: the left merge on (CANTVILLE, NUMMI), with the maximum of the merged IDs
      (None when every merged ID is NaN). */
  method MergeOnDwellings(rows: seq<RawPerson>, table: seq<Dwelling>, position: map<string, nat>)
    returns (merged: seq<Option<nat>>, maxId: Option<nat>)
    requires forall j, l :: 0 <= j < l < |table| ==> KeyOf(table[j]) != KeyOf(table[l])
    requires forall k :: k in position <==> HasKey(table, k)
    requires forall k :: k in position ==> position[k] < |table| && KeyOf(table[position[k]]) == k
    ensures |merged| == |rows|
    ensures forall k :: 0 <= k < |rows| ==> merged[k] == TableIndex(table, DwellingOf(rows[k]))
    ensures maxId.None? <==> forall k :: 0 <= k < |rows| ==> merged[k].None?
    ensures maxId.Some? ==> forall k :: 0 <= k < |rows| && merged[k].Some? ==> merged[k].value <= maxId.value
    ensures maxId.Some? ==> exists k :: 0 <= k < |rows| && merged[k] == maxId
  {
    merged, maxId := [], None;
    ghost var maxAt := 0;
    ghost var expected := seq(|rows|, k requires 0 <= k < |rows| => TableIndex(table, DwellingOf(rows[k])));
    for i := 0 to |rows|
      invariant merged == expected[..i]
      invariant maxId.None? <==> forall k :: 0 <= k < i ==> merged[k].None?
      invariant maxId.Some? ==> maxAt < i && merged[maxAt] == maxId
      invariant maxId.Some? ==> forall k :: 0 <= k < i && merged[k].Some? ==> merged[k].value <= maxId.value
    {
      var d := DwellingOf(rows[i]);
      var found: Option<nat> := None;
      if KeyOf(d) in position && table[position[KeyOf(d)]] == d {
        found := Some(position[KeyOf(d)]);
      }
      MergeOnPair(table, d, position);
      assert found == expected[i];
      PrefixStep(expected, i);
      merged := merged + [found];
      if found.Some? && (maxId.None? || maxId.value < found.value) {
        maxId, maxAt := found, i;
      }
    }
    assert expected[..|rows|] == expected;
  }

  /** The maximum of the merged IDs is the last key-table position (NaN for an empty table). */
  lemma MaxMergedId(rows: seq<RawPerson>, merged: seq<Option<nat>>, maxId: Option<nat>)
    requires |merged| == |rows|
    requires forall k :: 0 <= k < |rows| ==> merged[k] == TableIndex(KeyTable(rows), DwellingOf(rows[k]))
    requires maxId.None? <==> forall k :: 0 <= k < |rows| ==> merged[k].None?
    requires maxId.Some? ==> forall k :: 0 <= k < |rows| && merged[k].Some? ==> merged[k].value <= maxId.value
    requires maxId.Some? ==> exists k :: 0 <= k < |rows| && merged[k] == maxId
    ensures maxId == if KeyTable(rows) == [] then None else Some(|KeyTable(rows)| - 1)
  {
    var table := KeyTable(rows);
    KeyedIdsCoverTable(rows);
    if table != [] {
      var i :| 0 <= i < |rows| && TableIndex(table, DwellingOf(rows[i])) == Some(|table| - 1);
      assert merged[i] == Some(|table| - 1);
    } else {
      assert forall k :: 0 <= k < |rows| ==> merged[k].None?;
    }
  }

  /** Lines 31-32: the rows the merge left without an ID get max + 1, max + 2, ... in row order. */
  method FillUnmatched(rows: seq<RawPerson>, table: seq<Dwelling>, merged: seq<Option<nat>>, next: nat)
    returns (ids: seq<nat>)
    requires next == |table|
    requires |merged| == |rows|
    requires forall k :: 0 <= k < |rows| ==> merged[k] == TableIndex(table, DwellingOf(rows[k]))
    ensures ids == IdsAgainst(rows, table)
  {
    ids := [];
    var rank := 0;
    for i := 0 to |rows|
      invariant |ids| == i
      invariant rank == UnmatchedCount(rows[..i], table)
      invariant forall k :: 0 <= k < i ==> ids[k] == IdAgainst(rows, table, k)
    {
      assert rows[..i + 1][..i] == rows[..i];
      if merged[i].Some? {
        ids := ids + [merged[i].value];
      } else {
        ids := ids + [next + rank];
        rank := rank + 1;
      }
    }
    var spec := IdsAgainst(rows, table);
    assert forall k :: 0 <= k < |rows| ==> spec[k] == IdAgainst(rows, table, k);
  }

  /** Lines 22-33: number the households of the raw census persons. Rows left without an ID
      by the merge are numbered max + 1, max + 2, ... in row order. When every person has
      NUMMI == "Z" the maximum is NaN and the conversion to int fails. */
  method AssignHouseholdIds(rows: seq<RawPerson>) returns (r: Result<seq<nat>, CensusError>)
    ensures r.Err? <==> rows != [] && forall p :: p in rows ==> !InOrdinaryHousehold(p)
    ensures r.Err? ==> r.error == NoOrdinaryHousehold
    ensures r.Ok? ==> r.value == HouseholdIds(rows)
  {
    var table, position := BuildKeyTable(rows);
    var merged, maxId := MergeOnDwellings(rows, table, position);
    MaxMergedId(rows, merged, maxId);
    EmptyKeyTable(rows);
    if maxId.None? && |rows| > 0 {
      return Err(NoOrdinaryHousehold);
    }
    var next := if maxId.Some? then maxId.value + 1 else 0;
    assert next == |table|;
    var ids := FillUnmatched(rows, table, merged, next);
    r := Ok(ids);
  }

  // ---------------------------------------------------------------------------
  // What the household numbering guarantees

  /** No two ordinary-household dwellings share a concatenated key. */
  predicate KeyInjective(rows: seq<RawPerson>)
  {
    forall i, k ::
      (0 <= i < |rows| && 0 <= k < |rows| && InOrdinaryHousehold(rows[i]) && InOrdinaryHousehold(rows[k])
       && KeyOf(DwellingOf(rows[i])) == KeyOf(DwellingOf(rows[k])))
      ==> DwellingOf(rows[i]) == DwellingOf(rows[k])
  }

  /** A row the merge leaves unmatched pushes the count of unmatched rows up for every later prefix. */
  lemma {:induction false} UnmatchedCountGrows(rows: seq<RawPerson>, table: seq<Dwelling>, i: nat, k: nat)
    requires i < k <= |rows| && DwellingOf(rows[i]) !in table
    ensures UnmatchedCount(rows[..k], table) > UnmatchedCount(rows[..i], table)
  {
    assert rows[..k][..k - 1] == rows[..k - 1];
    if k > i + 1 {
      UnmatchedCountGrows(rows, table, i, k - 1);
    }
  }

  /** Matched rows get IDs below the key-table length; every unmatched row gets its own
      ID at or above it, so it shares its household with nobody. */
  lemma FreshIdsAreSingletons(rows: seq<RawPerson>, i: nat)
    requires i < |rows| && DwellingOf(rows[i]) !in KeyTable(rows)
    ensures HouseholdIds(rows)[i] >= |KeyTable(rows)|
    ensures forall k :: 0 <= k < |rows| && DwellingOf(rows[k]) in KeyTable(rows) ==>
      HouseholdIds(rows)[k] < |KeyTable(rows)|
    ensures forall k :: 0 <= k < |rows| && k != i ==> HouseholdIds(rows)[k] != HouseholdIds(rows)[i]
  {
    var table := KeyTable(rows);
    var ids := HouseholdIds(rows);
    forall k | 0 <= k < |rows| && k != i
      ensures ids[k] != ids[i]
    {
      if DwellingOf(rows[k]) !in table {
        if i < k {
          UnmatchedCountGrows(rows, table, i, k);
        } else {
          UnmatchedCountGrows(rows, table, k, i);
        }
      }
    }
  }

  /** Every person outside an ordinary household (NUMMI == "Z") is unmatched, hence alone
      in a fresh household. */
  lemma OutsideOrdinaryHouseholdIsUnmatched(rows: seq<RawPerson>, i: nat)
    requires i < |rows| && !InOrdinaryHousehold(rows[i])
    ensures DwellingOf(rows[i]) !in KeyTable(rows)
  {
    KeyTableEntriesFromRows(rows);
  }

  /** With no concatenation collisions, every ordinary-household person's dwelling is in the key table. */
  lemma OrdinaryDwellingInTable(rows: seq<RawPerson>, i: nat)
    requires KeyInjective(rows) && i < |rows| && InOrdinaryHousehold(rows[i])
    ensures DwellingOf(rows[i]) in KeyTable(rows)
  {
    var table := KeyTable(rows);
    KeyTableCoversRows(rows);
    assert HasKey(table, KeyOf(DwellingOf(rows[i])));
    var j :| 0 <= j < |table| && KeyOf(table[j]) == KeyOf(DwellingOf(rows[i]));
    KeyTableEntriesFromRows(rows);
    assert exists k :: 0 <= k < |rows| && DwellingOf(rows[k]) == table[j];
    var k :| 0 <= k < |rows| && DwellingOf(rows[k]) == table[j];
    assert InOrdinaryHousehold(rows[k]);
    assert table[j] == DwellingOf(rows[i]);
  }

  /** With no concatenation collisions, two ordinary-household persons share a household
      ID exactly when they share (CANTVILLE, NUMMI). */
  lemma SameHouseholdIffSameDwelling(rows: seq<RawPerson>, i: nat, k: nat)
    requires KeyInjective(rows) && i < |rows| && k < |rows|
    requires InOrdinaryHousehold(rows[i]) && InOrdinaryHousehold(rows[k])
    ensures HouseholdIds(rows)[i] == HouseholdIds(rows)[k] <==> DwellingOf(rows[i]) == DwellingOf(rows[k])
  {
    OrdinaryDwellingInTable(rows, i);
    OrdinaryDwellingInTable(rows, k);
  }

  /** The key table of a prefix is a prefix of the key table. */
  lemma {:induction false} KeyTablePrefix(rows: seq<RawPerson>, m: nat)
    requires m <= |rows|
    ensures KeyTable(rows[..m]) <= KeyTable(rows)
  {
    if m < |rows| {
      var init := rows[..|rows| - 1];
      assert init[..m] == rows[..m];
      KeyTablePrefix(init, m);
    } else {
      assert rows[..m] == rows;
    }
  }

  /** An ordinary-household person whose key no earlier ordinary person had opens a new
      household, numbered by how many distinct keys came before it: IDs follow first occurrence. */
  lemma FirstOccurrenceNumbering(rows: seq<RawPerson>, i: nat)
    requires i < |rows| && InOrdinaryHousehold(rows[i])
    requires forall k :: 0 <= k < i && InOrdinaryHousehold(rows[k]) ==>
      KeyOf(DwellingOf(rows[k])) != KeyOf(DwellingOf(rows[i]))
    ensures HouseholdIds(rows)[i] == |KeyTable(rows[..i])|
  {
    var before := KeyTable(rows[..i]);
    var upto := KeyTable(rows[..i + 1]);
    var d := DwellingOf(rows[i]);
    KeyTableEntriesFromRows(rows[..i]);
    forall j | 0 <= j < |before|
      ensures KeyOf(before[j]) != KeyOf(d)
    {
      var k :| 0 <= k < i && DwellingOf(rows[..i][k]) == before[j];
      assert rows[..i][k] == rows[k];
    }
    assert rows[..i + 1][..i] == rows[..i];
    assert upto == before + [d];
    KeyTablePrefix(rows, i + 1);
    var table := KeyTable(rows);
    assert table[|before|] == d;
    var r := TableIndex(table, d);
    assert KeyOf(table[r.value]) == KeyOf(table[|before|]);
  }

  /** A raw person of whom only the dwelling matters. */
  function Resident(cantville: string, nummi: string): RawPerson
  {
    RawPerson(cantville, nummi, "", "", "", "", "", "", "", "", "", "", "", "", "", "", "")
  }

  /** Deduplicating on the concatenation but merging on the pair splits a dwelling whose
      concatenated key an earlier, different dwelling already took: ("A", "BC") collides
      with ("AB", "C"), and both of its persons get fresh singleton households. */
  lemma ConcatenatedKeyCollision()
    ensures HouseholdIds([Resident("AB", "C"), Resident("A", "BC"), Resident("A", "BC")]) == [0, 1, 2]
  {
    var first, second := Resident("AB", "C"), Resident("A", "BC");
    CollidingKeyTable(first, second);
    CollidingIds(first, second);
  }

  /** Against a table holding only the first dwelling, the first row gets position 0 and
      both rows of the second dwelling get fresh IDs 1 and 2. */
  lemma CollidingIds(first: RawPerson, second: RawPerson)
    requires first == Resident("AB", "C") && second == Resident("A", "BC")
    ensures IdsAgainst([first, second, second], [DwellingOf(first)]) == [0, 1, 2]
  {
    var rows := [first, second, second];
    var table := [DwellingOf(first)];
    assert DwellingOf(second) != table[0] by {
      assert |second.cantville| != |first.cantville|;
    }
    assert TableIndex(table, DwellingOf(first)) == Some(0);
    assert TableIndex(table, DwellingOf(second)) == None;
    assert UnmatchedCount(rows[..1], table) == 0 by {
      assert rows[..1] == [first] && [first][..0] == [];
    }
    assert UnmatchedCount(rows[..2], table) == 1 by {
      assert rows[..2] == [first, second] && [first, second][..1] == [first];
    }
    var ids := IdsAgainst(rows, table);
    assert ids[0] == 0 && ids[1] == 1 && ids[2] == 2;
  }

  /** The key table of the colliding rows holds only the first dwelling. */
  lemma CollidingKeyTable(first: RawPerson, second: RawPerson)
    requires first == Resident("AB", "C") && second == Resident("A", "BC")
    ensures KeyTable([first, second, second]) == [DwellingOf(first)]
  {
    var table := [DwellingOf(first)];
    KeyTableStep([], first);
    assert [] + [first] == [first];
    assert KeyOf(table[0]) == KeyOf(DwellingOf(second));
    KeyTableStep([first], second);
    assert [first] + [second] == [first, second];
    KeyTableStep([first, second], second);
    assert [first, second] + [second] == [first, second, second];
  }

  /** One more row: the key table grows by the row's dwelling exactly when it is an
      ordinary household with a new concatenated key. */
  lemma KeyTableStep(rows: seq<RawPerson>, p: RawPerson)
    ensures KeyTable(rows + [p]) ==
      if InOrdinaryHousehold(p) && !HasKey(KeyTable(rows), KeyOf(DwellingOf(p))) then KeyTable(rows) + [DwellingOf(p)]
      else KeyTable(rows)
  {
    assert (rows + [p])[..|rows|] == rows;
  }

  // ---------------------------------------------------------------------------
  // Recoding of the coded columns

  /** Lines 44-46: the commune is the first five characters of the IRIS code, unless those
      contain a 'Z'. */
  function CommuneIdOf(iris: string): (r: string)
    ensures r == Undefined <==> 'Z' in Prefix(iris, 5)
    ensures r != Undefined ==> r == Prefix(iris, 5) && |r| <= 5
  {
    var prefix := Prefix(iris, 5);
    if 'Z' in prefix then Undefined else prefix
  }

  /** Lines 49-51: the IRIS code itself, unless it contains a 'Z' or an 'X'. */
  function IrisIdOf(iris: string): (r: string)
    ensures r == Undefined <==> 'Z' in iris || 'X' in iris || iris == Undefined
    ensures r != Undefined ==> r == iris
  {
    if 'Z' in iris || 'X' in iris then Undefined else iris
  }

  /** A defined IRIS lies in a defined commune, and that commune is its five-character prefix. */
  lemma IrisWithinCommune(iris: string)
    requires IrisIdOf(iris) != Undefined
    ensures CommuneIdOf(iris) != Undefined && CommuneIdOf(iris) == Prefix(IrisIdOf(iris), 5)
  {
    var prefix := Prefix(iris, 5);
    forall i | 0 <= i < |prefix|
      ensures prefix[i] != 'Z'
    {
      assert prefix[i] == iris[i];
    }
  }

  /** Line 55: "000" reads as "0", any other code loses its leading zeros; then int(). */
  function AgeOf(aged: string): (r: Option<nat>)
    ensures r.Some? <==> aged != [] && AllDigits(aged) && (aged == "000" || exists i :: 0 <= i < |aged| && aged[i] != '0')
  {
    var stripped := if aged == "000" then "0" else StripLeading(aged, '0');
    assert aged != "000" ==> forall i :: 0 <= i < |stripped| ==> stripped[i] == aged[|aged| - |stripped| + i];
    assert aged != "000" && stripped != [] ==> aged[|aged| - |stripped|] != '0';
    ParseInt(stripped)
  }

  /** On a digit string the age is its decimal value, except that a string of zeros other
      than "000" strips to "" and int("") fails. */
  lemma AgeOfDigits(aged: string)
    requires aged != [] && AllDigits(aged)
    ensures AgeOf(aged) == if aged != "000" && DecimalValue(aged) == 0 then None else Some(DecimalValue(aged))
  {
    if aged == "000" {
      assert DecimalValue("0") == 0 by {
        assert "0"[..0] == [];
      }
      assert DecimalValue(aged) == 0 by {
        assert aged[..2] == "00" && "00"[..1] == "0";
        assert DecimalValue("00") == 0;
      }
    } else {
      var stripped := StripLeading(aged, '0');
      StripZerosValue(aged);
      if stripped != [] {
        LeadingNonZeroValue(stripped);
      }
    }
  }

  /** The census age code: the age written with three zero-padded digits. */
  function AgeCode(age: nat): (code: string)
    requires age < 1000
    ensures |code| == 3 && AllDigits(code)
  {
    [DigitChar(age / 100), DigitChar(age / 10 % 10), DigitChar(age % 10)]
  }

  function DigitChar(d: nat): (c: char)
    requires d < 10
    ensures IsDigit(c) && DigitValue(c) == d
  {
    ('0' as int + d) as char
  }

  /** Reading a three-digit age code back gives the age. */
  lemma AgeCodeRoundTrip(age: nat)
    requires age < 1000
    ensures AgeOf(AgeCode(age)) == Some(age)
  {
    var code := AgeCode(age);
    AgeCodeValue(age);
    assert age == 0 ==> code == "000";
    AgeOfDigits(code);
  }

  /** The three digits of the age code have the age as their decimal value. */
  lemma AgeCodeValue(age: nat)
    requires age < 1000
    ensures DecimalValue(AgeCode(age)) == age
  {
    var code := AgeCode(age);
    var hundreds, tens, units := age / 100, age / 10 % 10, age % 10;
    assert code[..1] == [DigitChar(hundreds)] && code[..1][..0] == [];
    assert DecimalValue(code[..1]) == hundreds;
    assert code[..2][..1] == code[..1];
    assert DecimalValue(code[..2]) == 10 * hundreds + tens;
    assert DecimalValue(code) == 10 * (10 * hundreds + tens) + units;
    assert age / 10 == 10 * hundreds + tens;
  }

  /** Lines 67-74: the commute mode of TRANS; "1", "Z" and unknown codes leave it undefined. */
  function CommuteModeOf(trans: string): (r: Option<CommuteMode>)
    ensures r == Some(Walk) <==> trans == "2"
    ensures r == Some(Bike) <==> trans == "3"
    ensures r == Some(Car) <==> trans == "4" || trans == "5"
    ensures r == Some(PublicTransport) <==> trans == "6"
    ensures r.None? <==> trans !in {"2", "3", "4", "5", "6"}
  {
    match trans
    case "2" => Some(Walk)
    case "3" => Some(Bike)
    case "4" => Some(Car)
    case "5" => Some(Car)
    case "6" => Some(PublicTransport)
    case _ => None
  }

  /** Lines 81-82: SEXE "1" is male, "2" female, anything else undefined. */
  function SexOf(sexe: string): (r: Option<Sex>)
    ensures r == Some(Male) <==> sexe == "1"
    ensures r == Some(Female) <==> sexe == "2"
  {
    if sexe == "1" then Some(Male) else if sexe == "2" then Some(Female) else None
  }

  /** Lines 92-98: VOIT with "Z" and "X" read as "0", plus DEROU with "U", "Z" and "X" read
      as "0"; int() fails on anything else that is not a digit, or on an empty code. */
  function VehicleCount(voit: string, derou: string): (r: Option<nat>)
    ensures r.Some? <==>
      && voit != [] && derou != []
      && (forall i :: 0 <= i < |voit| ==> IsDigit(voit[i]) || voit[i] in {'Z', 'X'})
      && (forall i :: 0 <= i < |derou| ==> IsDigit(derou[i]) || derou[i] in {'U', 'Z', 'X'})
  {
    var cars := ParseInt(ZeroPlaceholders(voit, {'Z', 'X'}));
    var twoWheelers := ParseInt(ZeroPlaceholders(derou, {'U', 'Z', 'X'}));
    if cars.Some? && twoWheelers.Some? then Some(cars.value + twoWheelers.value) else None
  }

  /** A one-character vehicle code: its digit, or 0 for a placeholder letter. */
  function CodeCount(c: char): nat
  {
    if IsDigit(c) then DigitValue(c) else 0
  }

  /** For the one-character VOIT and DEROU codes the count is the sum of the two digits,
      each placeholder counting 0. */
  lemma VehicleCountOfCodes(voit: char, derou: char)
    requires IsDigit(voit) || voit in {'Z', 'X'}
    requires IsDigit(derou) || derou in {'U', 'Z', 'X'}
    ensures VehicleCount([voit], [derou]) == Some(CodeCount(voit) + CodeCount(derou))
  {
    var cars := ZeroPlaceholders([voit], {'Z', 'X'});
    var twoWheelers := ZeroPlaceholders([derou], {'U', 'Z', 'X'});
    assert |cars| == 1 && cars[0] == if voit in {'Z', 'X'} then '0' else voit;
    assert |twoWheelers| == 1 && twoWheelers[0] == if derou in {'U', 'Z', 'X'} then '0' else derou;
    assert cars[..0] == [] && twoWheelers[..0] == [];
    assert DigitValue(cars[0]) == CodeCount(voit);
    assert DigitValue(twoWheelers[0]) == CodeCount(derou);
    assert DecimalValue(cars) == 10 * DecimalValue(cars[..0]) + DigitValue(cars[0]);
    assert DecimalValue(twoWheelers) == 10 * DecimalValue(twoWheelers[..0]) + DigitValue(twoWheelers[0]);
  }

  /** Lines 111-113: TYPL "1" is a house, "2" a flat, "3" to "6" and "Z" other housing. */
  function HousingTypeOf(typl: string): (r: Option<HousingType>)
    ensures r == Some(House) <==> typl == "1"
    ensures r == Some(Flat) <==> typl == "2"
    ensures r == Some(OtherHousing) <==> typl in {"3", "4", "5", "6", "Z"}
  {
    if typl == "1" then Some(House)
    else if typl == "2" then Some(Flat)
    else if typl in {"3", "4", "5", "6", "Z"} then Some(OtherHousing)
    else None
  }

  /** Lines 117-123: the household type of the SFM code. */
  function HouseholdTypeOf(sfm: string): (r: Option<HouseholdType>)
    ensures r == Some(SM) <==> sfm == "11"
    ensures r == Some(SW) <==> sfm == "12"
    ensures r == Some(MFF) <==> sfm == "21"
    ensures r == Some(MFM) <==> sfm == "22"
    ensures r == Some(CWOC) <==> sfm == "30"
    ensures r == Some(CWC) <==> sfm in {"31", "32", "33", "34"}
    ensures r == Some(OtherHousehold) <==> sfm in {"40", "51", "52", "53", "54", "61", "62", "70", "ZZ"}
  {
    if sfm == "11" then Some(SM)
    else if sfm == "12" then Some(SW)
    else if sfm == "21" then Some(MFF)
    else if sfm == "22" then Some(MFM)
    else if sfm == "30" then Some(CWOC)
    else if sfm in {"31", "32", "33", "34"} then Some(CWC)
    else if sfm in {"40", "51", "52", "53", "54", "61", "62", "70", "ZZ"} then Some(OtherHousehold)
    else None
  }

  /** Lines 127-128: GARL "1" means a parking place, "2" or "Z" none; other codes stay NaN. */
  function ParkingOf(garl: string): (r: Option<nat>)
    ensures r == Some(1) <==> garl == "1"
    ensures r == Some(0) <==> garl == "2" || garl == "Z"
    ensures r.Some? ==> r.value <= 1
  {
    if garl == "1" then Some(1) else if garl == "2" || garl == "Z" then Some(0) else None
  }

  /** Lines 150-151: the urban type of a commune from the urban-type table, "none" for the
      undefined commune, absent when the table has no row for the commune. */
  function UrbanTypeOf(communeId: string, urbanTypes: map<string, string>): (r: Option<string>)
    ensures communeId == Undefined ==> r == Some("none")
    ensures communeId != Undefined ==> (r.Some? <==> communeId in urbanTypes)
    ensures communeId != Undefined && r.Some? ==> r.value == urbanTypes[communeId]
  {
    if communeId == Undefined then Some("none")
    else if communeId in urbanTypes then Some(urbanTypes[communeId])
    else None
  }

  // ---------------------------------------------------------------------------
  // Person numbering, order and household size

  /** A raw person with its new person and household IDs. */
  datatype Numbered = Numbered(personId: nat, householdId: nat, raw: RawPerson)

  /** Line 36: person IDs 0 .. n - 1 in row order, next to the household IDs. */
  function Numbering(rows: seq<RawPerson>, ids: seq<nat>): (r: seq<Numbered>)
    requires |ids| == |rows|
    ensures |r| == |rows|
  {
    seq(|rows|, i requires 0 <= i < |rows| => Numbered(i, ids[i], rows[i]))
  }

  /** Line 39: the order of sort_values(by = ["household_id", "person_id"]). */
  predicate ByHouseholdThenPerson(a: Numbered, b: Numbered)
  {
    a.householdId < b.householdId || (a.householdId == b.householdId && a.personId <= b.personId)
  }

  lemma HouseholdThenPersonIsTotalPreorder()
    ensures IsTotalPreorder(ByHouseholdThenPerson)
  {
  }

  /** Line 39: the numbered persons sorted by household, then person. */
  function SortedPersons(rows: seq<RawPerson>, ids: seq<nat>): (sorted: seq<Numbered>)
    requires |ids| == |rows|
    ensures SortedBy(sorted, ByHouseholdThenPerson)
    ensures multiset(sorted) == multiset(Numbering(rows, ids))
  {
    HouseholdThenPersonIsTotalPreorder();
    SortBy(Numbering(rows, ids), ByHouseholdThenPerson)
  }

  /** After numbering and sorting, every input row occurs exactly once, carrying its own
      person ID and household ID, and the rows strictly increase by (household, person). */
  lemma SortedNumbering(rows: seq<RawPerson>, ids: seq<nat>)
    requires |ids| == |rows|
    ensures |SortedPersons(rows, ids)| == |rows|
    ensures forall k :: 0 <= k < |rows| ==>
      SortedPersons(rows, ids)[k].personId < |rows|
      && SortedPersons(rows, ids)[k] == Numbering(rows, ids)[SortedPersons(rows, ids)[k].personId]
    ensures forall i :: 0 <= i < |rows| ==> Numbering(rows, ids)[i] in SortedPersons(rows, ids)
    ensures forall k, l :: 0 <= k < l < |rows| ==>
      var a, b := SortedPersons(rows, ids)[k], SortedPersons(rows, ids)[l];
      a.householdId < b.householdId || (a.householdId == b.householdId && a.personId < b.personId)
  {
    var numbered := Numbering(rows, ids);
    var sorted := SortedPersons(rows, ids);
    assert multiset(sorted) == multiset(numbered);
    assert |sorted| == |numbered| by {
      calc {
        |sorted|;
        |multiset(sorted)|;
        |multiset(numbered)|;
        |numbered|;
      }
    }
    assert Distinct(numbered);
    PermutationKeepsDistinct(numbered, sorted);
    forall k | 0 <= k < |rows|
      ensures sorted[k].personId < |rows| && sorted[k] == numbered[sorted[k].personId]
    {
      assert sorted[k] in multiset(numbered);
      var j :| 0 <= j < |numbered| && numbered[j] == sorted[k];
    }
    forall i | 0 <= i < |rows|
      ensures numbered[i] in sorted
    {
      assert numbered[i] in multiset(sorted);
    }
  }

  /** The household ID column of a table. */
  function HouseholdColumn(persons: seq<Numbered>): (column: seq<nat>)
    ensures |column| == |persons|
  {
    seq(|persons|, k requires 0 <= k < |persons| => persons[k].householdId)
  }

  /** Lines 101-102: groupby("household_id").size(): for every household ID in the column,
      the number of rows carrying it. */
  method HouseholdSizes(column: seq<nat>) returns (sizes: map<nat, nat>)
    ensures forall h :: h in sizes <==> h in column
    ensures forall h :: h in sizes ==> sizes[h] == multiset(column)[h]
  {
    sizes := map[];
    for i := 0 to |column|
      invariant forall h :: h in sizes <==> h in column[..i]
      invariant forall h :: h in sizes ==> sizes[h] == multiset(column[..i])[h]
    {
      assert column[..i + 1] == column[..i] + [column[i]];
      var h := column[i];
      if h in sizes {
        sizes := sizes[h := sizes[h] + 1];
      } else {
        sizes := sizes[h := 1];
      }
    }
    assert column[..|column|] == column;
  }

  // ---------------------------------------------------------------------------
  // The cleaned table

  /** Every conversion the stage applies to the person succeeds. */
  predicate Cleanable(p: RawPerson, urbanTypes: Option<map<string, string>>)
  {
    && AgeOf(p.aged).Some?
    && VehicleCount(p.voit, p.derou).Some?
    && ParseInt(p.cs1).Some?
    && ParkingOf(p.garl).Some?
    && (urbanTypes.Some? ==> UrbanTypeOf(CommuneIdOf(p.iris), urbanTypes.value).Some?)
  }

  /** The first failing conversion, in the order the stage runs them (lines 55, 92-98, 105,
      129 and 153); each fails when it fails on any row. */
  function ColumnError(rows: seq<RawPerson>, urbanTypes: Option<map<string, string>>): (e: Option<CensusError>)
    ensures e.None? <==> forall p :: p in rows ==> Cleanable(p, urbanTypes)
    ensures e == Some(AgeNotInteger) <==> exists p :: p in rows && AgeOf(p.aged).None?
  {
    if !(forall p :: p in rows ==> AgeOf(p.aged).Some?) then Some(AgeNotInteger)
    else if !(forall p :: p in rows ==> VehicleCount(p.voit, p.derou).Some?) then Some(VehiclesNotInteger)
    else if !(forall p :: p in rows ==> ParseInt(p.cs1).Some?) then Some(SocioprofessionalClassNotInteger)
    else if !(forall p :: p in rows ==> ParkingOf(p.garl).Some?) then Some(ParkingUndefined)
    else if urbanTypes.Some? && !(forall p :: p in rows ==> UrbanTypeOf(CommuneIdOf(p.iris), urbanTypes.value).Some?) then
      Some(UrbanTypeMissing)
    else None
  }

  /** Lines 41-153 for one person: every output column is the recode of its census code. */
  function CleanPerson(n: Numbered, householdSize: nat, urbanTypes: Option<map<string, string>>): (c: CensusPerson)
    requires Cleanable(n.raw, urbanTypes)
    ensures c.personId == n.personId && c.householdId == n.householdId && c.householdSize == householdSize
    ensures c.age == AgeOf(n.raw.aged).value && c.ageRange == AgeRangeOf(c.age)
    ensures c.commuteMode == CommuteModeOf(n.raw.trans) && c.sex == SexOf(n.raw.sexe)
    ensures c.couple <==> n.raw.couple == "1"
    ensures c.employed <==> n.raw.tact == "11"
    ensures c.studies <==> n.raw.etud == "1"
    ensures c.irisId == IrisIdOf(n.raw.iris) && c.communeId == CommuneIdOf(n.raw.iris)
    ensures c.departementId == n.raw.dept && c.buildingAge == n.raw.achlr
    ensures c.numberOfVehicles == VehicleCount(n.raw.voit, n.raw.derou).value
    ensures c.socioprofessionalClass == ParseInt(n.raw.cs1).value
    ensures c.housingType == HousingTypeOf(n.raw.typl) && c.householdType == HouseholdTypeOf(n.raw.sfm)
    ensures c.parking == ParkingOf(n.raw.garl).value
    ensures c.urbanType.Some? <==> urbanTypes.Some?
    ensures urbanTypes.Some? ==> c.urbanType == UrbanTypeOf(c.communeId, urbanTypes.value)
    ensures urbanTypes.Some? && c.communeId == Undefined ==> c.urbanType == Some("none")
  {
    var p := n.raw;
    var commune := CommuneIdOf(p.iris);
    var age := AgeOf(p.aged).value;
    CensusPerson(
      n.personId, n.householdId,
      IrisIdOf(p.iris), commune, p.dept,
      age, SexOf(p.sexe), p.couple == "1", AgeRangeOf(age),
      CommuteModeOf(p.trans), p.tact == "11", p.etud == "1",
      VehicleCount(p.voit, p.derou).value, householdSize, ParseInt(p.cs1).value,
      HousingTypeOf(p.typl), HouseholdTypeOf(p.sfm),
      ParkingOf(p.garl).value, p.achlr,
      if urbanTypes.Some? then UrbanTypeOf(commune, urbanTypes.value) else None)
  }

  /** The sorted table holds only input rows. */
  lemma SortedRowsFromInput(rows: seq<RawPerson>, ids: seq<nat>)
    requires |ids| == |rows|
    ensures |SortedPersons(rows, ids)| == |rows|
    ensures forall k :: 0 <= k < |rows| ==> SortedPersons(rows, ids)[k].raw in rows
  {
    SortedNumbering(rows, ids);
    var sorted := SortedPersons(rows, ids);
    forall k | 0 <= k < |rows|
      ensures sorted[k].raw in rows
    {
      assert sorted[k].raw == rows[sorted[k].personId];
    }
  }

  /** Sorted row k recoded, with its household's size counted over the whole column. */
  function RecodeRow(sorted: seq<Numbered>, column: seq<nat>, urbanTypes: Option<map<string, string>>, k: nat)
    : CensusPerson
    requires k < |sorted| && Cleanable(sorted[k].raw, urbanTypes)
  {
    CleanPerson(sorted[k], multiset(column)[sorted[k].householdId], urbanTypes)
  }

  /** Lines 101-153 on the sorted rows: household sizes counted over the table, then
      every row recoded. */
  function RecodeTable(sorted: seq<Numbered>, urbanTypes: Option<map<string, string>>): (out: seq<CensusPerson>)
    requires forall k :: 0 <= k < |sorted| ==> Cleanable(sorted[k].raw, urbanTypes)
    ensures |out| == |sorted|
    ensures forall k :: 0 <= k < |sorted| ==> out[k] == RecodeRow(sorted, HouseholdColumn(sorted), urbanTypes, k)
  {
    seq(|sorted|, k requires 0 <= k < |sorted| => RecodeRow(sorted, HouseholdColumn(sorted), urbanTypes, k))
  }

  /** Lines 36-153 on a table whose every conversion succeeds. */
  function CleanRows(rows: seq<RawPerson>, urbanTypes: Option<map<string, string>>): (out: seq<CensusPerson>)
    requires forall p :: p in rows ==> Cleanable(p, urbanTypes)
    ensures |out| == |rows|
  {
    SortedRowsFromInput(rows, HouseholdIds(rows));
    RecodeTable(SortedPersons(rows, HouseholdIds(rows)), urbanTypes)
  }

  /** The whole stage: number, sort, recode, count household sizes and attach urban types,
      or the error the stage raises. urbanTypes is None when use_urban_type is off. */
  function Clean(rows: seq<RawPerson>, urbanTypes: Option<map<string, string>>): (r: Result<seq<CensusPerson>, CensusError>)
    ensures r.Err? <==>
      (rows != [] && forall p :: p in rows ==> !InOrdinaryHousehold(p)) || exists p :: p in rows && !Cleanable(p, urbanTypes)
    ensures r.Ok? ==> (forall p :: p in rows ==> Cleanable(p, urbanTypes)) && r.value == CleanRows(rows, urbanTypes)
  {
    if rows != [] && forall p :: p in rows ==> !InOrdinaryHousehold(p) then Err(NoOrdinaryHousehold)
    else match ColumnError(rows, urbanTypes)
      case Some(e) => Err(e)
      case None => Ok(CleanRows(rows, urbanTypes))
  }

  /** The person IDs of a cleaned table. */
  function PersonIds(out: seq<CensusPerson>): set<nat>
  {
    set k | 0 <= k < |out| :: out[k].personId
  }

  /** The cleaned rows are the sorted numbered rows, recoded one by one. */
  lemma CleanRowsAreSorted(rows: seq<RawPerson>, urbanTypes: Option<map<string, string>>, k: nat)
    requires forall p :: p in rows ==> Cleanable(p, urbanTypes)
    requires k < |rows|
    ensures var sorted := SortedPersons(rows, HouseholdIds(rows));
      && |sorted| == |rows|
      && (forall j :: 0 <= j < |sorted| ==> Cleanable(sorted[j].raw, urbanTypes))
      && CleanRows(rows, urbanTypes)[k]
        == CleanPerson(sorted[k], multiset(HouseholdColumn(sorted))[sorted[k].householdId], urbanTypes)
  {
    var sorted := SortedPersons(rows, HouseholdIds(rows));
    SortedRowsFromInput(rows, HouseholdIds(rows));
    assert CleanRows(rows, urbanTypes)[k] == RecodeRow(sorted, HouseholdColumn(sorted), urbanTypes, k);
  }

  /** The cleaned table strictly increases by (household_id, person_id). */
  lemma CleanedRowsOrdered(rows: seq<RawPerson>, urbanTypes: Option<map<string, string>>)
    requires forall p :: p in rows ==> Cleanable(p, urbanTypes)
    ensures var out := CleanRows(rows, urbanTypes);
      forall k, l :: 0 <= k < l < |out| ==>
        out[k].householdId < out[l].householdId
        || (out[k].householdId == out[l].householdId && out[k].personId < out[l].personId)
  {
    var out := CleanRows(rows, urbanTypes);
    SortedNumbering(rows, HouseholdIds(rows));
    forall k, l | 0 <= k < l < |out|
      ensures out[k].householdId < out[l].householdId
        || (out[k].householdId == out[l].householdId && out[k].personId < out[l].personId)
    {
      CleanRowsAreSorted(rows, urbanTypes, k);
      CleanRowsAreSorted(rows, urbanTypes, l);
    }
  }

  /** The person IDs of the cleaned table are exactly 0 .. n - 1, and each row carries the
      household ID of the census row its person ID numbers. */
  lemma CleanedPersonIds(rows: seq<RawPerson>, urbanTypes: Option<map<string, string>>)
    requires forall p :: p in rows ==> Cleanable(p, urbanTypes)
    ensures var out := CleanRows(rows, urbanTypes);
      && (forall i :: 0 <= i < |rows| <==> i in PersonIds(out))
      && (forall k :: 0 <= k < |out| ==>
            out[k].personId < |rows| && out[k].householdId == HouseholdIds(rows)[out[k].personId])
  {
    var out := CleanRows(rows, urbanTypes);
    var ids := HouseholdIds(rows);
    var sorted := SortedPersons(rows, ids);
    var numbered := Numbering(rows, ids);
    SortedNumbering(rows, ids);
    forall k | 0 <= k < |out|
      ensures out[k].personId < |rows| && out[k].householdId == ids[out[k].personId]
    {
      CleanRowsAreSorted(rows, urbanTypes, k);
      assert sorted[k] == numbered[sorted[k].personId];
    }
    forall i | 0 <= i < |rows|
      ensures i in PersonIds(out)
    {
      var k :| 0 <= k < |sorted| && sorted[k] == numbered[i];
      CleanRowsAreSorted(rows, urbanTypes, k);
    }
  }

  /** Every cleaned row is the recode of the census row its person ID numbers. */
  lemma CleanedRowsRecodeTheirCensusRow(rows: seq<RawPerson>, urbanTypes: Option<map<string, string>>)
    requires forall p :: p in rows ==> Cleanable(p, urbanTypes)
    ensures var out := CleanRows(rows, urbanTypes);
      forall k :: 0 <= k < |out| ==>
        out[k].personId < |rows|
        && out[k] == CleanPerson(Numbered(out[k].personId, out[k].householdId, rows[out[k].personId]),
                                 out[k].householdSize, urbanTypes)
  {
    var out := CleanRows(rows, urbanTypes);
    var ids := HouseholdIds(rows);
    var sorted := SortedPersons(rows, ids);
    var numbered := Numbering(rows, ids);
    SortedNumbering(rows, ids);
    forall k | 0 <= k < |out|
      ensures out[k].personId < |rows|
        && out[k] == CleanPerson(Numbered(out[k].personId, out[k].householdId, rows[out[k].personId]),
                                 out[k].householdSize, urbanTypes)
    {
      CleanRowsAreSorted(rows, urbanTypes, k);
      assert sorted[k] == numbered[sorted[k].personId];
    }
  }

  /** Each person's household_size is the number of rows of the cleaned table that share
      its household_id. */
  lemma HouseholdSizeCountsMembers(rows: seq<RawPerson>, urbanTypes: Option<map<string, string>>)
    requires forall p :: p in rows ==> Cleanable(p, urbanTypes)
    ensures var out := CleanRows(rows, urbanTypes);
      forall k :: 0 <= k < |out| ==>
        out[k].householdSize == multiset(seq(|out|, j requires 0 <= j < |out| => out[j].householdId))[out[k].householdId]
  {
    var out := CleanRows(rows, urbanTypes);
    var sorted := SortedPersons(rows, HouseholdIds(rows));
    SortedRowsFromInput(rows, HouseholdIds(rows));
    var column := HouseholdColumn(sorted);
    forall j | 0 <= j < |out|
      ensures out[j].householdId == column[j]
      ensures out[j].householdSize == multiset(column)[column[j]]
    {
      CleanRowsAreSorted(rows, urbanTypes, j);
    }
    assert seq(|out|, j requires 0 <= j < |out| => out[j].householdId) == column;
  }

  /** Recoding sorted row k with its household's size gives row k of the recoded table,
      and the table's first k + 1 rows are its first k rows followed by that one. */
  lemma RecodedRowInTable(sorted: seq<Numbered>, urbanTypes: Option<map<string, string>>, k: nat, size: nat)
    requires forall j :: 0 <= j < |sorted| ==> Cleanable(sorted[j].raw, urbanTypes)
    requires k < |sorted| && size == multiset(HouseholdColumn(sorted))[sorted[k].householdId]
    ensures RecodeTable(sorted, urbanTypes)[..k + 1]
      == RecodeTable(sorted, urbanTypes)[..k] + [CleanPerson(sorted[k], size, urbanTypes)]
  {
    RecodedRowIsTableRow(sorted, urbanTypes, k, size);
    PrefixStep(RecodeTable(sorted, urbanTypes), k);
  }

  /** Recoding sorted row k with its household's size gives row k of the recoded table. */
  lemma RecodedRowIsTableRow(sorted: seq<Numbered>, urbanTypes: Option<map<string, string>>, k: nat, size: nat)
    requires forall j :: 0 <= j < |sorted| ==> Cleanable(sorted[j].raw, urbanTypes)
    requires k < |sorted| && size == multiset(HouseholdColumn(sorted))[sorted[k].householdId]
    ensures RecodeTable(sorted, urbanTypes)[k] == CleanPerson(sorted[k], size, urbanTypes)
  {
  }

  /** The first k + 1 elements of a sequence are its first k followed by element k. */
  lemma PrefixStep<T>(s: seq<T>, k: nat)
    requires k < |s|
    ensures s[..k + 1] == s[..k] + [s[k]]
  {
  }

  /** Lines 101-153 on sorted rows whose every conversion succeeds. */
  method RecodeSorted(sorted: seq<Numbered>, urbanTypes: Option<map<string, string>>) returns (out: seq<CensusPerson>)
    requires forall k :: 0 <= k < |sorted| ==> Cleanable(sorted[k].raw, urbanTypes)
    ensures out == RecodeTable(sorted, urbanTypes)
  {
    var column := HouseholdColumn(sorted);
    var sizes := HouseholdSizes(column);
    ghost var table := RecodeTable(sorted, urbanTypes);
    out := [];
    for k := 0 to |sorted|
      invariant out == table[..k]
    {
      assert column[k] in column;
      var row := CleanPerson(sorted[k], sizes[sorted[k].householdId], urbanTypes);
      RecodedRowInTable(sorted, urbanTypes, k, sizes[sorted[k].householdId]);
      out := out + [row];
    }
    assert table[..|sorted|] == table;
  }

  /** Lines 19-155: the stage, run step by step. */
  method Execute(rows: seq<RawPerson>, urbanTypes: Option<map<string, string>>)
    returns (r: Result<seq<CensusPerson>, CensusError>)
    ensures r == Clean(rows, urbanTypes)
  {
    var ids := AssignHouseholdIds(rows);
    if ids.Err? {
      return Err(ids.error);
    }
    var e := ColumnError(rows, urbanTypes);
    if e.Some? {
      return Err(e.value);
    }
    var out := NumberSortRecode(rows, ids.value, urbanTypes);
    r := Ok(out);
  }

  /** Lines 36-153 once the household IDs are known and every conversion succeeds. */
  method NumberSortRecode(rows: seq<RawPerson>, ids: seq<nat>, urbanTypes: Option<map<string, string>>)
    returns (out: seq<CensusPerson>)
    requires ids == HouseholdIds(rows)
    requires forall p :: p in rows ==> Cleanable(p, urbanTypes)
    ensures out == CleanRows(rows, urbanTypes)
  {
    var sorted := NumberAndSort(rows, ids);
    SortedRowsFromInput(rows, ids);
    out := RecodeSorted(sorted, urbanTypes);
  }

  /** Lines 36-39: number the rows, then sort them by (household_id, person_id). */
  method NumberAndSort(rows: seq<RawPerson>, ids: seq<nat>) returns (sorted: seq<Numbered>)
    requires |ids| == |rows|
    ensures sorted == SortedPersons(rows, ids)
  {
    var numbered := NumberRows(rows, ids);
    HouseholdThenPersonIsTotalPreorder();
    sorted := SortBy(numbered, ByHouseholdThenPerson);
  }

  /** Line 36: person_id is the row number, attached with the row's household ID. */
  method NumberRows(rows: seq<RawPerson>, ids: seq<nat>) returns (numbered: seq<Numbered>)
    requires |ids| == |rows|
    ensures numbered == Numbering(rows, ids)
  {
    ghost var expected := Numbering(rows, ids);
    numbered := [];
    for i := 0 to |rows|
      invariant numbered == expected[..i]
    {
      PrefixStep(expected, i);
      numbered := numbered + [Numbered(i, ids[i], rows[i])];
    }
    assert expected[..|rows|] == expected;
  }
}
