/** The enrichment stage: the sampled synthetic persons joined with their matched survey
    persons and households and with household incomes, the row and entity counts checked
    across the joins, and the derived car, bike and age-range attributes. */
module PopulationEnriched {
  import opened Wrappers
  import opened Joins
  import opened Attributes
  import CensusCleaned

  /** A sampled synthetic person, with the census attributes it was sampled from. */
  datatype SampledPerson = SampledPerson(
    personId: nat, householdId: nat, censusPersonId: nat, censusHouseholdId: nat,
    age: nat, sex: Option<Sex>, employed: bool, studies: bool,
    numberOfVehicles: nat, householdSize: nat, consumptionUnits: real, socioprofessionalClass: nat,
    housingType: Option<CensusCleaned.HousingType>, householdType: Option<CensusCleaned.HouseholdType>,
    parking: nat, buildingAge: string)

  /** The survey person a synthetic person was matched with. */
  datatype Match = Match(personId: nat, htsId: nat)

  datatype HtsPerson = HtsPerson(
    htsId: nat, htsHouseholdId: nat,
    hasLicense: bool, hasPtSubscription: bool, isPassenger: bool, parkingAtWorkplace: bool)

  /** A survey household: its bikes and the energy and mileage class of up to four vehicles. */
  datatype HtsHousehold = HtsHousehold(htsHouseholdId: nat, numberOfBikes: nat, vehicleDescriptors: seq<string>)

  datatype Income = Income(householdId: nat, householdIncome: real)

  /** The table after each join. */
  datatype Matched = Matched(person: SampledPerson, htsId: nat)
  datatype WithHtsPerson = WithHtsPerson(matched: Matched, hts: HtsPerson)
  datatype WithHtsHousehold = WithHtsHousehold(row: WithHtsPerson, household: HtsHousehold)
  datatype Fused = Fused(row: WithHtsHousehold, householdIncome: real)

  datatype Availability = NoneAvailable | SomeAvailable | AllAvailable

  datatype Enriched = Enriched(
    fused: Fused, carAvailability: Availability, bikeAvailability: Availability, ageRange: AgeRange)

  /** The three consistency assertions of lines 74-76. */
  datatype FusionError = RowCountChanged | PersonCountChanged | HouseholdCountChanged

  // ---------------------------------------------------------------------------
  // The join chain

  function PersonOf(f: Fused): SampledPerson { f.row.row.matched.person }

  // The join keys.
  function SampledPersonKey(p: SampledPerson): nat { p.personId }
  function MatchKey(m: Match): nat { m.personId }
  function MatchedHtsKey(m: Matched): nat { m.htsId }
  function HtsPersonKey(h: HtsPerson): nat { h.htsId }
  function RowHtsHouseholdKey(r: WithHtsPerson): nat { r.hts.htsHouseholdId }
  function HtsHouseholdKey(h: HtsHousehold): nat { h.htsHouseholdId }
  function RowHouseholdKey(r: WithHtsHousehold): nat { r.row.matched.person.householdId }
  function IncomeKey(c: Income): nat { c.householdId }

  /** Line 39: merge with the matching on person_id. */
  function MatchedTable(population: seq<SampledPerson>, matches: seq<Match>): (t: seq<Matched>)
    ensures |t| == |InnerJoin(population, matches, SampledPersonKey, MatchKey)|
  {
    var j := InnerJoin(population, matches, SampledPersonKey, MatchKey);
    seq(|j|, i requires 0 <= i < |j| => Matched(j[i].0, j[i].1.htsId))
  }

  /** Lines 50-52: merge with the survey persons on hts_id. */
  function WithHtsTable(matched: seq<Matched>, htsPersons: seq<HtsPerson>): (t: seq<WithHtsPerson>)
    ensures |t| == |InnerJoin(matched, htsPersons, MatchedHtsKey, HtsPersonKey)|
  {
    var j := InnerJoin(matched, htsPersons, MatchedHtsKey, HtsPersonKey);
    seq(|j|, i requires 0 <= i < |j| => WithHtsPerson(j[i].0, j[i].1))
  }

  function HouseholdOfRow(r: WithHtsPerson): nat { r.matched.person.householdId }

  /** Whether some row of household h reports parking at the workplace: the maximum of the
      boolean column over the household. */
  function AnyParking(rows: seq<WithHtsPerson>, h: nat): bool
  {
    if rows == [] then false
    else
      var last := rows[|rows| - 1];
      (HouseholdOfRow(last) == h && last.hts.parkingAtWorkplace) || AnyParking(rows[..|rows| - 1], h)
  }

  /** Line 53: parking_at_workplace replaced by its maximum over the household. */
  function ParkingBroadcast(rows: seq<WithHtsPerson>): (out: seq<WithHtsPerson>)
    ensures |out| == |rows|
    ensures forall i :: 0 <= i < |rows| ==> out[i].matched == rows[i].matched
  {
    seq(|rows|, i requires 0 <= i < |rows| =>
      rows[i].(hts := rows[i].hts.(parkingAtWorkplace := AnyParking(rows, HouseholdOfRow(rows[i])))))
  }

  /** Lines 55-58: merge with the survey households on hts_household_id. */
  function WithHouseholdTable(rows: seq<WithHtsPerson>, htsHouseholds: seq<HtsHousehold>): (t: seq<WithHtsHousehold>)
    ensures |t| == |InnerJoin(rows, htsHouseholds, RowHtsHouseholdKey, HtsHouseholdKey)|
  {
    var j := InnerJoin(rows, htsHouseholds, RowHtsHouseholdKey, HtsHouseholdKey);
    seq(|j|, i requires 0 <= i < |j| => WithHtsHousehold(j[i].0, j[i].1))
  }

  /** Lines 65-67: merge with the incomes on household_id. */
  function FusedTable(rows: seq<WithHtsHousehold>, incomes: seq<Income>): (t: seq<Fused>)
    ensures |t| == |InnerJoin(rows, incomes, RowHouseholdKey, IncomeKey)|
  {
    var j := InnerJoin(rows, incomes, RowHouseholdKey, IncomeKey);
    seq(|j|, i requires 0 <= i < |j| => Fused(j[i].0, j[i].1.householdIncome))
  }

  // ---------------------------------------------------------------------------
  // Counts before and after the joins

  datatype Counts = Counts(rows: nat, persons: nat, households: nat)

  /** The distinct values of a column. */
  function Values(column: seq<nat>): (v: set<nat>)
    ensures forall x :: x in v <==> x in column
  {
    set x | x in column
  }

  /** Row count and numbers of distinct person and household IDs of a table given by its
      person and household columns. */
  function CountsOf(personIds: seq<nat>, householdIds: seq<nat>): (c: Counts)
    ensures c.rows == |personIds|
    ensures c.persons == |Values(personIds)| && c.households == |Values(householdIds)|
    ensures c.persons <= |personIds| && c.households <= |householdIds|
    ensures |personIds| > 0 ==> c.persons > 0
  {
    DistinctBound(personIds);
    DistinctBound(householdIds);
    assert |personIds| > 0 ==> personIds[0] in Values(personIds);
    Counts(|personIds|, |Values(personIds)|, |Values(householdIds)|)
  }

  /** A column has at most as many distinct values as rows. */
  lemma {:induction false} DistinctBound(s: seq<nat>)
    ensures |Values(s)| <= |s|
  {
    if s != [] {
      var init := s[..|s| - 1];
      DistinctBound(init);
      assert s == init + [s[|s| - 1]];
      assert Values(s) == Values(init) + {s[|s| - 1]};
    }
  }

  function MatchedCounts(t: seq<Matched>): Counts
  {
    CountsOf(seq(|t|, i requires 0 <= i < |t| => t[i].person.personId),
             seq(|t|, i requires 0 <= i < |t| => t[i].person.householdId))
  }

  function FusedCounts(t: seq<Fused>): Counts
  {
    CountsOf(seq(|t|, i requires 0 <= i < |t| => PersonOf(t[i]).personId),
             seq(|t|, i requires 0 <= i < |t| => PersonOf(t[i]).householdId))
  }

  /** Lines 74-76: the first assertion that fails, if any. */
  function CountCheck(before: Counts, after: Counts): (e: Option<FusionError>)
    ensures e.None? <==> before == after
    ensures e == Some(RowCountChanged) <==> before.rows != after.rows
  {
    if before.rows != after.rows then Some(RowCountChanged)
    else if before.persons != after.persons then Some(PersonCountChanged)
    else if before.households != after.households then Some(HouseholdCountChanged)
    else None
  }

  // ---------------------------------------------------------------------------
  // Derived attributes

  /** Lines 83-85 (vehicles against licences) and 91-93 (bikes against household size):
      "all", overwritten by "some" where there are fewer than needed, overwritten by "none"
      where there are none; the last overwrite wins. */
  function AvailabilityOf(available: nat, needed: nat): (r: Availability)
    ensures r == NoneAvailable <==> available == 0
    ensures r == SomeAvailable <==> 0 < available < needed
    ensures r == AllAvailable <==> 0 < available && needed <= available
  {
    var r := AllAvailable;
    var r := if available < needed then SomeAvailable else r;
    if available == 0 then NoneAvailable else r
  }

  function HouseholdOf(f: Fused): nat { PersonOf(f).householdId }

  function HouseholdColumn(rows: seq<Fused>): (column: seq<nat>)
    ensures |column| == |rows|
  {
    seq(|rows|, i requires 0 <= i < |rows| => HouseholdOf(rows[i]))
  }

  /** Line 79: number_of_vehicles of the first row of household h (drop_duplicates keeps the first). */
  function FirstVehicles(rows: seq<Fused>, h: nat): nat
  {
    if rows == [] then 0
    else
      var init := rows[..|rows| - 1];
      if h in HouseholdColumn(init) then FirstVehicles(init, h)
      else if HouseholdOf(rows[|rows| - 1]) == h then PersonOf(rows[|rows| - 1]).numberOfVehicles
      else 0
  }

  /** Line 80: the sum of has_license over the rows of household h. */
  function LicenseCount(rows: seq<Fused>, h: nat): (licenses: nat)
    ensures licenses <= |rows|
  {
    if rows == [] then 0
    else
      var last := rows[|rows| - 1];
      LicenseCount(rows[..|rows| - 1], h) + if HouseholdOf(last) == h && last.row.row.hts.hasLicense then 1 else 0
  }

  /** Lines 79-101: car availability per household, bike availability and age range per row. */
  function Derive(fused: seq<Fused>): (out: seq<Enriched>)
    ensures |out| == |fused|
    ensures forall i :: 0 <= i < |fused| ==> var p := PersonOf(fused[i]);
      && out[i].fused == fused[i]
      && out[i].carAvailability == AvailabilityOf(FirstVehicles(fused, p.householdId), LicenseCount(fused, p.householdId))
      && out[i].bikeAvailability == AvailabilityOf(fused[i].row.household.numberOfBikes, p.householdSize)
      && out[i].ageRange == AgeRangeOf(p.age)
  {
    seq(|fused|, i requires 0 <= i < |fused| =>
      var p := PersonOf(fused[i]);
      Enriched(
        fused[i],
        AvailabilityOf(FirstVehicles(fused, p.householdId), LicenseCount(fused, p.householdId)),
        AvailabilityOf(fused[i].row.household.numberOfBikes, p.householdSize),
        AgeRangeOf(p.age)))
  }

  /** Lines 27-107: the whole stage, or the consistency assertion that fails. */
  function Enrich(population: seq<SampledPerson>, matches: seq<Match>, htsPersons: seq<HtsPerson>,
                  htsHouseholds: seq<HtsHousehold>, incomes: seq<Income>): (r: Result<seq<Enriched>, FusionError>)
    ensures r.Ok? ==> |r.value| == |MatchedTable(population, matches)|
  {
    var matched := MatchedTable(population, matches);
    var withHts := ParkingBroadcast(WithHtsTable(matched, htsPersons));
    var fused := FusedTable(WithHouseholdTable(withHts, htsHouseholds), incomes);
    match CountCheck(MatchedCounts(matched), FusedCounts(fused))
    case Some(e) => Err(e)
    case None => Ok(Derive(fused))
  }

  // ---------------------------------------------------------------------------
  // Workplace parking

  /** A household reports parking at the workplace exactly when one of its rows does. */
  lemma {:induction false} AnyParkingWitness(rows: seq<WithHtsPerson>, h: nat)
    ensures AnyParking(rows, h) <==>
      exists k :: 0 <= k < |rows| && HouseholdOfRow(rows[k]) == h && rows[k].hts.parkingAtWorkplace
  {
    if rows != [] {
      var init := rows[..|rows| - 1];
      AnyParkingWitness(init, h);
      if exists k :: 0 <= k < |init| && HouseholdOfRow(init[k]) == h && init[k].hts.parkingAtWorkplace {
        var k :| 0 <= k < |init| && HouseholdOfRow(init[k]) == h && init[k].hts.parkingAtWorkplace;
        assert rows[k] == init[k];
      }
      if exists k :: 0 <= k < |rows| && HouseholdOfRow(rows[k]) == h && rows[k].hts.parkingAtWorkplace {
        var k :| 0 <= k < |rows| && HouseholdOfRow(rows[k]) == h && rows[k].hts.parkingAtWorkplace;
        if k < |init| {
          assert init[k] == rows[k];
        }
      }
    }
  }

  /** After line 53 every member of a household carries the same flag, the logical OR of
      the members' flags, and nothing else of the row changes. */
  lemma ParkingIsHouseholdMaximum(rows: seq<WithHtsPerson>, i: nat)
    requires i < |rows|
    ensures var out := ParkingBroadcast(rows);
      && (out[i].hts.parkingAtWorkplace <==>
            exists k :: 0 <= k < |rows| && HouseholdOfRow(rows[k]) == HouseholdOfRow(rows[i]) && rows[k].hts.parkingAtWorkplace)
      && (forall k :: 0 <= k < |rows| && HouseholdOfRow(rows[k]) == HouseholdOfRow(rows[i]) ==>
            out[k].hts.parkingAtWorkplace == out[i].hts.parkingAtWorkplace)
      && out[i].matched == rows[i].matched
      && out[i].hts.(parkingAtWorkplace := rows[i].hts.parkingAtWorkplace) == rows[i].hts
  {
    AnyParkingWitness(rows, HouseholdOfRow(rows[i]));
  }

  /** Broadcasting the household maximum twice changes nothing more. */
  lemma ParkingBroadcastIdempotent(rows: seq<WithHtsPerson>)
    ensures ParkingBroadcast(ParkingBroadcast(rows)) == ParkingBroadcast(rows)
  {
    var out := ParkingBroadcast(rows);
    forall i | 0 <= i < |rows|
      ensures AnyParking(out, HouseholdOfRow(out[i])) == out[i].hts.parkingAtWorkplace
    {
      var h := HouseholdOfRow(rows[i]);
      AnyParkingWitness(rows, h);
      AnyParkingWitness(out, h);
      if AnyParking(out, h) {
        var k :| 0 <= k < |out| && HouseholdOfRow(out[k]) == h && out[k].hts.parkingAtWorkplace;
        assert HouseholdOfRow(rows[k]) == h;
      }
    }
    assert ParkingBroadcast(out) == out;
  }

  /** Line 53: the groupby max, computed with a per-household map and then written back. */
  method BroadcastParking(rows: seq<WithHtsPerson>) returns (out: seq<WithHtsPerson>)
    ensures out == ParkingBroadcast(rows)
  {
    var anyParking: map<nat, bool> := map[];
    for i := 0 to |rows|
      invariant forall h :: AnyParking(rows[..i], h) <==> h in anyParking && anyParking[h]
    {
      assert rows[..i + 1][..i] == rows[..i];
      var h := HouseholdOfRow(rows[i]);
      anyParking := anyParking[h := (h in anyParking && anyParking[h]) || rows[i].hts.parkingAtWorkplace];
    }
    assert rows[..|rows|] == rows;
    out := [];
    for k := 0 to |rows|
      invariant |out| == k
      invariant forall j :: 0 <= j < k ==> out[j] == ParkingBroadcast(rows)[j]
    {
      var h := HouseholdOfRow(rows[k]);
      var flag := h in anyParking && anyParking[h];
      out := out + [rows[k].(hts := rows[k].hts.(parkingAtWorkplace := flag))];
    }
  }

  // ---------------------------------------------------------------------------
  // Car availability per household

  /** The number of vehicles is that of the household's first row. */
  lemma {:induction false} FirstVehiclesOfFirstRow(rows: seq<Fused>, k: nat)
    requires k < |rows|
    requires forall j :: 0 <= j < k ==> HouseholdOf(rows[j]) != HouseholdOf(rows[k])
    ensures FirstVehicles(rows, HouseholdOf(rows[k])) == PersonOf(rows[k]).numberOfVehicles
  {
    var h := HouseholdOf(rows[k]);
    var init := rows[..|rows| - 1];
    if k < |init| {
      assert init[k] == rows[k];
      assert HouseholdColumn(init)[k] == h;
      forall j | 0 <= j < k
        ensures HouseholdOf(init[j]) != HouseholdOf(init[k])
      {
        assert init[j] == rows[j];
      }
      FirstVehiclesOfFirstRow(init, k);
    } else {
      forall j | 0 <= j < |init|
        ensures HouseholdColumn(init)[j] != h
      {
        assert init[j] == rows[j];
      }
    }
  }

  /** The rows of household h whose person holds a licence. */
  function LicensedRows(rows: seq<Fused>, h: nat): set<nat>
  {
    set j | 0 <= j < |rows| && HouseholdOf(rows[j]) == h && rows[j].row.row.hts.hasLicense
  }

  /** The licence sum of a household counts its licensed rows. */
  lemma {:induction false} LicenseCountIsCount(rows: seq<Fused>, h: nat)
    ensures LicenseCount(rows, h) == |LicensedRows(rows, h)|
  {
    if rows != [] {
      LicenseCountIsCount(rows[..|rows| - 1], h);
      LicensedRowsStep(rows, h);
    }
  }

  /** The licensed rows of a table: those of all rows but the last, and the last if licensed. */
  lemma LicensedRowsStep(rows: seq<Fused>, h: nat)
    requires rows != []
    ensures var n := |rows| - 1;
      |LicensedRows(rows, h)| ==
        |LicensedRows(rows[..n], h)| + if HouseholdOf(rows[n]) == h && rows[n].row.row.hts.hasLicense then 1 else 0
  {
    var n := |rows| - 1;
    var init := rows[..n];
    assert forall j :: 0 <= j < n ==> rows[j] == init[j];
    assert n !in LicensedRows(init, h);
    if HouseholdOf(rows[n]) == h && rows[n].row.row.hts.hasLicense {
      assert LicensedRows(rows, h) == LicensedRows(init, h) + {n};
    } else {
      assert LicensedRows(rows, h) == LicensedRows(init, h);
    }
  }

  /** No household counts more licences than members. */
  lemma {:induction false} LicensesAtMostMembers(rows: seq<Fused>, h: nat)
    ensures LicenseCount(rows, h) <= multiset(HouseholdColumn(rows))[h]
  {
    if rows != [] {
      var init := rows[..|rows| - 1];
      LicensesAtMostMembers(init, h);
      assert HouseholdColumn(rows) == HouseholdColumn(init) + [HouseholdOf(rows[|rows| - 1])];
    }
  }

  /** How the household column, first vehicle counts and licence counts of the first i rows
      change when row i is added. */
  lemma HouseholdPrefixStep(rows: seq<Fused>, i: nat)
    requires i < |rows|
    ensures var h, prefix := HouseholdOf(rows[i]), rows[..i];
      && (forall g :: g in HouseholdColumn(rows[..i + 1]) <==> g in HouseholdColumn(prefix) || g == h)
      && (forall g :: g in HouseholdColumn(prefix) ==> FirstVehicles(rows[..i + 1], g) == FirstVehicles(prefix, g))
      && FirstVehicles(rows[..i + 1], h) ==
           (if h in HouseholdColumn(prefix) then FirstVehicles(prefix, h) else PersonOf(rows[i]).numberOfVehicles)
      && (forall g :: g != h ==> LicenseCount(rows[..i + 1], g) == LicenseCount(prefix, g))
      && LicenseCount(rows[..i + 1], h) == LicenseCount(prefix, h) + (if rows[i].row.row.hts.hasLicense then 1 else 0)
      && (h !in HouseholdColumn(prefix) ==> LicenseCount(prefix, h) == 0)
  {
    var prefix := rows[..i + 1];
    assert prefix[..i] == rows[..i];
    assert HouseholdColumn(prefix) == HouseholdColumn(rows[..i]) + [HouseholdOf(rows[i])];
    LicensesAtMostMembers(rows[..i], HouseholdOf(rows[i]));
  }

  /** Lines 79-86: one car availability per household, from the first row's vehicle count
      and the household's licence count. */
  method CarAvailabilities(rows: seq<Fused>) returns (availability: map<nat, Availability>)
    ensures forall h :: h in availability <==> h in HouseholdColumn(rows)
    ensures forall h :: h in availability ==>
      availability[h] == AvailabilityOf(FirstVehicles(rows, h), LicenseCount(rows, h))
  {
    var vehicles: map<nat, nat> := map[];
    var licenses: map<nat, nat> := map[];
    for i := 0 to |rows|
      invariant forall h :: h in vehicles <==> h in HouseholdColumn(rows[..i])
      invariant forall h :: h in licenses <==> h in vehicles
      invariant forall h :: h in vehicles ==> vehicles[h] == FirstVehicles(rows[..i], h)
      invariant forall h :: h in licenses ==> licenses[h] == LicenseCount(rows[..i], h)
    {
      HouseholdPrefixStep(rows, i);
      var h := HouseholdOf(rows[i]);
      var licensed := if rows[i].row.row.hts.hasLicense then 1 else 0;
      if h in vehicles {
        licenses := licenses[h := licenses[h] + licensed];
      } else {
        vehicles := vehicles[h := PersonOf(rows[i]).numberOfVehicles];
        licenses := licenses[h := licensed];
      }
    }
    assert rows[..|rows|] == rows;
    availability := map h | h in vehicles :: AvailabilityOf(vehicles[h], licenses[h]);
  }

  /** Members of one household share one car availability: the vehicle count of the
      household's first row compared with the household's licences. */
  lemma CarAvailabilityOfHousehold(fused: seq<Fused>, i: nat, k: nat)
    requires i < |fused| && k < |fused| && HouseholdOf(fused[i]) == HouseholdOf(fused[k])
    ensures Derive(fused)[i].carAvailability == Derive(fused)[k].carAvailability
    ensures exists first ::
      && 0 <= first <= i && HouseholdOf(fused[first]) == HouseholdOf(fused[i])
      && (forall j :: 0 <= j < first ==> HouseholdOf(fused[j]) != HouseholdOf(fused[i]))
      && Derive(fused)[i].carAvailability ==
           AvailabilityOf(PersonOf(fused[first]).numberOfVehicles, LicenseCount(fused, HouseholdOf(fused[i])))
  {
    var h := HouseholdOf(fused[i]);
    var first :| 0 <= first <= i && HouseholdOf(fused[first]) == h
      && forall j :: 0 <= j < first ==> HouseholdOf(fused[j]) != h by {
      FirstIndexExists(fused, h, i);
    }
    FirstVehiclesOfFirstRow(fused, first);
  }

  /** When the members of a household agree on the number of vehicles, their car
      availability is that number compared with the household's licences. */
  lemma CarAvailabilityWhenMembersAgree(fused: seq<Fused>, i: nat)
    requires i < |fused|
    requires forall j :: 0 <= j < |fused| && HouseholdOf(fused[j]) == HouseholdOf(fused[i]) ==>
      PersonOf(fused[j]).numberOfVehicles == PersonOf(fused[i]).numberOfVehicles
    ensures Derive(fused)[i].carAvailability ==
      AvailabilityOf(PersonOf(fused[i]).numberOfVehicles, LicenseCount(fused, HouseholdOf(fused[i])))
  {
    var h := HouseholdOf(fused[i]);
    var first :| 0 <= first <= i && HouseholdOf(fused[first]) == h
      && forall j :: 0 <= j < first ==> HouseholdOf(fused[j]) != h by {
      FirstIndexExists(fused, h, i);
    }
    FirstVehiclesOfFirstRow(fused, first);
    assert FirstVehicles(fused, h) == PersonOf(fused[i]).numberOfVehicles;
  }

  /** Some earliest row carries a household that row i carries. */
  lemma {:induction false} FirstIndexExists(fused: seq<Fused>, h: nat, i: nat)
    requires i < |fused| && HouseholdOf(fused[i]) == h
    ensures exists first ::
      && 0 <= first <= i && HouseholdOf(fused[first]) == h
      && forall j :: 0 <= j < first ==> HouseholdOf(fused[j]) != h
  {
    if exists j :: 0 <= j < i && HouseholdOf(fused[j]) == h {
      var j :| 0 <= j < i && HouseholdOf(fused[j]) == h;
      FirstIndexExists(fused, h, j);
    }
  }

  // ---------------------------------------------------------------------------
  // The stage and its consistency checks

  /** Lines 27-107, step by step. */
  method Execute(population: seq<SampledPerson>, matches: seq<Match>, htsPersons: seq<HtsPerson>,
                 htsHouseholds: seq<HtsHousehold>, incomes: seq<Income>)
    returns (r: Result<seq<Enriched>, FusionError>)
    ensures r == Enrich(population, matches, htsPersons, htsHouseholds, incomes)
  {
    var matched := MatchedTable(population, matches);
    var before := MatchedCounts(matched);
    var withHts := BroadcastParking(WithHtsTable(matched, htsPersons));
    var fused := FusedTable(WithHouseholdTable(withHts, htsHouseholds), incomes);
    var after := FusedCounts(fused);
    if before.rows != after.rows {
      return Err(RowCountChanged);
    } else if before.persons != after.persons {
      return Err(PersonCountChanged);
    } else if before.households != after.households {
      return Err(HouseholdCountChanged);
    }
    var out := DeriveAll(fused);
    r := Ok(out);
  }

  /** Lines 78-101: car availability merged back per household, then bike availability and
      age range per row. */
  method DeriveAll(fused: seq<Fused>) returns (out: seq<Enriched>)
    ensures out == Derive(fused)
  {
    var cars := CarAvailabilities(fused);
    out := [];
    for i := 0 to |fused|
      invariant |out| == i
      invariant forall j :: 0 <= j < i ==> out[j] == Derive(fused)[j]
    {
      var p := PersonOf(fused[i]);
      assert HouseholdColumn(fused)[i] == p.householdId;
      var bikes := AvailabilityOf(fused[i].row.household.numberOfBikes, p.householdSize);
      out := out + [Enriched(fused[i], cars[p.householdId], bikes, AgeRangeOf(p.age))];
    }
  }

  /** Every row finds exactly one partner in each join after the counts are taken (lines 50,
      55 and 65). */
  predicate JoinsKeepRows(population: seq<SampledPerson>, matches: seq<Match>, htsPersons: seq<HtsPerson>,
                          htsHouseholds: seq<HtsHousehold>, incomes: seq<Income>)
  {
    var matched := MatchedTable(population, matches);
    var withHts := ParkingBroadcast(WithHtsTable(matched, htsPersons));
    && ExactlyOnePartner(matched, htsPersons, MatchedHtsKey, HtsPersonKey)
    && ExactlyOnePartner(withHts, htsHouseholds, RowHtsHouseholdKey, HtsHouseholdKey)
    && ExactlyOnePartner(WithHouseholdTable(withHts, htsHouseholds), incomes, RowHouseholdKey, IncomeKey)
  }

  lemma WithHtsKeepsRows(matched: seq<Matched>, htsPersons: seq<HtsPerson>)
    requires ExactlyOnePartner(matched, htsPersons, MatchedHtsKey, HtsPersonKey)
    ensures |WithHtsTable(matched, htsPersons)| == |matched|
    ensures forall i :: 0 <= i < |matched| ==> WithHtsTable(matched, htsPersons)[i].matched == matched[i]
  {
    JoinOnExactlyOnePartner(matched, htsPersons, MatchedHtsKey, HtsPersonKey);
  }

  lemma WithHouseholdKeepsRows(rows: seq<WithHtsPerson>, htsHouseholds: seq<HtsHousehold>)
    requires ExactlyOnePartner(rows, htsHouseholds, RowHtsHouseholdKey, HtsHouseholdKey)
    ensures |WithHouseholdTable(rows, htsHouseholds)| == |rows|
    ensures forall i :: 0 <= i < |rows| ==> WithHouseholdTable(rows, htsHouseholds)[i].row == rows[i]
  {
    JoinOnExactlyOnePartner(rows, htsHouseholds, RowHtsHouseholdKey, HtsHouseholdKey);
  }

  lemma FusedKeepsRows(rows: seq<WithHtsHousehold>, incomes: seq<Income>)
    requires ExactlyOnePartner(rows, incomes, RowHouseholdKey, IncomeKey)
    ensures |FusedTable(rows, incomes)| == |rows|
    ensures forall i :: 0 <= i < |rows| ==> FusedTable(rows, incomes)[i].row == rows[i]
  {
    JoinOnExactlyOnePartner(rows, incomes, RowHouseholdKey, IncomeKey);
  }

  /** When every join after the matching finds exactly one partner per row, the fused table
      is the matched table row for row, the three counts agree and the stage succeeds. */
  lemma FusionKeepsEveryRow(population: seq<SampledPerson>, matches: seq<Match>, htsPersons: seq<HtsPerson>,
                            htsHouseholds: seq<HtsHousehold>, incomes: seq<Income>)
    requires JoinsKeepRows(population, matches, htsPersons, htsHouseholds, incomes)
    ensures var r := Enrich(population, matches, htsPersons, htsHouseholds, incomes);
      var matched := MatchedTable(population, matches);
      && r.Ok? && |r.value| == |matched|
      && forall i :: 0 <= i < |matched| ==> PersonOf(r.value[i].fused) == matched[i].person
  {
    var matched := MatchedTable(population, matches);
    var withHts := ParkingBroadcast(WithHtsTable(matched, htsPersons));
    var withHousehold := WithHouseholdTable(withHts, htsHouseholds);
    var fused := FusedTable(withHousehold, incomes);
    WithHtsKeepsRows(matched, htsPersons);
    WithHouseholdKeepsRows(withHts, htsHouseholds);
    FusedKeepsRows(withHousehold, incomes);
    forall i | 0 <= i < |matched|
      ensures PersonOf(fused[i]) == matched[i].person
    {
      assert fused[i].row == withHousehold[i] && withHousehold[i].row == withHts[i];
    }
    SamePersonsSameCounts(matched, fused);
  }

  /** Tables with the same persons row for row have the same counts. */
  lemma SamePersonsSameCounts(matched: seq<Matched>, fused: seq<Fused>)
    requires |fused| == |matched|
    requires forall i :: 0 <= i < |matched| ==> PersonOf(fused[i]) == matched[i].person
    ensures FusedCounts(fused) == MatchedCounts(matched)
  {
    assert seq(|fused|, i requires 0 <= i < |fused| => PersonOf(fused[i]).personId)
      == seq(|matched|, i requires 0 <= i < |matched| => matched[i].person.personId);
    assert seq(|fused|, i requires 0 <= i < |fused| => PersonOf(fused[i]).householdId)
      == seq(|matched|, i requires 0 <= i < |matched| => matched[i].person.householdId);
  }

  /** The survey persons, survey households and incomes each have unique keys. */
  predicate UniqueRightKeys(htsPersons: seq<HtsPerson>, htsHouseholds: seq<HtsHousehold>, incomes: seq<Income>)
  {
    && UniqueKeys(htsPersons, HtsPersonKey)
    && UniqueKeys(htsHouseholds, HtsHouseholdKey)
    && UniqueKeys(incomes, IncomeKey)
  }

  /** With unique keys on the joined tables, no join can add rows, so the row count check
      alone decides: the stage succeeds exactly when every join keeps every row, and
      otherwise it fails on the row count (the person and household checks never fire). */
  lemma RowCountDecides(population: seq<SampledPerson>, matches: seq<Match>, htsPersons: seq<HtsPerson>,
                        htsHouseholds: seq<HtsHousehold>, incomes: seq<Income>)
    requires UniqueRightKeys(htsPersons, htsHouseholds, incomes)
    ensures var r := Enrich(population, matches, htsPersons, htsHouseholds, incomes);
      && (r.Ok? <==> JoinsKeepRows(population, matches, htsPersons, htsHouseholds, incomes))
      && (r.Err? ==> r.error == RowCountChanged)
  {
    var matched := MatchedTable(population, matches);
    var withHts := ParkingBroadcast(WithHtsTable(matched, htsPersons));
    var withHousehold := WithHouseholdTable(withHts, htsHouseholds);
    var fused := FusedTable(withHousehold, incomes);
    UniqueKeysJoinLength(matched, htsPersons, MatchedHtsKey, HtsPersonKey);
    UniqueKeysJoinLength(withHts, htsHouseholds, RowHtsHouseholdKey, HtsHouseholdKey);
    UniqueKeysJoinLength(withHousehold, incomes, RowHouseholdKey, IncomeKey);
    assert |withHts| == |WithHtsTable(matched, htsPersons)|;
    if JoinsKeepRows(population, matches, htsPersons, htsHouseholds, incomes) {
      FusionKeepsEveryRow(population, matches, htsPersons, htsHouseholds, incomes);
    } else {
      assert |fused| < |matched|;
      FewerRowsFails(matched, fused);
    }
  }

  /** A fused table with fewer rows than the matched table fails the row count check. */
  lemma FewerRowsFails(matched: seq<Matched>, fused: seq<Fused>)
    requires |fused| < |matched|
    ensures CountCheck(MatchedCounts(matched), FusedCounts(fused)) == Some(RowCountChanged)
  {
  }

  /** A matched person whose survey person is missing makes the stage fail on the row count,
      when the survey persons, households and incomes have unique keys. */
  lemma MissingSurveyPersonAborts(population: seq<SampledPerson>, matches: seq<Match>, htsPersons: seq<HtsPerson>,
                                  htsHouseholds: seq<HtsHousehold>, incomes: seq<Income>, i: nat)
    requires UniqueRightKeys(htsPersons, htsHouseholds, incomes)
    requires i < |MatchedTable(population, matches)|
    requires forall h :: h in htsPersons ==> h.htsId != MatchedTable(population, matches)[i].htsId
    ensures Enrich(population, matches, htsPersons, htsHouseholds, incomes) == Err(RowCountChanged)
  {
    var matched := MatchedTable(population, matches);
    forall j | 0 <= j < |htsPersons|
      ensures HtsPersonKey(htsPersons[j]) != MatchedHtsKey(matched[i])
    {
      assert htsPersons[j] in htsPersons;
    }
    NoPartnersWithoutKey(htsPersons, HtsPersonKey, MatchedHtsKey(matched[i]));
    RowCountDecides(population, matches, htsPersons, htsHouseholds, incomes);
  }

  /** The counts are taken after the merge with the matching (lines 39-43), so a sampled
      person without a match disappears without any assertion failing: the stage gives what
      it gives on the population without that person. */
  lemma UnmatchedPersonDroppedSilently(population: seq<SampledPerson>, matches: seq<Match>, htsPersons: seq<HtsPerson>,
                                       htsHouseholds: seq<HtsHousehold>, incomes: seq<Income>, i: nat)
    requires i < |population|
    requires forall m :: m in matches ==> m.personId != population[i].personId
    ensures Enrich(population, matches, htsPersons, htsHouseholds, incomes) ==
      Enrich(population[..i] + population[i + 1..], matches, htsPersons, htsHouseholds, incomes)
  {
    UnmatchedPersonJoinsNothing(population, matches, i);
    assert MatchedTable(population, matches) == MatchedTable(population[..i] + population[i + 1..], matches);
  }

  /** The merge with the matching is the same with or without an unmatched person. */
  lemma UnmatchedPersonJoinsNothing(population: seq<SampledPerson>, matches: seq<Match>, i: nat)
    requires i < |population|
    requires forall m :: m in matches ==> m.personId != population[i].personId
    ensures InnerJoin(population, matches, SampledPersonKey, MatchKey) ==
      InnerJoin(population[..i] + population[i + 1..], matches, SampledPersonKey, MatchKey)
  {
    forall j | 0 <= j < |matches|
      ensures MatchKey(matches[j]) != SampledPersonKey(population[i])
    {
      assert matches[j] in matches;
    }
    DropUnpartneredRow(population, matches, SampledPersonKey, MatchKey, i);
  }
}
