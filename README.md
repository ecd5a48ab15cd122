# Census cleaning, population enrichment and commuting-origin gap-filling

This project models three stages of the Île-de-France synthetic population pipeline in Dafny, and proves properties of the model.

- **Census cleaning** (`data/census/cleaned.py`). Household numbering works on the (CANTVILLE, NUMMI) dwelling key. Persons outside an ordinary household (NUMMI `"Z"`) get fresh singleton household IDs. Persons are then numbered and sorted by household and person. Each coded census column is recoded: commune and IRIS, age, commute mode, sex, vehicles, housing, household type and parking. Household sizes come from a group-by. The urban-type lookup is optional. Every `astype(int)` that can fail, and the final urban-type assertion, is an error of a `Result`.
- **Population enrichment** (`synthesis/population/enriched.py`). The sampled persons go through a chain of four inner merges: matching, survey persons, survey households and incomes. Workplace parking is broadcast as a household maximum. The row, person and household counts are checked. Car availability, bike availability and the education age range are then derived.
- **Origin gap-filling and PT share** (`data/od/average_commuting_distance.py`). `fix_origins` adds synthetic flows for every commune that never occurs as an origin, then sorts the table. The PT share is 100 × pt weight / total weight for each origin.

Modelling conventions:
- Tables are sequences of records. Weights and shares are exact `real`s. `sort_values` is the stable insertion sort `Sorting.SortBy`.
- The pandas merges are modelled by what each one does:
  - The four inner merges of the enrichment chain (synthesis/population/enriched.py:39, 50, 55, 65) are `Joins.InnerJoin`.
  - The left merge on the dwelling pair (data/census/cleaned.py:28) is the lookup `CensusCleaned.TableIndex`.
  - The left merge with the urban types (data/census/cleaned.py:150) is the map lookup `CensusCleaned.UrbanTypeOf`.
  - The merge with the group-by sizes (data/census/cleaned.py:102) is a count per household (`CensusCleaned.HouseholdSizes`).
  - The merges of the per-household car availability (synthesis/population/enriched.py:81, 88) are a map keyed by household (`PopulationEnriched.CarAvailabilities`).
  - The left merge of the pt weights with the totals (data/od/average_commuting_distance.py:45) is the map `AverageCommutingDistance.PtShares` over the pt origins.
- Operations that are loops or dictionary updates in the source are methods. Each method is proved equal to a specification function, or proved to meet the properties listed below. Python's iteration over a `set` is `AverageCommutingDistance.Enumerate`, which visits every element once in an order the model leaves open.
- Files:
  - `wrappers.dfy`: Option and Result.
  - `strings.dfy`: `int()`, `lstrip`, `replace` and string order.
  - `sorting.dfy`, `joins.dfy`.
  - `attributes.dfy`: sex and the age-range bucketing used by both the census and the enrichment stage.
  - One file per stage.

Where the code and its documentation disagree, the model follows the code:
- **Enrichment.** The consistency counts are taken after the merge with the matching table (line 39), so a sampled person without a match is dropped without any error. `PopulationEnriched.UnmatchedPersonDroppedSilently` exhibits this.
- **PT share.** The share table is driven by the pt-filtered group-by (lines 40-45), so an origin without any `"pt"` flow gets no share at all rather than a share of 0.

## Model

| member | source | states |
|---|---|---|
| Strings.StripLeading | data/census/cleaned.py:55 | `lstrip('0')`: the result is a suffix of the input that does not start with the stripped character, and everything removed was that character |
| Strings.StripZerosValue | data/census/cleaned.py:55 | stripping leading zeros of a digit string keeps its decimal value |
| Strings.LeadingZeroValue | data/census/cleaned.py:55 | a leading '0' does not change a digit string's value |
| Strings.LeadingNonZeroValue | data/census/cleaned.py:55 | a digit string not starting with '0' has a positive value |
| Strings.ZeroPlaceholders | data/census/cleaned.py:92-98 | the chained `replace(x, "0")`: same length, every placeholder becomes '0', every other character is kept |
| Strings.Prefix | data/census/cleaned.py:44 | `str[:n]`: a prefix of the input, of length n, or the whole input when it is shorter |
| Strings.ParseInt | data/census/cleaned.py:55 | `astype(int)` on a code: defined iff the code is a non-empty string of digits, and then its decimal value |
| Strings.LexLeqTotal | data/od/average_commuting_distance.py:27 | string order used by the sort is total |
| Strings.LexLeqAntisymmetric | data/od/average_commuting_distance.py:27 | string order is antisymmetric |
| Strings.LexLeqTransitive | data/od/average_commuting_distance.py:27 | string order is transitive |
| Sorting.SortBy | data/census/cleaned.py:39 | `sort_values`: the result is sorted by the key order and is a permutation (same multiset) of the input |
| Sorting.Insert | data/census/cleaned.py:39 | inserting into a sorted table keeps it sorted and adds exactly the one row |
| Sorting.PermutationKeepsDistinct | data/census/cleaned.py:39 | reordering a table without repeated rows gives one without repeated rows |
| Joins.InnerJoin | synthesis/population/enriched.py:39 | `pd.merge(..., how="inner")`: every output pair is a left row and a right row with equal keys |
| Joins.Partners | synthesis/population/enriched.py:39 | the right rows matching one key are right rows with that key |
| Joins.PartnersMultiset | synthesis/population/enriched.py:39 | the partners of a key are exactly the right rows with that key, each as often as it occurs |
| Joins.InnerJoinCount | synthesis/population/enriched.py:39 | the merge as a bag: a pair with equal keys occurs (multiplicity on the left) × (multiplicity on the right) times, any other pair never |
| Joins.InnerJoinComplete | synthesis/population/enriched.py:39 | every pair of a left row and a right row with equal keys is in the merge |
| Joins.InnerJoinAppend | synthesis/population/enriched.py:39 | merging a concatenation of left tables is concatenating their merges, in left order |
| Joins.DropUnpartneredRow | synthesis/population/enriched.py:39 | a left row without partners contributes nothing: the merge is the same without it |
| Joins.UniqueKeysAtMostOne | synthesis/population/enriched.py:50-52 | with unique right keys, each key has at most one partner |
| Joins.NoPartnersWithoutKey | synthesis/population/enriched.py:50-52 | a key absent from the right table has no partner |
| Joins.PartnersOfPresentKey | synthesis/population/enriched.py:50-52 | a key present in the right table has at least one partner |
| Joins.JoinOnExactlyOnePartner | synthesis/population/enriched.py:50-67 | when every left row has exactly one partner, the merge keeps every left row, in order, paired with its partner |
| Joins.JoinKeepsLengthIffAllMatched | synthesis/population/enriched.py:50-74 | with at most one partner per row, the merge never grows the table, and keeps its length iff every row has exactly one partner |
| Joins.UniqueKeysJoinLength | synthesis/population/enriched.py:50-74 | the same, for a right table with unique keys |
| Attributes.AgeRangeOf | synthesis/population/enriched.py:97-100 | primary school iff age ≤ 10, middle school iff 11-14, high school iff 15-17, higher education iff ≥ 18 |
| CensusCleaned.KeyTable | data/census/cleaned.py:23-26 | the deduplicated household keys: no longer than the input, no concatenated key twice |
| CensusCleaned.KeyTableEntriesFromRows | data/census/cleaned.py:23-26 | every table entry is the dwelling of some input row and has NUMMI ≠ "Z" |
| CensusCleaned.KeyTableCoversRows | data/census/cleaned.py:23-26 | every ordinary-household row's concatenated key is in the table |
| CensusCleaned.EmptyKeyTable | data/census/cleaned.py:24-27 | the table is empty iff no row is in an ordinary household |
| CensusCleaned.KeyTablePrefix | data/census/cleaned.py:26 | the table of a prefix of the rows is a prefix of the table |
| CensusCleaned.TableIndex | data/census/cleaned.py:28 | the merge on the pair: the position of the dwelling in the table, or None iff it is absent |
| CensusCleaned.IdsAgainst | data/census/cleaned.py:28-32 | one household ID per input row |
| CensusCleaned.HouseholdIds | data/census/cleaned.py:22-33 | one household ID per input row |
| CensusCleaned.KeyedIdsCoverTable | data/census/cleaned.py:27-28 | every ID 0..|table|-1 from `np.arange` is taken by some row |
| CensusCleaned.BuildKeyTable | data/census/cleaned.py:23-27 | the loop builds exactly KeyTable, with an index from each present key to its position |
| CensusCleaned.MergeOnPair | data/census/cleaned.py:28 | a lookup through the key index, checked against the pair, agrees with the merge on (CANTVILLE, NUMMI) |
| CensusCleaned.MergeOnDwellings | data/census/cleaned.py:28-32 | each row's merged ID is its table position, and the running maximum is the largest merged ID (None iff none merged) |
| CensusCleaned.MaxMergedId | data/census/cleaned.py:32 | `max()` of the merged IDs is |table| - 1, or NaN when the table is empty |
| CensusCleaned.FillUnmatched | data/census/cleaned.py:31-32 | unmatched rows get max + 1, max + 2, … in row order; the result equals IdsAgainst |
| CensusCleaned.AssignHouseholdIds | data/census/cleaned.py:22-33 | fails iff the table is non-empty and every NUMMI is "Z" (NaN maximum into `astype(int)`), otherwise returns HouseholdIds |
| CensusCleaned.UnmatchedCountGrows | data/census/cleaned.py:31-32 | each unmatched row raises the count of unmatched rows before later rows |
| CensusCleaned.FreshIdsAreSingletons | data/census/cleaned.py:31-32 | an unmatched row's ID is ≥ |table|, above every merged ID, and no other row shares it |
| CensusCleaned.OutsideOrdinaryHouseholdIsUnmatched | data/census/cleaned.py:24 | a NUMMI = "Z" row never merges |
| CensusCleaned.OrdinaryDwellingInTable | data/census/cleaned.py:24-28 | with injective key concatenation, every ordinary row merges |
| CensusCleaned.SameHouseholdIffSameDwelling | data/census/cleaned.py:22-33 | with injective key concatenation, two ordinary rows share a household ID iff they share (CANTVILLE, NUMMI) |
| CensusCleaned.FirstOccurrenceNumbering | data/census/cleaned.py:26-27 | a row whose key was not seen before gets the ID equal to the number of keys seen before it (order of first occurrence) |
| CensusCleaned.ConcatenatedKeyCollision | data/census/cleaned.py:25-28 | ("AB","C"), ("A","BC"), ("A","BC") get IDs 0, 1, 2: the shared household of the last two is split, because the dedup runs on the concatenation |
| CensusCleaned.CommuneIdOf | data/census/cleaned.py:44-46 | "undefined" iff the first five IRIS characters contain 'Z', otherwise those five characters |
| CensusCleaned.IrisIdOf | data/census/cleaned.py:49-51 | "undefined" iff the code contains 'Z' or 'X', otherwise the code itself |
| CensusCleaned.IrisWithinCommune | data/census/cleaned.py:44-51 | a defined IRIS lies in a defined commune that is its five-character prefix |
| CensusCleaned.AgeOf | data/census/cleaned.py:55 | the age is defined iff AGED is a non-empty digit string that is "000" or has a non-zero digit |
| CensusCleaned.AgeOfDigits | data/census/cleaned.py:55 | a digit code parses to its value, except an all-zero code other than "000", which strips to "" and fails |
| CensusCleaned.AgeCodeValue | data/census/cleaned.py:55 | the three-digit code of an age below 1000 has that age as its decimal value |
| CensusCleaned.AgeCodeRoundTrip | data/census/cleaned.py:55 | every age below 1000, written as a 3-digit code, parses back to itself |
| CensusCleaned.CommuteModeOf | data/census/cleaned.py:68-74 | 2→walk, 3→bike, 4 or 5→car, 6→pt, and every other code undefined, each as an iff |
| CensusCleaned.SexOf | data/census/cleaned.py:81-82 | male iff "1", female iff "2" |
| CensusCleaned.VehicleCount | data/census/cleaned.py:92-98 | defined iff both codes are non-empty strings of digits or placeholders (Z, X; also U for DEROU) |
| CensusCleaned.VehicleCountOfCodes | data/census/cleaned.py:92-98 | for single-character codes, the count is the VOIT digit plus the DEROU digit, placeholders counting 0 |
| CensusCleaned.HousingTypeOf | data/census/cleaned.py:111-113 | house iff "1", flat iff "2", others iff 3-6 or Z |
| CensusCleaned.HouseholdTypeOf | data/census/cleaned.py:117-123 | each SFM code group to its household type, each as an iff |
| CensusCleaned.ParkingOf | data/census/cleaned.py:127-129 | 1 iff GARL "1", 0 iff "2" or "Z", otherwise undefined (the `astype` fails) |
| CensusCleaned.UrbanTypeOf | data/census/cleaned.py:150-151 | an undefined commune gets "none"; any other commune gets the table's value, and a value exists iff the table has the commune |
| CensusCleaned.HouseholdThenPersonIsTotalPreorder | data/census/cleaned.py:39 | the (household_id, person_id) order is a total preorder |
| CensusCleaned.Numbering | data/census/cleaned.py:36 | one numbered row per input row |
| CensusCleaned.SortedPersons | data/census/cleaned.py:39 | the numbered persons sorted by (household_id, person_id), as a permutation of the numbered table |
| CensusCleaned.SortedNumbering | data/census/cleaned.py:36-39 | after sorting, each row is the numbered input row of its person ID, every input row occurs, and rows strictly increase by (household, person) |
| CensusCleaned.SortedRowsFromInput | data/census/cleaned.py:39 | sorting keeps the length and only moves input rows |
| CensusCleaned.HouseholdSizes | data/census/cleaned.py:101-102 | the group-by size: keys are exactly the household IDs present, each value is the number of rows with that ID |
| CensusCleaned.ColumnError | data/census/cleaned.py:55-153 | no error iff every row converts; the age error iff some AGED code fails to parse |
| CensusCleaned.CleanPerson | data/census/cleaned.py:41-151 | each output column is the recode of its input code (IDs, size, age and age range, commute mode, sex, couple, employment, studies, urban type) |
| CensusCleaned.NumberRows | data/census/cleaned.py:36 | the numbering loop gives every row its position as person ID, next to its household ID |
| CensusCleaned.NumberAndSort | data/census/cleaned.py:36-39 | numbering and then sorting gives the sorted numbered table |
| CensusCleaned.NumberSortRecode | data/census/cleaned.py:36-153 | given the household IDs and rows that all convert, numbering, sorting and recoding give exactly the cleaned rows |
| CensusCleaned.RecodeTable | data/census/cleaned.py:101-141 | one recoded row per sorted row, each row's household size counted over the whole table |
| CensusCleaned.CleanRows | data/census/cleaned.py:36-153 | one cleaned row per input row (the content is stated by the lemmas below) |
| CensusCleaned.Clean | data/census/cleaned.py:19-155 | the stage fails iff all persons are outside ordinary households or some row fails a conversion; otherwise returns the cleaned rows |
| CensusCleaned.CleanRowsAreSorted | data/census/cleaned.py:39-102 | cleaned row k is the recode of the k-th sorted row, its size being the count of its household in the sorted table |
| CensusCleaned.CleanedRowsOrdered | data/census/cleaned.py:39 | the cleaned rows strictly increase by (household_id, person_id) |
| CensusCleaned.CleanedPersonIds | data/census/cleaned.py:31-39 | the person IDs are exactly 0..n-1, and each row carries the household ID numbering gave its input row |
| CensusCleaned.CleanedRowsRecodeTheirCensusRow | data/census/cleaned.py:36-141 | each cleaned row is the recode of the input row its person ID names |
| CensusCleaned.HouseholdSizeCountsMembers | data/census/cleaned.py:101-102 | each row's household_size equals the number of output rows with its household_id |
| CensusCleaned.RecodeSorted | data/census/cleaned.py:41-141 | the recoding loop produces exactly RecodeTable |
| CensusCleaned.Execute | data/census/cleaned.py:19-155 | the stage returns exactly Clean of its input |
| PopulationEnriched.MatchedTable | synthesis/population/enriched.py:39 | the merge with the matching has one row per joined pair |
| PopulationEnriched.WithHtsTable | synthesis/population/enriched.py:50-52 | the merge with the survey persons has one row per joined pair |
| PopulationEnriched.WithHouseholdTable | synthesis/population/enriched.py:55-58 | the merge with the survey households has one row per joined pair |
| PopulationEnriched.FusedTable | synthesis/population/enriched.py:65-67 | the merge with incomes has one row per joined pair |
| PopulationEnriched.ParkingBroadcast | synthesis/population/enriched.py:53 | the broadcast keeps the row count and each row's matched census person |
| PopulationEnriched.AnyParkingWitness | synthesis/population/enriched.py:53 | the household maximum is true iff some row of the household reports parking |
| PopulationEnriched.ParkingIsHouseholdMaximum | synthesis/population/enriched.py:53 | after the transform, a row's parking is the household maximum, equal across the household, and nothing else in the row changes |
| PopulationEnriched.ParkingBroadcastIdempotent | synthesis/population/enriched.py:53 | applying the transform twice gives the result of applying it once |
| PopulationEnriched.BroadcastParking | synthesis/population/enriched.py:53 | the two-pass loop over a household map produces exactly ParkingBroadcast |
| PopulationEnriched.CountsOf | synthesis/population/enriched.py:41-43 | the row count, and the numbers of distinct person and household IDs; each at most the row count, and at least one person in a non-empty table |
| PopulationEnriched.DistinctBound | synthesis/population/enriched.py:42-43 | `unique()` never has more values than the column |
| PopulationEnriched.CountCheck | synthesis/population/enriched.py:74-76 | the assertions pass iff all three counts are unchanged; the row-count error iff the row count changed |
| PopulationEnriched.AvailabilityOf | synthesis/population/enriched.py:83-93 | none iff nothing is available, some iff 0 < available < needed, all iff available > 0 and available ≥ needed (vehicles against licenses, bikes against household size) |
| PopulationEnriched.LicenseCount | synthesis/population/enriched.py:80 | the license sum of a household is at most the number of rows |
| PopulationEnriched.FirstVehiclesOfFirstRow | synthesis/population/enriched.py:79 | `drop_duplicates("household_id")` keeps the vehicle count of the household's first row |
| PopulationEnriched.LicenseCountIsCount | synthesis/population/enriched.py:80 | a household's license sum is the number of its rows whose person has a license |
| PopulationEnriched.LicensesAtMostMembers | synthesis/population/enriched.py:80 | a household's license sum is at most its number of rows |
| PopulationEnriched.CarAvailabilities | synthesis/population/enriched.py:79-88 | the loop's map has one entry per household, the car availability of its first-row vehicles and its license sum |
| PopulationEnriched.CarAvailabilityOfHousehold | synthesis/population/enriched.py:79-88 | all members of a household get the same availability: the vehicle count of the household's first row against the household's licenses |
| PopulationEnriched.CarAvailabilityWhenMembersAgree | synthesis/population/enriched.py:79-88 | when the members agree on the vehicle count, the availability is that count against the household's licenses |
| PopulationEnriched.HouseholdColumn | synthesis/population/enriched.py:79-80 | one household ID per fused row |
| PopulationEnriched.Derive | synthesis/population/enriched.py:78-101 | one enriched row per fused row, keeping the row; car availability from the household's first-row vehicles and license sum, bike availability from the row's bikes and household size, age range from the age |
| PopulationEnriched.DeriveAll | synthesis/population/enriched.py:78-101 | the derivation loop produces exactly Derive |
| PopulationEnriched.Enrich | synthesis/population/enriched.py:27-101 | the whole stage as a function; on success it has one row per row of the merge with the matching |
| PopulationEnriched.Execute | synthesis/population/enriched.py:27-101 | the stage returns exactly Enrich of its five input tables |
| PopulationEnriched.WithHtsKeepsRows | synthesis/population/enriched.py:50-52 | when every row has exactly one survey person, the merge keeps the rows in order |
| PopulationEnriched.WithHouseholdKeepsRows | synthesis/population/enriched.py:55-58 | when every row has exactly one survey household, the merge keeps the rows in order |
| PopulationEnriched.FusedKeepsRows | synthesis/population/enriched.py:65-67 | when every household has exactly one income, the merge keeps the rows in order |
| PopulationEnriched.FusionKeepsEveryRow | synthesis/population/enriched.py:39-76 | when each later merge finds exactly one partner, the stage succeeds and row i of the result is the i-th matched person |
| PopulationEnriched.SamePersonsSameCounts | synthesis/population/enriched.py:41-43 | tables carrying the same persons in the same order have the same counts |
| PopulationEnriched.RowCountDecides | synthesis/population/enriched.py:69-76 | with unique survey and income keys, the stage succeeds iff every merge finds exactly one partner, and otherwise fails on the row count |
| PopulationEnriched.MissingSurveyPersonAborts | synthesis/population/enriched.py:50-52 | a matched person whose survey person is missing makes the stage fail on the row count |
| PopulationEnriched.UnmatchedPersonJoinsNothing | synthesis/population/enriched.py:39 | the merge with the matching is the same with or without a sampled person that has no match |
| PopulationEnriched.UnmatchedPersonDroppedSilently | synthesis/population/enriched.py:39-43 | a sampled person with no match disappears before the counts are taken: the stage gives exactly what it gives without that person, success or error |
| AverageCommutingDistance.GapRows | data/od/average_commuting_distance.py:18-21 | the rows of the triple loop are synthetic rows of listed origins, destinations and categories |
| AverageCommutingDistance.CellsShape | data/od/average_commuting_distance.py:20-21 | the inner loop appends one synthetic row per category, and only those |
| AverageCommutingDistance.BlockShape | data/od/average_commuting_distance.py:19-21 | the middle loop appends |destinations| × |categories| rows, exactly the synthetic rows of those pairs |
| AverageCommutingDistance.GapRowsShape | data/od/average_commuting_distance.py:17-21 | the triple loop appends |missing| × |communes| × |categories| rows, exactly the synthetic rows of those triples |
| AverageCommutingDistance.Enumerate | data/od/average_commuting_distance.py:18-20 | iterating a set visits each element exactly once |
| AverageCommutingDistance.AppendGapRows | data/od/average_commuting_distance.py:17-21 | the nested loops build exactly GapRows |
| AverageCommutingDistance.FlowLeqIsTotalPreorder | data/od/average_commuting_distance.py:27 | the (origin_id, destination_id) order is a total preorder |
| AverageCommutingDistance.FlowLeqTransitive | data/od/average_commuting_distance.py:27 | the (origin_id, destination_id) order is transitive |
| AverageCommutingDistance.SortedFlows | data/od/average_commuting_distance.py:25-27 | the sorted table is ordered by (origin, destination) and is a permutation of its input |
| AverageCommutingDistance.OriginWeight | data/od/average_commuting_distance.py:41-44 | the group sum of an origin is non-negative when every weight is |
| AverageCommutingDistance.OriginWeightAppend | data/od/average_commuting_distance.py:25-44 | a group sum over a concatenation is the sum of the two group sums |
| AverageCommutingDistance.OriginWeightInsert | data/od/average_commuting_distance.py:27 | inserting a row into the sort does not change any group sum |
| AverageCommutingDistance.OriginWeightSorted | data/od/average_commuting_distance.py:27-44 | sorting does not change any group sum |
| AverageCommutingDistance.OriginWeightAbsent | data/od/average_commuting_distance.py:41-44 | an origin with no rows sums to 0 |
| AverageCommutingDistance.PtWeightAtMostTotal | data/od/average_commuting_distance.py:40-44 | with non-negative weights, 0 ≤ pt weight ≤ total weight |
| AverageCommutingDistance.CellsWeight | data/od/average_commuting_distance.py:20-21 | one origin-destination pair's rows add, to that origin's sums, one unit per category if it is the self-pair (one in total if "pt" is a category, for the pt sum), else 0 |
| AverageCommutingDistance.BlockWeight | data/od/average_commuting_distance.py:19-21 | one origin's rows add, to its sums, the self-pair weight once if the origin is among the destinations, else 0 |
| AverageCommutingDistance.GapRowsWeight | data/od/average_commuting_distance.py:18-21 | all appended rows add, to a missing commune's sums, |categories| to its total and 1 to its pt sum if "pt" is a category; other origins get nothing |
| AverageCommutingDistance.FixOrigins | data/od/average_commuting_distance.py:12-27 | sorted by (origin, destination); every input row kept with its multiplicity; |missing| × |communes| × |categories| rows added; every other row is a synthetic row of a missing origin, weight 1 iff origin = destination; every such triple present; existing origins' rows and sums unchanged; communes all become origins iff there is a category; an empty table comes back unchanged |
| AverageCommutingDistance.GapMembers | data/od/average_commuting_distance.py:13-27 | the sorted concatenation keeps the input rows, adds only synthetic rows of missing origins, adds all of them, and leaves existing origins' rows unchanged |
| AverageCommutingDistance.GapWeights | data/od/average_commuting_distance.py:18-27 | an existing origin's sums are unchanged; a missing commune's sums grow by its gap share |
| AverageCommutingDistance.GapCoverage | data/od/average_commuting_distance.py:15-21 | with a category every commune becomes an origin; with none, nothing is added |
| AverageCommutingDistance.ShareOf | data/od/average_commuting_distance.py:46 | not finite iff the total is 0; otherwise a percentage p with p × total = 100 × pt |
| AverageCommutingDistance.PtShares | data/od/average_commuting_distance.py:40-46 | a share exactly for each origin with a "pt" row, namely the share of its pt sum in its total |
| AverageCommutingDistance.PtShareInRange | data/od/average_commuting_distance.py:40-46 | with non-negative weights and a positive total, the share is a percentage in [0, 100] |
| AverageCommutingDistance.SharesAfterGapFill | data/od/average_commuting_distance.py:21-46 | the shares exist exactly for the table's pt origins and the missing communes (when "pt" is a category); existing origins keep their share; a gap-filled commune gets 100 / |categories| |
| AverageCommutingDistance.GapFilledPtOrigins | data/od/average_commuting_distance.py:18-41 | after gap-filling, the origins with a pt row are the table's own and, when "pt" is a category, the missing communes |
| AverageCommutingDistance.GapFilledWeights | data/od/average_commuting_distance.py:18-44 | a missing commune sums to |categories| in total and to 1 in pt weight when "pt" is a category |
| AverageCommutingDistance.Execute | data/od/average_commuting_distance.py:37-46 | gap-fills, then returns the shares described by SharesAfterGapFill, in terms of the input table |

## Left out

- The `configure` functions and the `context.stage`/`context.config` plumbing are not modelled. The stages' inputs are parameters. The `use_urban_type` switch is the `Option` around the urban-type table.
- The writes to CSV are not modelled (synthesis/population/enriched.py:61, data/od/average_commuting_distance.py:51). Both use an undefined `output_path`. The `print` at data/od/average_commuting_distance.py:23 is also left out.
- `hts.calculate_consumption_units` (data/census/cleaned.py:108) is a call into code that is not part of this model. The cleaned record has no consumption-units column. The merge there is an inner merge on household_id, so a household without a consumption-units row would lose its persons. The model assumes every household gets one.
- The parse of the IPONDI weight (data/census/cleaned.py:78) is not modelled. The cleaned record has no weight column.
- The categorical dtype casts and `np.int` are representation only and are not modelled. ACHLR and DEPT are carried through as plain strings.
- The three masked assignments at data/census/cleaned.py:59-61 lack `.loc` and would fail as written. The model uses the bucketing of synthesis/population/enriched.py:97-100 (`Attributes.AgeRangeOf`).
- The merge with the PT-share table at synthesis/population/enriched.py:105 is syntactically incomplete, so it has no behaviour to model.
- `CensusCleaned.AgeOf` and `Strings.ParseInt`: Python's `int()` also accepts signs, surrounding whitespace and underscores. The model accepts only plain ASCII digit strings, which is what the census codes are.
- `CensusCleaned.HouseholdIds` is the numbering as written, deduplicated on the concatenated key. `CensusCleaned.SameHouseholdIffSameDwelling` is therefore proved only for tables whose concatenation of CANTVILLE and NUMMI is injective. `CensusCleaned.ConcatenatedKeyCollision` shows what happens otherwise.
- `CensusCleaned.Execute` checks the column conversions before numbering and sorting, not while recoding. Numbering and sorting cannot fail, so the result is the same.
- `CensusCleaned.UrbanTypeOf`: the urban-type table is a map, one value per commune. A table that repeats a commune would duplicate rows in the left merge, and this is not modelled.
- `PopulationEnriched.Enrich`: the rows of each inner merge are in left order, and the partners of one left row in right order. pandas gives this order from version 2.2 on, and that is the version the model assumes. Earlier versions group the result of an inner merge by key, in order of first appearance. The source pins no version, and its `np.int` (data/census/cleaned.py:129) only exists before NumPy 1.24. The row order stated by `PopulationEnriched.FusionKeepsEveryRow` depends on this assumption; the counts and the success or failure of the stage do not. The numeric conversions of the survey columns are not modelled.
- `AverageCommutingDistance.FixOrigins`: the order of the appended rows follows Python's set iteration order, and the model leaves it open. Rows that tie on (origin, destination) keep their concatenation order under the stable sort. No property depends on either order.
- `AverageCommutingDistance.ShareOf`: the 0/0 and x/0 divisions of pandas (nan, inf) are one `NotFinite` value.
- Floating-point rounding of weights and shares is not modelled. Everything is computed in exact reals.
- Strings are compared by code point. No Unicode normalisation or locale is involved.
