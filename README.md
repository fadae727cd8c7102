# plantlab-manager: the weekly replanting planner, in Dafny

plantlab-manager tracks batches ("series") of plant-tissue jars in growth
chambers. Each week it plans which batches to replant. This project models
the decision logic behind that and proves properties of it:

- **The replanting planner** (`PlanningEngine`). It has four parts:
  - an eligibility classifier: cold room, then medium, then unknown age,
    then the age threshold, where the first rule that applies decides;
  - a medium-to-pool assignment: the general pool or the "i" specialists'
    pool;
  - the half-day capacity of each pool;
  - a greedy weekly scheduler. It groups eligible batches by strain and
    orders the groups by mean age, oldest first. It places every batch whole
    into the first of ten chronological half-day cells (Monday morning to
    Friday afternoon) that can take its jars. If no cell can, the batch goes
    to the backlog. Finally it computes usage statistics.
- **The planting date read from a barcode.** This is the first run of eight
  digits, read as `YYYYMMDD`.
- **Location parsing on the chambers page.** A room and a place string are
  parsed into room number, shelf letter and position, through a cold-room
  test and four pattern cases. The page also counts distinct series.
- **Barcode de-duplication during the database migration.** The k-th repeat
  of a barcode becomes `<barcode>_dup<k>`, and the renamed ones are counted.

The code is organised as follows:

- Pure parts are datatypes, functions and lemmas. These are the rules, the
  barcode date, location parsing and series counting.
- The scheduler is a class, `WeeklyPlanner.ScheduleRun`. It holds the two
  pools' capacity arrays of ten cells, which are decremented in place, and
  the `planned` and `backlog` lists, which are appended to. Its methods are
  proved equal to the specification functions of `Greedy` and `Scheduling`.
  The lemmas about those functions carry the invariants.
- The de-duplication loop is a method over a `map` of counters, proved equal
  to the function `BarcodeDedup.Renamed`.

Modules, in dependency order:

- `Wrappers`: `Option`.
- `Text`: ASCII digits, upper-casing, stripping, substring search and decimal
  formatting.
- `IntMath`: truncating division.
- `Ordering`: mean-age fractions compared by cross-multiplication, and a
  descending insertion sort.
- `PlanningRules`.
- `Greedy`.
- `StrainGrouping`.
- `Scheduling`.
- `WeeklyPlanner`.
- `BarcodeDate`.
- `ChamberLocations`.
- `BarcodeDedup`.

Behaviour of the code that the model keeps:

- **The medium "i" is never accepted.** Media are upper-cased before they are
  looked up. The media sets list a lower-case `'i'`, which no upper-cased
  medium can equal. So a medium "i" is never eligible and gets no pool.
- **Batches without a strain code disappear from the schedule.** `groupby`
  drops them, so they are in neither `planned` nor `backlog`.
- **Tie order is not specified.** `sort_values` is not stable. The model
  sorts with an insertion sort, and every lemma states only that the order is
  non-increasing and is a permutation. Any descending order satisfies that.
- **A zero capacity makes the schedule fail.** The statistics divide each
  cell's usage by the pool's half-day capacity. When either capacity is 0,
  the Python division raises. The model returns `None` in that case
  (`Scheduling.WeeklySchedule`).

## Model

| member | source | states |
|---|---|---|
| PlanningRules.EligibleIff | planning_engine.py:82-108 | A record is eligible iff all four hold: it is not in a room whose upper-cased name contains CHF or FROID; its upper-cased medium is one of X, XM, RG, XS, E, E+; its age is known; and its age is at least its threshold. |
| PlanningRules.IsEligible | planning_engine.py:72-108 | A cold room gives "Chambre froide". An eligible record is outside a cold room, has an accepted upper-cased medium, and has a known age at least its threshold. A "too young" verdict carries the record's own age and its threshold, and that age is below the threshold. |
| PlanningRules.Threshold | planning_engine.py:97-103 | The threshold is one of the two configured thresholds. A record that is not BRAHY, or whose medium is not accepted, gets the other threshold. |
| PlanningRules.BrahyShortThreshold | planning_engine.py:97-108 | A BRAHY batch on X, XM, E or E+ outside a cold room, with a known age, is due exactly when that age reaches the short threshold. |
| PlanningRules.OtherThreshold | planning_engine.py:97-108 | Any other batch with an accepted medium outside a cold room, with a known age, is due exactly when that age reaches the other threshold. |
| PlanningRules.ColdRoomFirst | planning_engine.py:82-85 | A cold room gives "Chambre froide" whatever the medium and the age. This unfolds the first rule; the consequence is in `IsEligible` and `EligibleIff`. |
| PlanningRules.MediumBeforeAge | planning_engine.py:87-90 | Outside a cold room, a medium outside the accepted set gives "Milieu non éligible" before the age is looked at. |
| PlanningRules.MediumIIsRejected | planning_engine.py:88-90 | A medium written "i" or "I" is never eligible. Outside a cold room its reason is "Milieu non éligible", although the set lists "i". |
| PlanningRules.UnknownAgeThird | planning_engine.py:82-95 | Suppose the room is not cold and the medium is accepted, but the age is unknown. Then the record is not eligible, and the reason is "Âge inconnu". |
| PlanningRules.AgeDecides | planning_engine.py:92-108 | Suppose the room is not cold, the medium is accepted and the age is known. Then the record is eligible iff age ≥ threshold. Otherwise the reason is too young, with that age and that threshold. |
| PlanningRules.ThresholdChoice | planning_engine.py:97-103 | The short threshold applies exactly when the upper-cased strain is BRAHY and the upper-cased medium is X, XM, E or E+. This unfolds the definition; its consequence for eligibility is `BrahyShortThreshold` and `OtherThreshold`. |
| PlanningRules.BrahyExample | planning_engine.py:98-108 | A BRAHY batch on medium x aged 5 weeks is eligible at threshold 4. On RG it is too young for threshold 8, with reason text "Trop jeune (5sem < 8sem)" when ages are stored as integers (see Left out, ReasonText). |
| PlanningRules.AssignPoolIff | planning_engine.py:110-119 | XM maps to the i pool. X, RG, XS, E and E+ map to the general pool. Everything else, including "i", maps to no pool. |
| PlanningRules.AssignPool | planning_engine.py:110-119 | Only an accepted medium gets a pool, and only XM gets the i pool. |
| PlanningRules.EligibleHasPool | planning_engine.py:9-15 | Every eligible record has a pool and a known age. |
| PlanningRules.AgeWeeks | planning_engine.py:64-70 | The age is unknown iff either date is unknown. Otherwise it is the day difference divided by 7, truncated toward zero, for either sign. |
| PlanningRules.HalfDayCapacity | planning_engine.py:38-41 | A cell's capacity is workers × jars per day / 2, truncated toward zero. |
| PlanningRules.DefaultCapacities | planning_engine.py:17-41 | With the default configuration, a general cell holds 425 jars and an i cell holds 75. |
| PlanningRules.PrepareData | planning_engine.py:159-172 | Preparing data gives one enriched row per record, in the same order. Each row holds its own record, the eligibility verdict of that record and the pool of its medium. |
| PlanningRules.PrepareDataConsistent | planning_engine.py:159-172 | Every prepared row that is eligible has a pool and a known age. |
| Greedy.CellsAreChronological | planning_engine.py:255-259 | Cells are tried day by day. Two cells of the same day are the morning, then the afternoon. |
| Greedy.CellNames | planning_engine.py:198-199 | The first cell is Monday morning and the last is Friday afternoon. Cell c is on weekday c / 2. |
| Greedy.FirstFit | planning_engine.py:271-273 | The chosen cell is the first whose remaining capacity covers the jars. No result means no cell covers them. |
| Greedy.Place | planning_engine.py:267-290 | Placing a record has two outcomes. If a cell covers its jars, the first such cell drops by exactly the jars and stays ≥ 0, and the record is appended to planned. Otherwise it is appended to the backlog with "Capacité insuffisante", and nothing else changes. |
| Greedy.FitOrNot | planning_engine.py:271-290 | Either no cell fits or a first-fitting cell exists, never both. The first-fitting cell is unique. |
| Greedy.PlaceStep | planning_engine.py:267-290 | One placement appends to exactly one of the two lists, and a placed record lands in one of the pool's cells. |
| Greedy.PlaceAll | planning_engine.py:262-290 | Placing a sequence keeps the number of cells. Each record adds exactly one entry, to planned or to backlog. |
| Greedy.PlaceAllShape | planning_engine.py:262-290 | Placing a sequence of records only appends, one entry per record, to planned or backlog. Every entry carries the pool, and each carries either a valid cell or the backlog reason. |
| Greedy.PlaceAllPartition | planning_engine.py:262-290 | Each placed record lands in exactly one of planned and backlog, as often as it occurs: the records added to each list are a multiset split of the input. |
| Greedy.PlaceAllConserves | planning_engine.py:272-276 | In each cell, remaining plus the jars placed there equals the initial capacity. A cell never grows, and one that ends below zero had nothing placed in it. The other pool's usage is untouched. |
| Greedy.PlaceConserves | planning_engine.py:272-276 | One placement takes from at most one cell exactly the jars it places there. It never grows a cell and leaves the other pool's usage alone. |
| Greedy.ExactFitEmptiesCell | planning_engine.py:273-275 | A record whose jars exactly fill its first fitting cell drives that cell to 0. |
| Ordering.SortDesc | planning_engine.py:219 | The sorted sequence is a permutation of the input and is non-increasing by key. |
| StrainGrouping.StrainOrder | planning_engine.py:213-219 | The strains are each present strain exactly once, ordered by non-increasing mean age. |
| StrainGrouping.MakeGroup | planning_engine.py:224-233 | A group records its strain and its number of records. Its mean age is the strain's mean age, and its total jars are the jar sum of that strain's records. |
| StrainGrouping.StrainGroups | planning_engine.py:209-235 | No input gives no groups. There are as many groups as distinct strain codes present. |
| StrainGrouping.GroupsForAt | planning_engine.py:222-233 | The j-th group is the group of the j-th strain in the order. |
| StrainGrouping.GroupByStrain | planning_engine.py:209-235 | The groups built by the loop are exactly the strain groups of the items. An empty input gives no groups. |
| StrainGrouping.MakeGroupShape | planning_engine.py:224-233 | A strain's group is non-empty and sorted by non-increasing age. It holds exactly that strain's records, and its total jars are their jar sum. |
| StrainGrouping.StrainGroupsByMeanAge | planning_engine.py:213-219 | Each group's mean age is at least that of every later group. |
| StrainGrouping.StrainGroupsDistinct | planning_engine.py:213-216 | No strain has two groups. |
| StrainGrouping.StrainGroupsMembers | planning_engine.py:222-233 | Every group belongs to a strain present in the input and is that strain's group. |
| StrainGrouping.StrainGroupsCover | planning_engine.py:213-233 | The groups together hold every record with a strain code, as often as it occurs, and no record without one. |
| Scheduling.Fill | planning_engine.py:240-244 | Every one of the ten cells starts at the pool's half-day capacity. |
| Scheduling.GenRun | planning_engine.py:292-294 | The general pool's run has ten cells, and one entry, planned or backlog, per grouped general-pool record. |
| Scheduling.IRun | planning_engine.py:296-298 | The i pool's run has ten cells. It adds one entry per grouped i-pool record to the general run's lists. |
| Scheduling.CellItemsJars | planning_engine.py:274-276 | The jars listed in a cell of `schedule[pool][day][slot]` add up to that cell's usage. |
| Scheduling.WeeklySchedule | planning_engine.py:176-336 | The schedule fails exactly when either pool's half-day capacity is 0. |
| Scheduling.PoolItemsCount | planning_engine.py:201-206 | The general-pool and i-pool items together are at most the eligible rows. |
| Scheduling.PoolItemsCountAll | planning_engine.py:201-206 | They equal the eligible rows when every eligible row has a pool. |
| Scheduling.GroupingSplit | planning_engine.py:213 | A pool's items are split exactly into those in the strain groups and those without a strain code. |
| Scheduling.RunsShape | planning_engine.py:292-298 | The general pool is run before the i pool: its entries form a prefix of both lists. Every placement is in one of the ten cells. |
| Scheduling.GenUsage | planning_engine.py:272-294 | What each general cell has lost is what the general run placed there, and it places into the general pool only. |
| Scheduling.IUsage | planning_engine.py:272-298 | What each i cell has lost is what the i run placed there. The general pool's usage stays what the general run left. |
| Scheduling.RunWithinCapacity | planning_engine.py:272-276 | Starting from a non-negative capacity, a run uses between nothing and the capacity of every cell. |
| Scheduling.PoolsInOrder | planning_engine.py:292-298 | In both lists, no general-pool entry follows an i-pool entry. |
| Scheduling.CapacityAccounting | planning_engine.py:305-323 | Each cell's reported usage is the jars placed in that cell of that pool. Each pool's planned jars are the sum of its cells' usage. |
| Scheduling.UsageWithinCapacity | planning_engine.py:317-323 | With non-negative capacities, every cell's usage lies between 0 and the capacity. |
| Scheduling.ScheduleRecords | planning_engine.py:201-298 | Planned, backlog and the records without a strain code together are exactly the two pools' items, counted with multiplicity. |
| Scheduling.ScheduleTotals | planning_engine.py:305-308 | total_planned + total_backlog ≤ total_eligible. Equality holds when every eligible row has a pool and a strain code. |
| WeeklyPlanner.ScheduleRun.constructor | planning_engine.py:240-253 | Both pools' ten cells start at their capacities, and both lists start empty. |
| WeeklyPlanner.ScheduleRun.PlaceItem | planning_engine.py:267-290 | The loop over cells with its `placed` flag leaves the pool's cells and the two lists as `Greedy.Place` specifies. |
| WeeklyPlanner.ScheduleRun.PlaceStrainGroup | planning_engine.py:262-290 | Placing a group's records one by one is `Greedy.PlaceAll` over the group. |
| WeeklyPlanner.ScheduleRun.PlaceGroups | planning_engine.py:292-298 | Placing the groups in order is placing their concatenation. |
| WeeklyPlanner.ScheduleRun.CapacityUsage | planning_engine.py:317-326 | Each cell's usage is the capacity minus the remaining. The loop fails exactly when a capacity is 0. |
| WeeklyPlanner.CreateWeeklySchedule | planning_engine.py:176-336 | The imperative run returns exactly `Scheduling.WeeklySchedule`, so every lemma above applies to it. |
| BarcodeDate.ParseWindow | planning_engine.py:55-59 | Eight digits read as a year below 10000, a month below 100 and a day below 100. |
| BarcodeDate.FirstAccepted | planning_engine.py:55 | The result is the leftmost window that is eight digits and passes the test. No result means no window does. |
| BarcodeDate.ExtractDate | planning_engine.py:46-62 | A missing barcode gives no date. Any date returned passes the calendar test and has a year below 10000, and a month and a day below 100. |
| BarcodeDate.ExtractDateCorrected | planning_engine.py:46-62 | Corrected version: a missing barcode gives no date, and any date returned passes the calendar test within the same bounds. |
| BarcodeDate.ExtractDateLeftmost | planning_engine.py:46-62 | As written, a date comes out iff the leftmost run of eight digits is a date, and it is that run's date. |
| BarcodeDate.ExtractDateCorrectedSpec | planning_engine.py:46-62 | Corrected: the result is a date read from some run of eight digits, and no earlier run is a date. There is no result iff no run is a date. |
| BarcodeDate.VersionsAgree | planning_engine.py:54-59 | When the leftmost run of eight digits is a date, both versions return it. |
| BarcodeDate.DocumentedExampleAsWritten | planning_engine.py:46-62 | As written, the documented barcode 735820250912AW2 yields no date: its first eight digits have month 20. |
| BarcodeDate.DocumentedExampleCorrected | planning_engine.py:47-50 | The corrected search yields 2025-09-12 for the documented barcode, as the comment promises. |
| ChamberLocations.LeadingDigits | chambers_page.py:62 | The count is the length of the longest all-digit prefix. |
| ChamberLocations.ParseLocation | chambers_page.py:51-104 | The location is cold storage exactly when the stripped, upper-cased room contains CHF or FROID. A standard location arises only when one of the pattern cases matches. |
| ChamberLocations.ParseNormalized | chambers_page.py:56-104 | The same, on the stripped and upper-cased cells. A standard location is never produced for a cold room. |
| ChamberLocations.CountSeries | chambers_page.py:40-46 | The count is 0 exactly when there are no rows. |
| ChamberLocations.MatchNumShelfPosIff | chambers_page.py:62 | `^(\d+)([ABCDEZ])(\d+)$` matches exactly digits, a shelf letter and digits, and returns those three parts. |
| ChamberLocations.MatchShelfPosIff | chambers_page.py:73 | `^([ABCDEZ])(\d+)$` matches exactly a shelf letter followed by digits. |
| ChamberLocations.MatchNumShelfIff | chambers_page.py:84 | `^(\d+)([ABCDEZ])$` matches exactly digits followed by a shelf letter. |
| ChamberLocations.ColdRoomWins | chambers_page.py:56-58 | A room containing CHF or FROID after strip and upper-casing gives a cold-storage location, before any pattern case. |
| ChamberLocations.Case1Parse | chambers_page.py:60-69 | A place of the form digits, shelf, digits gives those digits as the room, that shelf, and the trailing digits' value as the position. |
| ChamberLocations.Case2Parse | chambers_page.py:71-80 | A place of the form shelf then digits, with an all-digit room, gives that room, that shelf and that position. |
| ChamberLocations.Case3Parse | chambers_page.py:82-91 | A room of the form digits then shelf, with an all-digit place, gives those digits, that shelf, and the place's value as the position. |
| ChamberLocations.Case4IsCase2 | chambers_page.py:93-102 | The fourth case's condition is exactly the second's, so it never changes the result. |
| ChamberLocations.StandardIsWellFormed | chambers_page.py:60-102 | Every standard location has an all-digit room number and a shelf letter from ABCDEZ. |
| ChamberLocations.NoPlaceIsUnknown | chambers_page.py:104 | With an empty or missing place and a room that is not cold storage, the location is unknown. |
| ChamberLocations.BadShelfIsUnknown | chambers_page.py:60-104 | A place with a letter outside ABCDEZ between two digit runs, in a room that is not cold storage, gives an unknown location: no case matches it. |
| ChamberLocations.NotColdIfNumbered | chambers_page.py:57 | A room that is digits, possibly followed by one letter, is never cold storage. |
| ChamberLocations.PlaceRoundTrip | chambers_page.py:60-69 | A place written as room, shelf, position parses back to exactly that room's digits, that shelf and that position. |
| ChamberLocations.RoomAndPlaceRoundTrip | chambers_page.py:71-80 | A numeric room with a place written as shelf then position parses back to exactly those values. |
| ChamberLocations.CountSeriesAppend | chambers_page.py:40-46 | Adding a row adds one series exactly when its (strain, batch lines) pair is new. |
| ChamberLocations.CountSeriesBounds | chambers_page.py:40-46 | The count is 0 for no rows, at least 1 for some rows, and at most the number of rows. |
| ChamberLocations.CountSeriesOfSameKeys | chambers_page.py:40-46 | Two tables with the same pairs have the same count, whatever the order or repetition. |
| BarcodeDedup.RenameDuplicates | normalize_databse.py:300-318 | The loop over the counter map produces exactly `Renamed` of the barcodes, and nb_duplicates is the number of outputs containing `_dup`. |
| BarcodeDedup.Renamed | normalize_databse.py:300-315 | The output has the same length as the input. |
| BarcodeDedup.RenamedAt | normalize_databse.py:303-313 | Position by position: a missing barcode stays missing. A barcode seen k times before gets the name `barcode` if k = 0 and `barcode_dup<k>` otherwise, with a counter per barcode. |
| BarcodeDedup.FirstOccurrenceKept | normalize_databse.py:308-310 | The first occurrence of each barcode is kept unchanged. |
| BarcodeDedup.DupName | normalize_databse.py:311-318 | The name starts with the barcode. It is the barcode itself exactly for the first occurrence, and every renamed repeat counts as a duplicate. |
| BarcodeDedup.SeenIff | normalize_databse.py:308 | A barcode has been seen iff it occurs among the present earlier barcodes. |
| BarcodeDedup.DupCountFormula | normalize_databse.py:318 | When no input contains `_dup`, nb_duplicates is the number of present barcodes minus the number of distinct ones, that is Σ(occurrences − 1). |
| BarcodeDedup.DupCount | normalize_databse.py:318 | nb_duplicates is at most the number of present outputs. |
| BarcodeDedup.DupNameInjective | normalize_databse.py:311-313 | Two renamed repeats with the same text come from the same barcode and the same repeat number. |
| BarcodeDedup.RenamedUnique | normalize_databse.py:300-315 | When no input contains `_dup`, the present outputs are pairwise distinct. |
| BarcodeDedup.CollisionWithMarkedInput | normalize_databse.py:311-313 | Without that condition the outputs can collide: A, A, A_dup1 is renamed to A, A_dup1, A_dup1. |

## Left out

- Unicode: the model's `upper()`, `strip()`, `isdigit()` and `\d` treat ASCII only. Python applies them to all of Unicode. For example, Unicode digits would match `\d`, and `ß` would be upper-cased to `SS`.
- Cell values are strings or missing. `str()` of numbers and other objects is not modelled.
- The DataFrame fallback columns are not modelled: jars and age (computed upstream), `milieu` for the medium (planning_engine.py:88, 170) and `strain` for the strain code (planning_engine.py:98). A record arrives with its medium, strain code, jar count and optional age already chosen.
- PlanningRules.ReasonText: the age in "Trop jeune (…)" is printed as an integer. When some barcode gives no date, the source stores `age_weeks` as a float column, and the message then reads "5.0sem" rather than "5sem".
- Dates are day numbers. Calendar validity (`pd.to_datetime`) is a predicate supplied by the caller. The `datetime.now()` defaults for the reference date and the Monday are not modelled.
- Capacity percentages are floats. The model keeps only their failure on a zero capacity, as `None`.
- PlanningRules.HalfDayCapacity: `jars_per_day` is an integer here. The planning page (planning_page.py:41-63) takes it from an integer input, so a fractional value is not modelled.
- `jars_per_day / 2` is a float in the source. The model computes the capacity exactly, which agrees unless floating-point rounding interferes with very large products.
- The `jars_per_hour_per_worker` information field, the unused `allow_split` parameter, and the week start, weekday and slot names in the returned dictionary are not modelled.
- The `schedule[pool][day][slot]` lists are not a separate structure. They are the planned placements of that pool and cell, in planned order (`Scheduling.CellItems`, whose jars `Scheduling.CellItemsJars` relates to the cell's usage).
- DataFrame construction, `export_report`, printing and all SQL, Streamlit and I/O code are not modelled.
- The 0%-when-empty planning rate of the planning page is not modelled.
- StrainGrouping.AgeOf: a record with an unknown age sorts as age 0. Only rows with a known age can be eligible, so this never arises in a schedule.
- Ordering.SortDesc: the insertion sort fixes one order among equal ages. `sort_values` may pick another. The lemmas state only non-increasing order and permutation, which every such order satisfies.

## Findings

| source | as written | input that shows it | evidently intended | confidence | as-written member | corrected member |
|---|---|---|---|---|---|---|
| planning_engine.py:46-62 | The date is read from the first eight consecutive digits of the barcode, whatever they say. | `735820250912AW2`: the first eight digits are `73582025`, month 20, so no date comes out. | 2025-09-12, the first eight-digit window that is a date, as the comment at line 49 documents. | not executed | BarcodeDate.DocumentedExampleAsWritten | BarcodeDate.DocumentedExampleCorrected |
