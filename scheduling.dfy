/**
 * `create_weekly_schedule` as a function: the eligible records of each pool,
 * grouped by strain, are placed first-fit into the ten half-day cells of
 * their pool, the general pool before pool i, and the statistics are
 * derived from what is left in each cell. The imperative version in
 * `WeeklyPlanner` is proved to compute exactly this.
 */
module Scheduling {
  import opened Wrappers
  import opened PlanningRules
  import opened Greedy
  import opened StrainGrouping

  /** The rows `df[df['is_eligible'] == True]`. */
  function EligibleRows(df: seq<Prepared>): (e: seq<Prepared>)
    ensures |e| <= |df|
    decreases |df|
  {
    if df == [] then []
    else
      var p := df[|df| - 1];
      EligibleRows(df[..|df| - 1]) + if p.IsEligible() then [p] else []
  }

  /** The records of the eligible rows whose pool is `pool`, in row order. */
  function PoolItems(df: seq<Prepared>, pool: Pool): seq<Record>
    decreases |df|
  {
    if df == [] then []
    else
      var p := df[|df| - 1];
      PoolItems(df[..|df| - 1], pool) + if p.IsEligible() && p.pool == Some(pool) then [p.rec] else []
  }

  /** Ten cells all holding `cap`. */
  function Fill(cap: int): (cells: seq<int>)
    ensures |cells| == Cells
    ensures forall c | 0 <= c < Cells :: cells[c] == cap
  {
    seq(Cells, _ => cap)
  }

  /** The first run: the general pool's records placed from cells holding `cap` each, with empty lists. */
  function FirstRun(cap: int, items: seq<Record>): RunState {
    PlaceAll(PoolGen, RunState(Fill(cap), [], []), items)
  }

  /** The second run: pool i's records placed from its own full cells, continuing the lists of `g`. */
  function SecondRun(cap: int, g: RunState, items: seq<Record>): RunState {
    PlaceAll(PoolI, RunState(Fill(cap), g.planned, g.backlog), items)
  }

  /** The general pool's run: its groups, oldest strain first, placed from full cells and empty lists. */
  function GenRun(engine: PlanningEngine, df: seq<Prepared>): (g: RunState)
    ensures |g.remaining| == Cells
    ensures |g.planned| + |g.backlog| == |Flatten(StrainGroups(PoolItems(df, PoolGen)))|
  {
    FirstRun(engine.CapGenHalfDay(), Flatten(StrainGroups(PoolItems(df, PoolGen))))
  }

  /** Pool i's run: its groups placed from its own full cells, continuing the lists the general pool left. */
  function IRun(engine: PlanningEngine, df: seq<Prepared>): (t: RunState)
    ensures |t.remaining| == Cells
    ensures |t.planned| + |t.backlog| ==
      |GenRun(engine, df).planned| + |GenRun(engine, df).backlog| + |Flatten(StrainGroups(PoolItems(df, PoolI)))|
  {
    SecondRun(engine.CapIHalfDay(), GenRun(engine, df), Flatten(StrainGroups(PoolItems(df, PoolI))))
  }

  /** The integer part of `stats`; the percentages are not modelled. */
  datatype Stats = Stats(
    totalEligible: nat,
    totalPlanned: nat,
    totalBacklog: nat,
    jarsPlannedGen: nat,
    jarsPlannedI: nat,
    capacityUsedGen: seq<int>,
    capacityUsedI: seq<int>)

  /** What `create_weekly_schedule` returns; the per-cell `schedule` lists are read off `planned` by `CellItems`. */
  datatype Schedule = Schedule(planned: seq<Placement>, backlog: seq<BacklogEntry>, stats: Stats)

  /** The jars of the placements in `pool`. */
  function PoolJars(planned: seq<Placement>, pool: Pool): nat
    decreases |planned|
  {
    if planned == [] then 0
    else
      var p := planned[|planned| - 1];
      PoolJars(planned[..|planned| - 1], pool) + if p.pool == pool then p.rec.jars else 0
  }

  /** `schedule[pool][day][slot]`: the records placed in cell `c` of `pool`, in placement order. */
  function CellItems(planned: seq<Placement>, pool: Pool, c: nat): seq<Record>
    decreases |planned|
  {
    if planned == [] then []
    else
      var p := planned[|planned| - 1];
      CellItems(planned[..|planned| - 1], pool, c) + if p.pool == pool && p.cell == c then [p.rec] else []
  }

  /** The jars listed in a cell of the schedule add up to that cell's usage. */
  lemma {:induction false} CellItemsJars(planned: seq<Placement>, pool: Pool, c: nat)
    ensures JarSum(CellItems(planned, pool, c)) == Used(planned, pool, c)
    decreases |planned|
  {
    if planned != [] {
      var init := planned[..|planned| - 1];
      var p := planned[|planned| - 1];
      CellItemsJars(init, pool, c);
      var before := CellItems(init, pool, c);
      if p.pool == pool && p.cell == c {
        assert (before + [p.rec])[..|before|] == before;
      } else {
        assert before + [] == before;
      }
    }
  }

  /** Initial capacity minus what is left, cell by cell. */
  function UsedCells(cap: int, remaining: seq<int>): (used: seq<int>)
    ensures |used| == |remaining|
  {
    seq(|remaining|, c requires 0 <= c < |remaining| => cap - remaining[c])
  }

  /**
   * The whole schedule. The percentage loop divides each cell's usage by
   * the half-day capacity; a capacity of zero leaves cells untouched whose
   * usage is a plain integer zero, and that division raises, so no schedule
   * is returned then.
   */
  function WeeklySchedule(engine: PlanningEngine, df: seq<Prepared>): (result: Option<Schedule>)
    ensures result.None? <==> engine.CapGenHalfDay() == 0 || engine.CapIHalfDay() == 0
  {
    var capGen := engine.CapGenHalfDay();
    var capI := engine.CapIHalfDay();
    if capGen == 0 || capI == 0 then None
    else
      var g := GenRun(engine, df);
      var t := IRun(engine, df);
      Some(Schedule(t.planned, t.backlog,
        Stats(|EligibleRows(df)|, |t.planned|, |t.backlog|,
              PoolJars(t.planned, PoolGen), PoolJars(t.planned, PoolI),
              UsedCells(capGen, g.remaining), UsedCells(capI, t.remaining))))
  }

  function Sum(xs: seq<int>): int
    decreases |xs|
  {
    if xs == [] then 0 else Sum(xs[..|xs| - 1]) + xs[|xs| - 1]
  }

  /** The jars placed in cells `0 .. n-1` of `pool`. */
  function UsedUpTo(planned: seq<Placement>, pool: Pool, n: nat): int
    decreases n
  {
    if n == 0 then 0 else UsedUpTo(planned, pool, n - 1) + Used(planned, pool, n - 1)
  }

  lemma {:induction false} UsedUpToAppend(a: seq<Placement>, p: Placement, pool: Pool, n: nat)
    ensures UsedUpTo(a + [p], pool, n) == UsedUpTo(a, pool, n) + if p.pool == pool && p.cell < n then p.rec.jars else 0
    decreases n
  {
    if n > 0 {
      UsedUpToAppend(a, p, pool, n - 1);
      UsedAppend(a, p, pool, n - 1);
    }
  }

  /** When every placement is in one of the ten cells, a pool's jars are the sum of its cells' usage. */
  lemma {:induction false} PoolJarsByCell(planned: seq<Placement>, pool: Pool)
    requires forall p <- planned :: p.cell < Cells
    ensures PoolJars(planned, pool) == UsedUpTo(planned, pool, Cells)
    decreases |planned|
  {
    if planned == [] {
      assert UsedUpTo(planned, pool, Cells) == 0 by {
        UsedUpToEmpty(pool, Cells);
      }
    } else {
      var a := planned[..|planned| - 1];
      var p := planned[|planned| - 1];
      assert planned == a + [p];
      PoolJarsByCell(a, pool);
      UsedUpToAppend(a, p, pool, Cells);
    }
  }

  lemma {:induction false} UsedUpToEmpty(pool: Pool, n: nat)
    ensures UsedUpTo([], pool, n) == 0
    decreases n
  {
    if n > 0 {
      UsedUpToEmpty(pool, n - 1);
    }
  }

  lemma {:induction false} SumOfUsage(xs: seq<int>, planned: seq<Placement>, pool: Pool)
    requires forall c | 0 <= c < |xs| :: xs[c] == Used(planned, pool, c)
    ensures Sum(xs) == UsedUpTo(planned, pool, |xs|)
    decreases |xs|
  {
    if xs != [] {
      SumOfUsage(xs[..|xs| - 1], planned, pool);
    }
  }

  /** A list with no placement of a pool uses none of its capacity. */
  lemma {:induction false} UsedNone(planned: seq<Placement>, pool: Pool, c: nat)
    requires forall p <- planned :: p.pool != pool
    ensures Used(planned, pool, c) == 0
    decreases |planned|
  {
    if planned != [] {
      UsedNone(planned[..|planned| - 1], pool, c);
    }
  }

  /**
   * The two runs' shapes: every general-pool entry comes before every pool-i
   * entry, in both lists, and every placement is in one of the ten cells.
   */
  lemma {:induction false} RunsShape(engine: PlanningEngine, df: seq<Prepared>)
    ensures var g := GenRun(engine, df);
      var t := IRun(engine, df);
      && |g.remaining| == Cells && |t.remaining| == Cells
      && |g.planned| <= |t.planned| && t.planned[..|g.planned|] == g.planned
      && |g.backlog| <= |t.backlog| && t.backlog[..|g.backlog|] == g.backlog
      && (forall i | 0 <= i < |g.planned| :: g.planned[i].pool == PoolGen)
      && (forall i | 0 <= i < |g.backlog| :: g.backlog[i].pool == PoolGen)
      && (forall i | |g.planned| <= i < |t.planned| :: t.planned[i].pool == PoolI)
      && (forall i | |g.backlog| <= i < |t.backlog| :: t.backlog[i].pool == PoolI)
      && (forall p <- t.planned :: p.cell < Cells)
  {
    TwoRunsShape(engine.CapGenHalfDay(), engine.CapIHalfDay(),
      Flatten(StrainGroups(PoolItems(df, PoolGen))), Flatten(StrainGroups(PoolItems(df, PoolI))));
  }

  lemma {:induction false} TwoRunsShape(capGen: int, capI: int, genItems: seq<Record>, iItems: seq<Record>)
    ensures var g := FirstRun(capGen, genItems);
      var t := SecondRun(capI, g, iItems);
      && |g.remaining| == Cells && |t.remaining| == Cells
      && |g.planned| <= |t.planned| && t.planned[..|g.planned|] == g.planned
      && |g.backlog| <= |t.backlog| && t.backlog[..|g.backlog|] == g.backlog
      && (forall i | 0 <= i < |g.planned| :: g.planned[i].pool == PoolGen)
      && (forall i | 0 <= i < |g.backlog| :: g.backlog[i].pool == PoolGen)
      && (forall i | |g.planned| <= i < |t.planned| :: t.planned[i].pool == PoolI)
      && (forall i | |g.backlog| <= i < |t.backlog| :: t.backlog[i].pool == PoolI)
      && (forall p <- t.planned :: p.cell < Cells)
  {
    PlaceAllShape(PoolGen, RunState(Fill(capGen), [], []), genItems);
    var g := FirstRun(capGen, genItems);
    PlaceAllShape(PoolI, RunState(Fill(capI), g.planned, g.backlog), iItems);
    var t := SecondRun(capI, g, iItems);
    forall p <- t.planned
      ensures p.cell < Cells
    {
      var i :| 0 <= i < |t.planned| && t.planned[i] == p;
      if i < |g.planned| {
        assert t.planned[..|g.planned|][i] == p;
      }
    }
  }

  /** Each list is the general pool's entries followed by pool i's. */
  lemma {:induction false} RunPools(engine: PlanningEngine, df: seq<Prepared>)
    ensures var g := GenRun(engine, df);
      var t := IRun(engine, df);
      && |g.planned| <= |t.planned| && |g.backlog| <= |t.backlog|
      && (forall i | 0 <= i < |g.planned| :: t.planned[i].pool == PoolGen)
      && (forall i | |g.planned| <= i < |t.planned| :: t.planned[i].pool == PoolI)
      && (forall i | 0 <= i < |g.backlog| :: t.backlog[i].pool == PoolGen)
      && (forall i | |g.backlog| <= i < |t.backlog| :: t.backlog[i].pool == PoolI)
  {
    RunsShape(engine, df);
    var g := GenRun(engine, df);
    var t := IRun(engine, df);
    forall i | 0 <= i < |g.planned|
      ensures t.planned[i].pool == PoolGen
    {
      assert t.planned[..|g.planned|][i] == t.planned[i];
    }
    forall i | 0 <= i < |g.backlog|
      ensures t.backlog[i].pool == PoolGen
    {
      assert t.backlog[..|g.backlog|][i] == t.backlog[i];
    }
  }

  lemma PlannedOrder(xs: seq<Placement>, n: nat)
    requires n <= |xs|
    requires forall i | 0 <= i < n :: xs[i].pool == PoolGen
    requires forall i | n <= i < |xs| :: xs[i].pool == PoolI
    ensures forall i, j | 0 <= i < j < |xs| && xs[i].pool == PoolI :: xs[j].pool == PoolI
  {
  }

  lemma BacklogOrder(xs: seq<BacklogEntry>, n: nat)
    requires n <= |xs|
    requires forall i | 0 <= i < n :: xs[i].pool == PoolGen
    requires forall i | n <= i < |xs| :: xs[i].pool == PoolI
    ensures forall i, j | 0 <= i < j < |xs| && xs[i].pool == PoolI :: xs[j].pool == PoolI
  {
  }

  /**
   * The general pool is scheduled entirely before pool i: in both lists no
   * general-pool entry follows a pool-i entry.
   */
  lemma PoolsInOrder(engine: PlanningEngine, df: seq<Prepared>)
    requires WeeklySchedule(engine, df).Some?
    ensures var s := WeeklySchedule(engine, df).value;
      && (forall i, j | 0 <= i < j < |s.planned| && s.planned[i].pool == PoolI :: s.planned[j].pool == PoolI)
      && (forall i, j | 0 <= i < j < |s.backlog| && s.backlog[i].pool == PoolI :: s.backlog[j].pool == PoolI)
  {
    RunPools(engine, df);
    var g := GenRun(engine, df);
    var t := IRun(engine, df);
    PlannedOrder(t.planned, |g.planned|);
    BacklogOrder(t.backlog, |g.backlog|);
  }

  /** What the general pool's cells have lost is what was placed in them, and only that pool was placed into. */
  lemma {:induction false} GenUsage(cap: int, items: seq<Record>)
    ensures var g := FirstRun(cap, items);
      && |g.remaining| == Cells
      && (forall c | 0 <= c < Cells :: cap - g.remaining[c] == Used(g.planned, PoolGen, c))
      && (forall p <- g.planned :: p.pool == PoolGen)
  {
    var g0 := RunState(Fill(cap), [], []);
    PlaceAllConserves(PoolGen, g0, items);
    PlaceAllShape(PoolGen, g0, items);
    var g := FirstRun(cap, items);
    forall c | 0 <= c < Cells
      ensures Used([], PoolGen, c) == 0
    {
      UsedNone([], PoolGen, c);
    }
    forall p <- g.planned
      ensures p.pool == PoolGen
    {
      var i :| 0 <= i < |g.planned| && g.planned[i] == p;
    }
  }

  /**
   * What pool i's cells have lost is what was placed in them, and the
   * general pool's usage is what the first run left.
   */
  lemma {:induction false} IUsage(cap: int, g: RunState, items: seq<Record>)
    requires forall p <- g.planned :: p.pool == PoolGen
    ensures var t := SecondRun(cap, g, items);
      && |t.remaining| == Cells
      && (forall c | 0 <= c < Cells :: cap - t.remaining[c] == Used(t.planned, PoolI, c))
      && (forall c | 0 <= c < Cells :: Used(t.planned, PoolGen, c) == Used(g.planned, PoolGen, c))
  {
    PlaceAllConserves(PoolI, RunState(Fill(cap), g.planned, g.backlog), items);
    forall c | 0 <= c < Cells
      ensures Used(g.planned, PoolI, c) == 0
    {
      UsedNone(g.planned, PoolI, c);
    }
  }

  /** Each cell's reported usage is what was placed in that cell of that pool. */
  lemma {:induction false} CellUsage(engine: PlanningEngine, df: seq<Prepared>)
    requires WeeklySchedule(engine, df).Some?
    ensures var s := WeeklySchedule(engine, df).value;
      && |s.stats.capacityUsedGen| == Cells && |s.stats.capacityUsedI| == Cells
      && (forall c | 0 <= c < Cells :: s.stats.capacityUsedGen[c] == Used(s.planned, PoolGen, c))
      && (forall c | 0 <= c < Cells :: s.stats.capacityUsedI[c] == Used(s.planned, PoolI, c))
  {
    var s := WeeklySchedule(engine, df).value;
    var g := GenRun(engine, df);
    var t := IRun(engine, df);
    assert s.planned == t.planned;
    assert s.stats.capacityUsedGen == UsedCells(engine.CapGenHalfDay(), g.remaining);
    assert s.stats.capacityUsedI == UsedCells(engine.CapIHalfDay(), t.remaining);
    TwoRunsUsage(engine.CapGenHalfDay(), engine.CapIHalfDay(),
      Flatten(StrainGroups(PoolItems(df, PoolGen))), Flatten(StrainGroups(PoolItems(df, PoolI))));
  }

  lemma {:induction false} TwoRunsUsage(capGen: int, capI: int, genItems: seq<Record>, iItems: seq<Record>)
    ensures var g := FirstRun(capGen, genItems);
      var t := SecondRun(capI, g, iItems);
      var usedGen := UsedCells(capGen, g.remaining);
      var usedI := UsedCells(capI, t.remaining);
      && |usedGen| == Cells && |usedI| == Cells
      && (forall c | 0 <= c < Cells :: usedGen[c] == Used(t.planned, PoolGen, c))
      && (forall c | 0 <= c < Cells :: usedI[c] == Used(t.planned, PoolI, c))
  {
    GenUsage(capGen, genItems);
    IUsage(capI, FirstRun(capGen, genItems), iItems);
  }

  /**
   * The statistics' per-cell usage is, for each pool separately, exactly the
   * jars placed in that cell, and each pool's planned jars are the sum of its
   * cells' usage.
   */
  lemma {:induction false} CapacityAccounting(engine: PlanningEngine, df: seq<Prepared>)
    requires WeeklySchedule(engine, df).Some?
    ensures var s := WeeklySchedule(engine, df).value;
      && |s.stats.capacityUsedGen| == Cells && |s.stats.capacityUsedI| == Cells
      && (forall c | 0 <= c < Cells :: s.stats.capacityUsedGen[c] == Used(s.planned, PoolGen, c))
      && (forall c | 0 <= c < Cells :: s.stats.capacityUsedI[c] == Used(s.planned, PoolI, c))
      && s.stats.jarsPlannedGen == Sum(s.stats.capacityUsedGen)
      && s.stats.jarsPlannedI == Sum(s.stats.capacityUsedI)
  {
    var s := WeeklySchedule(engine, df).value;
    CellUsage(engine, df);
    RunsShape(engine, df);
    SumOfUsage(s.stats.capacityUsedGen, s.planned, PoolGen);
    SumOfUsage(s.stats.capacityUsedI, s.planned, PoolI);
    PoolJarsByCell(s.planned, PoolGen);
    PoolJarsByCell(s.planned, PoolI);
  }

  /** With a non-negative capacity, no cell reports more usage than the capacity, nor less than nothing. */
  lemma {:induction false} UsageWithinCapacity(engine: PlanningEngine, df: seq<Prepared>)
    requires WeeklySchedule(engine, df).Some?
    requires engine.CapGenHalfDay() >= 0 && engine.CapIHalfDay() >= 0
    ensures var s := WeeklySchedule(engine, df).value;
      && (forall c | 0 <= c < |s.stats.capacityUsedGen| :: 0 <= s.stats.capacityUsedGen[c] <= engine.CapGenHalfDay())
      && (forall c | 0 <= c < |s.stats.capacityUsedI| :: 0 <= s.stats.capacityUsedI[c] <= engine.CapIHalfDay())
  {
    var s := WeeklySchedule(engine, df).value;
    var g := GenRun(engine, df);
    var t := IRun(engine, df);
    var genItems := Flatten(StrainGroups(PoolItems(df, PoolGen)));
    var iItems := Flatten(StrainGroups(PoolItems(df, PoolI)));
    assert s.stats.capacityUsedGen == UsedCells(engine.CapGenHalfDay(), g.remaining);
    assert s.stats.capacityUsedI == UsedCells(engine.CapIHalfDay(), t.remaining);
    assert g == PlaceAll(PoolGen, RunState(Fill(engine.CapGenHalfDay()), [], []), genItems);
    assert t == PlaceAll(PoolI, RunState(Fill(engine.CapIHalfDay()), g.planned, g.backlog), iItems);
    RunWithinCapacity(PoolGen, engine.CapGenHalfDay(), [], [], genItems);
    RunWithinCapacity(PoolI, engine.CapIHalfDay(), g.planned, g.backlog, iItems);
  }

  /** A run from cells holding a non-negative `cap` each uses between nothing and `cap` of every cell. */
  lemma {:induction false} RunWithinCapacity(pool: Pool, cap: int, planned: seq<Placement>, backlog: seq<BacklogEntry>, items: seq<Record>)
    requires cap >= 0
    ensures var t := PlaceAll(pool, RunState(Fill(cap), planned, backlog), items);
      && |t.remaining| == Cells
      && forall c | 0 <= c < Cells :: 0 <= cap - t.remaining[c] <= cap
  {
    PlaceAllConserves(pool, RunState(Fill(cap), planned, backlog), items);
  }

  /** The records without a strain code, which `groupby` drops. */
  function NoStrain(items: seq<Record>): seq<Record>
    decreases |items|
  {
    if items == [] then []
    else
      var r := items[|items| - 1];
      NoStrain(items[..|items| - 1]) + if r.strainCode.None? then [r] else []
  }

  lemma {:induction false} NoStrainCount(items: seq<Record>, r: Record)
    ensures multiset(NoStrain(items))[r] == if r.strainCode.None? then multiset(items)[r] else 0
    decreases |items|
  {
    if items != [] {
      var init := items[..|items| - 1];
      assert items == init + [items[|items| - 1]];
      NoStrainCount(init, r);
    }
  }

  lemma {:induction false} NoStrainOfStrained(items: seq<Record>)
    requires forall r <- items :: r.strainCode.Some?
    ensures NoStrain(items) == []
    decreases |items|
  {
    if items != [] {
      NoStrainOfStrained(items[..|items| - 1]);
    }
  }

  /** Grouping loses exactly the records without a strain code. */
  lemma GroupingSplit(items: seq<Record>)
    ensures multiset(items) == multiset(Flatten(StrainGroups(items))) + multiset(NoStrain(items))
  {
    forall r
      ensures multiset(items)[r] == multiset(Flatten(StrainGroups(items)))[r] + multiset(NoStrain(items))[r]
    {
      StrainGroupsCover(items, r);
      NoStrainCount(items, r);
    }
  }

  /** The eligible rows of the two pools are among the eligible rows. */
  lemma {:induction false} PoolItemsCount(df: seq<Prepared>)
    ensures |PoolItems(df, PoolGen)| + |PoolItems(df, PoolI)| <= |EligibleRows(df)|
    decreases |df|
  {
    if df != [] {
      PoolItemsCount(df[..|df| - 1]);
    }
  }

  /** When every eligible row has a pool, the rows of the two pools are all the eligible rows. */
  lemma {:induction false} PoolItemsCountAll(df: seq<Prepared>)
    requires forall p <- df :: p.IsEligible() ==> p.pool.Some?
    ensures |PoolItems(df, PoolGen)| + |PoolItems(df, PoolI)| == |EligibleRows(df)|
    decreases |df|
  {
    if df != [] {
      var init := df[..|df| - 1];
      assert forall p <- init :: p in df;
      var p := df[|df| - 1];
      assert p in df;
      PoolItemsCountAll(init);
      assert PoolItems(df, PoolGen) == PoolItems(init, PoolGen) + if p.IsEligible() && p.pool == Some(PoolGen) then [p.rec] else [];
      assert PoolItems(df, PoolI) == PoolItems(init, PoolI) + if p.IsEligible() && p.pool == Some(PoolI) then [p.rec] else [];
      assert EligibleRows(df) == EligibleRows(init) + if p.IsEligible() then [p] else [];
      if p.IsEligible() {
        assert p.pool.Some?;
        assert p.pool.value == PoolGen || p.pool.value == PoolI;
      }
    }
  }

  lemma {:induction false} PoolItemsStrained(df: seq<Prepared>, pool: Pool)
    requires forall p <- df :: p.IsEligible() ==> p.rec.strainCode.Some?
    ensures forall r <- PoolItems(df, pool) :: r.strainCode.Some?
    decreases |df|
  {
    if df != [] {
      var init := df[..|df| - 1];
      assert forall p <- init :: p in df;
      PoolItemsStrained(init, pool);
    }
  }

  /**
   * Every eligible record of either pool that has a strain code ends up in
   * exactly one of `planned` and `backlog`, as often as it occurs; those
   * without one in neither.
   */
  lemma {:induction false} ScheduleRecords(engine: PlanningEngine, df: seq<Prepared>)
    requires WeeklySchedule(engine, df).Some?
    ensures var s := WeeklySchedule(engine, df).value;
      var gen := PoolItems(df, PoolGen);
      var i := PoolItems(df, PoolI);
      multiset(PlannedRecords(s.planned)) + multiset(BacklogRecords(s.backlog)) + multiset(NoStrain(gen)) + multiset(NoStrain(i))
         == multiset(gen) + multiset(i)
  {
    var gen := PoolItems(df, PoolGen);
    var i := PoolItems(df, PoolI);
    var g := GenRun(engine, df);
    PlaceAllPartition(PoolGen, RunState(Fill(engine.CapGenHalfDay()), [], []), Flatten(StrainGroups(gen)));
    PlaceAllPartition(PoolI, RunState(Fill(engine.CapIHalfDay()), g.planned, g.backlog), Flatten(StrainGroups(i)));
    assert PlannedRecords([]) == [] && BacklogRecords([]) == [];
    GroupingSplit(gen);
    GroupingSplit(i);
  }

  /**
   * `total_planned + total_backlog <= total_eligible`, with equality when
   * every eligible row has a pool and a strain code.
   */
  lemma {:induction false} ScheduleTotals(engine: PlanningEngine, df: seq<Prepared>)
    requires WeeklySchedule(engine, df).Some?
    ensures var s := WeeklySchedule(engine, df).value;
      && s.stats.totalPlanned + s.stats.totalBacklog <= s.stats.totalEligible
      && ((forall p <- df :: Consistent(p) && (p.IsEligible() ==> p.rec.strainCode.Some?)) ==>
          s.stats.totalPlanned + s.stats.totalBacklog == s.stats.totalEligible)
  {
    var s := WeeklySchedule(engine, df).value;
    var gen := PoolItems(df, PoolGen);
    var i := PoolItems(df, PoolI);
    ScheduleRecords(engine, df);
    var planned := multiset(PlannedRecords(s.planned));
    var backlog := multiset(BacklogRecords(s.backlog));
    assert |planned + backlog + multiset(NoStrain(gen)) + multiset(NoStrain(i))| == |multiset(gen) + multiset(i)|;
    assert |planned| == s.stats.totalPlanned && |backlog| == s.stats.totalBacklog;
    assert s.stats.totalPlanned + s.stats.totalBacklog + |NoStrain(gen)| + |NoStrain(i)| == |gen| + |i|;
    PoolItemsCount(df);
    if forall p <- df :: Consistent(p) && (p.IsEligible() ==> p.rec.strainCode.Some?) {
      PoolItemsCountAll(df);
      PoolItemsStrained(df, PoolGen);
      PoolItemsStrained(df, PoolI);
      NoStrainOfStrained(gen);
      NoStrainOfStrained(i);
    }
  }
}
