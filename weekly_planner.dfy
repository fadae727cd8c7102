/**
 * The imperative core of `create_weekly_schedule`. The nested `capacities`
 * dictionary becomes two arrays of ten cells (Monday morning to Friday
 * afternoon), decremented in place; the `planned` and `backlog` lists are
 * appended to as each record is placed. Each method is proved to compute
 * what the functions of `Greedy` and `Scheduling` say.
 */
module WeeklyPlanner {
  import opened Wrappers
  import opened PlanningRules
  import opened Greedy
  import opened StrainGrouping
  import opened Scheduling

  /** The mutable state of one scheduling run. */
  class ScheduleRun {
    /** `capacities['pool_gen']`, cell by cell. */
    const gen: array<int>
    /** `capacities['pool_i']`, cell by cell. */
    const poolI: array<int>
    var planned: seq<Placement>
    var backlog: seq<BacklogEntry>

    /** The two pools have ten cells each and share none. */
    predicate Valid() {
      gen != poolI && gen.Length == Cells && poolI.Length == Cells
    }

    function CellsOf(pool: Pool): array<int> {
      if pool == PoolGen then gen else poolI
    }

    /** The run seen from one pool: its cells and the two shared lists. */
    function State(pool: Pool): RunState
      reads this, CellsOf(pool)
    {
      RunState(CellsOf(pool)[..], planned, backlog)
    }

    /** Every cell of a pool starts at that pool's half-day capacity; both lists start empty. */
    constructor(capGen: int, capI: int)
      ensures Valid()
      ensures gen[..] == Fill(capGen) && poolI[..] == Fill(capI)
      ensures planned == [] && backlog == []
      ensures fresh(gen) && fresh(poolI)
    {
      gen := new int[Cells](_ => capGen);
      poolI := new int[Cells](_ => capI);
      planned := [];
      backlog := [];
    }

    /**
     * The body of `place_strain_group` for one record: the first cell of the
     * pool with enough capacity left takes it, or the backlog does.
     */
    method PlaceItem(pool: Pool, r: Record)
      requires Valid()
      modifies this, CellsOf(pool)
      ensures State(pool) == Place(pool, old(State(pool)), r)
    {
      var cells := CellsOf(pool);
      ghost var s0 := State(pool);
      var placed := false;
      for c := 0 to Cells
        invariant cells[..] == s0.remaining
        invariant planned == s0.planned && backlog == s0.backlog
        invariant forall k | 0 <= k < c :: cells[k] < r.jars
      {
        if cells[c] >= r.jars {
          assert IsFirstFit(s0.remaining, r.jars, c);
          ghost var t := Place(pool, s0, r);
          assert t.remaining == s0.remaining[c := s0.remaining[c] - r.jars];
          cells[c] := cells[c] - r.jars;
          planned := planned + [Placement(r, pool, c)];
          assert cells[..] == t.remaining;
          placed := true;
          break;
        }
      }
      if !placed {
        assert NoFit(s0.remaining, r.jars);
        backlog := backlog + [BacklogEntry(r, pool, InsufficientCapacity)];
      }
    }

    /** `place_strain_group`: the group's records placed one after the other, oldest first. */
    method PlaceStrainGroup(pool: Pool, g: StrainGroup)
      requires Valid()
      modifies this, CellsOf(pool)
      ensures State(pool) == PlaceAll(pool, old(State(pool)), g.items)
    {
      ghost var s0 := State(pool);
      var items := g.items;
      for k := 0 to |items|
        invariant State(pool) == PlaceAll(pool, s0, items[..k])
      {
        PlaceAllPrefix(pool, s0, items, k);
        PlaceItem(pool, items[k]);
      }
      assert items[..|items|] == items;
    }

    /** The loop over `strains_gen` (or `strains_i`): the groups placed in order. */
    method PlaceGroups(pool: Pool, groups: seq<StrainGroup>)
      requires Valid()
      modifies this, CellsOf(pool)
      ensures State(pool) == PlaceAll(pool, old(State(pool)), Flatten(groups))
    {
      for k := 0 to |groups|
        invariant State(pool) == PlaceAll(pool, old(State(pool)), Flatten(groups[..k]))
      {
        FlattenStep(groups, k);
        PlaceAllAppend(pool, old(State(pool)), Flatten(groups[..k]), groups[k].items);
        PlaceStrainGroup(pool, groups[k]);
      }
      assert groups[..|groups|] == groups;
    }

    /**
     * The statistics loop: each cell's usage is the capacity minus what is
     * left. Its percentage divides by the capacity, which fails when a
     * capacity is zero.
     */
    method CapacityUsage(capGen: int, capI: int) returns (usedGen: seq<int>, usedI: seq<int>, ok: bool)
      requires Valid()
      ensures ok <==> capGen != 0 && capI != 0
      ensures ok ==> usedGen == UsedCells(capGen, gen[..]) && usedI == UsedCells(capI, poolI[..])
    {
      usedGen := [];
      usedI := [];
      for c := 0 to Cells
        invariant usedGen == UsedCells(capGen, gen[..c])
        invariant usedI == UsedCells(capI, poolI[..c])
        invariant 0 < c ==> capGen != 0 && capI != 0
      {
        usedGen := usedGen + [capGen - gen[c]];
        usedI := usedI + [capI - poolI[c]];
        if capGen == 0 || capI == 0 {
          return usedGen, usedI, false;
        }
      }
      assert gen[..Cells] == gen[..];
      assert poolI[..Cells] == poolI[..];
      ok := true;
    }
  }

  lemma FlattenStep(gs: seq<StrainGroup>, k: nat)
    requires k < |gs|
    ensures Flatten(gs[..k + 1]) == Flatten(gs[..k]) + gs[k].items
  {
    assert gs[..k + 1][..k] == gs[..k];
  }

  /**
   * `create_weekly_schedule`: the general pool's groups placed, then pool
   * i's, then the per-cell usage read off the two arrays.
   */
  method CreateWeeklySchedule(engine: PlanningEngine, df: seq<Prepared>) returns (result: Option<Schedule>)
    ensures result == WeeklySchedule(engine, df)
  {
    var capGen := engine.CapGenHalfDay();
    var capI := engine.CapIHalfDay();
    var eligible := EligibleRows(df);
    var strainsGen := GroupByStrain(PoolItems(df, PoolGen));
    var strainsI := GroupByStrain(PoolItems(df, PoolI));
    var run := new ScheduleRun(capGen, capI);

    run.PlaceGroups(PoolGen, strainsGen);
    ghost var g := GenRun(engine, df);
    assert run.State(PoolGen) == g;
    run.PlaceGroups(PoolI, strainsI);

    var usedGen, usedI, ok := run.CapacityUsage(capGen, capI);
    if !ok {
      return None;
    }
    var stats := Stats(|eligible|, |run.planned|, |run.backlog|,
      PoolJars(run.planned, PoolGen), PoolJars(run.planned, PoolI), usedGen, usedI);
    result := Some(Schedule(run.planned, run.backlog, stats));
  }
}
