/**
 * The placement rule of the weekly scheduler as functions: a record goes
 * whole into the first chronological half-day cell of its pool whose
 * remaining capacity covers its jar count, or to the backlog. These
 * functions specify the methods of `WeeklyPlanner.ScheduleRun`; the lemmas
 * here state what placing a sequence of records does to capacities and
 * lists.
 */
module Greedy {
  import opened Wrappers
  import opened PlanningRules

  /** The cells of one pool: Monday morning, Monday afternoon, ..., Friday afternoon. */
  const Cells: nat := 10
  const Weekdays: seq<string> := ["Lundi", "Mardi", "Mercredi", "Jeudi", "Vendredi"]
  const Slots: seq<string> := ["Matin", "Après-midi"]

  /** The day and half-day of cell `c`, in the order in which the cells are tried. */
  function DayOf(c: nat): string
    requires c < Cells
  {
    Weekdays[c / 2]
  }

  function SlotOf(c: nat): string
    requires c < Cells
  {
    Slots[c % 2]
  }

  /** Cells are tried day by day, morning before afternoon. */
  lemma CellsAreChronological(c: nat, d: nat)
    requires c < d < Cells
    ensures c / 2 < d / 2 || (DayOf(c) == DayOf(d) && SlotOf(c) == "Matin" && SlotOf(d) == "Après-midi")
  {
  }

  /** The first cell is Monday morning and the last one Friday afternoon; each day has two cells. */
  lemma CellNames()
    ensures DayOf(0) == "Lundi" && SlotOf(0) == "Matin"
    ensures DayOf(Cells - 1) == "Vendredi" && SlotOf(Cells - 1) == "Après-midi"
    ensures forall c: nat | c < Cells :: DayOf(c) == Weekdays[c / 2] && c / 2 < |Weekdays|
  {
  }

  /** A record placed in a cell of a pool (an entry of `planned`). */
  datatype Placement = Placement(rec: Record, pool: Pool, cell: nat)

  /** A record that found no cell (an entry of `backlog`). */
  datatype BacklogEntry = BacklogEntry(rec: Record, pool: Pool, reason: string)

  const InsufficientCapacity := "Capacité insuffisante"

  /** The remaining capacities of the pool being scheduled and the two lists built so far. */
  datatype RunState = RunState(remaining: seq<int>, planned: seq<Placement>, backlog: seq<BacklogEntry>)

  /** `c` is the first cell whose remaining capacity covers `jars`. */
  predicate IsFirstFit(remaining: seq<int>, jars: int, c: nat) {
    c < |remaining| && remaining[c] >= jars && forall k | 0 <= k < c :: remaining[k] < jars
  }

  /** No cell's remaining capacity covers `jars`. */
  predicate NoFit(remaining: seq<int>, jars: int) {
    forall k | 0 <= k < |remaining| :: remaining[k] < jars
  }

  function FirstFitFrom(remaining: seq<int>, jars: int, from: nat): (c: Option<nat>)
    requires forall k | 0 <= k < from && k < |remaining| :: remaining[k] < jars
    ensures c.Some? ==> IsFirstFit(remaining, jars, c.value)
    ensures c.None? ==> NoFit(remaining, jars)
    decreases |remaining| - from
  {
    if from >= |remaining| then None
    else if remaining[from] >= jars then Some(from)
    else FirstFitFrom(remaining, jars, from + 1)
  }

  /** The first cell that can take `jars`, if any. */
  function FirstFit(remaining: seq<int>, jars: int): (c: Option<nat>)
    ensures c.Some? ==> IsFirstFit(remaining, jars, c.value)
    ensures c.None? ==> NoFit(remaining, jars)
  {
    FirstFitFrom(remaining, jars, 0)
  }

  /**
   * Placing one record: into its first fitting cell, whose remaining drops
   * by exactly its jars (and so stays non-negative), appended to `planned`;
   * or, when no cell fits, appended to the backlog with nothing else changed.
   */
  function Place(pool: Pool, s: RunState, r: Record): (t: RunState)
    ensures NoFit(s.remaining, r.jars) ==>
      t == RunState(s.remaining, s.planned, s.backlog + [BacklogEntry(r, pool, InsufficientCapacity)])
    ensures forall c: nat | IsFirstFit(s.remaining, r.jars, c) ::
      && t == RunState(s.remaining[c := s.remaining[c] - r.jars], s.planned + [Placement(r, pool, c)], s.backlog)
      && t.remaining[c] >= 0
    ensures |t.remaining| == |s.remaining|
    ensures |t.planned| + |t.backlog| == |s.planned| + |s.backlog| + 1
  {
    match FirstFit(s.remaining, r.jars)
    case Some(c) =>
      RunState(s.remaining[c := s.remaining[c] - r.jars], s.planned + [Placement(r, pool, c)], s.backlog)
    case None =>
      RunState(s.remaining, s.planned, s.backlog + [BacklogEntry(r, pool, InsufficientCapacity)])
  }

  /** Exactly one of the two outcomes of `Place` applies to any record. */
  lemma {:induction false} FitOrNot(remaining: seq<int>, jars: int)
    ensures NoFit(remaining, jars) <==> !exists c: nat :: IsFirstFit(remaining, jars, c)
    ensures forall c: nat, d: nat | IsFirstFit(remaining, jars, c) && IsFirstFit(remaining, jars, d) :: c == d
  {
    var f := FirstFit(remaining, jars);
    if f.Some? {
      assert IsFirstFit(remaining, jars, f.value);
    }
  }

  /** Placing records one after the other, in the given order. */
  function PlaceAll(pool: Pool, s: RunState, rs: seq<Record>): (t: RunState)
    ensures |t.remaining| == |s.remaining|
    ensures |t.planned| + |t.backlog| == |s.planned| + |s.backlog| + |rs|
    decreases |rs|
  {
    if rs == [] then s else Place(pool, PlaceAll(pool, s, rs[..|rs| - 1]), rs[|rs| - 1])
  }

  /** Placing one more record of a sequence is one more `Place` step. */
  lemma PlaceAllPrefix(pool: Pool, s: RunState, rs: seq<Record>, k: nat)
    requires k < |rs|
    ensures PlaceAll(pool, s, rs[..k + 1]) == Place(pool, PlaceAll(pool, s, rs[..k]), rs[k])
  {
    assert rs[..k + 1][..k] == rs[..k];
  }

  /** Placing `a` and then `b` is placing `a + b`. */
  lemma {:induction false} PlaceAllAppend(pool: Pool, s: RunState, a: seq<Record>, b: seq<Record>)
    ensures PlaceAll(pool, s, a + b) == PlaceAll(pool, PlaceAll(pool, s, a), b)
    decreases |b|
  {
    if b == [] {
      assert a + b == a;
    } else {
      assert (a + b)[..|a + b| - 1] == a + b[..|b| - 1];
      PlaceAllAppend(pool, s, a, b[..|b| - 1]);
    }
  }

  /** The jars placed so far in cell `c` of `pool`. */
  function Used(planned: seq<Placement>, pool: Pool, c: nat): int
    decreases |planned|
  {
    if planned == [] then 0
    else
      var p := planned[|planned| - 1];
      Used(planned[..|planned| - 1], pool, c) + if p.pool == pool && p.cell == c then p.rec.jars else 0
  }

  lemma {:induction false} UsedAppend(a: seq<Placement>, p: Placement, pool: Pool, c: nat)
    ensures Used(a + [p], pool, c) == Used(a, pool, c) + if p.pool == pool && p.cell == c then p.rec.jars else 0
  {
    assert (a + [p])[..|a + [p]| - 1] == a;
  }

  /** The records carried by a list of entries, in list order. */
  function RecordsOf<E>(entries: seq<E>, rec: E -> Record): (rs: seq<Record>)
    ensures |rs| == |entries|
    ensures forall i | 0 <= i < |rs| :: rs[i] == rec(entries[i])
  {
    seq(|entries|, i requires 0 <= i < |entries| => rec(entries[i]))
  }

  function PlannedRecords(planned: seq<Placement>): seq<Record> {
    RecordsOf(planned, (p: Placement) => p.rec)
  }

  function BacklogRecords(backlog: seq<BacklogEntry>): seq<Record> {
    RecordsOf(backlog, (b: BacklogEntry) => b.rec)
  }

  /** One placement appends to exactly one of the two lists and keeps the number of cells. */
  lemma {:induction false} PlaceStep(pool: Pool, s: RunState, r: Record)
    ensures var t := Place(pool, s, r);
      && |t.remaining| == |s.remaining|
      && ((&& t.backlog == s.backlog
           && t.planned == s.planned + [Placement(r, pool, t.planned[|s.planned|].cell)]
           && t.planned[|s.planned|].cell < |s.remaining|)
          || (t.planned == s.planned && t.backlog == s.backlog + [BacklogEntry(r, pool, InsufficientCapacity)]))
  {
    FitOrNot(s.remaining, r.jars);
    if !NoFit(s.remaining, r.jars) {
      var c: nat :| IsFirstFit(s.remaining, r.jars, c);
    }
  }

  /**
   * Placing a sequence keeps the cell count and only appends to the two
   * lists, one entry per record; every added entry carries the pool, and a
   * valid cell or the backlog reason.
   */
  lemma {:induction false} PlaceAllShape(pool: Pool, s: RunState, rs: seq<Record>)
    ensures var t := PlaceAll(pool, s, rs);
      && |t.remaining| == |s.remaining|
      && |s.planned| <= |t.planned| && t.planned[..|s.planned|] == s.planned
      && |s.backlog| <= |t.backlog| && t.backlog[..|s.backlog|] == s.backlog
      && (|t.planned| - |s.planned|) + (|t.backlog| - |s.backlog|) == |rs|
      && (forall i | |s.planned| <= i < |t.planned| :: t.planned[i].pool == pool && t.planned[i].cell < |s.remaining|)
      && (forall i | |s.backlog| <= i < |t.backlog| ::
            t.backlog[i].pool == pool && t.backlog[i].reason == InsufficientCapacity)
    decreases |rs|
  {
    if rs != [] {
      var init := rs[..|rs| - 1];
      PlaceAllShape(pool, s, init);
      var m := PlaceAll(pool, s, init);
      PlaceStep(pool, m, rs[|rs| - 1]);
      var t := PlaceAll(pool, s, rs);
      assert t.planned[..|s.planned|] == m.planned[..|s.planned|];
      assert t.backlog[..|s.backlog|] == m.backlog[..|s.backlog|];
    }
  }

  lemma {:induction false} PlaceStepRecords(pool: Pool, s: RunState, r: Record)
    ensures Records(Place(pool, s, r)) == Records(s) + multiset{r}
  {
    var t := Place(pool, s, r);
    PlaceStep(pool, s, r);
    if t.planned == s.planned {
      assert BacklogRecords(t.backlog) == BacklogRecords(s.backlog) + [r];
    } else {
      assert PlannedRecords(t.planned) == PlannedRecords(s.planned) + [r];
    }
  }

  /**
   * Each record placed lands in exactly one of the two lists: the records
   * added to `planned` and to the backlog are, together, the records placed.
   */
  lemma {:induction false} PlaceAllPartition(pool: Pool, s: RunState, rs: seq<Record>)
    ensures Records(PlaceAll(pool, s, rs)) == Records(s) + multiset(rs)
    decreases |rs|
  {
    if rs != [] {
      var init := rs[..|rs| - 1];
      var r := rs[|rs| - 1];
      var m := PlaceAll(pool, s, init);
      PlaceAllPartition(pool, s, init);
      PlaceStepRecords(pool, m, r);
      AddLastRecord(Records(s), Records(m), Records(Place(pool, m, r)), rs);
    }
  }

  /** The records held by the two lists of a state, counted with multiplicity. */
  function Records(s: RunState): multiset<Record> {
    multiset(PlannedRecords(s.planned)) + multiset(BacklogRecords(s.backlog))
  }

  lemma {:induction false} AddLastRecord(start: multiset<Record>, mid: multiset<Record>, end: multiset<Record>, rs: seq<Record>)
    requires rs != []
    requires mid == start + multiset(rs[..|rs| - 1])
    requires end == mid + multiset{rs[|rs| - 1]}
    ensures end == start + multiset(rs)
  {
    assert rs == rs[..|rs| - 1] + [rs[|rs| - 1]];
  }

  /**
   * Capacity is conserved cell by cell: what a cell has left plus what has
   * been placed in it stays what it was, the other pool's usage is not
   * touched, a cell never grows, and a cell that ends below zero is one
   * that nothing was placed in.
   */
  lemma {:induction false} PlaceAllConserves(pool: Pool, s: RunState, rs: seq<Record>)
    ensures var t := PlaceAll(pool, s, rs);
      && |t.remaining| == |s.remaining|
      && (forall c | 0 <= c < |s.remaining| ::
            && t.remaining[c] + Used(t.planned, pool, c) == s.remaining[c] + Used(s.planned, pool, c)
            && t.remaining[c] <= s.remaining[c]
            && (t.remaining[c] >= 0 || t.remaining[c] == s.remaining[c]))
      && (forall other: Pool, c: nat | other != pool :: Used(t.planned, other, c) == Used(s.planned, other, c))
    decreases |rs|
  {
    if rs != [] {
      var init := rs[..|rs| - 1];
      PlaceAllConserves(pool, s, init);
      PlaceConserves(pool, PlaceAll(pool, s, init), rs[|rs| - 1]);
    }
  }

  /** One placement conserves capacity cell by cell and leaves the other pool's usage alone. */
  lemma {:induction false} PlaceConserves(pool: Pool, m: RunState, r: Record)
    ensures var t := Place(pool, m, r);
      && |t.remaining| == |m.remaining|
      && (forall c | 0 <= c < |m.remaining| ::
            && t.remaining[c] + Used(t.planned, pool, c) == m.remaining[c] + Used(m.planned, pool, c)
            && t.remaining[c] <= m.remaining[c]
            && (t.remaining[c] >= 0 || t.remaining[c] == m.remaining[c]))
      && (forall other: Pool, c: nat | other != pool :: Used(t.planned, other, c) == Used(m.planned, other, c))
  {
    var t := Place(pool, m, r);
    FitOrNot(m.remaining, r.jars);
    if !NoFit(m.remaining, r.jars) {
      var c0: nat :| IsFirstFit(m.remaining, r.jars, c0);
      var p := Placement(r, pool, c0);
      forall c: nat
        ensures Used(t.planned, pool, c) == Used(m.planned, pool, c) + if c == c0 then r.jars else 0
      {
        UsedAppend(m.planned, p, pool, c);
      }
      forall other: Pool, c: nat | other != pool
        ensures Used(t.planned, other, c) == Used(m.planned, other, c)
      {
        UsedAppend(m.planned, p, other, c);
      }
    }
  }

  /** A record whose jars exactly fill the first cell that can take it drives that cell to zero. */
  lemma ExactFitEmptiesCell(pool: Pool, s: RunState, r: Record, c: nat)
    requires c < |s.remaining| && s.remaining[c] == r.jars
    requires forall k | 0 <= k < c :: s.remaining[k] < r.jars
    ensures Place(pool, s, r).remaining[c] == 0
    ensures Place(pool, s, r).planned == s.planned + [Placement(r, pool, c)]
  {
    assert IsFirstFit(s.remaining, r.jars, c);
  }
}
