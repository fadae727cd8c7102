/**
 * `group_by_strain` inside `create_weekly_schedule`: the eligible records of
 * one pool gathered by strain code, the groups in decreasing order of mean
 * age (oldest strain first) and, inside each group, the records in
 * decreasing order of age. As with a pandas `groupby`, records without a
 * strain code belong to no group.
 */
module StrainGrouping {
  import opened Wrappers
  import opened PlanningRules
  import opened Ordering

  /** The age a record is ordered by; eligible records always have one, so the default is not used for them. */
  function AgeOf(r: Record): int {
    r.ageWeeks.GetOr(0)
  }

  function AgeKey(r: Record): Fraction {
    Fraction(AgeOf(r), 1)
  }

  /** One entry of the list `group_by_strain` returns. */
  datatype StrainGroup = StrainGroup(strain: string, ageSum: int, count: nat, totalJars: nat, items: seq<Record>) {
    /** `avg_age`: the mean age of the group's records. */
    function MeanAge(): Fraction {
      Fraction(ageSum, count)
    }
  }

  /** The records with strain code `s`, in input order. */
  function WithStrain(items: seq<Record>, s: string): seq<Record>
    decreases |items|
  {
    if items == [] then []
    else
      var r := items[|items| - 1];
      WithStrain(items[..|items| - 1], s) + if r.strainCode == Some(s) then [r] else []
  }

  /** Filtering by strain keeps every copy of a record of that strain and nothing else. */
  lemma {:induction false} WithStrainCount(items: seq<Record>, s: string, r: Record)
    ensures multiset(WithStrain(items, s))[r] == if r.strainCode == Some(s) then multiset(items)[r] else 0
    decreases |items|
  {
    if items != [] {
      var init := items[..|items| - 1];
      assert items == init + [items[|items| - 1]];
      WithStrainCount(init, s, r);
    }
  }

  function AgeSum(rs: seq<Record>): int
    decreases |rs|
  {
    if rs == [] then 0 else AgeSum(rs[..|rs| - 1]) + AgeOf(rs[|rs| - 1])
  }

  function JarSum(rs: seq<Record>): nat
    decreases |rs|
  {
    if rs == [] then 0 else JarSum(rs[..|rs| - 1]) + rs[|rs| - 1].jars
  }

  /** The strain codes present among `items`. */
  function StrainSet(items: seq<Record>): set<string> {
    set r | r in items && r.strainCode.Some? :: r.strainCode.value
  }

  /** The strain codes of `items`, each once, in order of first appearance. */
  function StrainsOf(items: seq<Record>): (ss: seq<string>)
    ensures Distinct(ss)
    ensures forall s :: s in ss <==> s in StrainSet(items)
    decreases |items|
  {
    if items == [] then []
    else
      var init := items[..|items| - 1];
      var r := items[|items| - 1];
      var prev := StrainsOf(init);
      assert items == init + [r];
      assert forall s :: s in StrainSet(items) <==> s in StrainSet(init) || r.strainCode == Some(s);
      if r.strainCode.Some? && r.strainCode.value !in prev then prev + [r.strainCode.value] else prev
  }

  /** The mean age of the records of strain `s` (the `'age_weeks': 'mean'` aggregate). */
  function MeanAgeOf(items: seq<Record>, s: string): Fraction {
    var ws := WithStrain(items, s);
    Fraction(AgeSum(ws), |ws|)
  }

  /** A strain that occurs among `items` has at least one record, so its mean is defined. */
  lemma StrainPresent(items: seq<Record>, s: string)
    requires s in StrainSet(items)
    ensures |WithStrain(items, s)| > 0
  {
    var r :| r in items && r.strainCode == Some(s);
    WithStrainCount(items, s, r);
  }

  /** The strain codes in decreasing order of mean age. */
  function StrainOrder(items: seq<Record>): (order: seq<string>)
    ensures multiset(order) == multiset(StrainsOf(items))
    ensures NonIncreasing(order, s => MeanAgeOf(items, s))
  {
    var ss := StrainsOf(items);
    assert PositiveKeys(ss, s => MeanAgeOf(items, s)) by {
      forall s <- ss
        ensures MeanAgeOf(items, s).den > 0
      {
        StrainPresent(items, s);
      }
    }
    SortDesc(ss, s => MeanAgeOf(items, s))
  }

  /** The group of strain `s`: its aggregates and its records, oldest first. */
  function MakeGroup(items: seq<Record>, s: string): (g: StrainGroup)
    ensures g.strain == s && g.count == |g.items|
    ensures g.MeanAge() == MeanAgeOf(items, s)
    ensures g.totalJars == JarSum(WithStrain(items, s))
  {
    var ws := WithStrain(items, s);
    var sorted := SortDesc(ws, AgeKey);
    assert |sorted| == |multiset(sorted)| == |ws|;
    StrainGroup(s, AgeSum(ws), |ws|, JarSum(ws), sorted)
  }

  /** The groups of the strains `ss`, in that order. */
  function GroupsFor(items: seq<Record>, ss: seq<string>): (gs: seq<StrainGroup>)
    ensures |gs| == |ss|
    decreases |ss|
  {
    if ss == [] then [] else GroupsFor(items, ss[..|ss| - 1]) + [MakeGroup(items, ss[|ss| - 1])]
  }

  /** The `j`-th group is the group of the `j`-th strain. */
  lemma {:induction false} GroupsForAt(items: seq<Record>, ss: seq<string>, j: nat)
    requires j < |ss|
    ensures GroupsFor(items, ss)[j] == MakeGroup(items, ss[j])
    decreases |ss|
  {
    if j < |ss| - 1 {
      GroupsForAt(items, ss[..|ss| - 1], j);
    }
  }

  /** What `group_by_strain` returns. */
  function StrainGroups(items: seq<Record>): (gs: seq<StrainGroup>)
    ensures items == [] ==> gs == []
    ensures |gs| == |StrainSet(items)|
  {
    var order := StrainOrder(items);
    StrainOrderSize(items);
    GroupsFor(items, order)
  }

  /** The order lists every strain present exactly once. */
  lemma StrainOrderSize(items: seq<Record>)
    ensures |StrainOrder(items)| == |StrainSet(items)|
  {
    var ss := StrainsOf(items);
    assert |StrainOrder(items)| == |multiset(ss)| == |ss|;
    DistinctSetSize(ss, StrainSet(items));
  }

  /** The records of the groups, group after group. */
  function Flatten(gs: seq<StrainGroup>): seq<Record>
    decreases |gs|
  {
    if gs == [] then [] else Flatten(gs[..|gs| - 1]) + gs[|gs| - 1].items
  }

  /** Builds the groups one strain at a time, oldest mean age first. */
  method GroupByStrain(items: seq<Record>) returns (groups: seq<StrainGroup>)
    ensures groups == StrainGroups(items)
  {
    if |items| == 0 {
      return [];
    }
    var order := StrainOrder(items);
    groups := [];
    for k := 0 to |order|
      invariant groups == GroupsFor(items, order[..k])
    {
      GroupsForStep(items, order, k);
      groups := groups + [MakeGroup(items, order[k])];
    }
    assert order[..|order|] == order;
  }

  lemma GroupsForStep(items: seq<Record>, ss: seq<string>, k: nat)
    requires k < |ss|
    ensures GroupsFor(items, ss[..k + 1]) == GroupsFor(items, ss[..k]) + [MakeGroup(items, ss[k])]
  {
    assert ss[..k + 1][..k] == ss[..k];
  }

  /** The group of a present strain is non-empty, oldest first, and holds exactly that strain's records. */
  lemma {:induction false} MakeGroupShape(items: seq<Record>, s: string)
    requires s in StrainSet(items)
    ensures var g := MakeGroup(items, s);
      && g.strain == s
      && g.count > 0 && g.count == |g.items|
      && NonIncreasing(g.items, AgeKey)
      && multiset(g.items) == multiset(WithStrain(items, s))
      && g.totalJars == JarSum(WithStrain(items, s))
      && forall r <- g.items :: r.strainCode == Some(s)
  {
    var g := MakeGroup(items, s);
    StrainPresent(items, s);
    forall r <- g.items
      ensures r.strainCode == Some(s)
    {
      assert r in multiset(g.items);
      WithStrainCount(items, s, r);
    }
  }

  /** The groups come oldest mean age first: each group's mean age is at least that of every later group. */
  lemma {:induction false} StrainGroupsByMeanAge(items: seq<Record>)
    ensures var gs := StrainGroups(items);
      forall i, j | 0 <= i < j < |gs| :: AtLeast(gs[i].MeanAge(), gs[j].MeanAge())
  {
    var order := StrainOrder(items);
    assert StrainGroups(items) == GroupsFor(items, order);
    GroupsForByMeanAge(items, order);
  }

  /** Groups built for strains in non-increasing mean age keep that order. */
  lemma GroupsForByMeanAge(items: seq<Record>, ss: seq<string>)
    requires NonIncreasing(ss, s => MeanAgeOf(items, s))
    ensures var gs := GroupsFor(items, ss);
      forall i, j | 0 <= i < j < |gs| :: AtLeast(gs[i].MeanAge(), gs[j].MeanAge())
  {
    var gs := GroupsFor(items, ss);
    var key := s => MeanAgeOf(items, s);
    forall i, j | 0 <= i < j < |gs|
      ensures AtLeast(gs[i].MeanAge(), gs[j].MeanAge())
    {
      assert AtLeast(key(ss[i]), key(ss[j]));
      GroupsForAt(items, ss, i);
      GroupsForAt(items, ss, j);
    }
  }

  /** No strain has two groups. */
  lemma {:induction false} StrainGroupsDistinct(items: seq<Record>)
    ensures var gs := StrainGroups(items);
      forall i, j | 0 <= i < j < |gs| :: gs[i].strain != gs[j].strain
  {
    var order := StrainOrder(items);
    PermutationKeepsDistinct(order, StrainsOf(items));
    var gs := StrainGroups(items);
    forall i, j | 0 <= i < j < |gs|
      ensures gs[i].strain != gs[j].strain
    {
      GroupsForAt(items, order, i);
      GroupsForAt(items, order, j);
    }
  }

  /** Every group is the group of a strain present in the input. */
  lemma {:induction false} StrainGroupsMembers(items: seq<Record>)
    ensures forall g <- StrainGroups(items) :: g.strain in StrainSet(items) && g == MakeGroup(items, g.strain)
  {
    var order := StrainOrder(items);
    var gs := StrainGroups(items);
    forall g <- gs
      ensures g.strain in StrainSet(items) && g == MakeGroup(items, g.strain)
    {
      var k :| 0 <= k < |gs| && gs[k] == g;
      GroupsForAt(items, order, k);
      assert order[k] in multiset(StrainsOf(items));
    }
  }

  /** Flattening the groups of distinct strains `ss` gives back every record of those strains, with multiplicity. */
  lemma {:induction false} GroupsForCount(items: seq<Record>, ss: seq<string>, r: Record)
    requires Distinct(ss)
    ensures multiset(Flatten(GroupsFor(items, ss)))[r] ==
      if r.strainCode.Some? && r.strainCode.value in ss then multiset(items)[r] else 0
    decreases |ss|
  {
    if ss != [] {
      var init := ss[..|ss| - 1];
      var x := ss[|ss| - 1];
      var gs := GroupsFor(items, ss);
      assert gs[..|gs| - 1] == GroupsFor(items, init);
      assert ss == init + [x];
      GroupsForCount(items, init, r);
      WithStrainCount(items, x, r);
      if r.strainCode == Some(x) {
        assert x !in init;
      }
    }
  }

  /**
   * Every record with a strain code lands in exactly one group, as many
   * times as it occurs in the input; records without one are dropped.
   */
  lemma {:induction false} StrainGroupsCover(items: seq<Record>, r: Record)
    ensures multiset(Flatten(StrainGroups(items)))[r] ==
      if r.strainCode.Some? then multiset(items)[r] else 0
  {
    var order := StrainOrder(items);
    PermutationKeepsDistinct(order, StrainsOf(items));
    GroupsForCount(items, order, r);
    if r.strainCode.Some? && r in items {
      assert r.strainCode.value in StrainSet(items);
      assert r.strainCode.value in multiset(StrainsOf(items));
      assert r.strainCode.value in multiset(order);
    }
  }
}
