/**
 * The per-record rules of the weekly replanting planner: whether a batch of
 * jars is due for replanting (`is_eligible`), which worker pool handles its
 * medium (`assign_pool`), its age in weeks, the half-day capacity of a pool,
 * and the enrichment of a snapshot with these fields (`prepare_data`).
 */
module PlanningRules {
  import opened Wrappers
  import opened Text
  import opened IntMath

  /** The two worker pools: the general one and the one for the "i" specialists. */
  datatype Pool = PoolGen | PoolI

  /**
   * One batch ("series") as the planner sees it once normalised: jar count
   * already computed, age in weeks given or unknown. A `None` strain, medium
   * or room stands for a missing cell.
   */
  datatype Record = Record(
    barcode: string,
    strainCode: Option<string>,
    medium: Option<string>,
    chambre: Option<string>,
    jars: nat,
    ageWeeks: Option<int>)

  /** The media the planner accepts. The entry "i" is lower case and is compared with upper-cased media. */
  const EligibleMedia: set<string> := {"X", "XM", "RG", "XS", "E", "E+", "i"}
  const PoolIMedia: set<string> := {"XM", "i"}
  const PoolGenMedia: set<string> := {"X", "RG", "XS", "E", "E+"}
  /** The media on which a BRAHY batch uses the short threshold. */
  const BrahyMedia: set<string> := {"X", "XM", "E", "E+"}

  /** The media that can actually pass the medium rule once upper-casing is taken into account. */
  const ReachableMedia: set<string> := {"X", "XM", "RG", "XS", "E", "E+"}

  /** Why a batch is not due. */
  datatype Reason = ColdRoom | MediumNotEligible | UnknownAge | TooYoung(age: int, threshold: int)

  datatype Eligibility = Eligible | Ineligible(reason: Reason)

  /** The reason string the planner records. */
  function ReasonText(r: Reason): string {
    match r
    case ColdRoom => "Chambre froide"
    case MediumNotEligible => "Milieu non éligible"
    case UnknownAge => "Âge inconnu"
    case TooYoung(age, threshold) =>
      "Trop jeune (" + IntToString(age) + "sem < " + IntToString(threshold) + "sem)"
  }

  /** The room upper-cased contains "CHF" or "FROID" (a cold room). */
  predicate IsColdRoom(chambre: Option<string>) {
    chambre.Some? && (Contains(Upper(chambre.value), "CHF") || Contains(Upper(chambre.value), "FROID"))
  }

  /** The medium upper-cased belongs to `media`. */
  predicate MediumIn(medium: Option<string>, media: set<string>) {
    medium.Some? && Upper(medium.value) in media
  }

  predicate IsBrahy(strain: Option<string>) {
    strain.Some? && Upper(strain.value) == "BRAHY"
  }

  /** The age a batch must reach: the short threshold for BRAHY on X, XM, E or E+, the other one otherwise. */
  function Threshold(r: Record, thresholdBrahy: int, thresholdOther: int): (t: int)
    ensures t == thresholdBrahy || t == thresholdOther
    ensures !IsBrahy(r.strainCode) || !MediumIn(r.medium, ReachableMedia) ==> t == thresholdOther
  {
    if IsBrahy(r.strainCode) && MediumIn(r.medium, BrahyMedia) then thresholdBrahy else thresholdOther
  }

  /** `is_eligible`: the rules in order, the first that applies decides. */
  function IsEligible(r: Record, thresholdBrahy: int, thresholdOther: int): (e: Eligibility)
    ensures IsColdRoom(r.chambre) ==> e == Ineligible(ColdRoom)
    ensures e == Eligible ==>
      && !IsColdRoom(r.chambre)
      && MediumIn(r.medium, ReachableMedia)
      && r.ageWeeks.Some?
      && r.ageWeeks.value >= Threshold(r, thresholdBrahy, thresholdOther)
    ensures e.Ineligible? && e.reason.TooYoung? ==>
      && r.ageWeeks == Some(e.reason.age)
      && e.reason.threshold == Threshold(r, thresholdBrahy, thresholdOther)
      && e.reason.age < e.reason.threshold
  {
    MediumInDropsLowerI(r.medium, EligibleMedia);
    assert EligibleMedia - {"i"} == ReachableMedia;
    if IsColdRoom(r.chambre) then Ineligible(ColdRoom)
    else if !MediumIn(r.medium, EligibleMedia) then Ineligible(MediumNotEligible)
    else if r.ageWeeks.None? then Ineligible(UnknownAge)
    else
      var threshold := Threshold(r, thresholdBrahy, thresholdOther);
      if r.ageWeeks.value >= threshold then Eligible
      else Ineligible(TooYoung(r.ageWeeks.value, threshold))
  }

  /** `assign_pool`: the pool of a medium, by its upper-cased code. */
  function AssignPool(medium: Option<string>): (p: Option<Pool>)
    ensures p.Some? ==> MediumIn(medium, ReachableMedia)
    ensures p == Some(PoolI) ==> Upper(medium.value) == "XM"
  {
    UpperIsNotLowerI(if medium.Some? then medium.value else "");
    if MediumIn(medium, PoolIMedia) then Some(PoolI)
    else if MediumIn(medium, PoolGenMedia) then Some(PoolGen)
    else None
  }

  /** Upper-casing never yields a lower-case letter, so the entry "i" of a media set is never matched. */
  lemma {:induction false} UpperIsNotLowerI(s: string)
    ensures Upper(s) != "i"
  {
    if |s| == 1 {
      assert Upper(s)[0] != 'i';
    }
  }

  lemma {:induction false} MediumInDropsLowerI(medium: Option<string>, media: set<string>)
    ensures MediumIn(medium, media) <==> MediumIn(medium, media - {"i"})
  {
    if medium.Some? {
      UpperIsNotLowerI(medium.value);
    }
  }

  /**
   * A record is eligible exactly when it is not in a cold room, its medium
   * upper-cased is one of X, XM, RG, XS, E, E+ (never "i"), its age is known
   * and at least its threshold.
   */
  lemma {:induction false} EligibleIff(r: Record, thresholdBrahy: int, thresholdOther: int)
    ensures IsEligible(r, thresholdBrahy, thresholdOther) == Eligible <==>
      && !IsColdRoom(r.chambre)
      && MediumIn(r.medium, ReachableMedia)
      && r.ageWeeks.Some?
      && r.ageWeeks.value >= Threshold(r, thresholdBrahy, thresholdOther)
  {
    MediumInDropsLowerI(r.medium, EligibleMedia);
    assert EligibleMedia - {"i"} == ReachableMedia;
  }

  /** A cold room decides first, whatever the medium and the age. */
  lemma ColdRoomFirst(r: Record, thresholdBrahy: int, thresholdOther: int)
    requires IsColdRoom(r.chambre)
    ensures IsEligible(r, thresholdBrahy, thresholdOther) == Ineligible(ColdRoom)
  {
  }

  /** Outside a cold room, a medium outside the set is rejected before the age is looked at. */
  lemma MediumBeforeAge(r: Record, thresholdBrahy: int, thresholdOther: int)
    requires !IsColdRoom(r.chambre) && !MediumIn(r.medium, ReachableMedia)
    ensures IsEligible(r, thresholdBrahy, thresholdOther) == Ineligible(MediumNotEligible)
  {
    MediumInDropsLowerI(r.medium, EligibleMedia);
    assert EligibleMedia - {"i"} == ReachableMedia;
  }

  /** A medium written "i" or "I" is never eligible, although the set lists "i". */
  lemma {:induction false} MediumIIsRejected(r: Record, thresholdBrahy: int, thresholdOther: int)
    requires r.medium == Some("i") || r.medium == Some("I")
    ensures IsEligible(r, thresholdBrahy, thresholdOther).Ineligible?
    ensures !IsColdRoom(r.chambre) ==> IsEligible(r, thresholdBrahy, thresholdOther) == Ineligible(MediumNotEligible)
  {
    assert Upper(r.medium.value) == "I";
  }

  /** Outside a cold room, an accepted medium with no known age is rejected as "Âge inconnu". */
  lemma {:induction false} UnknownAgeThird(r: Record, thresholdBrahy: int, thresholdOther: int)
    requires !IsColdRoom(r.chambre) && MediumIn(r.medium, ReachableMedia) && r.ageWeeks.None?
    ensures IsEligible(r, thresholdBrahy, thresholdOther) == Ineligible(UnknownAge)
    ensures ReasonText(IsEligible(r, thresholdBrahy, thresholdOther).reason) == "Âge inconnu"
  {
    MediumInDropsLowerI(r.medium, EligibleMedia);
    assert EligibleMedia - {"i"} == ReachableMedia;
  }

  /** With a known medium and age outside a cold room, the age alone decides against the threshold. */
  lemma {:induction false} AgeDecides(r: Record, thresholdBrahy: int, thresholdOther: int)
    requires !IsColdRoom(r.chambre) && MediumIn(r.medium, ReachableMedia) && r.ageWeeks.Some?
    ensures var t := Threshold(r, thresholdBrahy, thresholdOther);
      IsEligible(r, thresholdBrahy, thresholdOther) ==
        if r.ageWeeks.value >= t then Eligible else Ineligible(TooYoung(r.ageWeeks.value, t))
  {
    MediumInDropsLowerI(r.medium, EligibleMedia);
    assert EligibleMedia - {"i"} == ReachableMedia;
  }

  /** The short threshold applies exactly to BRAHY (any case) on X, XM, E or E+. */
  lemma ThresholdChoice(r: Record, thresholdBrahy: int, thresholdOther: int)
    requires thresholdBrahy != thresholdOther
    ensures Threshold(r, thresholdBrahy, thresholdOther) == thresholdBrahy <==>
      r.strainCode.Some? && Upper(r.strainCode.value) == "BRAHY" &&
      r.medium.Some? && Upper(r.medium.value) in {"X", "XM", "E", "E+"}
  {
  }

  /** A BRAHY batch on X, XM, E or E+ outside a cold room is due exactly when its age reaches the short threshold. */
  lemma {:induction false} BrahyShortThreshold(r: Record, thresholdBrahy: int, thresholdOther: int)
    requires !IsColdRoom(r.chambre) && IsBrahy(r.strainCode) && MediumIn(r.medium, BrahyMedia)
    requires r.ageWeeks.Some?
    ensures IsEligible(r, thresholdBrahy, thresholdOther) == Eligible <==> r.ageWeeks.value >= thresholdBrahy
  {
    assert MediumIn(r.medium, EligibleMedia);
    assert Threshold(r, thresholdBrahy, thresholdOther) == thresholdBrahy;
  }

  /** Any other batch with a reachable medium outside a cold room is due exactly when its age reaches the other threshold. */
  lemma {:induction false} OtherThreshold(r: Record, thresholdBrahy: int, thresholdOther: int)
    requires !IsColdRoom(r.chambre) && MediumIn(r.medium, ReachableMedia)
    requires !(IsBrahy(r.strainCode) && MediumIn(r.medium, BrahyMedia))
    requires r.ageWeeks.Some?
    ensures IsEligible(r, thresholdBrahy, thresholdOther) == Eligible <==> r.ageWeeks.value >= thresholdOther
  {
    assert MediumIn(r.medium, EligibleMedia);
  }

  /** A BRAHY batch of medium X aged 5 weeks passes the 4-week threshold; on RG it fails the 8-week one. */
  lemma {:induction false} BrahyExample()
    ensures IsEligible(Record("b", Some("Brahy"), Some("x"), None, 10, Some(5)), 4, 8) == Eligible
    ensures IsEligible(Record("b", Some("Brahy"), Some("RG"), None, 10, Some(5)), 4, 8) == Ineligible(TooYoung(5, 8))
    ensures ReasonText(TooYoung(5, 8)) == "Trop jeune (5sem < 8sem)"
  {
    assert Upper("Brahy") == "BRAHY";
    assert Upper("x") == "X";
    assert Upper("RG") == "RG";
    assert NatToString(5) == "5" && NatToString(8) == "8";
  }

  /**
   * The pool of a medium: XM goes to the "i" pool, X, RG, XS, E and E+ to the
   * general pool, anything else (including "i" itself) to none.
   */
  lemma {:induction false} AssignPoolIff(medium: Option<string>)
    ensures AssignPool(medium) == Some(PoolI) <==> MediumIn(medium, {"XM"})
    ensures AssignPool(medium) == Some(PoolGen) <==> MediumIn(medium, PoolGenMedia)
    ensures AssignPool(medium) == None <==> !MediumIn(medium, ReachableMedia)
  {
    MediumInDropsLowerI(medium, PoolIMedia);
    MediumInDropsLowerI(medium, EligibleMedia);
    assert PoolIMedia - {"i"} == {"XM"};
    assert EligibleMedia - {"i"} == ReachableMedia;
  }

  /** Every eligible record has a pool: the no-pool case cannot arise from an eligible record. */
  lemma {:induction false} EligibleHasPool(r: Record, thresholdBrahy: int, thresholdOther: int)
    requires IsEligible(r, thresholdBrahy, thresholdOther) == Eligible
    ensures AssignPool(r.medium).Some?
    ensures r.ageWeeks.Some?
  {
    EligibleIff(r, thresholdBrahy, thresholdOther);
    AssignPoolIff(r.medium);
  }

  /**
   * `calculate_age_weeks` on dates given as day numbers: unknown when either
   * date is, otherwise the day difference divided by 7, truncated toward zero.
   */
  function AgeWeeks(datePlant: Option<int>, dateRef: Option<int>): (age: Option<int>)
    ensures age.Some? <==> datePlant.Some? && dateRef.Some?
    ensures age.Some? ==>
      var days := dateRef.value - datePlant.value;
      && (days >= 0 ==> 7 * age.value <= days < 7 * age.value + 7)
      && (days < 0 ==> 7 * age.value - 7 < days <= 7 * age.value)
  {
    if datePlant.None? || dateRef.None? then None
    else Some(TruncDiv(dateRef.value - datePlant.value, 7))
  }

  /**
   * The planner's configuration. The capacity of one half-day cell of a pool
   * is `int(workers * jars_per_day / 2)`.
   */
  datatype PlanningEngine = PlanningEngine(
    nbWorkersGen: int,
    nbWorkersI: int,
    jarsPerDayPerWorker: int,
    jarsPerBox: int)
  {
    function CapGenHalfDay(): int {
      HalfDayCapacity(nbWorkersGen, jarsPerDayPerWorker)
    }

    function CapIHalfDay(): int {
      HalfDayCapacity(nbWorkersI, jarsPerDayPerWorker)
    }
  }

  /** The constructor's default arguments. */
  const DefaultEngine := PlanningEngine(17, 3, 50, 14)

  /** Half of a day's throughput of `workers`, truncated toward zero. */
  function HalfDayCapacity(workers: int, jarsPerDay: int): (cap: int)
    ensures workers * jarsPerDay >= 0 ==> 0 <= 2 * cap <= workers * jarsPerDay <= 2 * cap + 1
    ensures workers * jarsPerDay < 0 ==> 2 * cap - 1 <= workers * jarsPerDay <= 2 * cap <= 0
  {
    TruncDiv(workers * jarsPerDay, 2)
  }

  /** With the default configuration a general cell holds 425 jars and an "i" cell 75. */
  lemma DefaultCapacities()
    ensures DefaultEngine.CapGenHalfDay() == 425
    ensures DefaultEngine.CapIHalfDay() == 75
  {
  }

  /** A record enriched with its eligibility and its pool (`prepare_data`). */
  datatype Prepared = Prepared(rec: Record, eligibility: Eligibility, pool: Option<Pool>) {
    predicate IsEligible() {
      eligibility == Eligible
    }
  }

  /** `prepare_data` on an already normalised snapshot: one enriched copy per record, same order. */
  function PrepareData(records: seq<Record>, thresholdBrahy: int, thresholdOther: int): (df: seq<Prepared>)
    ensures |df| == |records|
    ensures forall i | 0 <= i < |df| :: df[i].rec == records[i]
    ensures forall i | 0 <= i < |df| :: df[i].eligibility == IsEligible(records[i], thresholdBrahy, thresholdOther)
    ensures forall i | 0 <= i < |df| :: df[i].pool == AssignPool(records[i].medium)
  {
    seq(|records|, i requires 0 <= i < |records| =>
      Prepared(records[i], IsEligible(records[i], thresholdBrahy, thresholdOther), AssignPool(records[i].medium)))
  }

  /** An enriched row is consistent when being eligible implies a pool and a known age. */
  predicate Consistent(p: Prepared) {
    p.IsEligible() ==> p.pool.Some? && p.rec.ageWeeks.Some?
  }

  /** Every row `prepare_data` produces is consistent: an eligible row has a pool and a known age. */
  lemma {:induction false} PrepareDataConsistent(records: seq<Record>, thresholdBrahy: int, thresholdOther: int)
    ensures forall p <- PrepareData(records, thresholdBrahy, thresholdOther) :: Consistent(p)
  {
    var df := PrepareData(records, thresholdBrahy, thresholdOther);
    forall i | 0 <= i < |df|
      ensures Consistent(df[i])
    {
      if df[i].IsEligible() {
        EligibleHasPool(records[i], thresholdBrahy, thresholdOther);
      }
    }
  }
}
