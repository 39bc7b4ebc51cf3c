/**
 The provider tables of packages/core/knowledge-base/tier-mapping.ts: which tier each situation gets,
 and what adding income or deductions does to its price.
 */
module TierTables {
  import opened Wrappers
  import opened TierMapping

  const SELF_EMPLOYED := Condition(
    "Has freelance or self-employment income (1099-NEC or 1099-MISC)", (s: Situation) => HasSelfEmployment(s))

  const PREMIUM_INCOME := Condition(
    "Has investment income (1099-B, 1099-DIV), rental income, or K-1 income", (s: Situation) => HasPremiumIncome(s))

  function RoutesElsewhere(tier: string): (c: Condition) {
    Condition("Has self-employment income — routes to " + tier + " tier instead", (s: Situation) => HasSelfEmployment(s))
  }

  function ComplexIncome(description: string): (c: Condition) {
    Condition(description, (s: Situation) => HasComplexIncome(s))
  }

  function Itemized(description: string): (c: Condition) {
    Condition(description, (s: Situation) => Itemizes(s))
  }

  const TURBO_TAX_TIERS: seq<Tier> := [
    Tier("Self-Employed", Some(12900), Some(5900), [SELF_EMPLOYED], []),
    Tier("Premium", Some(12900), Some(5900), [PREMIUM_INCOME], [RoutesElsewhere("Self-Employed")]),
    Tier("Deluxe", Some(6900), Some(5900),
         [Itemized("Has deductions beyond standard (mortgage interest, charitable, etc.)")],
         [ComplexIncome("Has complex income — routes to Premium or Self-Employed tier")]),
    Tier("Free", Some(0), Some(0),
         [Condition("Has W-2 income only — simple return eligible for Free Edition", (s: Situation) => HasOnlyW2(s))],
         [ComplexIncome("Has income types beyond W-2 — Free Edition does not support these"),
          Itemized("Has itemized deductions — Free Edition does not support Schedule A")])
  ]

  const HR_BLOCK_TIERS: seq<Tier> := [
    Tier("Self-Employed", Some(11000), Some(3700), [SELF_EMPLOYED], []),
    Tier("Premium", Some(8500), Some(3700), [PREMIUM_INCOME], [RoutesElsewhere("Self-Employed")]),
    Tier("Deluxe", Some(5500), Some(3700),
         [Itemized("Has deductions or credits requiring Deluxe (mortgage, HSA, child/dependent care)")],
         [ComplexIncome("Has complex income — routes to Premium or Self-Employed tier")]),
    Tier("Free Online", Some(0), Some(0),
         [Condition("W-2 income only or simple return without complex deductions", (s: Situation) => IsSimple(s))],
         [ComplexIncome("Has income types requiring Deluxe or higher"),
          Itemized("Has itemized deductions requiring Deluxe or higher")])
  ]

  const TAX_ACT_TIERS: seq<Tier> := [
    Tier("Self-Employed+", Some(9999), Some(5499), [SELF_EMPLOYED], []),
    Tier("Premier", Some(7999), Some(5499), [PREMIUM_INCOME], [RoutesElsewhere("Self-Employed+")]),
    Tier("Deluxe+", Some(4999), Some(5499),
         [Itemized("Has deductions requiring Deluxe+ (mortgage, HSA, itemized)")],
         [ComplexIncome("Has complex income — routes to Premier or Self-Employed+ tier")]),
    Tier("Free", Some(0), Some(3999),
         [Condition("Simple return with W-2 income only", (s: Situation) => IsSimple(s))],
         [ComplexIncome("Has income types requiring Deluxe+ or higher"),
          Itemized("Has itemized deductions requiring Deluxe+ or higher")])
  ]

  const FREE_TAX_USA_TIERS: seq<Tier> := [
    Tier("Deluxe", Some(0), Some(1499),
         [Condition("Has any income requiring support/audit add-on (complex return: investments, self-employment, rental)",
                    (s: Situation) => HasComplexIncome(s) || IsMultiState(s))], []),
    Tier("Free", Some(0), Some(1499),
         [Condition("Any federal return — FreeTaxUSA offers free federal filing for all supported situations",
                    (s: Situation) => true)], [])
  ]

  const CASH_APP_TIERS: seq<Tier> := [
    Tier("Free", Some(0), Some(0),
         [Condition("Any supported return — Cash App Taxes is free for all supported situations", (s: Situation) => true)],
         [Condition("Has K-1 income — Cash App Taxes does not support Schedule K-1", (s: Situation) => HasK1(s))])
  ]

  const TURBO_TAX := Provider("turbotax", "TurboTax", TURBO_TAX_TIERS)
  const HR_BLOCK := Provider("hrblock", "H&R Block", HR_BLOCK_TIERS)
  const TAX_ACT := Provider("taxact", "TaxAct", TAX_ACT_TIERS)
  const FREE_TAX_USA := Provider("freetaxusa", "FreeTaxUSA", FREE_TAX_USA_TIERS)
  const CASH_APP := Provider("cashapp", "Cash App Taxes", CASH_APP_TIERS)

  // ---------- Which tier a situation is eligible for ----------

  /** The four-tier providers differ only in who gets the free tier. */
  ghost predicate FourTiers(tiers: seq<Tier>, s: Situation, free: bool) {
    && |tiers| == 4
    && (Eligible(tiers[0], s) <==> HasSelfEmployment(s))
    && (Eligible(tiers[1], s) <==> HasPremiumIncome(s) && !HasSelfEmployment(s))
    && (Eligible(tiers[2], s) <==> Itemizes(s) && !HasComplexIncome(s))
    && (Eligible(tiers[3], s) <==> free && !HasComplexIncome(s) && !Itemizes(s))
  }

  lemma EligibleOneOne(t: Tier, s: Situation)
    requires |t.qualifying| == 1 && |t.disqualifying| == 1
    ensures Eligible(t, s) <==> Holds(t.qualifying[0], s) && !Holds(t.disqualifying[0], s)
  {
  }

  lemma EligibleOneTwo(t: Tier, s: Situation)
    requires |t.qualifying| == 1 && |t.disqualifying| == 2
    ensures Eligible(t, s) <==>
            Holds(t.qualifying[0], s) && !Holds(t.disqualifying[0], s) && !Holds(t.disqualifying[1], s)
  {
  }

  lemma EligibleOneNone(t: Tier, s: Situation)
    requires |t.qualifying| == 1 && t.disqualifying == []
    ensures Eligible(t, s) <==> Holds(t.qualifying[0], s)
  {
  }

  lemma TurboTaxTiers(s: Situation)
    ensures FourTiers(TURBO_TAX_TIERS, s, HasOnlyW2(s))
  {
    EligibleOneNone(TURBO_TAX_TIERS[0], s);
    EligibleOneOne(TURBO_TAX_TIERS[1], s);
    EligibleOneOne(TURBO_TAX_TIERS[2], s);
    EligibleOneTwo(TURBO_TAX_TIERS[3], s);
  }

  lemma HrBlockTiers(s: Situation)
    ensures FourTiers(HR_BLOCK_TIERS, s, true)
  {
    EligibleOneNone(HR_BLOCK_TIERS[0], s);
    EligibleOneOne(HR_BLOCK_TIERS[1], s);
    EligibleOneOne(HR_BLOCK_TIERS[2], s);
    EligibleOneTwo(HR_BLOCK_TIERS[3], s);
  }

  lemma TaxActTiers(s: Situation)
    ensures FourTiers(TAX_ACT_TIERS, s, true)
  {
    EligibleOneNone(TAX_ACT_TIERS[0], s);
    EligibleOneOne(TAX_ACT_TIERS[1], s);
    EligibleOneOne(TAX_ACT_TIERS[2], s);
    EligibleOneTwo(TAX_ACT_TIERS[3], s);
  }

  /** No situation is eligible for two tiers of one of these providers, so their order does not matter. */
  lemma TiersAreExclusive()
    ensures Exclusive(TURBO_TAX_TIERS) && Exclusive(HR_BLOCK_TIERS) && Exclusive(TAX_ACT_TIERS)
  {
    forall s: Situation
      ensures FourTiers(TURBO_TAX_TIERS, s, HasOnlyW2(s))
      ensures FourTiers(HR_BLOCK_TIERS, s, true) && FourTiers(TAX_ACT_TIERS, s, true)
    {
      TurboTaxTiers(s);
      HrBlockTiers(s);
      TaxActTiers(s);
    }
    FourTiersExclusive(TURBO_TAX_TIERS);
    FourTiersExclusive(HR_BLOCK_TIERS);
    FourTiersExclusive(TAX_ACT_TIERS);
  }

  lemma FourTiersExclusive(tiers: seq<Tier>)
    requires |tiers| == 4 && forall s :: FourTiers(tiers, s, HasOnlyW2(s)) || FourTiers(tiers, s, true)
    ensures Exclusive(tiers)
  {
    forall s, i, j | 0 <= i < |tiers| && 0 <= j < |tiers| && Eligible(tiers[i], s) && Eligible(tiers[j], s)
      ensures i == j
    {
      assert FourTiers(tiers, s, HasOnlyW2(s)) || FourTiers(tiers, s, true);
    }
  }

  /** The position of the tier a situation gets at a provider with a free tier for everyone left over. */
  function Place(s: Situation): (m: nat) {
    if HasSelfEmployment(s) then 0 else if HasPremiumIncome(s) then 1 else if Itemizes(s) then 2 else 3
  }

  /** H&R Block and TaxAct match every situation, with the price of its place. */
  lemma AlwaysMatches(s: Situation, hr: Evaluation, ta: Evaluation)
    requires Correct(HR_BLOCK, s, hr) && Correct(TAX_ACT, s, ta)
    ensures hr.matchedTier == Some(HR_BLOCK_TIERS[Place(s)].tierName)
    ensures hr.federalPrice == HR_BLOCK_TIERS[Place(s)].federalPrice && hr.statePrice == HR_BLOCK_TIERS[Place(s)].statePrice
    ensures ta.matchedTier == Some(TAX_ACT_TIERS[Place(s)].tierName)
    ensures ta.federalPrice == TAX_ACT_TIERS[Place(s)].federalPrice && ta.statePrice == TAX_ACT_TIERS[Place(s)].statePrice
  {
    HrBlockTiers(s);
    TaxActTiers(s);
    MatchedAt(HR_BLOCK, s, hr);
    MatchedAt(TAX_ACT, s, ta);
  }

  lemma MatchedAt(p: Provider, s: Situation, e: Evaluation)
    requires FourTiers(p.tiers, s, true) && Correct(p, s, e)
    ensures e.matchedTier == Some(p.tiers[Place(s)].tierName)
    ensures e.federalPrice == p.tiers[Place(s)].federalPrice && e.statePrice == p.tiers[Place(s)].statePrice
  {
  }

  // ---------- More income or deductions ----------

  /** `t` has at least the income streams and deductions of `s`. */
  ghost predicate Adds(s: Situation, t: Situation) {
    && (forall x :: x in s.incomeStreams ==> x in t.incomeStreams)
    && (forall x :: x in s.deductions ==> x in t.deductions)
  }

  lemma IncomeGrows(s: Situation, t: Situation, types: set<IncomeType>)
    requires Adds(s, t) && HasIncome(s, types)
    ensures HasIncome(t, types)
  {
    var i :| 0 <= i < |s.incomeStreams| && s.incomeStreams[i] in types;
    assert s.incomeStreams[i] in t.incomeStreams;
    var j :| 0 <= j < |t.incomeStreams| && t.incomeStreams[j] == s.incomeStreams[i];
  }

  lemma PlaceOnlyRises(s: Situation, t: Situation)
    requires Adds(s, t)
    ensures Place(t) <= Place(s)
  {
    if HasSelfEmployment(s) {
      IncomeGrows(s, t, {Nec1099, Misc1099});
    } else if HasInvestments(s) {
      IncomeGrows(s, t, {B1099, Div1099, Int1099});
    } else if HasRental(s) {
      IncomeGrows(s, t, {Rental});
    } else if HasK1(s) {
      IncomeGrows(s, t, {K1});
    } else if Itemizes(s) {
      var i :| 0 <= i < |s.deductions| && s.deductions[i] in {MortgageInterest, Charitable, Medical, StateLocalTaxes};
      assert s.deductions[i] in t.deductions;
      var j :| 0 <= j < |t.deductions| && t.deductions[j] == s.deductions[i];
    }
  }

  /** Both prices of the tiers fall from the first to the last. */
  ghost predicate PricesFall(tiers: seq<Tier>) {
    && (forall i :: 0 <= i < |tiers| ==> tiers[i].federalPrice.Some? && tiers[i].statePrice.Some?)
    && forall i, j :: 0 <= i <= j < |tiers| ==>
         && tiers[j].federalPrice.value <= tiers[i].federalPrice.value
         && tiers[j].statePrice.value <= tiers[i].statePrice.value
  }

  ghost predicate NoCheaper(e: Evaluation, f: Evaluation) {
    && e.federalPrice.Some? && f.federalPrice.Some? && e.federalPrice.value <= f.federalPrice.value
    && e.statePrice.Some? && f.statePrice.Some? && e.statePrice.value <= f.statePrice.value
  }

  lemma PricesRise(p: Provider, s: Situation, t: Situation, e: Evaluation, f: Evaluation)
    requires PricesFall(p.tiers) && FourTiers(p.tiers, s, true) && FourTiers(p.tiers, t, true)
    requires Adds(s, t) && Correct(p, s, e) && Correct(p, t, f)
    ensures NoCheaper(e, f)
  {
    PlaceOnlyRises(s, t);
    MatchedAt(p, s, e);
    MatchedAt(p, t, f);
  }

  lemma TablePricesFall()
    ensures PricesFall(HR_BLOCK.tiers) && PricesFall(TAX_ACT.tiers)
  {
  }

  /** Adding a stream or a deduction never lowers a price at H&R Block. */
  lemma HrBlockPricesOnlyRise(s: Situation, t: Situation, e: Evaluation, f: Evaluation)
    requires Adds(s, t) && Correct(HR_BLOCK, s, e) && Correct(HR_BLOCK, t, f)
    ensures NoCheaper(e, f)
  {
    TablePricesFall();
    HrBlockTiers(s);
    HrBlockTiers(t);
    assert FourTiers(HR_BLOCK.tiers, s, true) && FourTiers(HR_BLOCK.tiers, t, true);
    PricesRise(HR_BLOCK, s, t, e, f);
  }

  /** Nor at TaxAct. */
  lemma TaxActPricesOnlyRise(s: Situation, t: Situation, e: Evaluation, f: Evaluation)
    requires Adds(s, t) && Correct(TAX_ACT, s, e) && Correct(TAX_ACT, t, f)
    ensures NoCheaper(e, f)
  {
    TablePricesFall();
    TaxActTiers(s);
    TaxActTiers(t);
    PricesRise(TAX_ACT, s, t, e, f);
  }

  // ---------- Providers that may match nothing ----------

  /** TurboTax matches unless the return is simple, does not itemize, and is not W-2 only. */
  lemma TurboTaxMatches(s: Situation, e: Evaluation)
    requires Correct(TURBO_TAX, s, e)
    ensures e.matchedTier.Some? <==> HasComplexIncome(s) || Itemizes(s) || HasOnlyW2(s)
  {
    TurboTaxTiers(s);
    var m: nat :| FirstEligible(TURBO_TAX_TIERS, s, m) && (e.matchedTier.Some? <==> m < |TURBO_TAX_TIERS|);
    if m == 4 {
      assert !Eligible(TURBO_TAX_TIERS[0], s) && !Eligible(TURBO_TAX_TIERS[1], s);
      assert !Eligible(TURBO_TAX_TIERS[2], s) && !Eligible(TURBO_TAX_TIERS[3], s);
    }
  }

  lemma WagesAndPension()
    ensures HasOnlyW2(Situation([W2], [], []))
    ensures var s := Situation([W2, R1099], [], []); !HasOnlyW2(s) && !HasComplexIncome(s) && !Itemizes(s)
  {
    var s := Situation([W2, R1099], [], []);
    assert s.incomeStreams[1] == R1099;
  }

  /** So at TurboTax a further stream can even lose the match: W-2 income and then a pension. */
  lemma TurboTaxCanLoseItsMatch(before: Evaluation, after: Evaluation)
    requires Correct(TURBO_TAX, Situation([W2], [], []), before)
    requires Correct(TURBO_TAX, Situation([W2, R1099], [], []), after)
    ensures before.matchedTier.Some? && after.matchedTier.None?
  {
    WagesAndPension();
    TurboTaxMatches(Situation([W2], [], []), before);
    TurboTaxMatches(Situation([W2, R1099], [], []), after);
  }

  /** FreeTaxUSA charges every situation the same; Cash App is free and matches all but K-1 income. */
  lemma FlatProviders(s: Situation, fu: Evaluation, ca: Evaluation)
    requires Correct(FREE_TAX_USA, s, fu) && Correct(CASH_APP, s, ca)
    ensures fu.matchedTier.Some? && fu.federalPrice == Some(0) && fu.statePrice == Some(1499)
    ensures ca.matchedTier.Some? <==> !HasK1(s)
    ensures ca.matchedTier.Some? ==> ca.federalPrice == Some(0) && ca.statePrice == Some(0)
  {
    EligibleOneNone(FREE_TAX_USA_TIERS[1], s);
    EligibleOneOne(CASH_APP_TIERS[0], s);
    assert Eligible(FREE_TAX_USA_TIERS[1], s);
    assert Eligible(CASH_APP_TIERS[0], s) <==> !HasK1(s);
  }

  // ---------- What each provider charges ----------

  ghost predicate SelfEmployed(s: Situation) {
    Nec1099 in s.incomeStreams || Misc1099 in s.incomeStreams
  }

  ghost predicate HasCapital(s: Situation) {
    || B1099 in s.incomeStreams || Div1099 in s.incomeStreams || Int1099 in s.incomeStreams
    || Rental in s.incomeStreams || K1 in s.incomeStreams
  }

  ghost predicate DeductsMore(s: Situation) {
    || MortgageInterest in s.deductions || StateLocalTaxes in s.deductions
    || Charitable in s.deductions || Medical in s.deductions
  }

  ghost predicate WagesOnly(s: Situation) {
    W2 in s.incomeStreams && forall x :: x in s.incomeStreams ==> x == W2
  }

  lemma IncomeIsIn(s: Situation, types: set<IncomeType>)
    ensures HasIncome(s, types) <==> exists x :: x in s.incomeStreams && x in types
  {
    if x :| x in s.incomeStreams && x in types {
      var i :| 0 <= i < |s.incomeStreams| && s.incomeStreams[i] == x;
    }
  }

  lemma PredicatesMean(s: Situation)
    ensures HasSelfEmployment(s) <==> SelfEmployed(s)
    ensures HasPremiumIncome(s) <==> HasCapital(s)
    ensures HasK1(s) <==> K1 in s.incomeStreams
  {
    IncomeIsIn(s, {Nec1099, Misc1099});
    IncomeIsIn(s, {B1099, Div1099, Int1099});
    IncomeIsIn(s, {Rental});
    IncomeIsIn(s, {K1});
  }

  lemma DeductionsMean(s: Situation)
    ensures Itemizes(s) <==> DeductsMore(s)
    ensures HasOnlyW2(s) <==> WagesOnly(s)
  {
    if DeductsMore(s) {
      var x :| x in s.deductions && x in {MortgageInterest, Charitable, Medical, StateLocalTaxes};
      var i :| 0 <= i < |s.deductions| && s.deductions[i] == x;
    }
    if WagesOnly(s) {
      forall i | 0 <= i < |s.incomeStreams|
        ensures s.incomeStreams[i] == W2
      {
        assert s.incomeStreams[i] in s.incomeStreams;
      }
    }
    if HasOnlyW2(s) {
      assert s.incomeStreams[0] == W2;
    }
  }

  ghost predicate Charges(e: Evaluation, tierName: string, federalPrice: int, statePrice: int) {
    e.matchedTier == Some(tierName) && e.federalPrice == Some(federalPrice) && e.statePrice == Some(statePrice)
  }

  /** The tier and prices at a provider with four tiers; None is no match. */
  lemma FourTierMatch(p: Provider, s: Situation, free: bool, e: Evaluation)
    requires FourTiers(p.tiers, s, free) && Correct(p, s, e)
    ensures var t := p.tiers;
            var m := if SelfEmployed(s) then 0 else if HasCapital(s) then 1 else if DeductsMore(s) then 2 else 3;
            if m < 3 || free then
              e.matchedTier == Some(t[m].tierName) && e.federalPrice == t[m].federalPrice && e.statePrice == t[m].statePrice
            else
              e.matchedTier == None && e.federalPrice == None && e.statePrice == None
  {
    PredicatesMean(s);
    DeductionsMean(s);
    assert Eligible(p.tiers[0], s) <==> SelfEmployed(s);
    assert Eligible(p.tiers[1], s) <==> HasCapital(s) && !SelfEmployed(s);
    assert Eligible(p.tiers[2], s) <==> DeductsMore(s) && !HasCapital(s) && !SelfEmployed(s);
    assert Eligible(p.tiers[3], s) <==> free && !DeductsMore(s) && !HasCapital(s) && !SelfEmployed(s);
  }

  lemma TurboTaxCharges(s: Situation, e: Evaluation)
    requires Correct(TURBO_TAX, s, e)
    ensures if SelfEmployed(s) then Charges(e, "Self-Employed", 12900, 5900)
            else if HasCapital(s) then Charges(e, "Premium", 12900, 5900)
            else if DeductsMore(s) then Charges(e, "Deluxe", 6900, 5900)
            else if WagesOnly(s) then Charges(e, "Free", 0, 0)
            else e.matchedTier == None && e.federalPrice == None && e.statePrice == None
  {
    TurboTaxTiers(s);
    DeductionsMean(s);
    FourTierMatch(TURBO_TAX, s, HasOnlyW2(s), e);
  }

  lemma HrBlockCharges(s: Situation, e: Evaluation)
    requires Correct(HR_BLOCK, s, e)
    ensures if SelfEmployed(s) then Charges(e, "Self-Employed", 11000, 3700)
            else if HasCapital(s) then Charges(e, "Premium", 8500, 3700)
            else if DeductsMore(s) then Charges(e, "Deluxe", 5500, 3700)
            else Charges(e, "Free Online", 0, 0)
  {
    HrBlockTiers(s);
    FourTierMatch(HR_BLOCK, s, true, e);
  }

  lemma TaxActCharges(s: Situation, e: Evaluation)
    requires Correct(TAX_ACT, s, e)
    ensures if SelfEmployed(s) then Charges(e, "Self-Employed+", 9999, 5499)
            else if HasCapital(s) then Charges(e, "Premier", 7999, 5499)
            else if DeductsMore(s) then Charges(e, "Deluxe+", 4999, 5499)
            else Charges(e, "Free", 0, 3999)
  {
    TaxActTiers(s);
    FourTierMatch(TAX_ACT, s, true, e);
  }

  lemma FreeTaxUsaCharges(s: Situation, e: Evaluation)
    requires Correct(FREE_TAX_USA, s, e)
    ensures if SelfEmployed(s) || HasCapital(s) || s.additionalStates != [] then Charges(e, "Deluxe", 0, 1499)
            else Charges(e, "Free", 0, 1499)
  {
    PredicatesMean(s);
    EligibleOneNone(FREE_TAX_USA_TIERS[0], s);
    EligibleOneNone(FREE_TAX_USA_TIERS[1], s);
    assert Eligible(FREE_TAX_USA_TIERS[0], s) <==> SelfEmployed(s) || HasCapital(s) || s.additionalStates != [];
    assert Eligible(FREE_TAX_USA_TIERS[1], s);
  }

  lemma CashAppCharges(s: Situation, e: Evaluation)
    requires Correct(CASH_APP, s, e)
    ensures if K1 in s.incomeStreams then e.matchedTier == None && e.federalPrice == None && e.statePrice == None
            else Charges(e, "Free", 0, 0)
  {
    PredicatesMean(s);
    EligibleOneOne(CASH_APP_TIERS[0], s);
    assert Eligible(CASH_APP_TIERS[0], s) <==> K1 !in s.incomeStreams;
  }
}
