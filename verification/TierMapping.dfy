/**
 The tier matcher of packages/core/knowledge-base/tier-mapping.ts and its five provider tables. A
 situation keeps what the conditions read. Prices are in cents; None is "not stated".
 */
module TierMapping {
  import opened Wrappers

  datatype IncomeType =
    | W2 | Nec1099 | Misc1099 | B1099 | Div1099 | Int1099 | R1099 | K1 | Rental | OtherIncome

  datatype DeductionType =
    | Standard | MortgageInterest | StateLocalTaxes | Charitable | Medical
    | StudentLoanInterest | EducatorExpense | OtherDeduction

  datatype Situation = Situation(
    incomeStreams: seq<IncomeType>, deductions: seq<DeductionType>, additionalStates: seq<string>)

  datatype Condition = Condition(description: string, evaluate: Situation -> bool)

  datatype Tier = Tier(
    tierName: string, federalPrice: Option<int>, statePrice: Option<int>,
    qualifying: seq<Condition>, disqualifying: seq<Condition>)

  datatype Provider = Provider(providerId: string, providerName: string, tiers: seq<Tier>)

  datatype Evaluation = Evaluation(
    providerId: string, providerName: string, matchedTier: Option<string>,
    federalPrice: Option<int>, statePrice: Option<int>,
    matchedConditions: seq<string>, disqualifiedBy: seq<string>)

  // ---------- The income predicates ----------

  predicate HasIncome(s: Situation, types: set<IncomeType>) {
    exists i :: 0 <= i < |s.incomeStreams| && s.incomeStreams[i] in types
  }

  predicate HasSelfEmployment(s: Situation) { HasIncome(s, {Nec1099, Misc1099}) }

  predicate HasInvestments(s: Situation) { HasIncome(s, {B1099, Div1099, Int1099}) }

  predicate HasRental(s: Situation) { HasIncome(s, {Rental}) }

  predicate HasK1(s: Situation) { HasIncome(s, {K1}) }

  predicate IsMultiState(s: Situation) { |s.additionalStates| > 0 }

  predicate HasOnlyW2(s: Situation) {
    s.incomeStreams != [] && forall i :: 0 <= i < |s.incomeStreams| ==> s.incomeStreams[i] == W2
  }

  predicate HasPremiumIncome(s: Situation) { HasInvestments(s) || HasRental(s) || HasK1(s) }

  predicate HasComplexIncome(s: Situation) { HasSelfEmployment(s) || HasPremiumIncome(s) }

  predicate Itemizes(s: Situation) {
    exists i :: 0 <= i < |s.deductions| && s.deductions[i] in {MortgageInterest, Charitable, Medical, StateLocalTaxes}
  }

  predicate IsSimple(s: Situation) { HasOnlyW2(s) || !HasComplexIncome(s) }

  // ---------- The matcher ----------

  predicate Holds(c: Condition, s: Situation) { c.evaluate(s) }

  predicate Disqualified(t: Tier, s: Situation) {
    exists i :: 0 <= i < |t.disqualifying| && Holds(t.disqualifying[i], s)
  }

  predicate Eligible(t: Tier, s: Situation) {
    !Disqualified(t, s) && forall i :: 0 <= i < |t.qualifying| ==> Holds(t.qualifying[i], s)
  }

  /** The entry that disqualifying a tier leaves: its first condition that holds. */
  function DisqualificationEntry(t: Tier, s: Situation): (r: string)
    requires Disqualified(t, s)
  {
    "[" + t.tierName + "] disqualified: " + FirstHolding(t.disqualifying, s).description
  }

  function FirstHolding(conditions: seq<Condition>, s: Situation): (r: Condition)
    requires exists i :: 0 <= i < |conditions| && Holds(conditions[i], s)
    ensures r in conditions && Holds(r, s)
  {
    if Holds(conditions[0], s) then conditions[0]
    else
      assert exists i :: 0 <= i < |conditions[1..]| && Holds(conditions[1..][i], s) by {
        var i :| 0 <= i < |conditions| && Holds(conditions[i], s);
        assert Holds(conditions[1..][i - 1], s);
      }
      FirstHolding(conditions[1..], s)
  }

  /** One entry for each disqualified tier, in order. */
  function Entries(tiers: seq<Tier>, s: Situation): (r: seq<string>) {
    if tiers == [] then []
    else
      var last := tiers[|tiers| - 1];
      Entries(tiers[..|tiers| - 1], s) + if Disqualified(last, s) then [DisqualificationEntry(last, s)] else []
  }

  /** `m` is the first eligible tier, or the number of tiers if there is none. */
  ghost predicate FirstEligible(tiers: seq<Tier>, s: Situation, m: nat) {
    && m <= |tiers| && (m < |tiers| ==> Eligible(tiers[m], s))
    && forall i :: 0 <= i < m ==> !Eligible(tiers[i], s)
  }

  function Descriptions(conditions: seq<Condition>): (r: seq<string>) {
    seq(|conditions|, i requires 0 <= i < |conditions| => conditions[i].description)
  }

  /**
   What an evaluation must say: the name and prices of the first eligible tier, the descriptions of
   its conditions, and one entry for each disqualified tier before it.
   */
  ghost predicate Correct(p: Provider, s: Situation, e: Evaluation) {
    exists m: nat ::
      && FirstEligible(p.tiers, s, m)
      && e.disqualifiedBy == Entries(p.tiers[..m], s)
      && e.providerId == p.providerId && e.providerName == p.providerName
      && if m == |p.tiers| then
           e.matchedTier == None && e.federalPrice == None && e.statePrice == None && e.matchedConditions == []
         else
           var t := p.tiers[m];
           && e.matchedTier == Some(t.tierName)
           && e.federalPrice == t.federalPrice && e.statePrice == t.statePrice
           && e.matchedConditions ==
                if t.qualifying == [] then ["Catch-all " + t.tierName + " tier"] else Descriptions(t.qualifying)
  }

  /** The `some` callback over the disqualifying conditions, which pushes the first one that holds. */
  method CheckDisqualifying(t: Tier, s: Situation, disqualifiedBy0: seq<string>)
    returns (disqualified: bool, disqualifiedBy: seq<string>)
    ensures disqualified <==> Disqualified(t, s)
    ensures disqualifiedBy == disqualifiedBy0 + if Disqualified(t, s) then [DisqualificationEntry(t, s)] else []
  {
    disqualified, disqualifiedBy := false, disqualifiedBy0;
    for i := 0 to |t.disqualifying|
      invariant !disqualified && disqualifiedBy == disqualifiedBy0
      invariant forall j :: 0 <= j < i ==> !Holds(t.disqualifying[j], s)
    {
      var cond := t.disqualifying[i];
      if cond.evaluate(s) {
        assert Holds(t.disqualifying[i], s);
        FirstHoldingAt(t.disqualifying, s, i);
        return true, disqualifiedBy + ["[" + t.tierName + "] disqualified: " + cond.description];
      }
    }
  }

  lemma {:induction false} FirstHoldingAt(conditions: seq<Condition>, s: Situation, i: nat)
    requires i < |conditions| && Holds(conditions[i], s) && forall j :: 0 <= j < i ==> !Holds(conditions[j], s)
    ensures FirstHolding(conditions, s) == conditions[i]
  {
    if i > 0 {
      FirstHoldingAt(conditions[1..], s, i - 1);
    }
  }

  /** `tier.qualifyingConditions.every(...)` */
  method CheckQualifying(t: Tier, s: Situation) returns (allQualify: bool)
    ensures allQualify <==> forall i :: 0 <= i < |t.qualifying| ==> Holds(t.qualifying[i], s)
  {
    for i := 0 to |t.qualifying|
      invariant forall j :: 0 <= j < i ==> Holds(t.qualifying[j], s)
    {
      if !t.qualifying[i].evaluate(s) {
        assert !Holds(t.qualifying[i], s);
        return false;
      }
    }
    return true;
  }

  /** The descriptions recorded for a matching tier. */
  method CollectMatched(t: Tier, s: Situation) returns (matchedConditions: seq<string>)
    requires forall i :: 0 <= i < |t.qualifying| ==> Holds(t.qualifying[i], s)
    ensures matchedConditions == if t.qualifying == [] then ["Catch-all " + t.tierName + " tier"] else Descriptions(t.qualifying)
  {
    matchedConditions := [];
    for i := 0 to |t.qualifying|
      invariant matchedConditions == Descriptions(t.qualifying)[..i]
    {
      var cond := t.qualifying[i];
      assert Holds(t.qualifying[i], s);
      if cond.evaluate(s) {
        matchedConditions := matchedConditions + [cond.description];
      }
    }
    assert Descriptions(t.qualifying)[..|t.qualifying|] == Descriptions(t.qualifying);
    if |t.qualifying| == 0 {
      matchedConditions := matchedConditions + ["Catch-all " + t.tierName + " tier"];
    }
  }

  /** The body of `evaluateTierPlacement` for one provider. */
  method EvaluateProvider(p: Provider, s: Situation) returns (e: Evaluation)
    ensures Correct(p, s, e)
  {
    var disqualifiedBy: seq<string> := [];
    for m := 0 to |p.tiers|
      invariant disqualifiedBy == Entries(p.tiers[..m], s)
      invariant forall i :: 0 <= i < m ==> !Eligible(p.tiers[i], s)
    {
      var tier := p.tiers[m];
      ghost var before := disqualifiedBy;
      assert p.tiers[..m + 1][..m] == p.tiers[..m];
      var disqualified;
      disqualified, disqualifiedBy := CheckDisqualifying(tier, s, disqualifiedBy);
      if disqualified {
        continue;
      }
      var allQualify := CheckQualifying(tier, s);
      if allQualify {
        var matchedConditions := CollectMatched(tier, s);
        e := Evaluation(p.providerId, p.providerName, Some(tier.tierName), tier.federalPrice, tier.statePrice,
                        matchedConditions, disqualifiedBy);
        assert FirstEligible(p.tiers, s, m);
        return;
      }
    }
    assert p.tiers[..|p.tiers|] == p.tiers;
    assert FirstEligible(p.tiers, s, |p.tiers|);
    e := Evaluation(p.providerId, p.providerName, None, None, None, [], disqualifiedBy);
  }

  /** `evaluateTierPlacement`: one evaluation for each provider, in order. */
  method EvaluateTierPlacement(s: Situation, providers: seq<Provider>) returns (evaluations: seq<Evaluation>)
    ensures |evaluations| == |providers|
    ensures forall i :: 0 <= i < |providers| ==> Correct(providers[i], s, evaluations[i])
  {
    evaluations := [];
    for k := 0 to |providers|
      invariant |evaluations| == k
      invariant forall i :: 0 <= i < k ==> Correct(providers[i], s, evaluations[i])
    {
      var e := EvaluateProvider(providers[k], s);
      evaluations := evaluations + [e];
    }
  }

  // ---------- General results ----------

  lemma {:induction false} EntryCount(tiers: seq<Tier>, s: Situation)
    ensures |Entries(tiers, s)| == |set i | 0 <= i < |tiers| && Disqualified(tiers[i], s)|
  {
    if tiers == [] {
    } else {
      var n := |tiers| - 1;
      EntryCount(tiers[..n], s);
      var before := set i | 0 <= i < n && Disqualified(tiers[..n][i], s);
      var all := set i | 0 <= i < |tiers| && Disqualified(tiers[i], s);
      assert all == before + if Disqualified(tiers[n], s) then {n} else {};
    }
  }

  /** A tier is eligible when all of its qualifying conditions hold and none of its disqualifying ones. */
  lemma EligibleMeans(t: Tier, s: Situation)
    ensures Eligible(t, s) <==>
            (forall c :: c in t.qualifying ==> c.evaluate(s)) && (forall c :: c in t.disqualifying ==> !c.evaluate(s))
  {
    forall i | 0 <= i < |t.qualifying|
      ensures t.qualifying[i] in t.qualifying && (Holds(t.qualifying[i], s) <==> t.qualifying[i].evaluate(s))
    {
    }
    forall i | 0 <= i < |t.disqualifying|
      ensures t.disqualifying[i] in t.disqualifying && (Holds(t.disqualifying[i], s) <==> t.disqualifying[i].evaluate(s))
    {
    }
  }

  /** The entries stand in the order of the tiers. */
  lemma {:induction false} EntriesInOrder(a: seq<Tier>, b: seq<Tier>, s: Situation)
    ensures Entries(a + b, s) == Entries(a, s) + Entries(b, s)
    decreases |b|
  {
    if b == [] {
      assert a + b == a;
    } else {
      var n := |b| - 1;
      EntriesInOrder(a, b[..n], s);
      assert (a + b)[..|a + b| - 1] == a + b[..n];
    }
  }

  /** An entry names the tier and the first of its disqualifying conditions that holds. */
  lemma {:induction false} EntryText(t: Tier, s: Situation, i: nat)
    requires i < |t.disqualifying| && t.disqualifying[i].evaluate(s)
    requires forall j :: 0 <= j < i ==> !t.disqualifying[j].evaluate(s)
    ensures Disqualified(t, s) && Entries([t], s) == ["[" + t.tierName + "] disqualified: " + t.disqualifying[i].description]
  {
    assert Holds(t.disqualifying[i], s);
    FirstHoldingAt(t.disqualifying, s, i);
    assert [t][..0] == [];
  }

  /** For every situation at most one of the tiers is eligible. */
  ghost predicate Exclusive(tiers: seq<Tier>) {
    forall s, i, j :: 0 <= i < |tiers| && 0 <= j < |tiers| && Eligible(tiers[i], s) && Eligible(tiers[j], s) ==> i == j
  }

  /** Exclusive tiers may stand in any order: the match and its prices stay the same. */
  lemma OrderDoesNotMatter(p: Provider, q: Provider, s: Situation, e: Evaluation, f: Evaluation)
    requires Exclusive(p.tiers) && Exclusive(q.tiers) && multiset(p.tiers) == multiset(q.tiers)
    requires Correct(p, s, e) && Correct(q, s, f)
    ensures e.matchedTier == f.matchedTier && e.federalPrice == f.federalPrice && e.statePrice == f.statePrice
    ensures e.matchedConditions == f.matchedConditions
  {
    var m: nat :| FirstEligible(p.tiers, s, m) && e.matchedTier == if m == |p.tiers| then None else Some(p.tiers[m].tierName);
    var n: nat :| FirstEligible(q.tiers, s, n) && f.matchedTier == if n == |q.tiers| then None else Some(q.tiers[n].tierName);
    FirstIsShared(p.tiers, q.tiers, s, m, n);
    FirstIsUnique(p.tiers, s);
    FirstIsUnique(q.tiers, s);
  }

  lemma FirstIsUnique(tiers: seq<Tier>, s: Situation)
    ensures forall m: nat, n: nat :: FirstEligible(tiers, s, m) && FirstEligible(tiers, s, n) ==> m == n
  {
  }

  lemma FirstIsShared(a: seq<Tier>, b: seq<Tier>, s: Situation, m: nat, n: nat)
    requires Exclusive(a) && Exclusive(b) && multiset(a) == multiset(b)
    requires FirstEligible(a, s, m) && FirstEligible(b, s, n)
    ensures m < |a| <==> n < |b|
    ensures m < |a| ==> a[m] == b[n]
  {
    if m < |a| {
      assert a[m] in multiset(b);
      var j :| 0 <= j < |b| && b[j] == a[m];
      assert Eligible(b[j], s);
    }
    if n < |b| {
      assert b[n] in multiset(a);
      var i :| 0 <= i < |a| && a[i] == b[n];
      assert Eligible(a[i], s);
    }
  }
}
