/**
 The form dependency resolver of packages/core/knowledge-base/form-taxonomy.ts: which forms a
 situation triggers, and the worklist that adds their dependencies. A definition keeps only the
 columns that decide which forms are required.
 */
module FormTaxonomy {
  import opened Wrappers
  import opened JsStrings
  import opened Json
  import opened FieldPaths
  import opened GrowingSituations
  import Sorting

  datatype FormDefinition = FormDefinition(
    formId: JsString, dependencies: seq<JsString>, triggeredBy: seq<TriggerRule>)

  type Taxonomy = seq<FormDefinition>

  /** `isTriggered` */
  predicate IsTriggered(form: FormDefinition, situation: Json) {
    exists i :: 0 <= i < |form.triggeredBy| && EvaluateRule(form.triggeredBy[i], situation)
  }

  /** The definition that counts for an id: the last one. */
  function LastDefinition(taxonomy: Taxonomy, id: JsString): (r: Option<FormDefinition>) {
    if taxonomy == [] then None
    else if taxonomy[|taxonomy| - 1].formId == id then Some(taxonomy[|taxonomy| - 1])
    else LastDefinition(taxonomy[..|taxonomy| - 1], id)
  }

  function Dependencies(taxonomy: Taxonomy, id: JsString): (r: seq<JsString>) {
    match LastDefinition(taxonomy, id)
    case None => []
    case Some(form) => form.dependencies
  }

  // ---------- What the required forms are ----------

  ghost predicate Triggered(taxonomy: Taxonomy, situation: Json, id: JsString) {
    exists i :: 0 <= i < |taxonomy| && taxonomy[i].formId == id && IsTriggered(taxonomy[i], situation)
  }

  ghost predicate HasTriggered(taxonomy: Taxonomy, situation: Json, forms: set<JsString>) {
    forall id :: Triggered(taxonomy, situation, id) ==> id in forms
  }

  ghost predicate ClosedUnderDependencies(taxonomy: Taxonomy, forms: set<JsString>) {
    forall id, dep :: id in forms && dep in Dependencies(taxonomy, id) ==> dep in forms
  }

  ghost predicate Admissible(taxonomy: Taxonomy, situation: Json, forms: set<JsString>) {
    HasTriggered(taxonomy, situation, forms) && ClosedUnderDependencies(taxonomy, forms)
  }

  /** Every admissible set of forms contains `id`. */
  ghost predicate Forced(taxonomy: Taxonomy, situation: Json, id: JsString) {
    forall forms: set<JsString> {:trigger Admissible(taxonomy, situation, forms)} ::
      Admissible(taxonomy, situation, forms) ==> id in forms
  }

  ghost predicate StrictlySorted(xs: seq<JsString>) {
    Sorting.Sorted(Le, xs) && Distinct(xs)
  }

  /**
   `r` lists, sorted and without repetition, the least set of forms that contains the triggered ones
   and with every form its dependencies.
   */
  ghost predicate RequiredForms(taxonomy: Taxonomy, situation: Json, r: seq<JsString>) {
    && StrictlySorted(r)
    && Admissible(taxonomy, situation, set id | id in r)
    && forall id :: id in r ==> Forced(taxonomy, situation, id)
  }

  lemma DependencyIsForced(taxonomy: Taxonomy, situation: Json, id: JsString, dep: JsString)
    requires Forced(taxonomy, situation, id) && dep in Dependencies(taxonomy, id)
    ensures Forced(taxonomy, situation, dep)
  {
  }

  // ---------- The algorithm ----------

  /** `buildFormIndex`: a later definition of an id replaces an earlier one. */
  method BuildFormIndex(taxonomy: Taxonomy) returns (index: map<JsString, FormDefinition>)
    ensures forall id :: id in index <==> LastDefinition(taxonomy, id).Some?
    ensures forall id :: id in index ==> LastDefinition(taxonomy, id) == Some(index[id])
  {
    index := map[];
    for i := 0 to |taxonomy|
      invariant forall id :: id in index <==> LastDefinition(taxonomy[..i], id).Some?
      invariant forall id :: id in index ==> LastDefinition(taxonomy[..i], id) == Some(index[id])
    {
      assert taxonomy[..i + 1][..i] == taxonomy[..i];
      index := index[taxonomy[i].formId := taxonomy[i]];
    }
    assert taxonomy[..|taxonomy|] == taxonomy;
  }

  /** Every id the algorithm can meet: the defined ones and the dependencies, defined or not. */
  ghost function Universe(taxonomy: Taxonomy): (r: set<JsString>) {
    (set i | 0 <= i < |taxonomy| :: taxonomy[i].formId) +
    (set i, j | 0 <= i < |taxonomy| && 0 <= j < |taxonomy[i].dependencies| :: taxonomy[i].dependencies[j])
  }

  lemma {:induction false} LastDefinitionIsThere(taxonomy: Taxonomy, id: JsString) returns (i: nat)
    requires LastDefinition(taxonomy, id).Some?
    ensures i < |taxonomy| && taxonomy[i].formId == id && LastDefinition(taxonomy, id) == Some(taxonomy[i])
  {
    if taxonomy[|taxonomy| - 1].formId == id {
      i := |taxonomy| - 1;
    } else {
      i := LastDefinitionIsThere(taxonomy[..|taxonomy| - 1], id);
    }
  }

  /** The definition found is the last one with the id. */
  lemma {:induction false} LastDefinitionIsLast(taxonomy: Taxonomy, id: JsString, i: nat)
    requires i < |taxonomy| && taxonomy[i].formId == id
    requires forall j :: i < j < |taxonomy| ==> taxonomy[j].formId != id
    ensures LastDefinition(taxonomy, id) == Some(taxonomy[i])
  {
    var n := |taxonomy| - 1;
    if i == n {
    } else {
      LastDefinitionIsLast(taxonomy[..n], id, i);
    }
  }

  lemma DependenciesInUniverse(taxonomy: Taxonomy, id: JsString)
    ensures forall dep :: dep in Dependencies(taxonomy, id) ==> dep in Universe(taxonomy)
  {
    if LastDefinition(taxonomy, id).Some? {
      var i := LastDefinitionIsThere(taxonomy, id);
      forall dep | dep in Dependencies(taxonomy, id)
        ensures dep in Universe(taxonomy)
      {
        var j :| 0 <= j < |taxonomy[i].dependencies| && taxonomy[i].dependencies[j] == dep;
      }
    }
  }

  /** No repetition, and nothing that is not forced. */
  ghost predicate Justified(taxonomy: Taxonomy, situation: Json, required: seq<JsString>) {
    && Distinct(required)
    && forall id :: id in required ==> Forced(taxonomy, situation, id) && id in Universe(taxonomy)
  }

  lemma JustifiedMore(taxonomy: Taxonomy, situation: Json, required: seq<JsString>, id: JsString)
    requires Justified(taxonomy, situation, required) && id !in required
    requires Forced(taxonomy, situation, id) && id in Universe(taxonomy)
    ensures Justified(taxonomy, situation, required + [id])
  {
  }

  /** Only queued forms may lack dependencies. */
  ghost predicate Expanded(taxonomy: Taxonomy, required: seq<JsString>, queue: seq<JsString>) {
    && (forall id :: id in queue ==> id in required)
    && forall id, dep :: id in required && id !in queue && dep in Dependencies(taxonomy, id) ==> dep in required
  }

  lemma ExpandedStep(taxonomy: Taxonomy, required0: seq<JsString>, queue0: seq<JsString>,
                     required: seq<JsString>, queue: seq<JsString>)
    requires queue0 != [] && Expanded(taxonomy, required0, queue0)
    requires required0 <= required && queue == queue0[1..] + required[|required0|..]
    requires forall dep :: dep in Dependencies(taxonomy, queue0[0]) ==> dep in required
    ensures Expanded(taxonomy, required, queue)
  {
    assert queue0 == [queue0[0]] + queue0[1..];
    assert required == required0 + required[|required0|..];
    forall id | id in required && id !in queue && id != queue0[0]
      ensures id in required0 && id !in queue0
    {
    }
  }

  ghost predicate SeededUpTo(taxonomy: Taxonomy, situation: Json, n: nat, required: seq<JsString>)
    requires n <= |taxonomy|
  {
    forall j :: 0 <= j < n && IsTriggered(taxonomy[j], situation) ==> taxonomy[j].formId in required
  }

  lemma TriggeredFormIsForced(taxonomy: Taxonomy, situation: Json, i: nat)
    requires i < |taxonomy| && IsTriggered(taxonomy[i], situation)
    ensures Forced(taxonomy, situation, taxonomy[i].formId) && taxonomy[i].formId in Universe(taxonomy)
  {
    assert Triggered(taxonomy, situation, taxonomy[i].formId);
  }

  /** What the first loop keeps. */
  ghost predicate Seeds(taxonomy: Taxonomy, situation: Json, n: nat, required: seq<JsString>)
    requires n <= |taxonomy|
  {
    Justified(taxonomy, situation, required) && SeededUpTo(taxonomy, situation, n, required)
  }

  lemma SeedStep(taxonomy: Taxonomy, situation: Json, i: nat, required: seq<JsString>)
    requires i < |taxonomy| && Seeds(taxonomy, situation, i, required)
    ensures var id := taxonomy[i].formId;
            Seeds(taxonomy, situation, i + 1,
                  if IsTriggered(taxonomy[i], situation) && id !in required then required + [id] else required)
  {
    if IsTriggered(taxonomy[i], situation) && taxonomy[i].formId !in required {
      TriggeredFormIsForced(taxonomy, situation, i);
      JustifiedMore(taxonomy, situation, required, taxonomy[i].formId);
    }
  }

  /** The first loop: collects the triggered forms, which are also the first queue. */
  method Seed(situation: Json, taxonomy: Taxonomy) returns (required: seq<JsString>)
    ensures Justified(taxonomy, situation, required) && SeededUpTo(taxonomy, situation, |taxonomy|, required)
  {
    required := [];
    for i := 0 to |taxonomy|
      invariant Seeds(taxonomy, situation, i, required)
    {
      SeedStep(taxonomy, situation, i, required);
      var form := taxonomy[i];
      if IsTriggered(form, situation) && form.formId !in required {
        required := required + [form.formId];
      }
    }
  }

  /** `getRequiredForms`: it ends on every taxonomy, cyclic or not, and returns the least set. */
  method GetRequiredForms(situation: Json, taxonomy: Taxonomy) returns (r: seq<JsString>)
    ensures RequiredForms(taxonomy, situation, r)
  {
    var formIndex := BuildFormIndex(taxonomy);
    var required := Seed(situation, taxonomy);
    var queue := required;
    ghost var seeds := required;

    while queue != []
      invariant Justified(taxonomy, situation, required) && Expanded(taxonomy, required, queue) && seeds <= required
      decreases |Universe(taxonomy)| - |required|, |queue|
    {
      required, queue := Expand(taxonomy, situation, formIndex, required, queue);
      JustifiedSize(taxonomy, situation, required);
    }

    r := JsStrings.Sort(required);
    SortedResult(taxonomy, situation, seeds, required);
  }

  lemma SortedResult(taxonomy: Taxonomy, situation: Json, seeds: seq<JsString>, required: seq<JsString>)
    requires Justified(taxonomy, situation, required) && Expanded(taxonomy, required, []) && seeds <= required
    requires SeededUpTo(taxonomy, situation, |taxonomy|, seeds)
    ensures RequiredForms(taxonomy, situation, JsStrings.Sort(required))
  {
    var r := JsStrings.Sort(required);
    JsStrings.SortSorted(required);
    JsStrings.DistinctPermutation(required, r);
    var forms := set id | id in r;
    forall id | Triggered(taxonomy, situation, id)
      ensures id in forms
    {
      assert id in seeds;
    }
    assert ClosedUnderDependencies(taxonomy, forms);
  }

  lemma {:induction false} DistinctInside(xs: seq<JsString>, s: set<JsString>)
    requires Distinct(xs) && forall x :: x in xs ==> x in s
    ensures |xs| <= |s|
  {
    if xs == [] {
    } else {
      var n := |xs| - 1;
      DistinctInside(xs[..n], s - {xs[n]});
    }
  }

  lemma JustifiedSize(taxonomy: Taxonomy, situation: Json, required: seq<JsString>)
    requires Justified(taxonomy, situation, required)
    ensures |required| <= |Universe(taxonomy)|
  {
    DistinctInside(required, Universe(taxonomy));
  }

  /** One turn of the worklist loop: takes a form off the queue and adds its new dependencies. */
  method Expand(taxonomy: Taxonomy, ghost situation: Json, formIndex: map<JsString, FormDefinition>,
                required0: seq<JsString>, queue0: seq<JsString>)
    returns (required: seq<JsString>, queue: seq<JsString>)
    requires Justified(taxonomy, situation, required0) && queue0 != [] && Expanded(taxonomy, required0, queue0)
    requires forall id :: id in formIndex <==> LastDefinition(taxonomy, id).Some?
    requires forall id :: id in formIndex ==> LastDefinition(taxonomy, id) == Some(formIndex[id])
    ensures Justified(taxonomy, situation, required) && Expanded(taxonomy, required, queue)
    ensures required0 <= required && queue == queue0[1..] + required[|required0|..]
  {
    var formId := queue0[0];
    required, queue := required0, queue0[1..];
    assert queue == queue0[1..] + required[|required0|..];
    var dependencies: seq<JsString> := [];
    if formId in formIndex {
      dependencies := formIndex[formId].dependencies;
    }
    assert dependencies == Dependencies(taxonomy, formId);
    assert formId in required0;
    for k := 0 to |dependencies|
      invariant Justified(taxonomy, situation, required) && required0 <= required
      invariant queue == queue0[1..] + required[|required0|..]
      invariant forall j :: 0 <= j < k ==> dependencies[j] in required
    {
      var depId := dependencies[k];
      if depId !in required {
        DependencyIsForced(taxonomy, situation, formId, depId);
        DependenciesInUniverse(taxonomy, formId);
        JustifiedMore(taxonomy, situation, required, depId);
        required := required + [depId];
        queue := queue + [depId];
      }
    }
    ExpandedStep(taxonomy, required0, queue0, required, queue);
  }

  // ---------- What follows from the specification ----------

  /** There is one such list. */
  lemma RequiredFormsUnique(taxonomy: Taxonomy, situation: Json, r: seq<JsString>, q: seq<JsString>)
    requires RequiredForms(taxonomy, situation, r) && RequiredForms(taxonomy, situation, q)
    ensures r == q
  {
    forall id
      ensures id in r <==> id in q
    {
      assert id in r ==> id in (set x | x in q);
      assert id in q ==> id in (set x | x in r);
    }
    JsStrings.SameDistinct(r, q);
    JsStrings.SortIs(q, r);
    JsStrings.SortIs(q, q);
  }

  /** A required form is triggered itself or a dependency of a required form, and conversely. */
  lemma RequiredBecause(taxonomy: Taxonomy, situation: Json, r: seq<JsString>, id: JsString)
    requires RequiredForms(taxonomy, situation, r)
    ensures id in r <==> Triggered(taxonomy, situation, id) || exists p :: p in r && id in Dependencies(taxonomy, p)
  {
    var forms := set x | x in r;
    if Triggered(taxonomy, situation, id) || exists p :: p in r && id in Dependencies(taxonomy, p) {
      assert id in forms;
    } else {
      var others := forms - {id};
      forall x, dep | x in others && dep in Dependencies(taxonomy, x)
        ensures dep in others
      {
        assert x in r && dep in forms;
      }
      assert HasTriggered(taxonomy, situation, others);
      assert Admissible(taxonomy, situation, others);
      assert id in r ==> Forced(taxonomy, situation, id);
    }
  }

  ghost predicate UniqueFormIds(taxonomy: Taxonomy) {
    forall i, j :: 0 <= i < |taxonomy| && 0 <= j < |taxonomy| && taxonomy[i].formId == taxonomy[j].formId ==> i == j
  }

  lemma UniqueDefinition(taxonomy: Taxonomy, i: nat)
    requires UniqueFormIds(taxonomy) && i < |taxonomy|
    ensures LastDefinition(taxonomy, taxonomy[i].formId) == Some(taxonomy[i])
  {
  }

  lemma {:induction false} DefinedIsFound(taxonomy: Taxonomy, i: nat)
    requires i < |taxonomy|
    ensures LastDefinition(taxonomy, taxonomy[i].formId).Some?
  {
    var n := |taxonomy| - 1;
    if taxonomy[n].formId != taxonomy[i].formId {
      DefinedIsFound(taxonomy[..n], i);
    }
  }

  lemma SameDefinitions(a: Taxonomy, b: Taxonomy, id: JsString)
    requires UniqueFormIds(a) && UniqueFormIds(b) && forall form :: form in a <==> form in b
    ensures LastDefinition(a, id) == LastDefinition(b, id)
  {
    if LastDefinition(a, id).Some? {
      var i := LastDefinitionIsThere(a, id);
      assert a[i] in b;
      var j :| 0 <= j < |b| && b[j] == a[i];
      UniqueDefinition(b, j);
    } else if LastDefinition(b, id).Some? {
      var j := LastDefinitionIsThere(b, id);
      assert b[j] in a;
      var i :| 0 <= i < |a| && a[i] == b[j];
      UniqueDefinition(a, i);
    }
  }

  /** With unique ids the order of the taxonomy does not matter. */
  lemma OrderDoesNotMatter(a: Taxonomy, b: Taxonomy, situation: Json, r: seq<JsString>)
    requires UniqueFormIds(a) && UniqueFormIds(b) && multiset(a) == multiset(b)
    requires RequiredForms(a, situation, r)
    ensures RequiredForms(b, situation, r)
  {
    Sorting.SameElements(a, b);
    forall id
      ensures Dependencies(a, id) == Dependencies(b, id)
      ensures Triggered(a, situation, id) <==> Triggered(b, situation, id)
    {
      SameDefinitions(a, b, id);
      SameTriggers(a, b, situation, id);
      SameTriggers(b, a, situation, id);
    }
    forall forms: set<JsString>
      ensures Admissible(a, situation, forms) <==> Admissible(b, situation, forms)
    {
    }
  }

  lemma SameTriggers(a: Taxonomy, b: Taxonomy, situation: Json, id: JsString)
    requires forall form :: form in a ==> form in b
    ensures Triggered(a, situation, id) ==> Triggered(b, situation, id)
  {
    if Triggered(a, situation, id) {
      var i :| 0 <= i < |a| && a[i].formId == id && IsTriggered(a[i], situation);
      assert a[i] in b;
      var j :| 0 <= j < |b| && b[j] == a[i];
    }
  }

  // ---------- Growing situations ----------

  /** No rule of the taxonomy depends on an array being no longer than it is. */
  ghost predicate NoLengthSensitiveRule(taxonomy: Taxonomy) {
    forall i, j :: 0 <= i < |taxonomy| && 0 <= j < |taxonomy[i].triggeredBy| ==>
      !LengthSensitive(taxonomy[i].triggeredBy[j])
  }

  lemma TriggeredGrows(taxonomy: Taxonomy, s: Json, t: Json, id: JsString)
    requires NoLengthSensitiveRule(taxonomy) && Grows(s, t) && Triggered(taxonomy, s, id)
    ensures Triggered(taxonomy, t, id)
  {
    var i :| 0 <= i < |taxonomy| && taxonomy[i].formId == id && IsTriggered(taxonomy[i], s);
    var j :| 0 <= j < |taxonomy[i].triggeredBy| && EvaluateRule(taxonomy[i].triggeredBy[j], s);
    RuleGrows(taxonomy[i].triggeredBy[j], s, t);
    assert IsTriggered(taxonomy[i], t);
  }

  /** Appending income streams, deductions or anything else never removes a required form. */
  lemma GrowingKeepsForms(taxonomy: Taxonomy, s: Json, t: Json, before: seq<JsString>, after: seq<JsString>)
    requires NoLengthSensitiveRule(taxonomy) && Grows(s, t)
    requires RequiredForms(taxonomy, s, before) && RequiredForms(taxonomy, t, after)
    ensures forall id :: id in before ==> id in after
  {
    var forms := set id | id in after;
    forall id | Triggered(taxonomy, s, id)
      ensures id in forms
    {
      TriggeredGrows(taxonomy, s, t, id);
    }
    assert Admissible(taxonomy, s, forms);
  }

  lemma OneRuleTriggers(id: JsString, rule: TriggerRule, situation: Json, other: JsString)
    ensures Triggered([FormDefinition(id, [], [rule])], situation, other) <==> other == id && EvaluateRule(rule, situation)
    ensures Dependencies([FormDefinition(id, [], [rule])], other) == []
  {
    var form := FormDefinition(id, [], [rule]);
    var taxonomy := [form];
    assert taxonomy[..|taxonomy| - 1] == [];
    assert LastDefinition(taxonomy, other) == if other == id then Some(form) else None;
    assert taxonomy[0] == form && form.triggeredBy[0] == rule;
    assert IsTriggered(form, situation) <==> EvaluateRule(rule, situation);
  }

  lemma OneRuleForm(id: JsString, rule: TriggerRule, situation: Json)
    ensures RequiredForms([FormDefinition(id, [], [rule])], situation, if EvaluateRule(rule, situation) then [id] else [])
  {
    var taxonomy := [FormDefinition(id, [], [rule])];
    forall other
      ensures Triggered(taxonomy, situation, other) <==> other == id && EvaluateRule(rule, situation)
      ensures Dependencies(taxonomy, other) == []
    {
      OneRuleTriggers(id, rule, situation, other);
    }
  }

  /** Every length-sensitive rule loses the form that it alone triggers, on some situation that grows. */
  lemma LengthSensitiveRuleLosesItsForm(id: JsString, rule: TriggerRule) returns (s: Json, t: Json)
    requires LengthSensitive(rule)
    ensures Grows(s, t)
    ensures RequiredForms([FormDefinition(id, [], [rule])], s, [id])
    ensures RequiredForms([FormDefinition(id, [], [rule])], t, [])
  {
    KeepsFiringExactly(rule);
    s, t :| Grows(s, t) && EvaluateRule(rule, s) && !EvaluateRule(rule, t);
    OneRuleForm(id, rule, s);
    OneRuleForm(id, rule, t);
  }
}
