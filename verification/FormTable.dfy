/**
 The form table of packages/core/knowledge-base/form-taxonomy.ts, and what the general results say
 about it.
 */
module FormTable {
  import opened Wrappers
  import opened JsStrings
  import opened Json
  import opened FieldPaths
  import opened GrowingSituations
  import opened FormTaxonomy

  const INCOME_TYPE: JsString := Text("incomeStreams[]") + [DOT] + Text("type")
  const DEDUCTION_TYPE: JsString := Text("deductions[]") + [DOT] + Text("type")
  const FILING_STATUS: JsString := Text("filingStatus")
  const PRIMARY_STATE: JsString := Text("stateResidency") + [DOT] + Text("primary")

  function HasIncome(kind: string): (r: TriggerRule) {
    TriggerRule(INCOME_TYPE, Contains, Str(Text(kind)))
  }

  function HasDeduction(kind: string): (r: TriggerRule) {
    TriggerRule(DEDUCTION_TYPE, Contains, Str(Text(kind)))
  }

  const FORM_1040: JsString := Text("1040")
  const SCHEDULE_C: JsString := Text("schedule-c")
  const SCHEDULE_D: JsString := Text("schedule-d")

  const FORM_TAXONOMY: Taxonomy := [
    FormDefinition(FORM_1040, [], [TriggerRule(FILING_STATUS, Exists, Null)]),
    FormDefinition(Text("w-2"), [FORM_1040], [HasIncome("w2")]),
    FormDefinition(SCHEDULE_C, [FORM_1040], [HasIncome("1099_nec"), HasIncome("1099_misc")]),
    FormDefinition(Text("schedule-se"), [SCHEDULE_C], [HasIncome("1099_nec"), HasIncome("1099_misc")]),
    FormDefinition(SCHEDULE_D, [FORM_1040], [HasIncome("1099_b")]),
    FormDefinition(Text("form-8949"), [SCHEDULE_D], [HasIncome("1099_b")]),
    FormDefinition(Text("schedule-e"), [FORM_1040], [HasIncome("rental"), HasIncome("k1")]),
    FormDefinition(Text("schedule-a"), [FORM_1040],
                   [HasDeduction("mortgage_interest"), HasDeduction("charitable"), HasDeduction("medical"),
                    HasDeduction("state_local_taxes")]),
    FormDefinition(Text("schedule-b"), [FORM_1040], [HasIncome("1099_int"), HasIncome("1099_div")]),
    FormDefinition(Text("1099-div"), [FORM_1040], [HasIncome("1099_div")]),
    FormDefinition(Text("1099-int"), [FORM_1040], [HasIncome("1099_int")]),
    FormDefinition(Text("state-return"), [FORM_1040], [TriggerRule(PRIMARY_STATE, Exists, Null)])
  ]

  // ---------- Paths of one and two segments ----------

  lemma {:induction false} SplitOne(a: JsString, sep: CodeUnit)
    requires sep !in a
    ensures Split(a, sep) == [a]
  {
    if a == [] {
    } else {
      SplitOne(a[1..], sep);
      assert a == [a[0]] + a[1..];
    }
  }

  lemma {:induction false} SplitTwo(a: JsString, b: JsString, sep: CodeUnit)
    requires sep !in a && sep !in b
    ensures Split(a + [sep] + b, sep) == [a, b]
  {
    var s := a + [sep] + b;
    if a == [] {
      SplitOne(b, sep);
      assert s[1..] == b;
    } else {
      assert s[1..] == a[1..] + [sep] + b;
      SplitTwo(a[1..], b, sep);
      assert a == [a[0]] + a[1..];
    }
  }

  lemma ListPathsEndInType()
    ensures !EndsInLength(Split(INCOME_TYPE, DOT)) && !EndsInLength(Split(DEDUCTION_TYPE, DOT))
  {
    SplitTwo(Text("incomeStreams[]"), Text("type"), DOT);
    SplitTwo(Text("deductions[]"), Text("type"), DOT);
  }

  lemma ScalarPathsReadNoLength()
    ensures !EndsInLength(Split(FILING_STATUS, DOT)) && !EndsInLength(Split(PRIMARY_STATE, DOT))
  {
    SplitOne(FILING_STATUS, DOT);
    SplitTwo(Text("stateResidency"), Text("primary"), DOT);
  }

  lemma TablePaths(i: nat, j: nat)
    requires i < |FORM_TAXONOMY| && j < |FORM_TAXONOMY[i].triggeredBy|
    ensures var path := FORM_TAXONOMY[i].triggeredBy[j].field;
            path == INCOME_TYPE || path == DEDUCTION_TYPE || path == FILING_STATUS || path == PRIMARY_STATE
  {
  }

  /** No rule of the table reads the length of an array. */
  lemma TableReadsNoLength()
    ensures forall i, j :: 0 <= i < |FORM_TAXONOMY| && 0 <= j < |FORM_TAXONOMY[i].triggeredBy| ==>
              !EndsInLength(Split(FORM_TAXONOMY[i].triggeredBy[j].field, DOT))
    ensures NoLengthSensitiveRule(FORM_TAXONOMY)
  {
    ListPathsEndInType();
    ScalarPathsReadNoLength();
    forall i, j | 0 <= i < |FORM_TAXONOMY| && 0 <= j < |FORM_TAXONOMY[i].triggeredBy|
      ensures !EndsInLength(Split(FORM_TAXONOMY[i].triggeredBy[j].field, DOT))
    {
      TablePaths(i, j);
    }
  }

  /**
   Appending elements to an array field of the situation, such as its income streams or its
   deductions, never removes a form that the table required.
   */
  lemma MoreStreamsOrDeductionsKeepForms(fields: seq<Field>, i: nat, more: seq<Json>,
                                         before: seq<JsString>, after: seq<JsString>)
    requires i < |fields| && fields[i].value.Arr?
    requires RequiredForms(FORM_TAXONOMY, Obj(fields), before)
    requires RequiredForms(FORM_TAXONOMY, Obj(fields[i := Field(fields[i].key, Arr(fields[i].value.items + more))]), after)
    ensures forall id :: id in before ==> id in after
  {
    TableReadsNoLength();
    AppendGrows(fields, i, more);
    GrowingKeepsForms(FORM_TAXONOMY, Obj(fields), Obj(fields[i := Field(fields[i].key, Arr(fields[i].value.items + more))]),
                      before, after);
  }

  // ---------- The root of the table ----------

  /** Whatever definition of the table an id has, it is Form 1040, depends on it, or on a form that does. */
  lemma DependsOn1040(id: JsString)
    requires LastDefinition(FORM_TAXONOMY, id).Some?
    ensures || id == FORM_1040 || FORM_1040 in Dependencies(FORM_TAXONOMY, id)
            || SCHEDULE_C in Dependencies(FORM_TAXONOMY, id) || SCHEDULE_D in Dependencies(FORM_TAXONOMY, id)
    ensures id == SCHEDULE_C || id == SCHEDULE_D ==> FORM_1040 in Dependencies(FORM_TAXONOMY, id)
  {
    var i := LastDefinitionIsThere(FORM_TAXONOMY, id);
    var form := FORM_TAXONOMY[i];
    assert form.dependencies == [] || form.dependencies[0] in form.dependencies;
  }

  lemma NothingTriggered(taxonomy: Taxonomy, situation: Json, r: seq<JsString>)
    requires RequiredForms(taxonomy, situation, r) && forall id :: !Triggered(taxonomy, situation, id)
    ensures forall id :: id !in r
  {
    assert Admissible(taxonomy, situation, {});
  }

  /** Form 1040 is required whenever any form is, for every situation. */
  lemma AnyFormRequires1040(situation: Json, r: seq<JsString>)
    requires RequiredForms(FORM_TAXONOMY, situation, r) && r != []
    ensures FORM_1040 in r
  {
    var forms := set id | id in r;
    assert r[0] in r;
    if !exists id :: Triggered(FORM_TAXONOMY, situation, id) {
      NothingTriggered(FORM_TAXONOMY, situation, r);
      assert false;
    }
    var id :| Triggered(FORM_TAXONOMY, situation, id);
    var i :| 0 <= i < |FORM_TAXONOMY| && FORM_TAXONOMY[i].formId == id && IsTriggered(FORM_TAXONOMY[i], situation);
    assert id in forms;
    DefinedIsFound(FORM_TAXONOMY, i);
    DependsOn1040(id);
    Has1040(forms, situation, id);
  }

  lemma Has1040(forms: set<JsString>, situation: Json, id: JsString)
    requires ClosedUnderDependencies(FORM_TAXONOMY, forms) && id in forms
    requires || id == FORM_1040 || FORM_1040 in Dependencies(FORM_TAXONOMY, id)
             || SCHEDULE_C in Dependencies(FORM_TAXONOMY, id) || SCHEDULE_D in Dependencies(FORM_TAXONOMY, id)
    ensures FORM_1040 in forms
  {
    if SCHEDULE_C in Dependencies(FORM_TAXONOMY, id) {
      DefinedIsFound(FORM_TAXONOMY, 2);
      DependsOn1040(SCHEDULE_C);
      assert SCHEDULE_C in forms;
    } else if SCHEDULE_D in Dependencies(FORM_TAXONOMY, id) {
      DefinedIsFound(FORM_TAXONOMY, 4);
      DependsOn1040(SCHEDULE_D);
      assert SCHEDULE_D in forms;
    }
  }

  // ---------- Why lengths matter ----------

  const A_KEY: JsString := [0x61]

  /** A form required while the array under `a` is empty. */
  const LENGTH_TAXONOMY: Taxonomy :=
    [FormDefinition(A_KEY, [], [TriggerRule(A_KEY + [DOT] + LENGTH, Equals, Num([0x30]))])]

  function WithItems(items: seq<Json>): (r: Json) {
    Obj([Field(A_KEY, Arr(items))])
  }

  lemma LengthRule(n: nat)
    ensures EvaluateRule(LENGTH_TAXONOMY[0].triggeredBy[0], WithItems(Nulls(n))) <==> Decimal(n) == [0x30]
  {
    SplitTwo(A_KEY, LENGTH, DOT);
    ChainTests(LENGTH_TAXONOMY[0].triggeredBy[0], n);
  }

  /** With a rule on an array's length, appending an element can remove a required form. */
  lemma LengthRulesCanRemoveForms()
    ensures Grows(WithItems([]), WithItems([Null]))
    ensures RequiredForms(LENGTH_TAXONOMY, WithItems([]), [A_KEY])
    ensures RequiredForms(LENGTH_TAXONOMY, WithItems([Null]), [])
  {
    assert Nulls(0) == [] && Nulls(1) == [Null];
    LengthRule(0);
    LengthRule(1);
    OneRuleForm(A_KEY, LENGTH_TAXONOMY[0].triggeredBy[0], WithItems([]));
    OneRuleForm(A_KEY, LENGTH_TAXONOMY[0].triggeredBy[0], WithItems([Null]));
  }
}
