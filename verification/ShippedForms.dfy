/**
 Which forms the shipped table of packages/core/knowledge-base/form-taxonomy.ts requires, in terms of
 the situation alone: what its streams and deductions say, not which rules or dependencies there are.
 */
module ShippedForms {
  import opened Wrappers
  import opened JsStrings
  import opened Json
  import opened FieldPaths
  import opened PathChoices
  import opened GrowingSituations
  import opened FormTaxonomy
  import opened FormTable

  // ---------- When a rule fires ----------

  /** `part` occurs in `s`. */
  ghost predicate Within(part: JsString, s: JsString) {
    exists before, after :: s == before + part + after
  }

  /** The same value, which is not an array or an object. */
  predicate SamePrimitive(v: Json, w: Json) {
    match w
    case Arr(_) => false
    case Obj(_) => false
    case _ => v == w
  }

  /** What the operators of packages/core/knowledge-base/form-taxonomy.ts:34-39 ask of a value. */
  ghost predicate Passes(v: Json, op: Operator, value: Json) {
    match op
    case Exists => v != Null
    case Equals => SamePrimitive(v, value)
    case Contains =>
      || (v.Arr? && exists item :: item in v.items && SamePrimitive(item, value))
      || (v.Str? && value.Str? && Within(value.s, v.s))
      || (!v.Arr? && SamePrimitive(v, value))
    case Gt =>
      && v.Num? && value.Num? && IsNumber(v.literal) && IsNumber(value.literal)
      && NumberValue(v.literal) > NumberValue(value.literal)
    case Lt =>
      && v.Num? && value.Num? && IsNumber(v.literal) && IsNumber(value.literal)
      && NumberValue(value.literal) > NumberValue(v.literal)
  }

  lemma WithinIsSubstring(part: JsString, s: JsString)
    ensures Within(part, s) <==> IsSubstring(part, s)
  {
    if Within(part, s) {
      var before, after :| s == before + part + after;
      assert s[|before|..] == part + after;
      assert OccursAt(part, s, |before|);
    }
    if IsSubstring(part, s) {
      var i :| 0 <= i <= |s| && OccursAt(part, s, i);
      assert s == s[..i] + part + s[i + |part|..];
    }
  }

  lemma PassesIsSatisfies(v: Json, op: Operator, value: Json)
    ensures Passes(v, op, value) <==> Satisfies(v, op, value)
  {
    if op == Contains && v.Arr? {
      if Passes(v, op, value) {
        var item :| item in v.items && SamePrimitive(item, value);
        var i :| 0 <= i < |v.items| && v.items[i] == item;
        assert StrictEqual(v.items[i], value);
      }
      if Satisfies(v, op, value) {
        var i :| 0 <= i < |v.items| && StrictEqual(v.items[i], value);
        assert v.items[i] in v.items;
      }
    } else if op == Contains && v.Str? && value.Str? {
      WithinIsSubstring(value.s, v.s);
      assert v.s == value.s ==> v.s == [] + value.s + [];
    }
  }

  lemma FiresOn(rule: TriggerRule, situation: Json)
    ensures EvaluateRule(rule, situation) <==>
            exists x :: x in Resolve(situation, Split(rule.field, DOT)) && Satisfies(x, rule.op, rule.value)
  {
    var values := Resolve(situation, Split(rule.field, DOT));
    if exists x :: x in values && Satisfies(x, rule.op, rule.value) {
      var x :| x in values && Satisfies(x, rule.op, rule.value);
      var i :| 0 <= i < |values| && values[i] == x;
    }
  }

  /** A rule fires exactly when its path leads to a value that passes its test, by some choice of elements. */
  lemma RuleFires(rule: TriggerRule, situation: Json)
    ensures EvaluateRule(rule, situation) <==>
            exists x :: Found(situation, Split(rule.field, DOT), x) && Passes(x, rule.op, rule.value)
  {
    FiresOn(rule, situation);
    forall x
      ensures Found(situation, Split(rule.field, DOT), x) <==> x in Resolve(situation, Split(rule.field, DOT))
      ensures Passes(x, rule.op, rule.value) <==> Satisfies(x, rule.op, rule.value)
    {
      FoundIsResolved(situation, Split(rule.field, DOT), x);
      PassesIsSatisfies(x, rule.op, rule.value);
    }
  }

  // ---------- The paths of the table ----------

  /** `x` is an element of the list under this key, or what stands there instead of a list. */
  ghost predicate Listed(situation: Json, list: JsString, x: Json) {
    exists v :: HasProperty(situation, list, v) && if v.Arr? then x in v.items else x == v
  }

  /** The type of something listed there, a text or a list of texts, holds `kind`. */
  ghost predicate HasKind(situation: Json, list: string, kind: string) {
    exists x, p :: Listed(situation, Text(list), x) && HasProperty(x, Text("type"), p) && Passes(p, Contains, Str(Text(kind)))
  }

  ghost predicate HasField(situation: Json, field: string) {
    exists p :: HasProperty(situation, Text(field), p) && p != Null
  }

  ghost predicate HasPrimaryState(situation: Json) {
    exists residency :: HasProperty(situation, Text("stateResidency"), residency) && HasField(residency, "primary")
  }

  lemma ListedIsChild(node: Json, list: JsString, x: Json)
    ensures Listed(node, list, x) <==> x in Children(node, list + Text("[]"))
  {
    NamesKey(list + Text("[]"), list, true);
    if Listed(node, list, x) {
      var v :| HasProperty(node, list, v) && if v.Arr? then x in v.items else x == v;
      PropertyIsGet(node, list, v);
    }
    if Get(node, list).Some? {
      PropertyIsGet(node, list, Get(node, list).value);
    }
  }

  lemma OneDown(node: Json, segment: JsString, x: Json)
    requires !Expands(segment)
    ensures x in Resolve(node, [segment]) <==> Get(node, segment) == Some(x)
  {
    var segments := [segment];
    assert segments[1..] == [];
    ResolveAllDone(Children(node, segment));
  }

  lemma TwoDown(node: Json, first: JsString, second: JsString, x: Json)
    requires !Expands(second)
    ensures x in Resolve(node, [first, second]) <==> exists child :: child in Children(node, first) && Get(child, second) == Some(x)
  {
    var segments, children := [first, second], Children(node, first);
    assert segments[1..] == [second];
    if x in Resolve(node, segments) {
      var child := FromResolveAll(children, [second], x);
      OneDown(child, second, x);
    }
    if exists child :: child in children && Get(child, second) == Some(x) {
      var child :| child in children && Get(child, second) == Some(x);
      OneDown(child, second, x);
      InResolveAll(children, child, [second]);
    }
  }

  lemma TypePath(list: string)
    requires forall i :: 0 <= i < |list| ==> list[i] < 128 as char && list[i] != '.'
    ensures Split(Text(list) + Text("[]") + [DOT] + Text("type"), DOT) == [Text(list) + Text("[]"), Text("type")]
    ensures !Expands(Text("type"))
  {
    SplitTwo(Text(list) + Text("[]"), Text("type"), DOT);
  }

  /** The rule that the type of something in a list holds a text. */
  function KindRule(list: string, kind: string): (r: TriggerRule) {
    TriggerRule(Text(list) + Text("[]") + [DOT] + Text("type"), Contains, Str(Text(kind)))
  }

  lemma KindFires(situation: Json, list: string, kind: string)
    requires (forall i :: 0 <= i < |list| ==> list[i] < 128 as char && list[i] != '.') && HasKind(situation, list, kind)
    ensures EvaluateRule(KindRule(list, kind), situation)
  {
    TypePath(list);
    var x, p :| Listed(situation, Text(list), x) && HasProperty(x, Text("type"), p) && Passes(p, Contains, Str(Text(kind)));
    ListedIsChild(situation, Text(list), x);
    PropertyIsGet(x, Text("type"), p);
    TwoDown(situation, Text(list) + Text("[]"), Text("type"), p);
    PassesIsSatisfies(p, Contains, Str(Text(kind)));
    FiresOn(KindRule(list, kind), situation);
  }

  lemma FiresKind(situation: Json, list: string, kind: string)
    requires forall i :: 0 <= i < |list| ==> list[i] < 128 as char && list[i] != '.'
    requires EvaluateRule(KindRule(list, kind), situation)
    ensures HasKind(situation, list, kind)
  {
    TypePath(list);
    FiresOn(KindRule(list, kind), situation);
    var p :| p in Resolve(situation, [Text(list) + Text("[]"), Text("type")]) && Satisfies(p, Contains, Str(Text(kind)));
    TwoDown(situation, Text(list) + Text("[]"), Text("type"), p);
    var x :| x in Children(situation, Text(list) + Text("[]")) && Get(x, Text("type")) == Some(p);
    ListedIsChild(situation, Text(list), x);
    PropertyIsGet(x, Text("type"), p);
    PassesIsSatisfies(p, Contains, Str(Text(kind)));
  }

  lemma KindRuleFires(situation: Json, list: string, kind: string)
    requires forall i :: 0 <= i < |list| ==> list[i] < 128 as char && list[i] != '.'
    ensures EvaluateRule(KindRule(list, kind), situation) <==> HasKind(situation, list, kind)
  {
    if HasKind(situation, list, kind) {
      KindFires(situation, list, kind);
    }
    if EvaluateRule(KindRule(list, kind), situation) {
      FiresKind(situation, list, kind);
    }
  }

  /** A rule that a field is there. */
  lemma FieldRuleFires(situation: Json, field: JsString)
    requires DOT !in field && !Expands(field)
    ensures EvaluateRule(TriggerRule(field, Exists, Null), situation) <==>
            exists p :: HasProperty(situation, field, p) && p != Null
  {
    SplitOne(field, DOT);
    FiresOn(TriggerRule(field, Exists, Null), situation);
    forall p
      ensures p in Resolve(situation, [field]) <==> HasProperty(situation, field, p)
    {
      OneDown(situation, field, p);
      PropertyIsGet(situation, field, p);
    }
  }

  lemma StatusPath()
    ensures FILING_STATUS == Text("filingStatus") && DOT !in FILING_STATUS && !Expands(FILING_STATUS)
  {
  }

  lemma StatusRuleFires(situation: Json)
    ensures EvaluateRule(TriggerRule(FILING_STATUS, Exists, Null), situation) <==> HasField(situation, "filingStatus")
  {
    StatusPath();
    FieldRuleFires(situation, FILING_STATUS);
  }

  lemma PrimaryIsFound(situation: Json, residency: Json, p: Json)
    ensures residency in Children(situation, Text("stateResidency")) <==>
            HasProperty(situation, Text("stateResidency"), residency)
    ensures Get(residency, Text("primary")) == Some(p) <==> HasProperty(residency, Text("primary"), p)
  {
    PropertyIsGet(situation, Text("stateResidency"), residency);
    PropertyIsGet(residency, Text("primary"), p);
  }

  const STATE_RULE: TriggerRule := TriggerRule(PRIMARY_STATE, Exists, Null)

  lemma StatePath()
    ensures Split(PRIMARY_STATE, DOT) == [Text("stateResidency"), Text("primary")] && !Expands(Text("primary"))
  {
    SplitTwo(Text("stateResidency"), Text("primary"), DOT);
  }

  lemma StateFires(situation: Json, residency: Json, p: Json)
    requires HasProperty(situation, Text("stateResidency"), residency)
    requires HasProperty(residency, Text("primary"), p) && p != Null
    ensures EvaluateRule(STATE_RULE, situation)
  {
    StatePath();
    FiresOn(STATE_RULE, situation);
    PrimaryIsFound(situation, residency, p);
    TwoDown(situation, Text("stateResidency"), Text("primary"), p);
  }

  lemma FiresState(situation: Json)
    requires EvaluateRule(STATE_RULE, situation)
    ensures HasPrimaryState(situation)
  {
    StatePath();
    FiresOn(STATE_RULE, situation);
    var p :| p in Resolve(situation, [Text("stateResidency"), Text("primary")]) && Satisfies(p, Exists, Null);
    TwoDown(situation, Text("stateResidency"), Text("primary"), p);
    var residency :| residency in Children(situation, Text("stateResidency")) && Get(residency, Text("primary")) == Some(p);
    PrimaryIsFound(situation, residency, p);
  }

  lemma StateRuleFires(situation: Json)
    ensures EvaluateRule(STATE_RULE, situation) <==> HasPrimaryState(situation)
  {
    if HasPrimaryState(situation) {
      var residency :| HasProperty(situation, Text("stateResidency"), residency) && HasField(residency, "primary");
      var p :| HasProperty(residency, Text("primary"), p) && p != Null;
      StateFires(situation, residency, p);
    }
    if EvaluateRule(STATE_RULE, situation) {
      FiresState(situation);
    }
  }

  // ---------- The forms of the table ----------

  /** The paths of the table as they are written. */
  lemma TablePathTexts()
    ensures [DOT] == Text(".")
    ensures INCOME_TYPE == Text("incomeStreams[].type") && DEDUCTION_TYPE == Text("deductions[].type")
    ensures FILING_STATUS == Text("filingStatus") && PRIMARY_STATE == Text("stateResidency.primary")
  {
    assert [DOT] == Text(".");
    PathText("incomeStreams[]", "type");
    PathText("deductions[]", "type");
    PathText("stateResidency", "primary");
    assert "incomeStreams[]" + "." + "type" == "incomeStreams[].type";
    assert "deductions[]" + "." + "type" == "deductions[].type";
    assert "stateResidency" + "." + "primary" == "stateResidency.primary";
  }

  lemma PathText(first: string, second: string)
    ensures Text(first) + [DOT] + Text(second) == Text(first + "." + second)
  {
    TextConcat(first + ".", second);
    TextConcat(first, ".");
    assert [DOT] == Text(".");
  }

  lemma TableRules(situation: Json, kind: string)
    ensures EvaluateRule(HasIncome(kind), situation) <==> HasKind(situation, "incomeStreams", kind)
    ensures EvaluateRule(HasDeduction(kind), situation) <==> HasKind(situation, "deductions", kind)
  {
    assert "incomeStreams" + "[]" == "incomeStreams[]" && "deductions" + "[]" == "deductions[]";
    TextConcat("incomeStreams", "[]");
    TextConcat("deductions", "[]");
    KindRuleFires(situation, "incomeStreams", kind);
    KindRuleFires(situation, "deductions", kind);
  }

  /** A number that tells the ids of the table apart. */
  function Mark(id: JsString): (r: int) {
    |id| * 0x1_0000 + if |id| == 10 then id[9] else if |id| == 8 then id[5] else 0
  }

  lemma Marks(i: nat)
    requires i < |FORM_TAXONOMY|
    ensures Mark(FORM_TAXONOMY[i].formId) ==
            [0x4_0000, 0x3_0000, 0xA_0063, 0xB_0000, 0xA_0064, 0x9_0000, 0xA_0065, 0xA_0061, 0xA_0062, 0x8_0064, 0x8_0069,
             0xC_0000][i]
  {
  }

  lemma TableIdsUnique()
    ensures |FORM_TAXONOMY| == 12 && UniqueFormIds(FORM_TAXONOMY)
  {
    forall i, j | 0 <= i < j < |FORM_TAXONOMY|
      ensures FORM_TAXONOMY[i].formId != FORM_TAXONOMY[j].formId
    {
      Marks(i);
      Marks(j);
    }
  }

  /** The form at a place of the table: when it is triggered, and what it depends on. */
  lemma FormAt(situation: Json, i: nat)
    requires i < |FORM_TAXONOMY|
    ensures Triggered(FORM_TAXONOMY, situation, FORM_TAXONOMY[i].formId) <==> IsTriggered(FORM_TAXONOMY[i], situation)
    ensures Dependencies(FORM_TAXONOMY, FORM_TAXONOMY[i].formId) == FORM_TAXONOMY[i].dependencies
  {
    TableIdsUnique();
    UniqueDefinition(FORM_TAXONOMY, i);
  }

  ghost predicate HasStream(situation: Json, kind: string) {
    HasKind(situation, "incomeStreams", kind)
  }

  ghost predicate Deducts(situation: Json, kind: string) {
    HasKind(situation, "deductions", kind)
  }

  lemma OneRule(form: FormDefinition, situation: Json)
    requires |form.triggeredBy| == 1
    ensures IsTriggered(form, situation) <==> EvaluateRule(form.triggeredBy[0], situation)
  {
  }

  lemma TwoRules(form: FormDefinition, situation: Json)
    requires |form.triggeredBy| == 2
    ensures IsTriggered(form, situation) <==>
            EvaluateRule(form.triggeredBy[0], situation) || EvaluateRule(form.triggeredBy[1], situation)
  {
  }

  lemma FourRules(form: FormDefinition, situation: Json)
    requires |form.triggeredBy| == 4
    ensures IsTriggered(form, situation) <==>
            EvaluateRule(form.triggeredBy[0], situation) || EvaluateRule(form.triggeredBy[1], situation) ||
            EvaluateRule(form.triggeredBy[2], situation) || EvaluateRule(form.triggeredBy[3], situation)
  {
  }

  lemma OneStreamForm(form: FormDefinition, situation: Json, kind: string)
    requires form.triggeredBy == [HasIncome(kind)]
    ensures IsTriggered(form, situation) <==> HasStream(situation, kind)
  {
    OneRule(form, situation);
    TableRules(situation, kind);
  }

  lemma TwoStreamForm(form: FormDefinition, situation: Json, kind: string, other: string)
    requires form.triggeredBy == [HasIncome(kind), HasIncome(other)]
    ensures IsTriggered(form, situation) <==> HasStream(situation, kind) || HasStream(situation, other)
  {
    TwoRules(form, situation);
    TableRules(situation, kind);
    TableRules(situation, other);
  }

  lemma DeductionForm(form: FormDefinition, situation: Json, a: string, b: string, c: string, d: string)
    requires form.triggeredBy == [HasDeduction(a), HasDeduction(b), HasDeduction(c), HasDeduction(d)]
    ensures IsTriggered(form, situation) <==>
            Deducts(situation, a) || Deducts(situation, b) || Deducts(situation, c) || Deducts(situation, d)
  {
    FourRules(form, situation);
    TableRules(situation, a);
    TableRules(situation, b);
    TableRules(situation, c);
    TableRules(situation, d);
  }

  lemma StreamForms(situation: Json)
    ensures IsTriggered(FORM_TAXONOMY[1], situation) <==> HasStream(situation, "w2")
    ensures IsTriggered(FORM_TAXONOMY[4], situation) <==> HasStream(situation, "1099_b")
    ensures IsTriggered(FORM_TAXONOMY[5], situation) <==> HasStream(situation, "1099_b")
    ensures IsTriggered(FORM_TAXONOMY[9], situation) <==> HasStream(situation, "1099_div")
    ensures IsTriggered(FORM_TAXONOMY[10], situation) <==> HasStream(situation, "1099_int")
  {
    OneStreamForm(FORM_TAXONOMY[1], situation, "w2");
    OneStreamForm(FORM_TAXONOMY[4], situation, "1099_b");
    OneStreamForm(FORM_TAXONOMY[5], situation, "1099_b");
    OneStreamForm(FORM_TAXONOMY[9], situation, "1099_div");
    OneStreamForm(FORM_TAXONOMY[10], situation, "1099_int");
  }

  lemma StreamPairForms(situation: Json)
    ensures IsTriggered(FORM_TAXONOMY[2], situation) <==> HasStream(situation, "1099_nec") || HasStream(situation, "1099_misc")
    ensures IsTriggered(FORM_TAXONOMY[3], situation) <==> HasStream(situation, "1099_nec") || HasStream(situation, "1099_misc")
    ensures IsTriggered(FORM_TAXONOMY[6], situation) <==> HasStream(situation, "rental") || HasStream(situation, "k1")
    ensures IsTriggered(FORM_TAXONOMY[8], situation) <==> HasStream(situation, "1099_int") || HasStream(situation, "1099_div")
  {
    TwoStreamForm(FORM_TAXONOMY[2], situation, "1099_nec", "1099_misc");
    TwoStreamForm(FORM_TAXONOMY[3], situation, "1099_nec", "1099_misc");
    TwoStreamForm(FORM_TAXONOMY[6], situation, "rental", "k1");
    TwoStreamForm(FORM_TAXONOMY[8], situation, "1099_int", "1099_div");
  }

  lemma FieldForms(situation: Json)
    ensures IsTriggered(FORM_TAXONOMY[0], situation) <==> HasField(situation, "filingStatus")
    ensures IsTriggered(FORM_TAXONOMY[11], situation) <==> HasPrimaryState(situation)
  {
    StatusRuleFires(situation);
    StateRuleFires(situation);
    OneRule(FORM_TAXONOMY[0], situation);
    OneRule(FORM_TAXONOMY[11], situation);
  }

  /** Only Form 1040 and Schedules C and D are dependencies, the schedules of one form each. */
  lemma Dependents(id: JsString, dep: JsString) returns (i: nat)
    requires dep in Dependencies(FORM_TAXONOMY, id)
    ensures 0 < i < |FORM_TAXONOMY| && FORM_TAXONOMY[i].formId == id
    ensures dep == if i == 3 then SCHEDULE_C else if i == 5 then SCHEDULE_D else FORM_1040
  {
    i := LastDefinitionIsThere(FORM_TAXONOMY, id);
    assert FORM_TAXONOMY[i].dependencies == if i == 0 then [] else [dep];
  }

  /** A form that no form depends on is required exactly when its rules fire. */
  lemma LeafRequired(situation: Json, r: seq<JsString>, i: nat)
    requires RequiredForms(FORM_TAXONOMY, situation, r) && i < |FORM_TAXONOMY| && i != 0 && i != 2 && i != 4
    ensures FORM_TAXONOMY[i].formId in r <==> IsTriggered(FORM_TAXONOMY[i], situation)
  {
    var id := FORM_TAXONOMY[i].formId;
    FormAt(situation, i);
    RequiredBecause(FORM_TAXONOMY, situation, r, id);
    Marks(i);
    Marks(0);
    Marks(2);
    Marks(4);
    if p :| p in r && id in Dependencies(FORM_TAXONOMY, p) {
      var j := Dependents(p, id);
    }
  }

  /** A schedule on which only the form at `j` depends. */
  lemma ScheduleRequired(situation: Json, r: seq<JsString>, i: nat, j: nat)
    requires RequiredForms(FORM_TAXONOMY, situation, r) && ((i == 2 && j == 3) || (i == 4 && j == 5))
    ensures FORM_TAXONOMY[i].formId in r <==>
            IsTriggered(FORM_TAXONOMY[i], situation) || IsTriggered(FORM_TAXONOMY[j], situation)
  {
    var id := FORM_TAXONOMY[i].formId;
    FormAt(situation, i);
    FormAt(situation, j);
    LeafRequired(situation, r, j);
    RequiredBecause(FORM_TAXONOMY, situation, r, id);
    Marks(0);
    Marks(2);
    Marks(4);
    if p :| p in r && id in Dependencies(FORM_TAXONOMY, p) {
      var k := Dependents(p, id);
      assert k == j;
    }
    assert FORM_TAXONOMY[j].dependencies[0] == id;
  }

  lemma OnlyTableForms(situation: Json, r: seq<JsString>, id: JsString) returns (i: nat)
    requires RequiredForms(FORM_TAXONOMY, situation, r) && id in r
    ensures i < |FORM_TAXONOMY| && id == FORM_TAXONOMY[i].formId
  {
    RequiredBecause(FORM_TAXONOMY, situation, r, id);
    if Triggered(FORM_TAXONOMY, situation, id) {
      i :| 0 <= i < |FORM_TAXONOMY| && FORM_TAXONOMY[i].formId == id && IsTriggered(FORM_TAXONOMY[i], situation);
    } else {
      var p :| p in r && id in Dependencies(FORM_TAXONOMY, p);
      var j := Dependents(p, id);
      i := if j == 3 then 2 else if j == 5 then 4 else 0;
    }
  }

  lemma Form1040Required(situation: Json, r: seq<JsString>)
    requires RequiredForms(FORM_TAXONOMY, situation, r)
    ensures FORM_1040 in r <==> HasField(situation, "filingStatus") || exists id :: id in r && id != FORM_1040
  {
    FormAt(situation, 0);
    FieldForms(situation);
    RequiredBecause(FORM_TAXONOMY, situation, r, FORM_1040);
    if p :| p in r && FORM_1040 in Dependencies(FORM_TAXONOMY, p) {
      var i := Dependents(p, FORM_1040);
      Marks(i);
      Marks(0);
    }
    if id :| id in r && id != FORM_1040 {
      AnyFormRequires1040(situation, r);
    }
  }

  /** What the shipped table requires, form by form, for every situation. */
  lemma ShippedFormsExactly(situation: Json, r: seq<JsString>)
    requires RequiredForms(FORM_TAXONOMY, situation, r)
    ensures Text("w-2") in r <==> HasStream(situation, "w2")
    ensures Text("schedule-c") in r <==> HasStream(situation, "1099_nec") || HasStream(situation, "1099_misc")
    ensures Text("schedule-se") in r <==> HasStream(situation, "1099_nec") || HasStream(situation, "1099_misc")
    ensures Text("schedule-d") in r <==> HasStream(situation, "1099_b")
    ensures Text("form-8949") in r <==> HasStream(situation, "1099_b")
    ensures Text("schedule-e") in r <==> HasStream(situation, "rental") || HasStream(situation, "k1")
    ensures Text("schedule-a") in r <==>
            Deducts(situation, "mortgage_interest") || Deducts(situation, "charitable") || Deducts(situation, "medical")
            || Deducts(situation, "state_local_taxes")
    ensures Text("schedule-b") in r <==> HasStream(situation, "1099_int") || HasStream(situation, "1099_div")
    ensures Text("1099-div") in r <==> HasStream(situation, "1099_div")
    ensures Text("1099-int") in r <==> HasStream(situation, "1099_int")
    ensures Text("state-return") in r <==> HasPrimaryState(situation)
    ensures Text("1040") in r <==> HasField(situation, "filingStatus") || exists id :: id in r && id != Text("1040")
    ensures forall id :: id in r ==> exists i :: 0 <= i < |FORM_TAXONOMY| && id == FORM_TAXONOMY[i].formId
  {
    StreamForms(situation);
    StreamPairForms(situation);
    DeductionForm(FORM_TAXONOMY[7], situation, "mortgage_interest", "charitable", "medical", "state_local_taxes");
    FieldForms(situation);
    LeafRequired(situation, r, 1);
    ScheduleRequired(situation, r, 2, 3);
    LeafRequired(situation, r, 3);
    ScheduleRequired(situation, r, 4, 5);
    LeafRequired(situation, r, 5);
    LeafRequired(situation, r, 6);
    LeafRequired(situation, r, 7);
    LeafRequired(situation, r, 8);
    LeafRequired(situation, r, 9);
    LeafRequired(situation, r, 10);
    LeafRequired(situation, r, 11);
    Form1040Required(situation, r);
    forall id | id in r
      ensures exists i :: 0 <= i < |FORM_TAXONOMY| && id == FORM_TAXONOMY[i].formId
    {
      var i := OnlyTableForms(situation, r, id);
    }
  }
}
