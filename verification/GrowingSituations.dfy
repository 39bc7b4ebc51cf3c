/**
 What growing a situation does to the trigger rules of packages/core/knowledge-base/form-taxonomy.ts:
 which rules keep firing when elements are appended to arrays of the situation, at any depth.
 */
module GrowingSituations {
  import opened Wrappers
  import opened JsStrings
  import opened Json
  import opened FieldPaths

  /** `w` is `v` with further elements appended to some of its arrays, at any depth. */
  ghost predicate Grows(v: Json, w: Json) {
    match v
    case Arr(items) =>
      w.Arr? && |items| <= |w.items| && forall i :: 0 <= i < |items| ==> Grows(items[i], w.items[i])
    case Obj(fields) =>
      && w.Obj? && |fields| == |w.fields|
      && forall i :: 0 <= i < |fields| ==> fields[i].key == w.fields[i].key && Grows(fields[i].value, w.fields[i].value)
    case _ => v == w
  }

  lemma {:induction false} GrowsReflexive(v: Json)
    ensures Grows(v, v)
  {
    match v
    case Arr(items) => forall i | 0 <= i < |items| ensures Grows(items[i], items[i]) { GrowsReflexive(items[i]); }
    case Obj(fields) =>
      forall i | 0 <= i < |fields| ensures Grows(fields[i].value, fields[i].value) { GrowsReflexive(fields[i].value); }
    case _ =>
  }

  /** Appending to an array field of an object, as adding income streams or deductions does. */
  lemma AppendGrows(fields: seq<Field>, i: nat, more: seq<Json>)
    requires i < |fields| && fields[i].value.Arr?
    ensures Grows(Obj(fields), Obj(fields[i := Field(fields[i].key, Arr(fields[i].value.items + more))]))
  {
    forall j | 0 <= j < |fields|
      ensures Grows(fields[j].value, fields[j].value)
    {
      GrowsReflexive(fields[j].value);
    }
    var items := fields[i].value.items;
    var longer := Arr(items + more);
    forall k | 0 <= k < |items|
      ensures Grows(items[k], longer.items[k])
    {
      GrowsReflexive(items[k]);
    }
    assert fields[i].value == Arr(items);
    assert Grows(Arr(items), longer);
  }

  // ---------- What is still found ----------

  lemma {:induction false} LookupGrows(fs: seq<Field>, gs: seq<Field>, key: JsString)
    requires Grows(Obj(fs), Obj(gs)) && key in Keys(fs)
    ensures key in Keys(gs) && Grows(Lookup(fs, key), Lookup(gs, key))
  {
    assert Keys(fs) == Keys(gs);
    if fs[0].key == key {
    } else {
      var i :| 0 <= i < |fs| && Keys(fs)[i] == key;
      assert Keys(fs[1..])[i - 1] == key;
      assert Keys(gs[1..])[i - 1] == key;
      LookupGrows(fs[1..], gs[1..], key);
    }
  }

  /** One level down, anything but the length of an array only grows. */
  lemma ChildGrows(v: Json, w: Json, segment: JsString, child: Json) returns (grown: Json)
    requires Grows(v, w) && child in Children(v, segment) && !(v.Arr? && KeyOf(segment) == LENGTH)
    ensures grown in Children(w, segment) && Grows(child, grown)
  {
    var key := KeyOf(segment);
    if v.Obj? {
      LookupGrows(v.fields, w.fields, key);
    }
    var i :| 0 <= i < |Children(v, segment)| && Children(v, segment)[i] == child;
    assert Grows(Get(v, key).value, Get(w, key).value);
    grown := Children(w, segment)[i];
  }

  lemma {:induction false} InResolveAll(nodes: seq<Json>, node: Json, segments: seq<JsString>)
    requires node in nodes
    ensures forall x :: x in Resolve(node, segments) ==> x in ResolveAll(nodes, segments)
    decreases |nodes|
  {
    if nodes[0] == node {
    } else {
      InResolveAll(nodes[1..], node, segments);
    }
  }

  lemma {:induction false} FromResolveAll(nodes: seq<Json>, segments: seq<JsString>, x: Json) returns (node: Json)
    requires x in ResolveAll(nodes, segments)
    ensures node in nodes && x in Resolve(node, segments)
    decreases |nodes|
  {
    if x in Resolve(nodes[0], segments) {
      node := nodes[0];
    } else {
      node := FromResolveAll(nodes[1..], segments, x);
    }
  }

  /** The last segment of the path names `length`. */
  predicate EndsInLength(segments: seq<JsString>) {
    segments != [] && KeyOf(segments[|segments| - 1]) == LENGTH
  }

  /** Two lengths of arrays, the second at least the first. */
  predicate Lengthens(x: Json, y: Json) {
    && x.Num? && y.Num? && IndexOf(x.literal).Some? && IndexOf(y.literal).Some?
    && IndexOf(x.literal).value <= IndexOf(y.literal).value
  }

  lemma LengthFound(items: seq<Json>, segment: JsString)
    requires KeyOf(segment) == LENGTH
    ensures Children(Arr(items), segment) == [Num(Decimal(|items|))]
    ensures Resolve(Arr(items), [segment]) == [Num(Decimal(|items|))]
  {
    assert Get(Arr(items), LENGTH) == Some(Num(Decimal(|items|)));
    var segments := [segment];
    assert segments[1..] == [];
    ResolveAllDone([Num(Decimal(|items|))]);
  }

  lemma NothingBelowLength(items: seq<Json>, segments: seq<JsString>)
    requires |segments| > 1 && KeyOf(segments[0]) == LENGTH
    ensures Resolve(Arr(items), segments) == []
  {
    LengthFound(items, segments[0]);
    ResolveAllOne(Num(Decimal(|items|)), segments[1..]);
  }

  lemma LengthenedLength(v: Json, w: Json, segment: JsString, x: Json) returns (y: Json)
    requires Grows(v, w) && v.Arr? && KeyOf(segment) == LENGTH && x in Resolve(v, [segment])
    ensures y in Resolve(w, [segment]) && Lengthens(x, y)
  {
    LengthFound(v.items, segment);
    LengthFound(w.items, segment);
    DecimalIsIndex(|v.items|);
    DecimalIsIndex(|w.items|);
    y := Num(Decimal(|w.items|));
  }

  /** Every value found before is still found, possibly grown, or as a length no smaller. */
  lemma {:induction false} ResolveGrows(v: Json, w: Json, segments: seq<JsString>, x: Json) returns (y: Json)
    requires Grows(v, w) && x in Resolve(v, segments)
    ensures y in Resolve(w, segments)
    ensures Grows(x, y) || (EndsInLength(segments) && Lengthens(x, y))
    decreases |segments|
  {
    if segments == [] {
      y := w;
    } else if v.Arr? && KeyOf(segments[0]) == LENGTH {
      if |segments| > 1 {
        NothingBelowLength(v.items, segments);
      }
      assert segments == [segments[0]];
      y := LengthenedLength(v, w, segments[0], x);
    } else {
      var child := FromResolveAll(Children(v, segments[0]), segments[1..], x);
      var grown := ChildGrows(v, w, segments[0], child);
      y := ResolveGrows(child, grown, segments[1..], x);
      InResolveAll(Children(w, segments[0]), grown, segments[1..]);
    }
  }

  // ---------- Which rules keep firing ----------

  /** A test that some length of an array meets and a larger one does not. */
  predicate RefusesLonger(op: Operator, value: Json) {
    match op
    case Equals => value.Num? && IndexOf(value.literal).Some?
    case Contains => value.Num? && IndexOf(value.literal).Some?
    case Lt => value.Num? && IsNumber(value.literal) && NumberValue(value.literal) > 0.0
    case Gt => false
    case Exists => false
  }

  /** The rule reads a length last, and its test refuses some longer arrays. */
  predicate LengthSensitive(rule: TriggerRule) {
    EndsInLength(Split(rule.field, DOT)) && RefusesLonger(rule.op, rule.value)
  }

  lemma GrownSatisfies(v: Json, w: Json, op: Operator, value: Json)
    requires Grows(v, w) && Satisfies(v, op, value)
    ensures Satisfies(w, op, value)
  {
  }

  lemma LengthenedSatisfies(v: Json, w: Json, op: Operator, value: Json)
    requires Lengthens(v, w) && Satisfies(v, op, value) && !RefusesLonger(op, value)
    ensures Satisfies(w, op, value)
  {
    IndexIsDecimal(v.literal);
    IndexIsDecimal(w.literal);
    DecimalIsNumber(IndexOf(v.literal).value);
    DecimalIsNumber(IndexOf(w.literal).value);
  }

  lemma RuleGrows(rule: TriggerRule, s: Json, t: Json)
    requires Grows(s, t) && EvaluateRule(rule, s) && !LengthSensitive(rule)
    ensures EvaluateRule(rule, t)
  {
    var segments := Split(rule.field, DOT);
    var before, after := Resolve(s, segments), Resolve(t, segments);
    var i :| 0 <= i < |before| && Satisfies(before[i], rule.op, rule.value);
    var y := ResolveGrows(s, t, segments, before[i]);
    if Grows(before[i], y) {
      GrownSatisfies(before[i], y, rule.op, rule.value);
    } else {
      LengthenedSatisfies(before[i], y, rule.op, rule.value);
    }
    var j :| 0 <= j < |after| && after[j] == y;
  }

  // ---------- Situations on which a length-sensitive rule stops firing ----------

  function Nulls(n: nat): (r: seq<Json>) {
    seq(n, i => Null)
  }

  /** One-field objects down the path, and at its end an array. */
  function Chain(segments: seq<JsString>, items: seq<Json>): (r: Json) {
    if |segments| <= 1 then Arr(items)
    else
      var inner := Chain(segments[1..], items);
      Obj([Field(KeyOf(segments[0]), if Expands(segments[0]) then Arr([inner]) else inner)])
  }

  lemma ChainLink(segment: JsString, inner: Json)
    ensures Children(Obj([Field(KeyOf(segment), if Expands(segment) then Arr([inner]) else inner)]), segment) == [inner]
  {
    var value := if Expands(segment) then Arr([inner]) else inner;
    assert Keys([Field(KeyOf(segment), value)])[0] == KeyOf(segment);
  }

  lemma {:induction false} ResolveChain(segments: seq<JsString>, items: seq<Json>)
    requires EndsInLength(segments)
    ensures Resolve(Chain(segments, items), segments) == [Num(Decimal(|items|))]
  {
    if |segments| == 1 {
      assert segments == [segments[0]];
      LengthFound(items, segments[0]);
    } else {
      var inner := Chain(segments[1..], items);
      ChainLink(segments[0], inner);
      ResolveAllOne(inner, segments[1..]);
      ResolveChain(segments[1..], items);
    }
  }

  lemma {:induction false} ChainGrows(segments: seq<JsString>, n: nat, m: nat)
    requires n <= m
    ensures Grows(Chain(segments, Nulls(n)), Chain(segments, Nulls(m)))
  {
    if |segments| <= 1 {
    } else {
      ChainGrows(segments[1..], n, m);
      assert Grows(Arr([Chain(segments[1..], Nulls(n))]), Arr([Chain(segments[1..], Nulls(m))]));
    }
  }

  /** On such a chain the rule tests just the length. */
  lemma ChainTests(rule: TriggerRule, n: nat)
    requires EndsInLength(Split(rule.field, DOT))
    ensures EvaluateRule(rule, Chain(Split(rule.field, DOT), Nulls(n))) <==> Satisfies(Num(Decimal(n)), rule.op, rule.value)
  {
    ResolveChain(Split(rule.field, DOT), Nulls(n));
    assert [Num(Decimal(n))][0] == Num(Decimal(n));
  }

  /** A length the test accepts and a longer one it refuses. */
  lemma RefusedLength(op: Operator, value: Json) returns (n: nat, m: nat)
    requires RefusesLonger(op, value)
    ensures n <= m && Satisfies(Num(Decimal(n)), op, value) && !Satisfies(Num(Decimal(m)), op, value)
  {
    if op == Lt {
      n, m := 0, NumberValue(value.literal).Floor + 1;
    } else {
      IndexIsDecimal(value.literal);
      n := IndexOf(value.literal).value;
      m := n + 1;
    }
    DecimalIsIndex(n);
    DecimalIsIndex(m);
    DecimalIsNumber(n);
    DecimalIsNumber(m);
  }

  ghost predicate KeepsFiring(rule: TriggerRule) {
    forall s, t :: Grows(s, t) && EvaluateRule(rule, s) ==> EvaluateRule(rule, t)
  }

  /** Every rule keeps firing on every growing situation, save exactly the length-sensitive ones. */
  lemma KeepsFiringExactly(rule: TriggerRule)
    ensures KeepsFiring(rule) <==> !LengthSensitive(rule)
  {
    if LengthSensitive(rule) {
      var segments := Split(rule.field, DOT);
      var n, m := RefusedLength(rule.op, rule.value);
      ChainGrows(segments, n, m);
      ChainTests(rule, n);
      ChainTests(rule, m);
    } else {
      forall s, t | Grows(s, t) && EvaluateRule(rule, s)
        ensures EvaluateRule(rule, t)
      {
        RuleGrows(rule, s, t);
      }
    }
  }
}
