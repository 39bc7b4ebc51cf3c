/**
 The dotted-path resolver and the trigger rules of packages/core/knowledge-base/form-taxonomy.ts.
 A situation is a JSON value. The source walks a path level by level; the specification is the
 recursive depth-first walk.
 */
module FieldPaths {
  import opened Wrappers
  import opened JsStrings
  import opened Json

  const DOT: CodeUnit := 0x2E

  /** The characters of "length". */
  const LENGTH: JsString := [0x6C, 0x65, 0x6E, 0x67, 0x74, 0x68]

  // ---------- Paths ----------

  /** `s.split(sep)` for a one-character separator. */
  function Split(s: JsString, sep: CodeUnit): (r: seq<JsString>)
    ensures r != []
  {
    if s == [] then [[]]
    else
      var tail := Split(s[1..], sep);
      if s[0] == sep then [[]] + tail else [[s[0]] + tail[0]] + tail[1..]
  }

  /** Whether a path segment ends in `[]`. */
  predicate Expands(segment: JsString) {
    |segment| >= 2 && segment[|segment| - 2] == 0x5B && segment[|segment| - 1] == 0x5D
  }

  function KeyOf(segment: JsString): (r: JsString) {
    if Expands(segment) then segment[..|segment| - 2] else segment
  }

  // ---------- Reading a property ----------

  function Decimal(n: nat): (r: JsString) {
    if n < 10 then [0x30 + n] else Decimal(n / 10) + [0x30 + n % 10]
  }

  function DigitsValue(s: JsString): (r: nat)
    requires AllDigits(s)
  {
    if s == [] then 0 else DigitsValue(s[..|s| - 1]) * 10 + (s[|s| - 1] - 0x30)
  }

  /** The index a key names: decimal digits without leading zeros. */
  function IndexOf(key: JsString): (r: Option<nat>) {
    if key != [] && AllDigits(key) && (|key| == 1 || key[0] != 0x30) then Some(DigitsValue(key)) else None
  }

  /** `node[key]`, own properties only; None is `undefined`. */
  function Get(node: Json, key: JsString): (r: Option<Json>) {
    match node
    case Obj(fields) => if key in Keys(fields) then Some(Lookup(fields, key)) else None
    case Arr(items) =>
      if key == LENGTH then Some(Num(Decimal(|items|)))
      else if IndexOf(key).Some? && IndexOf(key).value < |items| then Some(items[IndexOf(key).value])
      else None
    case _ => None
  }

  /** What one node contributes to the next level. */
  function Children(node: Json, segment: JsString): (r: seq<Json>) {
    match Get(node, KeyOf(segment))
    case None => []
    case Some(value) => if Expands(segment) && value.Arr? then value.items else [value]
  }

  // ---------- Depth-first specification ----------

  function Resolve(node: Json, segments: seq<JsString>): (r: seq<Json>)
    decreases |segments|, 0
  {
    if segments == [] then [node] else ResolveAll(Children(node, segments[0]), segments[1..])
  }

  function ResolveAll(nodes: seq<Json>, segments: seq<JsString>): (r: seq<Json>)
    decreases |segments|, 1, |nodes|
  {
    if nodes == [] then [] else Resolve(nodes[0], segments) + ResolveAll(nodes[1..], segments)
  }

  function ChildrenOfAll(nodes: seq<Json>, segment: JsString): (r: seq<Json>)
    decreases |nodes|
  {
    if nodes == [] then [] else ChildrenOfAll(nodes[..|nodes| - 1], segment) + Children(nodes[|nodes| - 1], segment)
  }

  lemma {:induction false} ResolveAllConcat(a: seq<Json>, b: seq<Json>, segments: seq<JsString>)
    ensures ResolveAll(a + b, segments) == ResolveAll(a, segments) + ResolveAll(b, segments)
    decreases |a|
  {
    if a == [] {
      assert a + b == b;
    } else {
      assert (a + b)[1..] == a[1..] + b;
      ResolveAllConcat(a[1..], b, segments);
    }
  }

  lemma ResolveAllOne(node: Json, segments: seq<JsString>)
    ensures ResolveAll([node], segments) == Resolve(node, segments)
  {
  }

  /** Going down one level for all nodes first does not change what the walk finds, or its order. */
  lemma {:induction false} LevelStep(nodes: seq<Json>, segments: seq<JsString>)
    requires segments != []
    ensures ResolveAll(ChildrenOfAll(nodes, segments[0]), segments[1..]) == ResolveAll(nodes, segments)
    decreases |nodes|
  {
    if nodes == [] {
    } else {
      var n := |nodes| - 1;
      LevelStep(nodes[..n], segments);
      ResolveAllConcat(ChildrenOfAll(nodes[..n], segments[0]), Children(nodes[n], segments[0]), segments[1..]);
      assert nodes == nodes[..n] + [nodes[n]];
      ResolveAllConcat(nodes[..n], [nodes[n]], segments);
      ResolveAllOne(nodes[n], segments);
    }
  }

  lemma {:induction false} ResolveAllDone(nodes: seq<Json>)
    ensures ResolveAll(nodes, []) == nodes
    decreases |nodes|
  {
    if nodes == [] {
    } else {
      ResolveAllDone(nodes[1..]);
      assert nodes == [nodes[0]] + nodes[1..];
    }
  }

  lemma ChildrenOfMore(nodes: seq<Json>, j: nat, segment: JsString)
    requires j < |nodes|
    ensures ChildrenOfAll(nodes[..j + 1], segment) == ChildrenOfAll(nodes[..j], segment) + Children(nodes[j], segment)
  {
    assert nodes[..j + 1][..j] == nodes[..j];
  }

  /** `resolveField`: the level-by-level loop finds what the depth-first walk finds, in its order. */
  method ResolveField(obj: Json, path: JsString) returns (current: seq<Json>)
    ensures current == Resolve(obj, Split(path, DOT))
  {
    var segments := Split(path, DOT);
    current := [obj];
    ResolveAllOne(obj, segments);
    for i := 0 to |segments|
      invariant ResolveAll(current, segments[i..]) == Resolve(obj, segments)
    {
      var segment := segments[i];
      var next: seq<Json> := [];
      var arrayExpand := Expands(segment);
      var key := KeyOf(segment);
      for j := 0 to |current|
        invariant next == ChildrenOfAll(current[..j], segment)
      {
        var node := current[j];
        ChildrenOfMore(current, j, segment);
        if node.Arr? || node.Obj? {
          var val := Get(node, key);
          if arrayExpand && val.Some? && val.value.Arr? {
            next := next + val.value.items;
          } else if val.Some? {
            next := next + [val.value];
          }
        }
      }
      assert current[..|current|] == current;
      LevelStep(current, segments[i..]);
      assert segments[i..][1..] == segments[i + 1..];
      current := next;
    }
    assert segments[|segments|..] == [];
    ResolveAllDone(current);
  }

  // ---------- Trigger rules ----------

  datatype Operator = Equals | Contains | Exists | Gt | Lt

  datatype TriggerRule = TriggerRule(field: JsString, op: Operator, value: Json)

  function Pow10(n: nat): (r: real)
    ensures r >= 1.0
  {
    if n == 0 then 1.0 else 10.0 * Pow10(n - 1)
  }

  function Scaled(digits: nat, exponent: int): (r: real) {
    if exponent >= 0 then digits as real * Pow10(exponent) else digits as real / Pow10(-exponent)
  }

  /** The number a literal denotes. */
  function NumberValue(s: JsString): (r: real)
    requires IsNumber(s)
  {
    if s[0] == 0x2D then -UnsignedValue(s[1..]) else UnsignedValue(s)
  }

  function UnsignedValue(s: JsString): (r: real)
    requires IsIntFracExp(s)
  {
    Scaled(UnsignedDigits(s), UnsignedExponent(s))
  }

  /** All digits of a literal without its sign, read together. */
  function UnsignedDigits(s: JsString): (r: nat)
    requires IsIntFracExp(s)
  {
    var n := DigitRun(s);
    var tail := s[n..];
    if tail != [] && tail[0] == 0x2E then DigitsValue(s[..n] + tail[1..][..DigitRun(tail[1..])]) else DigitsValue(s[..n])
  }

  /** The power of ten that its point and its exponent make. */
  function UnsignedExponent(s: JsString): (r: int)
    requires IsIntFracExp(s)
  {
    var tail := s[DigitRun(s)..];
    if tail != [] && tail[0] == 0x2E then
      var m := DigitRun(tail[1..]);
      ExponentValue(tail[1 + m..]) - m
    else
      ExponentValue(tail)
  }

  function ExponentValue(s: JsString): (r: int)
    requires IsExp(s)
  {
    if s == [] then 0
    else if |s| > 1 && s[1] == 0x2D then -(DigitsValue(s[2..]) as int)
    else if |s| > 1 && s[1] == 0x2B then DigitsValue(s[2..])
    else DigitsValue(s[1..])
  }

  /** `v === w`: arrays and objects of a situation and of a rule are never the same object. */
  predicate StrictEqual(v: Json, w: Json) {
    v == w && !v.Arr? && !v.Obj?
  }

  predicate OccursAt(part: JsString, s: JsString, i: int)
    requires 0 <= i <= |s|
  {
    part <= s[i..]
  }

  predicate IsSubstring(part: JsString, s: JsString) {
    exists i :: 0 <= i <= |s| && OccursAt(part, s, i)
  }

  predicate ContainsValue(v: Json, value: Json) {
    if v.Arr? then exists i :: 0 <= i < |v.items| && StrictEqual(v.items[i], value)
    else if v.Str? && value.Str? then IsSubstring(value.s, v.s)
    else StrictEqual(v, value)
  }

  predicate Satisfies(v: Json, op: Operator, value: Json) {
    match op
    case Exists => v != Null
    case Equals => StrictEqual(v, value)
    case Contains => ContainsValue(v, value)
    case Gt =>
      && v.Num? && value.Num? && IsNumber(v.literal) && IsNumber(value.literal)
      && NumberValue(v.literal) > NumberValue(value.literal)
    case Lt =>
      && v.Num? && value.Num? && IsNumber(v.literal) && IsNumber(value.literal)
      && NumberValue(v.literal) < NumberValue(value.literal)
  }

  /** `evaluateRule` */
  predicate EvaluateRule(rule: TriggerRule, situation: Json) {
    SomeSatisfies(Resolve(situation, Split(rule.field, DOT)), rule.op, rule.value)
  }

  /** `values.some(...)` */
  predicate SomeSatisfies(values: seq<Json>, op: Operator, value: Json) {
    exists i :: 0 <= i < |values| && Satisfies(values[i], op, value)
  }

  lemma {:induction false} AllDigitsRun(s: JsString)
    requires AllDigits(s)
    ensures DigitRun(s) == |s|
  {
  }

  /** The decimal text of a number names that index: no leading zeros, and the same value. */
  lemma {:induction false} DecimalIsIndex(n: nat)
    ensures AllDigits(Decimal(n)) && DigitsValue(Decimal(n)) == n
    ensures Decimal(n) != [] && (n > 0 ==> Decimal(n)[0] != 0x30)
    ensures IndexOf(Decimal(n)) == Some(n)
  {
    var s := Decimal(n);
    if n >= 10 {
      DecimalIsIndex(n / 10);
      assert s[..|s| - 1] == Decimal(n / 10);
    } else {
      assert s[..0] == [];
    }
  }

  /** A further digit makes it ten times the number and that digit. */
  lemma DecimalAppend(n: nat, digit: nat)
    requires n > 0 && digit < 10
    ensures Decimal(10 * n + digit) == Decimal(n) + [0x30 + digit]
  {
  }

  /** Only the decimal text of a number names an index. */
  lemma {:induction false} IndexIsDecimal(key: JsString)
    requires IndexOf(key).Some?
    ensures key == Decimal(IndexOf(key).value)
  {
    var n := |key| - 1;
    if n == 0 {
      assert key[..0] == [];
      assert key == [key[0]];
    } else {
      var front, digit := key[..n], key[n] - 0x30;
      IndexIsDecimal(front);
      assert front[0] == key[0];
      var m := IndexOf(front).value;
      assert m > 0;
      assert DigitsValue(key) == m * 10 + digit;
      DecimalAppend(m, digit);
      assert key == front + [key[n]];
    }
  }

  /** The length that a path reads from an array is a JSON number of that value. */
  lemma DecimalIsNumber(n: nat)
    ensures IsNumber(Decimal(n)) && NumberValue(Decimal(n)) == n as real
  {
    var s := Decimal(n);
    DecimalIsIndex(n);
    AllDigitsRun(s);
    assert s[..|s|] == s && s[|s|..] == [];
    assert n == 0 ==> s == [0x30];
  }
}
