/**
 JSON values as JavaScript holds them. An object keeps its keys in insertion order, so two values
 that a reader calls equal may differ as values of this type; `Equivalent` is equality up to the
 order of object keys, at every depth.
 */
module Json {
  import opened JsStrings

  /** A number is the decimal text JavaScript prints for it, which section 6 of RFC 8259 delimits. */
  datatype Json =
    | Null
    | Bool(b: bool)
    | Num(literal: JsString)
    | Str(s: JsString)
    | Arr(items: seq<Json>)
    | Obj(fields: seq<Field>)

  datatype Field = Field(key: JsString, value: Json)

  function Keys(fields: seq<Field>): (r: seq<JsString>)
  {
    seq(|fields|, i requires 0 <= i < |fields| => fields[i].key)
  }

  /** `object[key]` for a key the object has. */
  function Lookup(fields: seq<Field>, key: JsString): (r: Json)
    requires key in Keys(fields)
    ensures exists i :: 0 <= i < |fields| && fields[i] == Field(key, r)
  {
    if fields[0].key == key then
      assert fields[0] == Field(key, fields[0].value);
      fields[0].value
    else
      assert key in Keys(fields[1..]) by {
        var i :| 0 <= i < |fields| && Keys(fields)[i] == key;
        assert Keys(fields[1..])[i - 1] == key;
      }
      var r := Lookup(fields[1..], key);
      assert exists i :: 0 <= i < |fields| && fields[i] == Field(key, r) by {
        var i :| 0 <= i < |fields[1..]| && fields[1..][i] == Field(key, r);
        assert fields[i + 1] == Field(key, r);
      }
      r
  }

  predicate IsDigit(c: CodeUnit) {
    0x30 <= c <= 0x39
  }

  predicate AllDigits(s: JsString) {
    forall i :: 0 <= i < |s| ==> IsDigit(s[i])
  }

  /** The characters a JSON number is made of: digits, `+`, `-`, `.`, `E` and `e`. */
  predicate IsNumberChar(c: CodeUnit) {
    IsDigit(c) || c == 0x2B || c == 0x2D || c == 0x2E || c == 0x45 || c == 0x65
  }

  /** The number of leading digits. */
  function DigitRun(s: JsString): (n: nat)
    ensures n <= |s| && AllDigits(s[..n]) && (n < |s| ==> !IsDigit(s[n]))
  {
    if s == [] || !IsDigit(s[0]) then 0 else 1 + DigitRun(s[1..])
  }

  /** Section 6 of RFC 8259: `[ minus ] int [ frac ] [ exp ]`. */
  predicate IsNumber(s: JsString) {
    IsIntFracExp(if s != [] && s[0] == 0x2D then s[1..] else s)
  }

  predicate IsIntFracExp(s: JsString) {
    var n := DigitRun(s);
    n > 0 && (s[0] == 0x30 ==> n == 1) && IsFracExp(s[n..])
  }

  predicate IsFracExp(s: JsString) {
    if s != [] && s[0] == 0x2E then
      var n := DigitRun(s[1..]);
      n > 0 && IsExp(s[1 + n..])
    else
      IsExp(s)
  }

  predicate IsExp(s: JsString) {
    s == [] ||
    ((s[0] == 0x65 || s[0] == 0x45) &&
     var digits := if |s| > 1 && (s[1] == 0x2B || s[1] == 0x2D) then s[2..] else s[1..];
     digits != [] && AllDigits(digits))
  }

  ghost predicate DistinctKeys(fields: seq<Field>) {
    forall i, j :: 0 <= i < j < |fields| ==> fields[i].key != fields[j].key
  }

  /** The field a key is found in, when keys are distinct. */
  lemma LookupAt(fields: seq<Field>, i: nat)
    requires DistinctKeys(fields) && i < |fields|
    ensures fields[i].key in Keys(fields)
    ensures Lookup(fields, fields[i].key) == fields[i].value
  {
    assert Keys(fields)[i] == fields[i].key;
    var w := Lookup(fields, fields[i].key);
    var j :| 0 <= j < |fields| && fields[j] == Field(fields[i].key, w);
  }

  /** Values that exist in JavaScript: numbers print as numbers, and object keys are distinct. */
  ghost predicate Valid(v: Json) {
    match v
    case Null => true
    case Bool(_) => true
    case Num(literal) => IsNumber(literal)
    case Str(_) => true
    case Arr(items) => forall i :: 0 <= i < |items| ==> Valid(items[i])
    case Obj(fields) =>
      && DistinctKeys(fields)
      && (forall i :: 0 <= i < |fields| ==> Valid(fields[i].value))
  }

  /** Equality up to the order of object keys, at every depth. */
  ghost predicate Equivalent(v: Json, w: Json) {
    match v
    case Arr(items) =>
      && w.Arr? && |items| == |w.items|
      && forall i :: 0 <= i < |items| ==> Equivalent(items[i], w.items[i])
    case Obj(fields) =>
      && w.Obj?
      && (forall k :: k in Keys(fields) <==> k in Keys(w.fields))
      && forall i, j :: 0 <= i < |fields| && 0 <= j < |w.fields| && fields[i].key == w.fields[j].key ==>
           Equivalent(fields[i].value, w.fields[j].value)
    case _ => v == w
  }
}
