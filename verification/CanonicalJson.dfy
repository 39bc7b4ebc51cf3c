/**
 The canonical JSON printer of packages/core/audit.ts, and the normal form whose plain text it prints.
 `JsonParser` inverts it.
 */
module CanonicalJson {
  import opened Wrappers
  import opened JsStrings
  import opened Json

  const QUOTE: CodeUnit := 0x22
  const BACKSLASH: CodeUnit := 0x5C
  const COMMA: CodeUnit := 0x2C
  const COLON: CodeUnit := 0x3A
  const OPEN_BRACKET: CodeUnit := 0x5B
  const CLOSE_BRACKET: CodeUnit := 0x5D
  const OPEN_BRACE: CodeUnit := 0x7B
  const CLOSE_BRACE: CodeUnit := 0x7D

  const NULL_TEXT: JsString := [0x6E, 0x75, 0x6C, 0x6C]
  const TRUE_TEXT: JsString := [0x74, 0x72, 0x75, 0x65]
  const FALSE_TEXT: JsString := [0x66, 0x61, 0x6C, 0x73, 0x65]

  // ---------- Strings: JSON.stringify on a string ----------

  predicate IsLead(c: CodeUnit) { 0xD800 <= c <= 0xDBFF }

  predicate IsTrail(c: CodeUnit) { 0xDC00 <= c <= 0xDFFF }

  function HexDigit(d: int): (c: CodeUnit)
    requires 0 <= d < 16
  {
    if d < 10 then 0x30 + d else 0x61 + d - 10
  }

  function HexValue(c: CodeUnit): (d: Option<int>)
    ensures d.Some? ==> 0 <= d.value < 16
  {
    if 0x30 <= c <= 0x39 then Some(c - 0x30)
    else if 0x61 <= c <= 0x66 then Some(c - 0x61 + 10)
    else if 0x41 <= c <= 0x46 then Some(c - 0x41 + 10)
    else None
  }

  /** Four hexadecimal digits, most significant first. */
  function HexDigits(c: CodeUnit): (r: JsString) {
    var c3 := c % 0x1000;
    var c2 := c3 % 0x100;
    [HexDigit(c / 0x1000), HexDigit(c3 / 0x100), HexDigit(c2 / 0x10), HexDigit(c2 % 0x10)]
  }

  /** `\uXXXX` in lower-case hexadecimal. */
  function UnicodeEscape(c: CodeUnit): (r: JsString) {
    [BACKSLASH, 0x75] + HexDigits(c)
  }

  /** One code unit that is not part of a surrogate pair. */
  function EscapeUnit(c: CodeUnit): (r: JsString) {
    if c == 0x08 then [BACKSLASH, 0x62]
    else if c == 0x09 then [BACKSLASH, 0x74]
    else if c == 0x0A then [BACKSLASH, 0x6E]
    else if c == 0x0C then [BACKSLASH, 0x66]
    else if c == 0x0D then [BACKSLASH, 0x72]
    else if c == QUOTE || c == BACKSLASH then [BACKSLASH, c]
    else if c < 0x20 || IsLead(c) || IsTrail(c) then UnicodeEscape(c)
    else [c]
  }

  function Escape(s: JsString): (r: JsString) {
    if s == [] then
      []
    else if |s| > 1 && IsLead(s[0]) && IsTrail(s[1]) then
      [s[0], s[1]] + Escape(s[2..])
    else
      EscapeUnit(s[0]) + Escape(s[1..])
  }

  function Quote(s: JsString): (r: JsString) {
    [QUOTE] + Escape(s) + [QUOTE]
  }

  // ---------- The canonical printer ----------

  function Join(parts: seq<JsString>): (r: JsString) {
    if parts == [] then []
    else if |parts| == 1 then parts[0]
    else parts[0] + [COMMA] + Join(parts[1..])
  }

  /** `canonicalJson`: like JSON.stringify, but each object's keys are sorted first. */
  function Canonical(v: Json): (r: JsString) {
    match v
    case Null => NULL_TEXT
    case Bool(b) => if b then TRUE_TEXT else FALSE_TEXT
    case Num(literal) => literal
    case Str(s) => Quote(s)
    case Arr(items) =>
      [OPEN_BRACKET] + Join(seq(|items|, i requires 0 <= i < |items| => Canonical(items[i]))) + [CLOSE_BRACKET]
    case Obj(fields) =>
      var keys := JsStrings.Sort(Keys(fields));
      [OPEN_BRACE] +
      Join(seq(|keys|, i requires 0 <= i < |keys| =>
                         assert keys[i] in keys; Quote(keys[i]) + [COLON] + Canonical(Lookup(fields, keys[i])))) +
      [CLOSE_BRACE]
  }

  // ---------- Normal forms ----------

  /** The value with the keys of every object in order. */
  function Normalize(v: Json): (r: Json) {
    match v
    case Arr(items) => Arr(seq(|items|, i requires 0 <= i < |items| => Normalize(items[i])))
    case Obj(fields) =>
      var keys := JsStrings.Sort(Keys(fields));
      Obj(seq(|keys|, i requires 0 <= i < |keys| =>
                assert keys[i] in keys; Field(keys[i], Normalize(Lookup(fields, keys[i])))))
    case _ => v
  }

  /** Prints a value with its keys in the order they stand in. */
  function Print(v: Json): (r: JsString) {
    match v
    case Null => NULL_TEXT
    case Bool(b) => if b then TRUE_TEXT else FALSE_TEXT
    case Num(literal) => literal
    case Str(s) => Quote(s)
    case Arr(items) => [OPEN_BRACKET] + Join(PrintedItems(items)) + [CLOSE_BRACKET]
    case Obj(fields) => [OPEN_BRACE] + Join(PrintedFields(fields)) + [CLOSE_BRACE]
  }

  function PrintedItems(items: seq<Json>): (r: seq<JsString>) {
    seq(|items|, i requires 0 <= i < |items| => Print(items[i]))
  }

  function PrintedFields(fields: seq<Field>): (r: seq<JsString>) {
    seq(|fields|, i requires 0 <= i < |fields| => Quote(fields[i].key) + [COLON] + Print(fields[i].value))
  }

  /** A field of a normal form. */
  lemma NormalField(fields: seq<Field>, i: nat)
    requires i < |JsStrings.Sort(Keys(fields))|
    ensures var keys := JsStrings.Sort(Keys(fields));
            && |Normalize(Obj(fields)).fields| == |keys|
            && keys[i] in Keys(fields)
            && Normalize(Obj(fields)).fields[i] == Field(keys[i], Normalize(Lookup(fields, keys[i])))
  {
  }

  lemma KeysOfNormalForm(fields: seq<Field>)
    ensures Keys(Normalize(Obj(fields)).fields) == JsStrings.Sort(Keys(fields))
  {
  }

  /** The canonical text of a value is the plain text of its normal form. */
  lemma {:induction false} CanonicalIsPrintedNormalForm(v: Json)
    ensures Canonical(v) == Print(Normalize(v))
  {
    match v
    case Arr(items) =>
      var ns := Normalize(v).items;
      forall i | 0 <= i < |items|
        ensures Canonical(items[i]) == Print(ns[i])
      {
        CanonicalIsPrintedNormalForm(items[i]);
      }
      assert seq(|items|, i requires 0 <= i < |items| => Canonical(items[i])) == PrintedItems(ns);
    case Obj(fields) =>
      var keys := JsStrings.Sort(Keys(fields));
      var nfs := Normalize(v).fields;
      var parts := seq(|keys|, i requires 0 <= i < |keys| =>
                         assert keys[i] in keys; Quote(keys[i]) + [COLON] + Canonical(Lookup(fields, keys[i])));
      forall i | 0 <= i < |keys|
        ensures parts[i] == PrintedFields(nfs)[i]
      {
        NormalField(fields, i);
        var w := Lookup(fields, keys[i]);
        var j :| 0 <= j < |fields| && fields[j] == Field(keys[i], w);
        assert fields[j].value == w;
        CanonicalIsPrintedNormalForm(w);
      }
      assert parts == PrintedFields(nfs);
    case _ =>
  }

  lemma {:induction false} NormalizeValid(v: Json)
    requires Valid(v)
    ensures Valid(Normalize(v))
  {
    match v
    case Arr(items) =>
      forall i | 0 <= i < |items|
        ensures Valid(Normalize(v).items[i])
      {
        NormalizeValid(items[i]);
      }
    case Obj(fields) =>
      var nfs := Normalize(v).fields;
      var keys := JsStrings.Sort(Keys(fields));
      forall i | 0 <= i < |nfs|
        ensures nfs[i].key == keys[i] && Valid(nfs[i].value)
      {
        NormalField(fields, i);
        var w := Lookup(fields, keys[i]);
        var j :| 0 <= j < |fields| && fields[j] == Field(keys[i], w);
        NormalizeValid(fields[j].value);
      }
      DistinctPermutation(Keys(fields), keys);
    case _ =>
  }

  /** `Equivalent` objects list the same keys, so their sorted keys agree. */
  lemma SameSortedKeys(fs: seq<Field>, gs: seq<Field>)
    requires Valid(Obj(fs)) && Valid(Obj(gs))
    requires forall k :: k in Keys(fs) <==> k in Keys(gs)
    ensures JsStrings.Sort(Keys(fs)) == JsStrings.Sort(Keys(gs))
  {
    SameDistinct(Keys(fs), Keys(gs));
    JsStrings.SortSorted(Keys(fs));
    JsStrings.SortIs(Keys(gs), JsStrings.Sort(Keys(fs)));
  }

  lemma {:induction false} EquivalentSameNormalForm(v: Json, w: Json)
    requires Valid(v) && Valid(w) && Equivalent(v, w)
    ensures Normalize(v) == Normalize(w)
  {
    match v
    case Arr(items) =>
      forall i | 0 <= i < |items|
        ensures Normalize(items[i]) == Normalize(w.items[i])
      {
        EquivalentSameNormalForm(items[i], w.items[i]);
      }
      assert Normalize(v).items == Normalize(w).items;
    case Obj(fields) =>
      var vs, ws := Normalize(v).fields, Normalize(w).fields;
      var keys := JsStrings.Sort(Keys(fields));
      SameSortedKeys(fields, w.fields);
      forall i | 0 <= i < |keys|
        ensures vs[i] == ws[i]
      {
        NormalField(fields, i);
        NormalField(w.fields, i);
        var a, b := Lookup(fields, keys[i]), Lookup(w.fields, keys[i]);
        var m :| 0 <= m < |fields| && fields[m] == Field(keys[i], a);
        var n :| 0 <= n < |w.fields| && w.fields[n] == Field(keys[i], b);
        assert Equivalent(fields[m].value, w.fields[n].value);
        EquivalentSameNormalForm(fields[m].value, w.fields[n].value);
      }
      assert vs == ws;
    case _ =>
  }

  lemma {:induction false} SameNormalFormEquivalent(v: Json, w: Json)
    requires Valid(v) && Valid(w) && Normalize(v) == Normalize(w)
    ensures Equivalent(v, w)
  {
    match v
    case Arr(items) =>
      forall i | 0 <= i < |items|
        ensures Equivalent(items[i], w.items[i])
      {
        assert Normalize(v).items[i] == Normalize(w).items[i];
        SameNormalFormEquivalent(items[i], w.items[i]);
      }
    case Obj(fields) =>
      var keys := JsStrings.Sort(Keys(fields));
      KeysOfNormalForm(fields);
      KeysOfNormalForm(w.fields);
      assert keys == JsStrings.Sort(Keys(w.fields));
      forall k
        ensures k in Keys(fields) <==> k in Keys(w.fields)
      {
        assert k in keys <==> k in Keys(fields);
      }
      forall i, j | 0 <= i < |fields| && 0 <= j < |w.fields| && fields[i].key == w.fields[j].key
        ensures Equivalent(fields[i].value, w.fields[j].value)
      {
        SameFieldNormalForm(fields, w.fields, i, j);
        SameNormalFormEquivalent(fields[i].value, w.fields[j].value);
      }
    case _ =>
  }

  lemma SameFieldNormalForm(fs: seq<Field>, gs: seq<Field>, i: nat, j: nat)
    requires Valid(Obj(fs)) && Valid(Obj(gs)) && Normalize(Obj(fs)) == Normalize(Obj(gs))
    requires i < |fs| && j < |gs| && fs[i].key == gs[j].key
    ensures Normalize(fs[i].value) == Normalize(gs[j].value)
  {
    var keys := JsStrings.Sort(Keys(fs));
    KeysOfNormalForm(fs);
    KeysOfNormalForm(gs);
    LookupAt(fs, i);
    LookupAt(gs, j);
    assert fs[i].key in keys;
    var n :| 0 <= n < |keys| && keys[n] == fs[i].key;
    NormalField(fs, n);
    NormalField(gs, n);
  }
}
