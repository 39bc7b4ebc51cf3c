/**
 The exact text of `JSON.stringify` (section 25.5.2 of ECMA-262) and of the canonical printer, written
 with string literals: which characters are escaped and how, and in which order keys stand.
 */
module JsonText {
  import opened Wrappers
  import opened JsStrings
  import opened Json
  import opened CanonicalJson
  import opened JsonParser
  import Sorting

  lemma Tokens()
    ensures NULL_TEXT == Text("null") && TRUE_TEXT == Text("true") && FALSE_TEXT == Text("false")
    ensures [QUOTE] == Text("\"") && [BACKSLASH] == Text("\\") && [COMMA] == Text(",") && [COLON] == Text(":")
    ensures [OPEN_BRACKET] == Text("[") && [CLOSE_BRACKET] == Text("]")
    ensures [OPEN_BRACE] == Text("{") && [CLOSE_BRACE] == Text("}")
  {
  }

  // ---------- Strings ----------

  predicate IsSurrogate(c: CodeUnit) {
    0xD800 <= c < 0xE000
  }

  /** The two-character escapes of a string. */
  function ShortEscape(c: CodeUnit): (r: Option<string>) {
    if c == 0x08 then Some("\\b")
    else if c == 0x09 then Some("\\t")
    else if c == 0x0A then Some("\\n")
    else if c == 0x0C then Some("\\f")
    else if c == 0x0D then Some("\\r")
    else if c == 0x22 then Some("\\\"")
    else if c == 0x5C then Some("\\\\")
    else None
  }

  /** `\u` and four hexadecimal digits. */
  function LongEscape(c: CodeUnit): (r: JsString) {
    var hex := Text("0123456789abcdef");
    Text("\\u") + [hex[c / 0x1000], hex[c % 0x1000 / 0x100], hex[c % 0x100 / 0x10], hex[c % 0x10]]
  }

  function StringifiedUnit(c: CodeUnit): (r: JsString) {
    match ShortEscape(c)
    case Some(text) => Text(text)
    case None => if c < 0x20 || IsSurrogate(c) then LongEscape(c) else [c]
  }

  /** The unit at `i` belongs to a surrogate pair. */
  predicate Paired(s: JsString, i: nat)
    requires i < |s|
  {
    || (0xD800 <= s[i] < 0xDC00 && i + 1 < |s| && 0xDC00 <= s[i + 1] < 0xE000)
    || (0xDC00 <= s[i] < 0xE000 && i > 0 && 0xD800 <= s[i - 1] < 0xDC00)
  }

  /** The characters of `s` from the `i`-th on, as they stand in a JSON string. */
  function Stringified(s: JsString, i: nat): (r: JsString)
    requires i <= |s|
    decreases |s| - i
  {
    if i == |s| then [] else (if Paired(s, i) then [s[i]] else StringifiedUnit(s[i])) + Stringified(s, i + 1)
  }

  lemma HexDigitText(d: int)
    requires 0 <= d < 16
    ensures HexDigit(d) == Text("0123456789abcdef")[d]
  {
    assert d in {0, 1, 2, 3, 4, 5, 6, 7, 8, 9, 10, 11, 12, 13, 14, 15};
  }

  lemma LastDigits(c: int)
    requires 0 <= c
    ensures c % 0x1000 % 0x100 == c % 0x100
  {
    assert c == 0x1000 * (c / 0x1000) + c % 0x1000;
  }

  lemma LastDigit(c: int)
    requires 0 <= c
    ensures c % 0x100 % 0x10 == c % 0x10
  {
    assert c == 0x100 * (c / 0x100) + c % 0x100;
  }

  lemma UnicodeEscapeIsLong(c: CodeUnit)
    ensures UnicodeEscape(c) == LongEscape(c)
  {
    LastDigits(c);
    LastDigit(c);
    HexDigitText(c / 0x1000);
    HexDigitText(c % 0x1000 / 0x100);
    HexDigitText(c % 0x100 / 0x10);
    HexDigitText(c % 0x10);
  }

  lemma EscapeUnitIsStringified(c: CodeUnit)
    ensures EscapeUnit(c) == StringifiedUnit(c)
  {
    if ShortEscape(c).None? {
      UnicodeEscapeIsLong(c);
    }
  }

  lemma {:induction false} EscapeIsStringified(s: JsString, i: nat)
    requires i <= |s| && (0 < i < |s| && IsTrail(s[i]) ==> !IsLead(s[i - 1]))
    ensures Escape(s[i..]) == Stringified(s, i)
    decreases |s| - i
  {
    if i == |s| {
    } else if i + 1 < |s| && IsLead(s[i]) && IsTrail(s[i + 1]) {
      EscapeIsStringified(s, i + 2);
      assert s[i..][2..] == s[i + 2..];
      Assoc([s[i]], [s[i + 1]], Stringified(s, i + 2));
      assert [s[i], s[i + 1]] == [s[i]] + [s[i + 1]];
    } else {
      EscapeIsStringified(s, i + 1);
      EscapeUnitIsStringified(s[i]);
      assert s[i..][1..] == s[i + 1..];
    }
  }

  /** `JSON.stringify` of a string: quotation marks, the escapes named above, and every other character as it is. */
  lemma QuoteIsStringified(s: JsString)
    ensures Quote(s) == Text("\"") + Stringified(s, 0) + Text("\"")
    ensures Canonical(Str(s)) == Quote(s)
  {
    Tokens();
    EscapeIsStringified(s, 0);
    assert s[0..] == s;
  }

  /** Characters that JSON.stringify leaves alone. */
  predicate Plain(s: JsString) {
    forall i :: 0 <= i < |s| ==> 0x20 <= s[i] < 0x7F && s[i] != QUOTE && s[i] != BACKSLASH
  }

  lemma {:induction false} PlainEscape(s: JsString)
    requires Plain(s)
    ensures Escape(s) == s
  {
    if s == [] {
    } else {
      PlainEscape(s[1..]);
      assert s == [s[0]] + s[1..];
    }
  }

  // ---------- Key order ----------

  /** In code unit order: a proper prefix, or smaller where they first differ. */
  ghost predicate InOrder(a: JsString, b: JsString) {
    a <= b || exists k :: 0 <= k < |a| && k < |b| && a[..k] == b[..k] && a[k] < b[k]
  }

  lemma InOrderStep(x: CodeUnit, a: JsString, b: JsString)
    ensures InOrder([x] + a, [x] + b) <==> InOrder(a, b)
  {
    var c, d := [x] + a, [x] + b;
    if k :| 0 <= k < |c| && k < |d| && c[..k] == d[..k] && c[k] < d[k] {
      assert k > 0;
      assert a[..k - 1] == c[..k][1..] && b[..k - 1] == d[..k][1..];
      assert a[k - 1] < b[k - 1];
    }
    if k :| 0 <= k < |a| && k < |b| && a[..k] == b[..k] && a[k] < b[k] {
      assert c[..k + 1] == [x] + a[..k] && d[..k + 1] == [x] + b[..k];
      assert c[k + 1] < d[k + 1];
    }
    if c <= d {
      assert a == c[1..] && b == d[1..];
    }
    if a <= b {
      assert d == c + b[|a|..];
    }
  }

  lemma InOrderHead(a: JsString, b: JsString)
    requires a != [] && b != [] && a[0] != b[0]
    ensures InOrder(a, b) <==> a[0] < b[0]
  {
    assert a[..0] == b[..0];
    if k :| 0 <= k < |a| && k < |b| && a[..k] == b[..k] && a[k] < b[k] {
      SameHead(a, b, k);
    }
  }

  lemma SameHead(a: JsString, b: JsString, k: nat)
    requires k < |a| && k < |b| && a[..k] == b[..k]
    ensures k > 0 ==> a[0] == b[0]
  {
    if k > 0 {
      assert a[0] == a[..k][0];
    }
  }

  lemma {:induction false} LeIsInOrder(a: JsString, b: JsString)
    ensures Le(a, b) <==> InOrder(a, b)
  {
    if a == [] || b == [] {
    } else if a[0] == b[0] {
      LeIsInOrder(a[1..], b[1..]);
      InOrderStep(a[0], a[1..], b[1..]);
      assert a == [a[0]] + a[1..] && b == [b[0]] + b[1..];
    } else {
      InOrderHead(a, b);
    }
  }

  /** The keys of every object ascend, at every depth. */
  ghost predicate KeysAscend(v: Json) {
    match v
    case Arr(items) => forall i :: 0 <= i < |items| ==> KeysAscend(items[i])
    case Obj(fields) =>
      && (forall i, j :: 0 <= i < j < |fields| ==> InOrder(fields[i].key, fields[j].key) && fields[i].key != fields[j].key)
      && forall i :: 0 <= i < |fields| ==> KeysAscend(fields[i].value)
    case _ => true
  }

  lemma SortedKeysAscend(fields: seq<Field>, i: nat, j: nat)
    requires DistinctKeys(fields) && i < j < |JsStrings.Sort(Keys(fields))|
    ensures var keys := JsStrings.Sort(Keys(fields)); InOrder(keys[i], keys[j]) && keys[i] != keys[j]
  {
    var keys := JsStrings.Sort(Keys(fields));
    assert Distinct(Keys(fields));
    DistinctPermutation(Keys(fields), keys);
    SortSorted(Keys(fields));
    LeIsInOrder(keys[i], keys[j]);
  }

  lemma {:induction false} NormalFormAscends(v: Json)
    requires Valid(v)
    ensures KeysAscend(Normalize(v))
  {
    match v
    case Arr(items) =>
      forall i | 0 <= i < |items|
        ensures KeysAscend(Normalize(v).items[i])
      {
        NormalFormAscends(items[i]);
      }
    case Obj(fields) =>
      var nfs, keys := Normalize(v).fields, JsStrings.Sort(Keys(fields));
      forall i | 0 <= i < |keys|
        ensures nfs[i].key == keys[i] && KeysAscend(nfs[i].value)
      {
        NormalField(fields, i);
        var w := Lookup(fields, keys[i]);
        var j :| 0 <= j < |fields| && fields[j] == Field(keys[i], w);
        NormalFormAscends(fields[j].value);
      }
      forall i, j | 0 <= i < j < |nfs|
        ensures InOrder(nfs[i].key, nfs[j].key) && nfs[i].key != nfs[j].key
      {
        SortedKeysAscend(fields, i, j);
      }
    case _ =>
  }

  lemma {:induction false} NormalFormEquivalent(v: Json)
    requires Valid(v)
    ensures Equivalent(v, Normalize(v))
  {
    match v
    case Arr(items) =>
      forall i | 0 <= i < |items|
        ensures Equivalent(items[i], Normalize(v).items[i])
      {
        NormalFormEquivalent(items[i]);
      }
    case Obj(fields) =>
      var nfs, keys := Normalize(v).fields, JsStrings.Sort(Keys(fields));
      KeysOfNormalForm(fields);
      forall i, j | 0 <= i < |fields| && 0 <= j < |nfs| && fields[i].key == nfs[j].key
        ensures Equivalent(fields[i].value, nfs[j].value)
      {
        NormalField(fields, j);
        LookupAt(fields, i);
        NormalFormEquivalent(fields[i].value);
      }
    case _ =>
  }

  /** A canonical text reads back as the value itself but for the order of keys, and its keys ascend. */
  lemma CanonicalReadsBack(v: Json, rest: JsString)
    requires Valid(v) && Delimited(rest)
    ensures var parsed := ParseValue(Canonical(v) + rest);
            parsed.Got? && parsed.rest == rest && Equivalent(v, parsed.value) && KeysAscend(parsed.value)
  {
    ParseCanonical(v, rest);
    NormalFormEquivalent(v);
    NormalFormAscends(v);
  }
}
