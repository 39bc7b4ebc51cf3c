/**
 A parser for compact JSON text (sections 4 to 7 of RFC 8259, without insignificant white space),
 written independently of the printers in `CanonicalJson`, and the proof that it reads back what
 they print whenever a legal delimiter follows.
 */
module JsonParser {
  import opened Wrappers
  import opened JsStrings
  import opened Json
  import opened CanonicalJson

  /** A value read from the front of a text, and the text behind it. */
  datatype Parsed<+T> = Fail | Got(value: T, rest: JsString)

  predicate StartsWith(s: JsString, prefix: JsString) {
    |prefix| <= |s| && s[..|prefix|] == prefix
  }

  // ---------- Strings ----------

  function Hex4(s: JsString): (r: Option<CodeUnit>)
    requires |s| == 4
  {
    var a, b, c, d := HexValue(s[0]), HexValue(s[1]), HexValue(s[2]), HexValue(s[3]);
    if a.Some? && b.Some? && c.Some? && d.Some? then
      Some(a.value * 0x1000 + b.value * 0x100 + c.value * 0x10 + d.value)
    else
      None
  }

  /** The two-character escapes of section 7. */
  function SimpleEscape(c: CodeUnit): (r: Option<CodeUnit>) {
    if c == QUOTE || c == BACKSLASH || c == 0x2F then Some(c)
    else if c == 0x62 then Some(0x08)
    else if c == 0x66 then Some(0x0C)
    else if c == 0x6E then Some(0x0A)
    else if c == 0x72 then Some(0x0D)
    else if c == 0x74 then Some(0x09)
    else None
  }

  /** The code unit that stands at the front of a string body, and the text behind it. */
  function ParseUnit(s: JsString): (r: Parsed<CodeUnit>)
    ensures r.Got? ==> |r.rest| < |s|
  {
    if s == [] || s[0] == QUOTE || s[0] < 0x20 then Fail
    else if s[0] != BACKSLASH then Got(s[0], s[1..])
    else if |s| >= 6 && s[1] == 0x75 then
      var u := Hex4(s[2..6]);
      if u.Some? then Got(u.value, s[6..]) else Fail
    else if |s| >= 2 then
      var u := SimpleEscape(s[1]);
      if u.Some? then Got(u.value, s[2..]) else Fail
    else Fail
  }

  /** The body of a string, up to and over its closing quotation mark. */
  function ParseChars(s: JsString): (r: Parsed<JsString>)
    ensures r.Got? ==> |r.rest| < |s|
  {
    if s != [] && s[0] == QUOTE then Got([], s[1..])
    else
      var u := ParseUnit(s);
      if u.Fail? then Fail
      else
        var tail := ParseChars(u.rest);
        if tail.Fail? then Fail else Got([u.value] + tail.value, tail.rest)
  }

  // ---------- Numbers ----------

  function NumberRun(s: JsString): (n: nat)
    ensures n <= |s|
  {
    if s == [] || !IsNumberChar(s[0]) then 0 else 1 + NumberRun(s[1..])
  }

  // ---------- Values ----------

  function ParseValue(s: JsString): (r: Parsed<Json>)
    ensures r.Got? ==> |r.rest| < |s|
    decreases |s|, 0
  {
    if s == [] then Fail
    else if s[0] == QUOTE then
      var p := ParseChars(s[1..]);
      if p.Fail? then Fail else Got(Str(p.value), p.rest)
    else if s[0] == OPEN_BRACKET then
      if |s| > 1 && s[1] == CLOSE_BRACKET then Got(Arr([]), s[2..])
      else
        var p := ParseItems(s[1..]);
        if p.Fail? then Fail else Got(Arr(p.value), p.rest)
    else if s[0] == OPEN_BRACE then
      if |s| > 1 && s[1] == CLOSE_BRACE then Got(Obj([]), s[2..])
      else
        var p := ParseFields(s[1..]);
        if p.Fail? then Fail else Got(Obj(p.value), p.rest)
    else if StartsWith(s, NULL_TEXT) then Got(Null, s[4..])
    else if StartsWith(s, TRUE_TEXT) then Got(Bool(true), s[4..])
    else if StartsWith(s, FALSE_TEXT) then Got(Bool(false), s[5..])
    else
      var n := NumberRun(s);
      if n > 0 && IsNumber(s[..n]) then Got(Num(s[..n]), s[n..]) else Fail
  }

  /** `value *( "," value ) "]"` */
  function ParseItems(s: JsString): (r: Parsed<seq<Json>>)
    ensures r.Got? ==> |r.rest| < |s|
    decreases |s|, 1
  {
    var first := ParseValue(s);
    if first.Fail? || first.rest == [] then Fail
    else if first.rest[0] == CLOSE_BRACKET then Got([first.value], first.rest[1..])
    else if first.rest[0] == COMMA then
      var more := ParseItems(first.rest[1..]);
      if more.Fail? then Fail else Got([first.value] + more.value, more.rest)
    else Fail
  }

  /** `string ":" value *( "," string ":" value ) "}"` */
  function ParseFields(s: JsString): (r: Parsed<seq<Field>>)
    ensures r.Got? ==> |r.rest| < |s|
    decreases |s|, 1
  {
    if s == [] || s[0] != QUOTE then Fail
    else
      var key := ParseChars(s[1..]);
      if key.Fail? || key.rest == [] || key.rest[0] != COLON then Fail
      else
        var first := ParseValue(key.rest[1..]);
        if first.Fail? || first.rest == [] then Fail
        else if first.rest[0] == CLOSE_BRACE then Got([Field(key.value, first.value)], first.rest[1..])
        else if first.rest[0] == COMMA then
          var more := ParseFields(first.rest[1..]);
          if more.Fail? then Fail else Got([Field(key.value, first.value)] + more.value, more.rest)
        else Fail
  }

  // ---------- Reading back strings ----------

  lemma Hex4RoundTrip(c: CodeUnit)
    ensures Hex4(HexDigits(c)) == Some(c)
  {
  }

  lemma ParseEscapedUnit(c: CodeUnit, rest: JsString)
    ensures ParseUnit(EscapeUnit(c) + rest) == Got(c, rest)
    ensures (EscapeUnit(c) + rest)[0] != QUOTE
  {
    var s := EscapeUnit(c) + rest;
    if |EscapeUnit(c)| == 6 {
      Hex4RoundTrip(c);
      assert s[2..6] == HexDigits(c);
      assert s[6..] == rest;
    } else if |EscapeUnit(c)| == 1 {
      assert s[1..] == rest;
    } else {
      assert s[2..] == rest;
    }
  }

  lemma ParseCharsStep(s: JsString, c: CodeUnit, behind: JsString)
    requires s != [] && s[0] != QUOTE && ParseUnit(s) == Got(c, behind)
    ensures ParseChars(s) ==
            match ParseChars(behind)
            case Fail => Fail
            case Got(x, rest) => Got([c] + x, rest)
  {
  }

  lemma ParsePair(lead: CodeUnit, trail: CodeUnit, behind: JsString, x: JsString, rest: JsString)
    requires IsLead(lead) && IsTrail(trail) && ParseChars(behind) == Got(x, rest)
    ensures ParseChars([lead, trail] + behind) == Got([lead, trail] + x, rest)
  {
    var low := [trail] + behind;
    ParseUnescaped(trail, behind);
    ParseCharsStep(low, trail, behind);
    ParseUnescaped(lead, low);
    ParseCharsStep([lead] + low, lead, low);
    assert [lead, trail] + behind == [lead] + low;
    assert [lead, trail] + x == [lead] + ([trail] + x);
  }

  lemma ParseLone(c: CodeUnit, behind: JsString, x: JsString, rest: JsString)
    requires ParseChars(behind) == Got(x, rest)
    ensures ParseChars(EscapeUnit(c) + behind) == Got([c] + x, rest)
  {
    ParseEscapedUnit(c, behind);
    ParseCharsStep(EscapeUnit(c) + behind, c, behind);
  }

  lemma {:induction false} ParseEscaped(x: JsString, rest: JsString)
    ensures ParseChars(Escape(x) + ([QUOTE] + rest)) == Got(x, rest)
  {
    var close := [QUOTE] + rest;
    if x == [] {
      assert Escape(x) + close == close;
      assert close[1..] == rest;
    } else if |x| > 1 && IsLead(x[0]) && IsTrail(x[1]) {
      var behind := Escape(x[2..]) + close;
      ParseEscaped(x[2..], rest);
      ParsePair(x[0], x[1], behind, x[2..], rest);
      Assoc([x[0], x[1]], Escape(x[2..]), close);
      assert [x[0], x[1]] + x[2..] == x;
    } else {
      var behind := Escape(x[1..]) + close;
      ParseEscaped(x[1..], rest);
      ParseLone(x[0], behind, x[1..], rest);
      Assoc(EscapeUnit(x[0]), Escape(x[1..]), close);
      assert [x[0]] + x[1..] == x;
    }
  }

  lemma ParseUnescaped(c: CodeUnit, behind: JsString)
    requires c >= 0x20 && c != QUOTE && c != BACKSLASH
    ensures ParseUnit([c] + behind) == Got(c, behind)
  {
  }

  /** A quoted string is read back, whatever follows. */
  lemma ParseQuoted(x: JsString, rest: JsString)
    ensures (Quote(x) + rest)[0] == QUOTE
    ensures ParseChars((Quote(x) + rest)[1..]) == Got(x, rest)
  {
    assert (Quote(x) + rest)[1..] == Escape(x) + ([QUOTE] + rest);
    ParseEscaped(x, rest);
  }

  // ---------- Reading back numbers ----------

  lemma NumberCharsOnly(s: JsString)
    requires IsNumber(s)
    ensures s != [] && forall c :: c in s ==> IsNumberChar(c)
  {
    var t := if s != [] && s[0] == 0x2D then s[1..] else s;
    var n := DigitRun(t);
    FractionChars(t[n..]);
    assert t == t[..n] + t[n..];
    assert s == t || s == [0x2D] + t;
  }

  lemma FractionChars(s: JsString)
    requires IsFracExp(s)
    ensures forall c :: c in s ==> IsNumberChar(c)
  {
    if s != [] && s[0] == 0x2E {
      var n := DigitRun(s[1..]);
      var digits, exponent := s[1..][..n], s[1 + n..];
      ExponentChars(exponent);
      assert AllDigits(digits);
      assert s == [s[0]] + digits + exponent;
    } else {
      ExponentChars(s);
    }
  }

  lemma ExponentChars(e: JsString)
    requires IsExp(e)
    ensures forall c :: c in e ==> IsNumberChar(c)
  {
  }

  lemma {:induction false} NumberRunOf(s: JsString, rest: JsString)
    requires forall c :: c in s ==> IsNumberChar(c)
    requires rest == [] || !IsNumberChar(rest[0])
    ensures NumberRun(s + rest) == |s|
  {
    if s == [] {
      assert s + rest == rest;
    } else {
      assert (s + rest)[1..] == s[1..] + rest;
      NumberRunOf(s[1..], rest);
    }
  }

  // ---------- Reading back values ----------

  /** What may follow a value inside a JSON text: nothing, a comma or a closing bracket. */
  predicate Delimited(rest: JsString) {
    rest == [] || rest[0] == COMMA || rest[0] == CLOSE_BRACKET || rest[0] == CLOSE_BRACE
  }

  lemma JoinStep(parts: seq<JsString>, behind: JsString)
    requires |parts| > 1
    ensures Join(parts) + behind == parts[0] + ([COMMA] + (Join(parts[1..]) + behind))
  {
  }

  /** The first character of a printed value tells it apart from a closing bracket. */
  lemma PrintStart(v: Json)
    requires Valid(v)
    ensures Print(v) != [] && Print(v)[0] != CLOSE_BRACKET && Print(v)[0] != CLOSE_BRACE
  {
  }

  // One step of the parser for each shape of text, before any printer comes in.

  lemma ParseLiteral(v: Json, text: JsString, rest: JsString)
    requires v == Null || v.Bool?
    requires text == if v == Null then NULL_TEXT else if v.b then TRUE_TEXT else FALSE_TEXT
    ensures ParseValue(text + rest) == Got(v, rest)
  {
  }

  lemma ParseNumberRun(s: JsString, n: nat)
    requires s != [] && IsNumberChar(s[0]) && n == NumberRun(s) && IsNumber(s[..n])
    ensures ParseValue(s) == Got(Num(s[..n]), s[n..])
  {
    assert !StartsWith(s, NULL_TEXT) && !StartsWith(s, TRUE_TEXT) && !StartsWith(s, FALSE_TEXT) by {
      assert s[0] != NULL_TEXT[0] && s[0] != TRUE_TEXT[0] && s[0] != FALSE_TEXT[0];
    }
  }

  lemma ParseNumber(literal: JsString, rest: JsString)
    requires IsNumber(literal) && Delimited(rest)
    ensures ParseValue(literal + rest) == Got(Num(literal), rest)
  {
    var s := literal + rest;
    NumberCharsOnly(literal);
    assert s[0] == literal[0] && literal[0] in literal;
    NumberRunOf(literal, rest);
    assert s[..|literal|] == literal && s[|literal|..] == rest;
    ParseNumberRun(s, |literal|);
  }

  lemma ParseString(x: JsString, rest: JsString)
    ensures ParseValue(Quote(x) + rest) == Got(Str(x), rest)
  {
    ParseQuoted(x, rest);
  }

  lemma ParseArray(body: JsString, items: seq<Json>, rest: JsString)
    requires body != [] && body[0] != CLOSE_BRACKET && ParseItems(body) == Got(items, rest)
    ensures ParseValue([OPEN_BRACKET] + body) == Got(Arr(items), rest)
  {
  }

  lemma ParseObject(body: JsString, fields: seq<Field>, rest: JsString)
    requires body != [] && body[0] != CLOSE_BRACE && ParseFields(body) == Got(fields, rest)
    ensures ParseValue([OPEN_BRACE] + body) == Got(Obj(fields), rest)
  {
  }

  lemma ParseLastItem(text: JsString, v: Json, rest: JsString)
    requires ParseValue(text + ([CLOSE_BRACKET] + rest)) == Got(v, [CLOSE_BRACKET] + rest)
    ensures ParseItems(text + ([CLOSE_BRACKET] + rest)) == Got([v], rest)
  {
  }

  lemma ParseMoreItems(text: JsString, v: Json, more: JsString, items: seq<Json>, rest: JsString)
    requires ParseValue(text + ([COMMA] + more)) == Got(v, [COMMA] + more)
    requires ParseItems(more) == Got(items, rest)
    ensures ParseItems(text + ([COMMA] + more)) == Got([v] + items, rest)
  {
  }

  /** The text of one object member. */
  function Member(key: JsString, text: JsString): (r: JsString)
  {
    Quote(key) + [COLON] + text
  }

  lemma ParseMember(key: JsString, text: JsString, behind: JsString)
    ensures var s := Member(key, text) + behind;
            && s[0] == QUOTE
            && ParseChars(s[1..]) == Got(key, [COLON] + (text + behind))
            && ([COLON] + (text + behind))[1..] == text + behind
  {
    assert Member(key, text) + behind == Quote(key) + ([COLON] + (text + behind));
    ParseQuoted(key, [COLON] + (text + behind));
  }

  lemma ParseLastField(key: JsString, text: JsString, v: Json, rest: JsString)
    requires ParseValue(text + ([CLOSE_BRACE] + rest)) == Got(v, [CLOSE_BRACE] + rest)
    ensures ParseFields(Member(key, text) + ([CLOSE_BRACE] + rest)) == Got([Field(key, v)], rest)
  {
    ParseMember(key, text, [CLOSE_BRACE] + rest);
    assert ([CLOSE_BRACE] + rest)[1..] == rest;
  }

  lemma ParseMoreFields(key: JsString, text: JsString, v: Json, more: JsString, fields: seq<Field>, rest: JsString)
    requires ParseValue(text + ([COMMA] + more)) == Got(v, [COMMA] + more)
    requires ParseFields(more) == Got(fields, rest)
    ensures ParseFields(Member(key, text) + ([COMMA] + more)) == Got([Field(key, v)] + fields, rest)
  {
    ParseMember(key, text, [COMMA] + more);
    assert ([COMMA] + more)[1..] == more;
  }

  lemma JoinStart(parts: seq<JsString>)
    requires parts != [] && parts[0] != []
    ensures Join(parts) != [] && Join(parts)[0] == parts[0][0]
  {
  }

  lemma HeadTail<T>(xs: seq<T>)
    requires xs != []
    ensures [xs[0]] + xs[1..] == xs
  {
  }

  lemma PrintedItemsTail(items: seq<Json>)
    requires items != []
    ensures PrintedItems(items)[1..] == PrintedItems(items[1..])
  {
  }

  lemma PrintedFieldsTail(fields: seq<Field>)
    requires fields != []
    ensures PrintedFields(fields)[1..] == PrintedFields(fields[1..])
  {
  }

  // The printers, value by value.

  /** The parser inverts the printer on a value followed by a legal delimiter. */
  lemma {:induction false} ParsePrinted(v: Json, rest: JsString)
    requires Valid(v) && Delimited(rest)
    ensures ParseValue(Print(v) + rest) == Got(v, rest)
    decreases v, 0
  {
    match v
    case Null => ParseLiteral(v, NULL_TEXT, rest);
    case Bool(b) => ParseLiteral(v, if b then TRUE_TEXT else FALSE_TEXT, rest);
    case Num(literal) => ParseNumber(literal, rest);
    case Str(x) => ParseString(x, rest);
    case Arr(items) => ParsePrintedArray(items, rest);
    case Obj(fields) => ParsePrintedObject(fields, rest);
  }

  lemma Bracketed(open: CodeUnit, text: JsString, close: CodeUnit, rest: JsString)
    ensures [open] + text + [close] + rest == [open] + (text + ([close] + rest))
  {
    Assoc([open] + text, [close], rest);
    Assoc([open], text, [close] + rest);
  }

  lemma ParseEmpty(rest: JsString)
    ensures ParseValue([OPEN_BRACKET] + ([] + ([CLOSE_BRACKET] + rest))) == Got(Arr([]), rest)
    ensures ParseValue([OPEN_BRACE] + ([] + ([CLOSE_BRACE] + rest))) == Got(Obj([]), rest)
  {
    assert ([OPEN_BRACKET] + ([] + ([CLOSE_BRACKET] + rest)))[2..] == rest;
    assert ([OPEN_BRACE] + ([] + ([CLOSE_BRACE] + rest)))[2..] == rest;
  }

  lemma {:induction false} ParsePrintedArray(items: seq<Json>, rest: JsString)
    requires Valid(Arr(items))
    ensures ParseValue(Print(Arr(items)) + rest) == Got(Arr(items), rest)
    decreases items, 2
  {
    var text := Join(PrintedItems(items));
    Bracketed(OPEN_BRACKET, text, CLOSE_BRACKET, rest);
    if items == [] {
      ParseEmpty(rest);
    } else {
      ParsePrintedItems(items, rest);
      PrintStart(items[0]);
      JoinStart(PrintedItems(items));
      ParseArray(text + ([CLOSE_BRACKET] + rest), items, rest);
    }
  }

  lemma {:induction false} ParsePrintedObject(fields: seq<Field>, rest: JsString)
    requires Valid(Obj(fields))
    ensures ParseValue(Print(Obj(fields)) + rest) == Got(Obj(fields), rest)
    decreases fields, 2
  {
    var text := Join(PrintedFields(fields));
    Bracketed(OPEN_BRACE, text, CLOSE_BRACE, rest);
    if fields == [] {
      ParseEmpty(rest);
    } else {
      ParsePrintedFields(fields, rest);
      JoinStart(PrintedFields(fields));
      ParseObject(text + ([CLOSE_BRACE] + rest), fields, rest);
    }
  }

  lemma {:induction false} ParsePrintedItems(items: seq<Json>, rest: JsString)
    requires items != [] && forall i :: 0 <= i < |items| ==> Valid(items[i])
    ensures ParseItems(Join(PrintedItems(items)) + ([CLOSE_BRACKET] + rest)) == Got(items, rest)
    decreases items, 1
  {
    var parts := PrintedItems(items);
    var text := Print(items[0]);
    if |items| == 1 {
      ParsePrinted(items[0], [CLOSE_BRACKET] + rest);
      ParseLastItem(text, items[0], rest);
      assert [items[0]] == items;
    } else {
      var more := Join(parts[1..]) + ([CLOSE_BRACKET] + rest);
      PrintedItemsTail(items);
      ParsePrintedItems(items[1..], rest);
      ParsePrinted(items[0], [COMMA] + more);
      ParseMoreItems(text, items[0], more, items[1..], rest);
      JoinStep(parts, [CLOSE_BRACKET] + rest);
      HeadTail(items);
    }
  }

  lemma {:induction false} ParsePrintedFields(fields: seq<Field>, rest: JsString)
    requires fields != [] && forall i :: 0 <= i < |fields| ==> Valid(fields[i].value)
    ensures ParseFields(Join(PrintedFields(fields)) + ([CLOSE_BRACE] + rest)) == Got(fields, rest)
    decreases fields, 1
  {
    var parts := PrintedFields(fields);
    var key, v := fields[0].key, fields[0].value;
    assert parts[0] == Member(key, Print(v));
    if |fields| == 1 {
      ParsePrinted(v, [CLOSE_BRACE] + rest);
      ParseLastField(key, Print(v), v, rest);
      assert [Field(key, v)] == fields;
    } else {
      var more := Join(parts[1..]) + ([CLOSE_BRACE] + rest);
      PrintedFieldsTail(fields);
      ParsePrintedFields(fields[1..], rest);
      ParsePrinted(v, [COMMA] + more);
      ParseMoreFields(key, Print(v), v, more, fields[1..], rest);
      JoinStep(parts, [CLOSE_BRACE] + rest);
      HeadTail(fields);
    }
  }

  // ---------- What the canonical text determines ----------

  /** Parsing a canonical text gives the value with its keys sorted, and leaves what follows. */
  lemma ParseCanonical(v: Json, rest: JsString)
    requires Valid(v) && Delimited(rest)
    ensures ParseValue(Canonical(v) + rest) == Got(Normalize(v), rest)
  {
    CanonicalIsPrintedNormalForm(v);
    NormalizeValid(v);
    ParsePrinted(Normalize(v), rest);
  }

  /** Two values have the same canonical text exactly when they differ only in key order. */
  lemma CanonicalIffEquivalent(v: Json, w: Json)
    requires Valid(v) && Valid(w)
    ensures Canonical(v) == Canonical(w) <==> Equivalent(v, w)
  {
    CanonicalIsPrintedNormalForm(v);
    CanonicalIsPrintedNormalForm(w);
    if Canonical(v) == Canonical(w) {
      ParseCanonical(v, []);
      ParseCanonical(w, []);
      SameNormalFormEquivalent(v, w);
    }
    if Equivalent(v, w) {
      EquivalentSameNormalForm(v, w);
    }
  }

  /** A canonical text is never a proper prefix of another one up to a delimiter. */
  lemma CanonicalPrefixFree(v: Json, restV: JsString, w: Json, restW: JsString)
    requires Valid(v) && Valid(w) && Delimited(restV) && Delimited(restW)
    requires Canonical(v) + restV == Canonical(w) + restW
    ensures Equivalent(v, w) && restV == restW
  {
    ParseCanonical(v, restV);
    ParseCanonical(w, restW);
    SameNormalFormEquivalent(v, w);
  }

  lemma QuotePrefixFree(x: JsString, restX: JsString, y: JsString, restY: JsString)
    requires Quote(x) + restX == Quote(y) + restY
    ensures x == y && restX == restY
  {
    ParseQuoted(x, restX);
    ParseQuoted(y, restY);
  }
}
