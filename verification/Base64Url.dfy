/**
 The base64url codec of apps/server/src/auth/jwt.ts and the decoding that logout does inline in
 apps/server/src/api/auth.ts. `btoa` and `atob` follow section 4 of RFC 4648 and the WHATWG
 forgiving-base64 decoder.
 */
module Base64Url {
  import opened Wrappers
  import opened JsStrings

  const PAD: CodeUnit := 0x3D
  const PLUS: CodeUnit := 0x2B
  const SLASH: CodeUnit := 0x2F
  const MINUS: CodeUnit := 0x2D
  const UNDERSCORE: CodeUnit := 0x5F

  /** A binary string: every code unit is one byte. */
  predicate IsBinary(s: JsString) {
    forall i :: 0 <= i < |s| ==> s[i] < 256
  }

  // ---------- btoa and atob ----------

  function Digit(v: int): (c: CodeUnit)
    requires 0 <= v < 64
  {
    if v < 26 then 0x41 + v else if v < 52 then 0x61 + v - 26 else if v < 62 then 0x30 + v - 52
    else if v == 62 then PLUS else SLASH
  }

  function Value(c: CodeUnit): (v: Option<int>)
    ensures v.Some? ==> 0 <= v.value < 64
  {
    if 0x41 <= c <= 0x5A then Some(c - 0x41)
    else if 0x61 <= c <= 0x7A then Some(c - 0x61 + 26)
    else if 0x30 <= c <= 0x39 then Some(c - 0x30 + 52)
    else if c == PLUS then Some(62)
    else if c == SLASH then Some(63)
    else None
  }

  /** The digits of a binary string, without padding. */
  function Digits(s: JsString): (r: JsString)
    requires IsBinary(s)
  {
    if s == [] then []
    else if |s| == 1 then [Digit(s[0] / 4), Digit(s[0] % 4 * 16)]
    else if |s| == 2 then [Digit(s[0] / 4), Digit(s[0] % 4 * 16 + s[1] / 16), Digit(s[1] % 16 * 4)]
    else
      [Digit(s[0] / 4), Digit(s[0] % 4 * 16 + s[1] / 16), Digit(s[1] % 16 * 4 + s[2] / 64), Digit(s[2] % 64)] +
      Digits(s[3..])
  }

  function Repeat(c: CodeUnit, n: nat): (r: JsString)
    ensures |r| == n && forall i :: 0 <= i < n ==> r[i] == c
  {
    seq(n, _ => c)
  }

  /** `btoa(s)`; None is the exception for a code unit above 255. */
  function Btoa(s: JsString): (r: Option<JsString>) {
    if IsBinary(s) then Some(Digits(s) + Repeat(PAD, (3 - |s| % 3) % 3)) else None
  }

  predicate IsAsciiSpace(c: CodeUnit) {
    c == 0x09 || c == 0x0A || c == 0x0C || c == 0x0D || c == 0x20
  }

  function WithoutSpace(s: JsString): (r: JsString) {
    if s == [] then [] else (if IsAsciiSpace(s[0]) then [] else [s[0]]) + WithoutSpace(s[1..])
  }

  function WithoutPadding(s: JsString): (r: JsString) {
    if |s| % 4 != 0 || s == [] || s[|s| - 1] != PAD then s
    else if s[|s| - 2] == PAD then s[..|s| - 2]
    else s[..|s| - 1]
  }

  predicate AllBase64Digits(s: JsString) {
    forall i :: 0 <= i < |s| ==> Value(s[i]).Some?
  }

  /** The bytes that digits stand for; bits left over at the end are dropped. */
  function Bytes(s: JsString): (r: JsString)
    requires AllBase64Digits(s) && |s| % 4 != 1
  {
    if s == [] then []
    else
      var a, b := Value(s[0]).value, Value(s[1]).value;
      if |s| == 2 then [a * 4 + b / 16]
      else
        var c := Value(s[2]).value;
        if |s| == 3 then [a * 4 + b / 16, b % 16 * 16 + c / 4]
        else
          var d := Value(s[3]).value;
          [a * 4 + b / 16, b % 16 * 16 + c / 4, c % 4 * 64 + d] + Bytes(s[4..])
  }

  /** `atob(s)`; None is its exception. */
  function Atob(s: JsString): (r: Option<JsString>) {
    var u := WithoutPadding(WithoutSpace(s));
    if |u| % 4 == 1 || !AllBase64Digits(u) then None else Some(Bytes(u))
  }

  // ---------- The URL-safe alphabet ----------

  /** `s.replace(/from/g, to)` for single characters. */
  function ReplaceAll(s: JsString, from: CodeUnit, to: CodeUnit): (r: JsString)
    ensures |r| == |s| && forall i :: 0 <= i < |s| ==> r[i] == if s[i] == from then to else s[i]
  {
    seq(|s|, i requires 0 <= i < |s| => if s[i] == from then to else s[i])
  }

  /** `s.replace(/=+$/, '')` */
  function StripPads(s: JsString): (r: JsString)
    ensures r <= s
  {
    if s != [] && s[|s| - 1] == PAD then StripPads(s[..|s| - 1]) else s
  }

  /** `base64UrlEncode` */
  function Base64UrlEncode(s: JsString): (r: Option<JsString>) {
    match Btoa(s)
    case None => None
    case Some(base64) => Some(StripPads(ReplaceAll(ReplaceAll(base64, PLUS, MINUS), SLASH, UNDERSCORE)))
  }

  function StandardAlphabet(s: JsString): (r: JsString)
    ensures |r| == |s|
  {
    ReplaceAll(ReplaceAll(s, MINUS, PLUS), UNDERSCORE, SLASH)
  }

  /** `s.padEnd(s.length + ((4 - (s.length % 4)) % 4), '=')` */
  function PadEnd(s: JsString): (r: JsString) {
    s + Repeat(PAD, (4 - |s| % 4) % 4)
  }

  /** What decoding a base64url text comes to. */
  function Decoded(s: JsString): (r: Option<JsString>) {
    Atob(PadEnd(StandardAlphabet(s)))
  }

  /** `base64UrlDecode`: the padding loop adds what `padEnd` with logout's formula adds. */
  method Base64UrlDecode(s: JsString) returns (r: Option<JsString>)
    ensures r == Decoded(s)
  {
    var base64 := StandardAlphabet(s);
    ghost var n := |base64|;
    while |base64| % 4 != 0
      invariant n <= |base64| <= n + (4 - n % 4) % 4
      invariant base64 == StandardAlphabet(s) + Repeat(PAD, |base64| - n)
      decreases n + 4 - |base64|
    {
      base64 := base64 + [PAD];
    }
    assert base64 == PadEnd(StandardAlphabet(s));
    r := Atob(base64);
  }

  /** `base64UrlDecodeBytes`: the same bytes in a Uint8Array. */
  method Base64UrlDecodeBytes(s: JsString) returns (bytes: Option<array<CodeUnit>>)
    ensures bytes.Some? <==> Decoded(s).Some?
    ensures bytes.Some? ==> fresh(bytes.value) && bytes.value[..] == Decoded(s).value
  {
    var decoded := Base64UrlDecode(s);
    if decoded.None? {
      return None;
    }
    var binary := decoded.value;
    BytesAreBinary(WithoutPadding(WithoutSpace(PadEnd(StandardAlphabet(s)))));
    var buffer := new CodeUnit[|binary|];
    for i := 0 to |binary|
      invariant buffer[..i] == binary[..i]
    {
      buffer[i] := binary[i] % 256;
    }
    assert buffer[..] == binary;
    return Some(buffer);
  }

  /** Logout pads by the length of the text before its alphabet is changed. */
  function LogoutDecoded(s: JsString): (r: Option<JsString>) {
    Atob(StandardAlphabet(s) + Repeat(PAD, (4 - |s| % 4) % 4))
  }

  /** Logout decodes every text, good or bad, as `base64UrlDecode` does. */
  lemma LogoutDecodesAlike(s: JsString)
    ensures LogoutDecoded(s) == Decoded(s)
  {
  }

  // ---------- Round trip ----------

  lemma DigitValue(v: int)
    requires 0 <= v < 64
    ensures Value(Digit(v)) == Some(v)
  {
  }

  /** Digits come in fours, then one or two bytes leave two or three. */
  lemma {:induction false} DigitsLength(s: JsString)
    requires IsBinary(s)
    ensures AllBase64Digits(Digits(s))
    ensures |Digits(s)| == |s| / 3 * 4 + (if |s| % 3 == 0 then 0 else |s| % 3 + 1)
  {
    if |s| >= 3 {
      DigitsLength(s[3..]);
    }
  }

  lemma ByteGroup(x: int, y: int, z: int)
    requires 0 <= x < 256 && 0 <= y < 256 && 0 <= z < 256
    ensures x / 4 * 4 + (x % 4 * 16 + y / 16) / 16 == x
    ensures (x % 4 * 16 + y / 16) % 16 * 16 + (y % 16 * 4 + z / 64) / 4 == y
    ensures (y % 16 * 4 + z / 64) % 4 * 64 + z % 64 == z
  {
  }

  lemma OneByte(x: int)
    requires 0 <= x < 256
    ensures var g := [Digit(x / 4), Digit(x % 4 * 16)]; AllBase64Digits(g) && Bytes(g) == [x]
  {
    ByteGroup(x, 0, 0);
    DigitValue(x / 4);
    DigitValue(x % 4 * 16);
  }

  lemma TwoBytes(x: int, y: int)
    requires 0 <= x < 256 && 0 <= y < 256
    ensures var g := [Digit(x / 4), Digit(x % 4 * 16 + y / 16), Digit(y % 16 * 4)];
            AllBase64Digits(g) && Bytes(g) == [x, y]
  {
    ByteGroup(x, y, 0);
    DigitValue(x / 4);
    DigitValue(x % 4 * 16 + y / 16);
    DigitValue(y % 16 * 4);
  }

  lemma GroupDigits(x: int, y: int, z: int) returns (g: JsString)
    requires 0 <= x < 256 && 0 <= y < 256 && 0 <= z < 256
    ensures g == [Digit(x / 4), Digit(x % 4 * 16 + y / 16), Digit(y % 16 * 4 + z / 64), Digit(z % 64)]
    ensures AllBase64Digits(g) && GroupBytes(g) == [x, y, z]
  {
    g := [Digit(x / 4), Digit(x % 4 * 16 + y / 16), Digit(y % 16 * 4 + z / 64), Digit(z % 64)];
    ByteGroup(x, y, z);
    DigitValue(x / 4);
    DigitValue(x % 4 * 16 + y / 16);
    DigitValue(y % 16 * 4 + z / 64);
    DigitValue(z % 64);
  }

  function GroupBytes(g: JsString): (r: seq<int>)
    requires |g| == 4 && AllBase64Digits(g)
  {
    var a, b, c, d := Value(g[0]).value, Value(g[1]).value, Value(g[2]).value, Value(g[3]).value;
    [a * 4 + b / 16, b % 16 * 16 + c / 4, c % 4 * 64 + d]
  }

  lemma BytesCons(g: JsString, tail: JsString)
    requires |g| == 4 && AllBase64Digits(g) && AllBase64Digits(tail) && |tail| % 4 != 1
    ensures AllBase64Digits(g + tail) && |g + tail| % 4 != 1
    ensures Bytes(g + tail) == GroupBytes(g) + Bytes(tail)
  {
    var s := g + tail;
    assert s[4..] == tail;
    assert s[0] == g[0] && s[1] == g[1] && s[2] == g[2] && s[3] == g[3];
  }

  lemma ByteRange(a: int, b: int, c: int, d: int)
    requires 0 <= a < 64 && 0 <= b < 64 && 0 <= c < 64 && 0 <= d < 64
    ensures 0 <= a * 4 + b / 16 < 256 && 0 <= b % 16 * 16 + c / 4 < 256 && 0 <= c % 4 * 64 + d < 256
  {
  }

  lemma ShortBytesAreBinary(u: JsString)
    requires AllBase64Digits(u) && |u| < 4 && |u| != 1
    ensures IsBinary(Bytes(u))
  {
    if u != [] {
      ByteRange(Value(u[0]).value, Value(u[1]).value, if |u| == 3 then Value(u[2]).value else 0, 0);
    }
  }

  lemma {:induction false} BytesAreBinary(u: JsString)
    requires AllBase64Digits(u) && |u| % 4 != 1
    ensures IsBinary(Bytes(u))
  {
    if |u| < 4 {
      ShortBytesAreBinary(u);
    } else {
      var g, tail := u[..4], u[4..];
      BytesAreBinary(tail);
      BytesCons(g, tail);
      ByteRange(Value(g[0]).value, Value(g[1]).value, Value(g[2]).value, Value(g[3]).value);
      assert IsBinary(GroupBytes(g));
      assert g + tail == u;
    }
  }

  lemma ThreeBytes(s: JsString)
    requires IsBinary(s) && |s| >= 3
    requires var tail := Digits(s[3..]); AllBase64Digits(tail) && |tail| % 4 != 1 && Bytes(tail) == s[3..]
    ensures AllBase64Digits(Digits(s)) && |Digits(s)| % 4 != 1 && Bytes(Digits(s)) == s
  {
    var tail := Digits(s[3..]);
    var g := GroupDigits(s[0], s[1], s[2]);
    BytesCons(g, tail);
    assert Digits(s) == g + tail;
    assert s == [s[0], s[1], s[2]] + s[3..];
  }

  lemma {:induction false} BytesOfDigits(s: JsString)
    requires IsBinary(s)
    ensures AllBase64Digits(Digits(s)) && |Digits(s)| % 4 != 1
    ensures Bytes(Digits(s)) == s
  {
    if s == [] {
    } else if |s| == 1 {
      OneByte(s[0]);
    } else if |s| == 2 {
      TwoBytes(s[0], s[1]);
    } else {
      BytesOfDigits(s[3..]);
      ThreeBytes(s);
    }
  }

  lemma {:induction false} StripOnlyPads(s: JsString, n: nat)
    requires s == [] || s[|s| - 1] != PAD
    ensures StripPads(s + Repeat(PAD, n)) == s
  {
    if n == 0 {
      assert s + Repeat(PAD, n) == s;
    } else {
      StripOnlyPads(s, n - 1);
      assert (s + Repeat(PAD, n))[..|s| + n - 1] == s + Repeat(PAD, n - 1);
    }
  }

  /** The digits in the URL-safe alphabet. */
  function UrlDigits(s: JsString): (r: JsString)
    requires IsBinary(s)
  {
    ReplaceAll(ReplaceAll(Digits(s), PLUS, MINUS), SLASH, UNDERSCORE)
  }

  /** The URL-safe alphabet of section 5 of RFC 4648. */
  predicate IsUrlDigit(c: CodeUnit) {
    0x41 <= c <= 0x5A || 0x61 <= c <= 0x7A || 0x30 <= c <= 0x39 || c == MINUS || c == UNDERSCORE
  }

  lemma UrlDigitsAlphabet(s: JsString)
    requires IsBinary(s)
    ensures forall i :: 0 <= i < |UrlDigits(s)| ==> IsUrlDigit(UrlDigits(s)[i])
    ensures StandardAlphabet(UrlDigits(s)) == Digits(s)
  {
    DigitsLength(s);
    var d := Digits(s);
    forall i | 0 <= i < |d|
      ensures IsUrlDigit(UrlDigits(s)[i]) && StandardAlphabet(UrlDigits(s))[i] == d[i]
    {
      assert Value(d[i]).Some?;
    }
  }

  /**
   Every byte string is encoded, in the URL-safe alphabet and without padding (section 2 of RFC 7515);
   any other string is refused.
   */
  lemma EncodingIsUrlSafe(s: JsString)
    ensures Base64UrlEncode(s).Some? <==> IsBinary(s)
    ensures IsBinary(s) ==>
              && Base64UrlEncode(s) == Some(UrlDigits(s))
              && (forall i :: 0 <= i < |UrlDigits(s)| ==> IsUrlDigit(UrlDigits(s)[i]))
              && |UrlDigits(s)| == (4 * |s| + 2) / 3
  {
    if IsBinary(s) {
      var n := (3 - |s| % 3) % 3;
      var base64 := Btoa(s).value;
      UrlDigitsAlphabet(s);
      DigitsLength(s);
      assert ReplaceAll(ReplaceAll(base64, PLUS, MINUS), SLASH, UNDERSCORE) == UrlDigits(s) + Repeat(PAD, n);
      StripOnlyPads(UrlDigits(s), n);
    }
  }

  lemma {:induction false} NoSpaceToDrop(s: JsString)
    requires forall i :: 0 <= i < |s| ==> !IsAsciiSpace(s[i])
    ensures WithoutSpace(s) == s
  {
    if s == [] {
    } else {
      NoSpaceToDrop(s[1..]);
      assert s == [s[0]] + s[1..];
    }
  }

  lemma PaddedHasNoSpace(d: JsString)
    requires AllBase64Digits(d)
    ensures WithoutSpace(PadEnd(d)) == PadEnd(d)
  {
    var s := PadEnd(d);
    forall i | 0 <= i < |s|
      ensures !IsAsciiSpace(s[i])
    {
      if i < |d| {
        assert Value(d[i]).Some?;
      }
    }
    NoSpaceToDrop(s);
  }

  lemma PaddingDropped(d: JsString)
    requires AllBase64Digits(d) && |d| % 4 != 1
    ensures WithoutPadding(PadEnd(d)) == d
  {
    var s := PadEnd(d);
    if |d| % 4 == 0 {
      assert s == d;
      assert d == [] || Value(d[|d| - 1]).Some?;
    } else {
      assert Value(d[|d| - 1]).Some?;
      assert s[|s| - 1] == PAD;
      assert s[..|d|] == d;
    }
  }

  /** Decoding an encoded byte string gives it back. */
  lemma RoundTrip(s: JsString)
    requires IsBinary(s)
    ensures Base64UrlEncode(s).Some? && Decoded(Base64UrlEncode(s).value) == Some(s)
  {
    EncodingIsUrlSafe(s);
    UrlDigitsAlphabet(s);
    BytesOfDigits(s);
    PaddedHasNoSpace(Digits(s));
    PaddingDropped(Digits(s));
  }
}
