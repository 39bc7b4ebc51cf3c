/**
 What base64url text stands for (section 5 of RFC 4648): each group of bytes, read as one number in
 base 256, is written in base 64 with the letters of the alphabet.
 */
module Base64Text {
  import opened Wrappers
  import opened JsStrings
  import opened Base64Url

  const UPPER: string := "ABCDEFGHIJKLMNOPQRSTUVWXYZ"
  const LOWER: string := "abcdefghijklmnopqrstuvwxyz"
  const ALPHABET: string := UPPER + LOWER + "0123456789" + "-_"

  predicate IsLetter(c: CodeUnit, v: int) {
    0 <= v < |ALPHABET| && c == ALPHABET[v] as int
  }

  /** The text has these letters of the alphabet. */
  predicate Reads(text: JsString, values: seq<int>) {
    |text| == |values| && forall i :: 0 <= i < |text| ==> IsLetter(text[i], values[i])
  }

  /**
   Three bytes are one number in base 256 and four letters the same number in base 64; one or two bytes
   at the end, filled up with zero bits, are two or three letters.
   */
  ghost predicate Stands(text: JsString, bytes: seq<int>) {
    if bytes == [] then text == []
    else if |bytes| == 1 then
      exists a, b :: Reads(text, [a, b]) && 64 * a + b == 16 * bytes[0]
    else if |bytes| == 2 then
      exists a, b, c :: Reads(text, [a, b, c]) && 4096 * a + 64 * b + c == 4 * (256 * bytes[0] + bytes[1])
    else
      && |text| >= 4
      && (exists a, b, c, d :: Reads(text[..4], [a, b, c, d]) &&
            262144 * a + 4096 * b + 64 * c + d == 65536 * bytes[0] + 256 * bytes[1] + bytes[2])
      && Stands(text[4..], bytes[3..])
  }

  // ---------- Letters ----------

  lemma UpperLetter(v: int)
    requires 0 <= v < 26
    ensures UPPER[v] as int == 0x41 + v
  {
    assert v in {0, 1, 2, 3, 4, 5, 6, 7, 8, 9, 10, 11, 12, 13, 14, 15, 16, 17, 18, 19, 20, 21, 22, 23, 24, 25};
  }

  lemma LowerLetter(v: int)
    requires 0 <= v < 26
    ensures LOWER[v] as int == 0x61 + v
  {
    assert v in {0, 1, 2, 3, 4, 5, 6, 7, 8, 9, 10, 11, 12, 13, 14, 15, 16, 17, 18, 19, 20, 21, 22, 23, 24, 25};
  }

  lemma DigitLetter(v: int)
    requires 0 <= v < 10
    ensures "0123456789"[v] as int == 0x30 + v
  {
    assert v in {0, 1, 2, 3, 4, 5, 6, 7, 8, 9};
  }

  /** The letter of a digit of the standard alphabet, in which `+` and `/` stand for `-` and `_`. */
  function UrlSafe(c: CodeUnit): (r: CodeUnit) {
    if c == 0x2B then 0x2D else if c == 0x2F then 0x5F else c
  }

  lemma SafeDigit(v: int)
    requires 0 <= v < 64
    ensures |ALPHABET| == 64 && IsLetter(UrlSafe(Digit(v)), v)
  {
    if v < 26 {
      UpperLetter(v);
    } else if v < 52 {
      LowerLetter(v - 26);
    } else if v < 62 {
      DigitLetter(v - 52);
    }
  }

  // ---------- Encoding ----------

  /** The URL-safe text of digits of the standard alphabet. */
  function Mapped(s: JsString): (r: JsString)
    ensures |r| == |s| && forall i :: 0 <= i < |s| ==> r[i] == UrlSafe(s[i])
  {
    seq(|s|, i requires 0 <= i < |s| => UrlSafe(s[i]))
  }

  lemma MappedGroup(g: JsString, more: JsString)
    requires |g| == 4
    ensures Mapped(g + more)[..4] == Mapped(g) && Mapped(g + more)[4..] == Mapped(more)
  {
  }

  lemma UrlDigitsMapped(s: JsString)
    requires IsBinary(s)
    ensures UrlDigits(s) == Mapped(Digits(s))
  {
  }

  function Group(x: int, y: int, z: int): (r: JsString)
    requires 0 <= x < 256 && 0 <= y < 256 && 0 <= z < 256
  {
    [Digit(x / 4), Digit(x % 4 * 16 + y / 16), Digit(y % 16 * 4 + z / 64), Digit(z % 64)]
  }

  lemma GroupSum(x: int, y: int, z: int)
    requires 0 <= x < 256 && 0 <= y < 256 && 0 <= z < 256
    ensures 262144 * (x / 4) + 4096 * (x % 4 * 16 + y / 16) + 64 * (y % 16 * 4 + z / 64) + z % 64 == 65536 * x + 256 * y + z
    ensures 64 * (x / 4) + x % 4 * 16 == 16 * x
    ensures 4096 * (x / 4) + 64 * (x % 4 * 16 + y / 16) + y % 16 * 4 == 4 * (256 * x + y)
  {
  }

  lemma GroupReads(x: int, y: int, z: int)
    requires 0 <= x < 256 && 0 <= y < 256 && 0 <= z < 256
    ensures Reads(Mapped(Group(x, y, z)), [x / 4, x % 4 * 16 + y / 16, y % 16 * 4 + z / 64, z % 64])
  {
    SafeDigit(x / 4);
    SafeDigit(x % 4 * 16 + y / 16);
    SafeDigit(y % 16 * 4 + z / 64);
    SafeDigit(z % 64);
  }

  lemma TailReads(x: int, y: int)
    requires 0 <= x < 256 && 0 <= y < 256
    ensures Reads(Mapped([Digit(x / 4), Digit(x % 4 * 16)]), [x / 4, x % 4 * 16])
    ensures Reads(Mapped([Digit(x / 4), Digit(x % 4 * 16 + y / 16), Digit(y % 16 * 4)]),
                  [x / 4, x % 4 * 16 + y / 16, y % 16 * 4])
  {
    SafeDigit(x / 4);
    SafeDigit(x % 4 * 16);
    SafeDigit(x % 4 * 16 + y / 16);
    SafeDigit(y % 16 * 4);
  }

  lemma GroupStands(x: int, y: int, z: int, text: JsString, more: seq<int>)
    requires 0 <= x < 256 && 0 <= y < 256 && 0 <= z < 256
    requires |text| >= 4 && text[..4] == Mapped(Group(x, y, z)) && Stands(text[4..], more)
    ensures Stands(text, [x, y, z] + more)
  {
    GroupReads(x, y, z);
    GroupSum(x, y, z);
    assert ([x, y, z] + more)[3..] == more;
  }

  lemma OneStands(x: int, text: JsString)
    requires 0 <= x < 256 && text == Mapped([Digit(x / 4), Digit(x % 4 * 16)])
    ensures Stands(text, [x])
  {
    TailReads(x, 0);
    GroupSum(x, 0, 0);
  }

  lemma TwoStand(x: int, y: int, text: JsString)
    requires 0 <= x < 256 && 0 <= y < 256
    requires text == Mapped([Digit(x / 4), Digit(x % 4 * 16 + y / 16), Digit(y % 16 * 4)])
    ensures Stands(text, [x, y])
  {
    TailReads(x, y);
    GroupSum(x, y, 0);
  }

  lemma ShortDigits(s: JsString)
    requires IsBinary(s)
    ensures |s| == 1 ==> Digits(s) == [Digit(s[0] / 4), Digit(s[0] % 4 * 16)]
    ensures |s| == 2 ==> Digits(s) == [Digit(s[0] / 4), Digit(s[0] % 4 * 16 + s[1] / 16), Digit(s[1] % 16 * 4)]
    ensures |s| == 1 ==> [s[0]] == s
    ensures |s| == 2 ==> [s[0], s[1]] == s
  {
  }

  lemma ShortStands(s: JsString, text: JsString)
    requires IsBinary(s) && |s| < 3 && text == Mapped(Digits(s))
    ensures Stands(text, s)
  {
    ShortDigits(s);
    if |s| == 1 {
      OneStands(s[0], text);
    } else if |s| == 2 {
      TwoStand(s[0], s[1], text);
    }
  }

  lemma DigitsGroup(s: JsString)
    requires IsBinary(s) && |s| >= 3
    ensures Digits(s) == Group(s[0], s[1], s[2]) + Digits(s[3..])
  {
  }

  lemma LongStands(x: int, y: int, z: int, tail: JsString, more: seq<int>)
    requires 0 <= x < 256 && 0 <= y < 256 && 0 <= z < 256 && Stands(Mapped(tail), more)
    ensures Stands(Mapped(Group(x, y, z) + tail), [x, y, z] + more)
  {
    MappedGroup(Group(x, y, z), tail);
    GroupStands(x, y, z, Mapped(Group(x, y, z) + tail), more);
  }

  lemma {:induction false} DigitsStand(s: JsString)
    requires IsBinary(s)
    ensures Stands(Mapped(Digits(s)), s)
  {
    if |s| < 3 {
      ShortStands(s, Mapped(Digits(s)));
    } else {
      DigitsStand(s[3..]);
      DigitsGroup(s);
      LongStands(s[0], s[1], s[2], Digits(s[3..]), s[3..]);
      assert s == [s[0], s[1], s[2]] + s[3..];
    }
  }

  /** `base64UrlEncode` writes the bytes, group by group, in the letters of the alphabet. */
  lemma EncodedStands(s: JsString)
    requires IsBinary(s)
    ensures Base64UrlEncode(s).Some? && Stands(Base64UrlEncode(s).value, s)
  {
    EncodingIsUrlSafe(s);
    UrlDigitsMapped(s);
    DigitsStand(s);
  }

  // ---------- Decoding ----------

  ghost predicate IsAlphabetic(c: CodeUnit) {
    exists v :: IsLetter(c, v)
  }

  ghost predicate InAlphabet(text: JsString) {
    forall i :: 0 <= i < |text| ==> IsAlphabetic(text[i])
  }

  /** The bytes that letters stand for; bits left over at the end are dropped. */
  ghost predicate Rounds(text: JsString, bytes: seq<int>) {
    if |text| < 4 then
      if |text| < 2 then bytes == []
      else if |text| == 2 then
        |bytes| == 1 && exists a, b :: Reads(text, [a, b]) && 16 * bytes[0] <= 64 * a + b < 16 * (bytes[0] + 1)
      else
        |bytes| == 2 &&
        exists a, b, c ::
          Reads(text, [a, b, c]) && 4 * (256 * bytes[0] + bytes[1]) <= 4096 * a + 64 * b + c < 4 * (256 * bytes[0] + bytes[1] + 1)
    else
      && |bytes| >= 3
      && (exists a, b, c, d :: Reads(text[..4], [a, b, c, d]) &&
            262144 * a + 4096 * b + 64 * c + d == 65536 * bytes[0] + 256 * bytes[1] + bytes[2])
      && Rounds(text[4..], bytes[3..])
  }

  /** The standard digit of a letter. */
  function Standard(c: CodeUnit): (r: CodeUnit) {
    if c == 0x2D then 0x2B else if c == 0x5F then 0x2F else c
  }

  lemma LetterValue(c: CodeUnit, v: int)
    requires IsLetter(c, v)
    ensures Value(Standard(c)) == Some(v)
  {
    SafeDigit(if v < 64 then v else 0);
    DigitValue(v);
  }

  function Standards(text: JsString): (r: JsString)
    ensures |r| == |text| && forall i :: 0 <= i < |text| ==> r[i] == Standard(text[i])
  {
    seq(|text|, i requires 0 <= i < |text| => Standard(text[i]))
  }

  lemma StandardAlphabetIs(text: JsString)
    ensures StandardAlphabet(text) == Standards(text)
  {
  }

  lemma StandardsDigits(text: JsString) returns (values: seq<int>)
    requires InAlphabet(text)
    ensures Reads(text, values) && AllBase64Digits(Standards(text))
    ensures forall i :: 0 <= i < |text| ==> 0 <= values[i] < 64 && Value(Standards(text)[i]) == Some(values[i])
  {
    values := [];
    for i := 0 to |text|
      invariant |values| == i
      invariant forall j :: 0 <= j < i ==>
                  IsLetter(text[j], values[j]) && 0 <= values[j] < 64 && Value(Standards(text)[j]) == Some(values[j])
    {
      assert IsAlphabetic(text[i]);
      var v :| IsLetter(text[i], v);
      LetterValue(text[i], v);
      values := values + [v];
    }
  }

  lemma Tails(a: int, b: int, c: int)
    requires 0 <= a < 64 && 0 <= b < 64 && 0 <= c < 64
    ensures 16 * (a * 4 + b / 16) <= 64 * a + b < 16 * (a * 4 + b / 16 + 1)
    ensures var n := 256 * (a * 4 + b / 16) + (b % 16 * 16 + c / 4); 4 * n <= 4096 * a + 64 * b + c < 4 * (n + 1)
  {
  }

  lemma Fours(a: int, b: int, c: int, d: int)
    requires 0 <= a < 64 && 0 <= b < 64 && 0 <= c < 64 && 0 <= d < 64
    ensures 262144 * a + 4096 * b + 64 * c + d ==
            65536 * (a * 4 + b / 16) + 256 * (b % 16 * 16 + c / 4) + (c % 4 * 64 + d)
  {
  }

  lemma ShortBytes(d: JsString)
    requires AllBase64Digits(d) && (|d| == 2 || |d| == 3)
    ensures |Bytes(d)| == |d| - 1 && Bytes(d)[0] == Value(d[0]).value * 4 + Value(d[1]).value / 16
    ensures |d| == 3 ==> Bytes(d)[1] == Value(d[1]).value % 16 * 16 + Value(d[2]).value / 4
  {
  }

  lemma TwoRound(text: JsString, bytes: seq<int>, a: int, b: int)
    requires |text| == 2 && |bytes| == 1 && Reads(text, [a, b])
    requires 0 <= a < 64 && 0 <= b < 64 && bytes[0] == a * 4 + b / 16
    ensures Rounds(text, bytes)
  {
    Tails(a, b, 0);
  }

  lemma ThreeRound(text: JsString, bytes: seq<int>, a: int, b: int, c: int)
    requires |text| == 3 && |bytes| == 2 && Reads(text, [a, b, c]) && 0 <= a < 64 && 0 <= b < 64 && 0 <= c < 64
    requires bytes[0] == a * 4 + b / 16 && bytes[1] == b % 16 * 16 + c / 4
    ensures Rounds(text, bytes)
  {
    Tails(a, b, c);
  }

  lemma TwoLetters(text: JsString, bytes: JsString)
    requires InAlphabet(text) && |text| == 2 && AllBase64Digits(Standards(text)) && bytes == Bytes(Standards(text))
    ensures Rounds(text, bytes)
  {
    var values := StandardsDigits(text);
    ShortBytes(Standards(text));
    assert values == [values[0], values[1]];
    TwoRound(text, bytes, values[0], values[1]);
  }

  lemma ThreeLetters(text: JsString, bytes: JsString)
    requires InAlphabet(text) && |text| == 3 && AllBase64Digits(Standards(text)) && bytes == Bytes(Standards(text))
    ensures Rounds(text, bytes)
  {
    var values := StandardsDigits(text);
    ShortBytes(Standards(text));
    assert values == [values[0], values[1], values[2]];
    ThreeRound(text, bytes, values[0], values[1], values[2]);
  }

  lemma ShortRounds(text: JsString, bytes: JsString)
    requires InAlphabet(text) && |text| < 4 && |text| != 1
    requires AllBase64Digits(Standards(text)) && bytes == Bytes(Standards(text))
    ensures Rounds(text, bytes)
  {
    if |text| == 2 {
      TwoLetters(text, bytes);
    } else if |text| == 3 {
      ThreeLetters(text, bytes);
    }
  }

  lemma GroupRounds(text: JsString, bytes: JsString)
    requires InAlphabet(text) && |text| == 4 && AllBase64Digits(Standards(text)) && bytes == GroupBytes(Standards(text))
    ensures |bytes| == 3
    ensures exists a, b, c, d :: Reads(text, [a, b, c, d]) &&
              262144 * a + 4096 * b + 64 * c + d == 65536 * (bytes[0] as int) + 256 * (bytes[1] as int) + bytes[2]
  {
    var values := StandardsDigits(text);
    assert values == [values[0], values[1], values[2], values[3]];
    Fours(values[0], values[1], values[2], values[3]);
  }

  lemma MoreRounds(text: JsString, group: seq<int>, more: seq<int>)
    requires |text| >= 4 && |group| == 3 && Rounds(text[4..], more)
    requires exists a, b, c, d :: Reads(text[..4], [a, b, c, d]) &&
               262144 * a + 4096 * b + 64 * c + d == 65536 * group[0] + 256 * group[1] + group[2]
    ensures Rounds(text, group + more)
  {
    assert (group + more)[3..] == more;
  }

  lemma AlphabetParts(text: JsString)
    requires InAlphabet(text) && |text| >= 4
    ensures InAlphabet(text[..4]) && InAlphabet(text[4..])
    ensures Standards(text) == Standards(text[..4]) + Standards(text[4..])
  {
  }

  lemma GroupAndMore(text: JsString, g: JsString, more: JsString)
    requires |text| >= 4 && InAlphabet(text[..4]) && g == Standards(text[..4]) && AllBase64Digits(g)
    requires Rounds(text[4..], more)
    ensures Rounds(text, GroupBytes(g) + more)
  {
    GroupRounds(text[..4], GroupBytes(g));
    MoreRounds(text, GroupBytes(g), more);
  }

  lemma BytesSplit(d: JsString)
    requires AllBase64Digits(d) && |d| >= 4 && |d| % 4 != 1
    ensures |d[4..]| % 4 != 1 && AllBase64Digits(d[..4]) && AllBase64Digits(d[4..])
    ensures Bytes(d) == GroupBytes(d[..4]) + Bytes(d[4..])
  {
    BytesCons(d[..4], d[4..]);
    assert d[..4] + d[4..] == d;
  }

  lemma {:induction false} BytesRound(text: JsString, d: JsString, bytes: JsString)
    requires InAlphabet(text) && d == Standards(text) && |d| % 4 != 1 && AllBase64Digits(d) && bytes == Bytes(d)
    ensures Rounds(text, bytes)
    decreases |text|
  {
    if |text| < 4 {
      ShortRounds(text, bytes);
    } else {
      AlphabetParts(text);
      BytesSplit(d);
      var more := Bytes(d[4..]);
      assert d[4..] == Standards(text[4..]) && d[..4] == Standards(text[..4]);
      BytesRound(text[4..], d[4..], more);
      GroupAndMore(text, d[..4], more);
    }
  }

  /** A single letter left over is padded with three `=`, which is one too many. */
  lemma ThreePads(d: JsString)
    requires AllBase64Digits(d) && |d| % 4 == 1
    ensures !AllBase64Digits(WithoutPadding(PadEnd(d)))
  {
    var s := PadEnd(d);
    assert |s| == |d| + 3 && s[|d|] == PAD && s[|s| - 1] == PAD && s[|s| - 2] == PAD;
    assert WithoutPadding(s) == s[..|s| - 2];
    assert Value(WithoutPadding(s)[|d|]).None?;
  }

  /** Text in the alphabet is decoded to the bytes it stands for, unless a single letter is left over. */
  lemma DecodedRounds(text: JsString)
    requires InAlphabet(text)
    ensures Decoded(text).Some? <==> |text| % 4 != 1
    ensures |text| % 4 != 1 ==> Rounds(text, Decoded(text).value)
  {
    StandardAlphabetIs(text);
    var d := Standards(text);
    var values := StandardsDigits(text);
    PaddedHasNoSpace(d);
    if |text| % 4 == 1 {
      ThreePads(d);
    } else {
      PaddingDropped(d);
      assert Decoded(text) == Some(Bytes(d));
      BytesRound(text, d, Bytes(d));
    }
  }
}
