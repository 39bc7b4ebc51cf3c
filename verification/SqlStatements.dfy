/**
 The statement splitter of packages/db/index.ts: cuts a script at semicolons outside `$$` quotes.
 */
module SqlStatements {
  import opened JsStrings

  const DOLLAR: CodeUnit := 0x24
  const SEMICOLON: CodeUnit := 0x3B

  /** What `String.prototype.trim` removes: JavaScript's white space and line terminators. */
  predicate IsSpace(c: CodeUnit) {
    || 0x09 <= c <= 0x0D || c == 0x20 || c == 0xA0 || c == 0x1680 || 0x2000 <= c <= 0x200A
    || c == 0x2028 || c == 0x2029 || c == 0x202F || c == 0x205F || c == 0x3000 || c == 0xFEFF
  }

  function TrimStart(s: JsString): (r: JsString)
    ensures |r| <= |s| && (r != [] ==> !IsSpace(r[0]))
  {
    if s != [] && IsSpace(s[0]) then TrimStart(s[1..]) else s
  }

  function TrimEnd(s: JsString): (r: JsString)
    ensures r <= s && (r != [] ==> !IsSpace(r[|r| - 1]))
  {
    if s != [] && IsSpace(s[|s| - 1]) then TrimEnd(s[..|s| - 1]) else s
  }

  function Trim(s: JsString): (r: JsString) {
    TrimStart(TrimEnd(s))
  }

  predicate AtQuote(s: JsString) {
    |s| >= 2 && s[0] == DOLLAR && s[1] == DOLLAR
  }

  /** The statement a finished piece of text gives: none if it is blank. */
  function Flush(current: JsString): (r: seq<JsString>) {
    if Trim(current) == [] then [] else [Trim(current)]
  }

  /** What the loop still produces from the rest of the script. */
  function SplitFrom(s: JsString, current: JsString, inDollarQuote: bool): (r: seq<JsString>)
    decreases |s|
  {
    if s == [] then Flush(current)
    else if AtQuote(s) then SplitFrom(s[2..], current + [DOLLAR, DOLLAR], !inDollarQuote)
    else if !inDollarQuote && s[0] == SEMICOLON then Flush(current) + SplitFrom(s[1..], [], false)
    else SplitFrom(s[1..], current + [s[0]], inDollarQuote)
  }

  function Split(sql: JsString): (r: seq<JsString>) {
    SplitFrom(sql, [], false)
  }

  /** One turn of the loop at position `i`. */
  lemma SplitTurn(sql: JsString, i: nat, current: JsString, inQuote: bool)
    requires i < |sql|
    ensures AtQuote(sql[i..]) <==> sql[i] == DOLLAR && i + 1 < |sql| && sql[i + 1] == DOLLAR
    ensures AtQuote(sql[i..]) ==>
              SplitFrom(sql[i..], current, inQuote) == SplitFrom(sql[i + 2..], current + [DOLLAR, DOLLAR], !inQuote)
    ensures !AtQuote(sql[i..]) && !inQuote && sql[i] == SEMICOLON ==>
              SplitFrom(sql[i..], current, inQuote) == Flush(current) + SplitFrom(sql[i + 1..], [], false)
    ensures !AtQuote(sql[i..]) && (inQuote || sql[i] != SEMICOLON) ==>
              SplitFrom(sql[i..], current, inQuote) == SplitFrom(sql[i + 1..], current + [sql[i]], inQuote)
  {
  }

  lemma AppendFlushed(statements: seq<JsString>, current: JsString, more: seq<JsString>)
    ensures statements + (Flush(current) + more) ==
            (if |Trim(current)| > 0 then statements + [Trim(current)] else statements) + more
  {
  }

  /** `splitSqlStatements` */
  method SplitSqlStatements(sql: JsString) returns (statements: seq<JsString>)
    ensures statements == Split(sql)
  {
    statements := [];
    var current: JsString := [];
    var inDollarQuote := false;
    var i := 0;
    while i < |sql|
      invariant 0 <= i <= |sql|
      invariant statements + SplitFrom(sql[i..], current, inDollarQuote) == Split(sql)
    {
      SplitTurn(sql, i, current, inDollarQuote);
      if sql[i] == DOLLAR && i + 1 < |sql| && sql[i + 1] == DOLLAR {
        inDollarQuote := !inDollarQuote;
        current := current + [DOLLAR, DOLLAR];
        i := i + 2;
        continue;
      }
      if !inDollarQuote && sql[i] == SEMICOLON {
        var trimmed := Trim(current);
        AppendFlushed(statements, current, SplitFrom(sql[i + 1..], [], false));
        if |trimmed| > 0 {
          statements := statements + [trimmed];
        }
        current := [];
        i := i + 1;
        continue;
      }
      current := current + [sql[i]];
      i := i + 1;
    }
    var trailing := Trim(current);
    AppendFlushed(statements, current, []);
    if |trailing| > 0 {
      statements := statements + [trailing];
    }
  }

  // ---------- Scanning ----------

  /** No semicolon outside quotes. */
  predicate Clean(s: JsString, inQuote: bool) {
    if s == [] then true
    else if AtQuote(s) then Clean(s[2..], !inQuote)
    else (inQuote || s[0] != SEMICOLON) && Clean(s[1..], inQuote)
  }

  /** Whether a scan of `s` ends inside a quote. */
  predicate EndsQuoted(s: JsString, inQuote: bool) {
    if s == [] then inQuote
    else if AtQuote(s) then EndsQuoted(s[2..], !inQuote)
    else EndsQuoted(s[1..], inQuote)
  }

  /** The length of the text before the first semicolon outside quotes. */
  function SegmentLength(s: JsString, inQuote: bool): (n: nat)
    ensures n <= |s|
  {
    if s == [] then 0
    else if AtQuote(s) then 2 + SegmentLength(s[2..], !inQuote)
    else if !inQuote && s[0] == SEMICOLON then 0
    else 1 + SegmentLength(s[1..], inQuote)
  }

  lemma {:induction false} SegmentIsClean(s: JsString, inQuote: bool)
    ensures var n := SegmentLength(s, inQuote);
            && Clean(s[..n], inQuote)
            && (n < |s| ==> s[n] == SEMICOLON && !EndsQuoted(s[..n], inQuote))
  {
    var n := SegmentLength(s, inQuote);
    if s == [] {
    } else if AtQuote(s) {
      SegmentIsClean(s[2..], !inQuote);
      assert s[..n][2..] == s[2..][..n - 2];
    } else if inQuote || s[0] != SEMICOLON {
      SegmentIsClean(s[1..], inQuote);
      assert s[..n][1..] == s[1..][..n - 1];
    }
  }

  /** A clean text is scanned into the current statement as it stands. */
  lemma {:induction false} ScanClean(a: JsString, b: JsString, current: JsString, inQuote: bool)
    requires Clean(a, inQuote) && (b == [] || b[0] == SEMICOLON)
    ensures SplitFrom(a + b, current, inQuote) == SplitFrom(b, current + a, EndsQuoted(a, inQuote))
  {
    if a == [] {
      assert a + b == b && current + a == current;
    } else if AtQuote(a) {
      assert (a + b)[2..] == a[2..] + b;
      ScanClean(a[2..], b, current + [DOLLAR, DOLLAR], !inQuote);
      assert current + [DOLLAR, DOLLAR] + a[2..] == current + a;
    } else {
      assert (a + b)[1..] == a[1..] + b;
      assert !AtQuote(a + b);
      ScanClean(a[1..], b, current + [a[0]], inQuote);
      assert current + [a[0]] + a[1..] == current + a;
    }
  }

  lemma SplitAtSeparator(b: JsString, current: JsString, inQuote: bool)
    requires b != [] ==> b[0] == SEMICOLON && !inQuote
    ensures SplitFrom(b, current, inQuote) == Flush(current) + if b == [] then [] else Split(b[1..])
  {
  }

  lemma SplitTwoParts(a: JsString, b: JsString)
    requires Clean(a, false) && (b != [] ==> b[0] == SEMICOLON && !EndsQuoted(a, false))
    ensures Split(a + b) == Flush(a) + if b == [] then [] else Split(b[1..])
  {
    ScanClean(a, b, [], false);
    assert [] + a == a;
    SplitAtSeparator(b, a, EndsQuoted(a, false));
  }

  /** The first segment of a script and what stands behind it. */
  lemma SegmentParts(s: JsString) returns (a: JsString, b: JsString)
    ensures var n := SegmentLength(s, false);
            && s == a + b && a == s[..n] && (b == [] <==> n == |s|)
            && Clean(a, false)
            && (b != [] ==> b[0] == SEMICOLON && !EndsQuoted(a, false) && b[1..] == s[n + 1..])
  {
    var n := SegmentLength(s, false);
    SegmentIsClean(s, false);
    a, b := s[..n], s[n..];
  }

  /** The script is its first segment, then whatever follows the semicolon. */
  lemma SplitSegment(s: JsString)
    ensures var n := SegmentLength(s, false);
            Split(s) == Flush(s[..n]) + if n < |s| then Split(s[n + 1..]) else []
  {
    var a, b := SegmentParts(s);
    SplitTwoParts(a, b);
  }

  // ---------- Trimming does not change a scan ----------

  lemma {:induction false} TrimStartScan(s: JsString, inQuote: bool)
    ensures Clean(TrimStart(s), inQuote) == Clean(s, inQuote)
    ensures EndsQuoted(TrimStart(s), inQuote) == EndsQuoted(s, inQuote)
  {
    if s != [] && IsSpace(s[0]) {
      TrimStartScan(s[1..], inQuote);
    }
  }

  lemma {:induction false} SpaceAtEndScan(s: JsString, c: CodeUnit, inQuote: bool)
    requires IsSpace(c)
    ensures Clean(s + [c], inQuote) == Clean(s, inQuote)
    ensures EndsQuoted(s + [c], inQuote) == EndsQuoted(s, inQuote)
  {
    if s == [] {
      assert s + [c] == [c] && [c][1..] == [];
    } else if AtQuote(s) {
      assert (s + [c])[2..] == s[2..] + [c];
      SpaceAtEndScan(s[2..], c, !inQuote);
    } else {
      assert (s + [c])[1..] == s[1..] + [c];
      assert !AtQuote(s + [c]);
      SpaceAtEndScan(s[1..], c, inQuote);
    }
  }

  lemma {:induction false} TrimEndScan(s: JsString, inQuote: bool)
    ensures Clean(TrimEnd(s), inQuote) == Clean(s, inQuote)
    ensures EndsQuoted(TrimEnd(s), inQuote) == EndsQuoted(s, inQuote)
  {
    if s != [] && IsSpace(s[|s| - 1]) {
      var n := |s| - 1;
      TrimEndScan(s[..n], inQuote);
      SpaceAtEndScan(s[..n], s[n], inQuote);
      assert s == s[..n] + [s[n]];
    }
  }

  lemma TrimScan(s: JsString)
    ensures Clean(Trim(s), false) == Clean(s, false)
    ensures EndsQuoted(Trim(s), false) == EndsQuoted(s, false)
  {
    TrimEndScan(s, false);
    TrimStartScan(TrimEnd(s), false);
  }

  lemma {:induction false} TrimStartSuffix(s: JsString)
    ensures TrimStart(s) == s[|s| - |TrimStart(s)|..]
  {
    if s != [] && IsSpace(s[0]) {
      TrimStartSuffix(s[1..]);
    }
  }

  lemma TrimIdempotent(s: JsString)
    ensures Trim(Trim(s)) == Trim(s)
  {
    var t := TrimEnd(s);
    TrimStartSuffix(t);
    if Trim(s) != [] {
      assert Trim(s)[|Trim(s)| - 1] == t[|t| - 1];
    }
  }

  // ---------- Splitting undoes joining ----------

  /** The script with a semicolon between the statements. */
  function JoinStatements(statements: seq<JsString>): (r: JsString) {
    if statements == [] then []
    else if |statements| == 1 then statements[0]
    else statements[0] + ([SEMICOLON] + JoinStatements(statements[1..]))
  }

  /** A trimmed, non-empty text without semicolons outside quotes. */
  predicate IsStatement(s: JsString) {
    s != [] && Trim(s) == s && Clean(s, false)
  }

  /** Statements as they can come out of a script: only the last one may leave a quote open. */
  predicate AreStatements(statements: seq<JsString>) {
    && (forall i :: 0 <= i < |statements| ==> IsStatement(statements[i]))
    && forall i :: 0 <= i < |statements| - 1 ==> !EndsQuoted(statements[i], false)
  }

  lemma {:induction false} SplitUndoesJoin(statements: seq<JsString>)
    requires AreStatements(statements)
    ensures Split(JoinStatements(statements)) == statements
  {
    if statements == [] {
    } else {
      var s := statements[0];
      assert IsStatement(s);
      if |statements| == 1 {
        SplitOneStatement(s);
      } else {
        var rest := JoinStatements(statements[1..]);
        SplitTwoParts(s, [SEMICOLON] + rest);
        assert ([SEMICOLON] + rest)[1..] == rest;
        SplitUndoesJoin(statements[1..]);
        assert statements == [s] + statements[1..];
      }
    }
  }

  lemma SplitOneStatement(s: JsString)
    requires IsStatement(s)
    ensures Split(s) == [s]
  {
    SplitTwoParts(s, []);
    assert s + [] == s;
  }

  /** Every output is such a list of statements, so the outputs are exactly these lists. */
  lemma {:induction false} SplitGivesStatements(s: JsString)
    ensures AreStatements(Split(s))
    decreases |s|
  {
    var n := SegmentLength(s, false);
    SegmentIsClean(s, false);
    SplitSegment(s);
    TrimScan(s[..n]);
    TrimIdempotent(s[..n]);
    if n < |s| {
      SplitGivesStatements(s[n + 1..]);
      var first, rest := Flush(s[..n]), Split(s[n + 1..]);
      forall i | 0 <= i < |first + rest|
        ensures IsStatement((first + rest)[i])
        ensures i < |first + rest| - 1 ==> !EndsQuoted((first + rest)[i], false)
      {
        if i >= |first| {
          assert (first + rest)[i] == rest[i - |first|];
        }
      }
    }
  }

  /** Splitting any output statement again gives just that statement. */
  lemma ResplitStatement(sql: JsString, i: nat)
    requires i < |Split(sql)|
    ensures Split(Split(sql)[i]) == [Split(sql)[i]]
  {
    SplitGivesStatements(sql);
    SplitOneStatement(Split(sql)[i]);
  }

  /** Joining the statements of any script with semicolons gives a script with the same statements. */
  lemma ResplitScript(sql: JsString)
    ensures Split(JoinStatements(Split(sql))) == Split(sql)
  {
    SplitGivesStatements(sql);
    SplitUndoesJoin(Split(sql));
  }

  // ---------- Nothing but white space and top-level semicolons is lost ----------

  function NonSpace(s: JsString): (r: JsString) {
    if s == [] then [] else (if IsSpace(s[0]) then [] else [s[0]]) + NonSpace(s[1..])
  }

  /** The script without its semicolons outside quotes. */
  function WithoutSeparators(s: JsString, inQuote: bool): (r: JsString) {
    if s == [] then []
    else if AtQuote(s) then [DOLLAR, DOLLAR] + WithoutSeparators(s[2..], !inQuote)
    else if !inQuote && s[0] == SEMICOLON then WithoutSeparators(s[1..], inQuote)
    else [s[0]] + WithoutSeparators(s[1..], inQuote)
  }

  function Flatten(parts: seq<JsString>): (r: JsString) {
    if parts == [] then [] else parts[0] + Flatten(parts[1..])
  }

  lemma {:induction false} NonSpaceConcat(a: JsString, b: JsString)
    ensures NonSpace(a + b) == NonSpace(a) + NonSpace(b)
  {
    if a == [] {
      assert a + b == b;
    } else {
      assert (a + b)[1..] == a[1..] + b;
      NonSpaceConcat(a[1..], b);
    }
  }

  lemma {:induction false} NonSpaceTrimStart(s: JsString)
    ensures NonSpace(TrimStart(s)) == NonSpace(s)
  {
    if s != [] && IsSpace(s[0]) {
      NonSpaceTrimStart(s[1..]);
    }
  }

  lemma {:induction false} NonSpaceTrimEnd(s: JsString)
    ensures NonSpace(TrimEnd(s)) == NonSpace(s)
  {
    if s != [] && IsSpace(s[|s| - 1]) {
      var n := |s| - 1;
      NonSpaceTrimEnd(s[..n]);
      NonSpaceConcat(s[..n], [s[n]]);
      assert s == s[..n] + [s[n]];
      assert [s[n]][1..] == [];
    }
  }

  lemma NonSpaceFlush(s: JsString)
    ensures NonSpace(Flatten(Flush(s))) == NonSpace(s)
  {
    NonSpaceTrimEnd(s);
    NonSpaceTrimStart(TrimEnd(s));
    if Trim(s) != [] {
      assert Flush(s)[1..] == [];
      assert Flatten(Flush(s)) == Trim(s) + [];
      assert Trim(s) + [] == Trim(s);
    }
  }

  /** What `WithoutSeparators` leaves of the text from the separator at `n` on. */
  function Behind(s: JsString, n: nat): (r: JsString) {
    if n < |s| then WithoutSeparators(s[n + 1..], false) else []
  }

  /** Reading on by `k` characters that stay in the segment. */
  lemma SegmentStep(s: JsString, k: nat, n: nat, tail: JsString)
    requires k <= n <= |s| && tail == s[k..][..n - k] + Behind(s[k..], n - k)
    ensures s[..k] + tail == s[..n] + Behind(s, n)
  {
  }

  lemma {:induction false} WithoutSeparatorsSegment(s: JsString, inQuote: bool)
    ensures var n := SegmentLength(s, inQuote);
            WithoutSeparators(s, inQuote) == s[..n] + Behind(s, n)
  {
    var n := SegmentLength(s, inQuote);
    if s == [] {
    } else if AtQuote(s) {
      WithoutSeparatorsSegment(s[2..], !inQuote);
      SegmentStep(s, 2, n, WithoutSeparators(s[2..], !inQuote));
      assert s[..2] == [DOLLAR, DOLLAR];
    } else if inQuote || s[0] != SEMICOLON {
      WithoutSeparatorsSegment(s[1..], inQuote);
      SegmentStep(s, 1, n, WithoutSeparators(s[1..], inQuote));
      assert s[..1] == [s[0]];
    }
  }

  lemma {:induction false} FlattenConcat(a: seq<JsString>, b: seq<JsString>)
    ensures Flatten(a + b) == Flatten(a) + Flatten(b)
  {
    if a == [] {
      assert a + b == b;
    } else {
      assert (a + b)[1..] == a[1..] + b;
      FlattenConcat(a[1..], b);
    }
  }

  /**
   On every input the statements hold, in order, exactly the script's characters other than white
   space and semicolons outside quotes.
   */
  lemma {:induction false} SplitKeepsCharacters(s: JsString)
    ensures NonSpace(Flatten(Split(s))) == NonSpace(WithoutSeparators(s, false))
    decreases |s|
  {
    var n := SegmentLength(s, false);
    SplitSegment(s);
    WithoutSeparatorsSegment(s, false);
    NonSpaceFlush(s[..n]);
    if n < |s| {
      SplitKeepsCharacters(s[n + 1..]);
      FlattenConcat(Flush(s[..n]), Split(s[n + 1..]));
      NonSpaceConcat(Flatten(Flush(s[..n])), Flatten(Split(s[n + 1..])));
      NonSpaceConcat(s[..n], WithoutSeparators(s[n + 1..], false));
    } else {
      assert Flush(s[..n]) + [] == Flush(s[..n]) && s[..n] + [] == s[..n];
    }
  }
}
