/**
 The words of `SqlStatements` by code point: which characters trimming removes, when a semicolon stands
 outside quotes, and so what a statement is and what the splitter may drop.
 */
module SqlText {
  import opened JsStrings
  import opened SqlStatements

  // ---------- White space ----------

  /** White space and line terminators (section 12.2 and 12.3 of ECMA-262). */
  const SPACES: set<int> := {
    0x0009, 0x000A, 0x000B, 0x000C, 0x000D, 0x0020, 0x00A0, 0x1680, 0x2000, 0x2001, 0x2002, 0x2003, 0x2004, 0x2005,
    0x2006, 0x2007, 0x2008, 0x2009, 0x200A, 0x2028, 0x2029, 0x202F, 0x205F, 0x3000, 0xFEFF
  }

  lemma SpacesAre(c: CodeUnit)
    ensures IsSpace(c) <==> (c as int) in SPACES
  {
  }

  /** `t` is `s` without the white space at its ends, and ends in none itself. */
  ghost predicate Trims(s: JsString, t: JsString) {
    exists before, after ::
      && s == before + t + after
      && (forall c :: c in before + after ==> IsSpace(c))
      && (t != [] ==> !IsSpace(t[0]) && !IsSpace(t[|t| - 1]))
  }

  lemma {:induction false} TrimStartDrops(s: JsString) returns (before: JsString)
    ensures s == before + TrimStart(s) && forall c :: c in before ==> IsSpace(c)
  {
    if s != [] && IsSpace(s[0]) {
      before := TrimStartDrops(s[1..]);
      before := [s[0]] + before;
    } else {
      before := [];
    }
  }

  lemma {:induction false} TrimEndDrops(s: JsString) returns (after: JsString)
    ensures s == TrimEnd(s) + after && forall c :: c in after ==> IsSpace(c)
  {
    if s != [] && IsSpace(s[|s| - 1]) {
      after := TrimEndDrops(s[..|s| - 1]);
      after := after + [s[|s| - 1]];
    } else {
      after := [];
    }
  }

  lemma TrimTrims(s: JsString)
    ensures Trims(s, Trim(s))
  {
    var t := TrimEnd(s);
    var after := TrimEndDrops(s);
    var before := TrimStartDrops(t);
    TrimStartSuffix(t);
    assert s == before + Trim(s) + after;
  }

  // ---------- Quotes ----------

  /** How many `$$` a scan from the left meets. */
  function QuoteMarks(s: JsString): (n: nat) {
    if |s| < 2 then 0
    else if s[0] == 0x24 && s[1] == 0x24 then 1 + QuoteMarks(s[2..])
    else QuoteMarks(s[1..])
  }

  /** The semicolon at `i` separates statements: it stands behind an even number of `$$`. */
  predicate Separates(s: JsString, i: nat)
    requires i < |s|
  {
    s[i] == 0x3B && QuoteMarks(s[..i]) % 2 == 0
  }

  lemma MarksBehindQuote(s: JsString, i: nat)
    requires AtQuote(s) && 2 <= i <= |s|
    ensures QuoteMarks(s[..i]) == 1 + QuoteMarks(s[2..][..i - 2])
  {
    assert s[..i][2..] == s[2..][..i - 2];
  }

  lemma MarksBehindOther(s: JsString, i: nat)
    requires s != [] && !AtQuote(s) && 1 <= i <= |s|
    ensures QuoteMarks(s[..i]) == QuoteMarks(s[1..][..i - 1])
  {
    assert s[..i][1..] == s[1..][..i - 1];
  }

  /** As `Separates`, when the scan begins inside a quote or outside. */
  predicate SeparatesFrom(s: JsString, inQuote: bool, i: nat)
    requires i < |s|
  {
    s[i] == 0x3B && (QuoteMarks(s[..i]) % 2 == 0) == !inQuote
  }

  /** Reading on past a quotation mark or another character. */
  lemma SeparatesBehind(s: JsString, inQuote: bool, i: nat)
    requires i < |s|
    ensures AtQuote(s) && i >= 2 ==> (SeparatesFrom(s, inQuote, i) <==> SeparatesFrom(s[2..], !inQuote, i - 2))
    ensures AtQuote(s) && i < 2 ==> !SeparatesFrom(s, inQuote, i)
    ensures !AtQuote(s) && i >= 1 ==> (SeparatesFrom(s, inQuote, i) <==> SeparatesFrom(s[1..], inQuote, i - 1))
    ensures !AtQuote(s) && i == 0 ==> (SeparatesFrom(s, inQuote, i) <==> !inQuote && s[0] == 0x3B)
  {
    if AtQuote(s) && i >= 2 {
      MarksBehindQuote(s, i);
    } else if !AtQuote(s) && i >= 1 {
      MarksBehindOther(s, i);
    }
  }

  lemma {:induction false} CleanMeans(s: JsString, inQuote: bool)
    ensures Clean(s, inQuote) <==> forall i :: 0 <= i < |s| ==> !SeparatesFrom(s, inQuote, i)
  {
    forall i | 0 <= i < |s|
      ensures AtQuote(s) && i >= 2 ==> (SeparatesFrom(s, inQuote, i) <==> SeparatesFrom(s[2..], !inQuote, i - 2))
      ensures AtQuote(s) && i < 2 ==> !SeparatesFrom(s, inQuote, i)
      ensures !AtQuote(s) && i >= 1 ==> (SeparatesFrom(s, inQuote, i) <==> SeparatesFrom(s[1..], inQuote, i - 1))
      ensures !AtQuote(s) && i == 0 ==> (SeparatesFrom(s, inQuote, i) <==> !inQuote && s[0] == 0x3B)
    {
      SeparatesBehind(s, inQuote, i);
    }
    if s == [] {
    } else if AtQuote(s) {
      CleanMeans(s[2..], !inQuote);
      if Clean(s, inQuote) {
        forall i | 0 <= i < |s|
          ensures !SeparatesFrom(s, inQuote, i)
        {
          assert i >= 2 ==> !SeparatesFrom(s[2..], !inQuote, i - 2);
        }
      } else {
        var i :| 0 <= i < |s| - 2 && SeparatesFrom(s[2..], !inQuote, i);
        assert SeparatesFrom(s, inQuote, i + 2);
      }
    } else {
      CleanMeans(s[1..], inQuote);
      if Clean(s, inQuote) {
        forall i | 0 <= i < |s|
          ensures !SeparatesFrom(s, inQuote, i)
        {
          assert i >= 1 ==> !SeparatesFrom(s[1..], inQuote, i - 1);
        }
      } else if !Clean(s[1..], inQuote) {
        var i :| 0 <= i < |s| - 1 && SeparatesFrom(s[1..], inQuote, i);
        assert SeparatesFrom(s, inQuote, i + 1);
      } else {
        assert SeparatesFrom(s, inQuote, 0);
      }
    }
  }

  lemma {:induction false} EndsQuotedMeans(s: JsString, inQuote: bool)
    ensures EndsQuoted(s, inQuote) <==> (QuoteMarks(s) % 2 == 0) == inQuote
  {
    if s == [] {
    } else if AtQuote(s) {
      EndsQuotedMeans(s[2..], !inQuote);
    } else {
      EndsQuotedMeans(s[1..], inQuote);
    }
  }

  /** A statement begins and ends with something else than white space and holds no separating semicolon. */
  lemma StatementMeans(s: JsString)
    ensures IsStatement(s) <==>
            && s != [] && !IsSpace(s[0]) && !IsSpace(s[|s| - 1])
            && forall i :: 0 <= i < |s| ==> !Separates(s, i)
  {
    CleanMeans(s, false);
    forall i | 0 <= i < |s|
      ensures Separates(s, i) <==> SeparatesFrom(s, false, i)
    {
    }
    if s != [] && !IsSpace(s[0]) && !IsSpace(s[|s| - 1]) {
      assert TrimEnd(s) == s && Trim(s) == s;
    }
  }

  // ---------- What may be dropped ----------

  /** The first `n` characters of `s` without its separating semicolons. */
  function Kept(s: JsString, inQuote: bool, n: nat): (r: JsString)
    requires n <= |s|
  {
    if n == 0 then [] else Kept(s, inQuote, n - 1) + if SeparatesFrom(s, inQuote, n - 1) then [] else [s[n - 1]]
  }

  lemma {:induction false} KeptBehindQuote(s: JsString, inQuote: bool, n: nat)
    requires AtQuote(s) && 2 <= n <= |s|
    ensures Kept(s, inQuote, n) == [s[0], s[1]] + Kept(s[2..], !inQuote, n - 2)
  {
    SeparatesBehind(s, inQuote, n - 1);
    if n == 2 {
      SeparatesBehind(s, inQuote, 0);
      assert Kept(s, inQuote, 1) == Kept(s, inQuote, 0) + [s[0]];
    } else {
      KeptBehindQuote(s, inQuote, n - 1);
      var last := if SeparatesFrom(s, inQuote, n - 1) then [] else [s[n - 1]];
      Assoc([s[0], s[1]], Kept(s[2..], !inQuote, n - 3), last);
    }
  }

  lemma {:induction false} KeptBehindOther(s: JsString, inQuote: bool, n: nat)
    requires !AtQuote(s) && 1 <= n <= |s|
    ensures Kept(s, inQuote, n) == (if !inQuote && s[0] == 0x3B then [] else [s[0]]) + Kept(s[1..], inQuote, n - 1)
  {
    SeparatesBehind(s, inQuote, n - 1);
    if n == 1 {
      assert Kept(s, inQuote, 0) == [];
    } else {
      KeptBehindOther(s, inQuote, n - 1);
      var first := if !inQuote && s[0] == 0x3B then [] else [s[0]];
      var last := if SeparatesFrom(s, inQuote, n - 1) then [] else [s[n - 1]];
      Assoc(first, Kept(s[1..], inQuote, n - 2), last);
    }
  }

  lemma WithoutStep(s: JsString, inQuote: bool)
    requires s != []
    ensures AtQuote(s) ==> WithoutSeparators(s, inQuote) == [s[0], s[1]] + WithoutSeparators(s[2..], !inQuote)
    ensures !AtQuote(s) ==>
              WithoutSeparators(s, inQuote) ==
              (if !inQuote && s[0] == 0x3B then [] else [s[0]]) + WithoutSeparators(s[1..], inQuote)
  {
    var rest := WithoutSeparators(s[1..], inQuote);
    assert [] + rest == rest;
  }

  lemma {:induction false} WithoutSeparatorsMeans(s: JsString, inQuote: bool)
    ensures WithoutSeparators(s, inQuote) == Kept(s, inQuote, |s|)
  {
    if s == [] {
    } else if AtQuote(s) {
      WithoutStep(s, inQuote);
      WithoutSeparatorsMeans(s[2..], !inQuote);
      KeptBehindQuote(s, inQuote, |s|);
    } else {
      WithoutStep(s, inQuote);
      WithoutSeparatorsMeans(s[1..], inQuote);
      KeptBehindOther(s, inQuote, |s|);
    }
  }

  /** What `splitSqlStatements` returns, without the words of the splitter. */
  lemma SplitMeans(sql: JsString, i: nat)
    requires i < |Split(sql)|
    ensures var statement := Split(sql)[i];
            && statement != [] && !IsSpace(statement[0]) && !IsSpace(statement[|statement| - 1])
            && (forall k :: 0 <= k < |statement| ==> !Separates(statement, k))
            && (i < |Split(sql)| - 1 ==> QuoteMarks(statement) % 2 == 0)
    ensures NonSpace(Flatten(Split(sql))) == NonSpace(Kept(sql, false, |sql|))
  {
    SplitGivesStatements(sql);
    StatementMeans(Split(sql)[i]);
    EndsQuotedMeans(Split(sql)[i], false);
    SplitKeepsCharacters(sql);
    WithoutSeparatorsMeans(sql, false);
  }
}
