/**
 A hash-chained table in (timestamp, id) order, over any row contents and any row hash: what one
 appended row does to the chain, and what the last hash says about the rows before it. `AuditLog`
 supplies the contents and the hash.
 */
module HashChain {
  import opened JsStrings
  import Sorting

  datatype Row<C> = Row(id: nat, instant: int, content: C, prevHash: JsString, hash: JsString)

  /** The hash a row should carry, computed from its own columns. */
  type RowHash<!C> = Row<C> -> JsString

  /** The hash the row at position `i` must continue. */
  function Expected<C>(genesis: JsString, ordered: seq<Row<C>>, i: nat): (r: JsString)
    requires i <= |ordered|
  {
    if i == 0 then genesis else ordered[i - 1].hash
  }

  function LastHash<C>(genesis: JsString, ordered: seq<Row<C>>): (r: JsString) {
    Expected(genesis, ordered, |ordered|)
  }

  predicate LinkOk<C>(rowHash: RowHash<C>, genesis: JsString, ordered: seq<Row<C>>, i: nat)
    requires i < |ordered|
  {
    ordered[i].prevHash == Expected(genesis, ordered, i) && ordered[i].hash == rowHash(ordered[i])
  }

  /** Every row continues the row before it and carries the hash of its own columns. */
  ghost predicate Chained<C>(rowHash: RowHash<C>, genesis: JsString, ordered: seq<Row<C>>) {
    forall i :: 0 <= i < |ordered| ==> LinkOk(rowHash, genesis, ordered, i)
  }

  ghost predicate FirstBroken<C>(rowHash: RowHash<C>, genesis: JsString, ordered: seq<Row<C>>, i: nat) {
    && i < |ordered| && !LinkOk(rowHash, genesis, ordered, i)
    && forall j :: 0 <= j < i ==> LinkOk(rowHash, genesis, ordered, j)
  }

  // ---------- The last hash fixes the chain ----------

  /** Among these rows, the row hash fixes the previous hash and `same` of everything else. */
  ghost predicate Binding<C>(rowHash: RowHash<C>, same: (Row<C>, Row<C>) -> bool, rows: seq<Row<C>>) {
    forall a, b :: a in rows && b in rows && rowHash(a) == rowHash(b) ==> a.prevHash == b.prevHash && same(a, b)
  }

  ghost predicate GenesisIsNoHash<C>(genesis: JsString, rows: seq<Row<C>>) {
    forall row :: row in rows ==> row.hash != genesis
  }

  ghost predicate SameRow<C>(same: (Row<C>, Row<C>) -> bool, a: Row<C>, b: Row<C>) {
    a.prevHash == b.prevHash && a.hash == b.hash && same(a, b)
  }

  ghost predicate SameRows<C>(same: (Row<C>, Row<C>) -> bool, a: seq<Row<C>>, b: seq<Row<C>>) {
    |a| == |b| && forall i :: 0 <= i < |a| ==> SameRow(same, a[i], b[i])
  }

  lemma PreviousLinks<C>(rowHash: RowHash<C>, genesis: JsString, ordered: seq<Row<C>>, n: nat)
    requires Chained(rowHash, genesis, ordered) && n < |ordered|
    ensures Chained(rowHash, genesis, ordered[..n])
    ensures LastHash(genesis, ordered[..n]) == ordered[n].prevHash
  {
    assert LinkOk(rowHash, genesis, ordered, n);
    forall i | 0 <= i < n
      ensures LinkOk(rowHash, genesis, ordered[..n], i)
    {
      assert LinkOk(rowHash, genesis, ordered, i);
    }
  }

  lemma SameHashSameRow<C>(rowHash: RowHash<C>, genesis: JsString, same: (Row<C>, Row<C>) -> bool,
                           a: seq<Row<C>>, i: nat, b: seq<Row<C>>, j: nat)
    requires Chained(rowHash, genesis, a) && Chained(rowHash, genesis, b) && Binding(rowHash, same, a + b)
    requires i < |a| && j < |b| && a[i].hash == b[j].hash
    ensures SameRow(same, a[i], b[j])
  {
    assert LinkOk(rowHash, genesis, a, i) && LinkOk(rowHash, genesis, b, j);
    assert a[i] in a && b[j] in b;
    assert a[i] in a + b && b[j] in a + b;
  }

  lemma BindingSubset<C>(rowHash: RowHash<C>, same: (Row<C>, Row<C>) -> bool, rows: seq<Row<C>>, fewer: seq<Row<C>>)
    requires Binding(rowHash, same, rows) && forall r :: r in fewer ==> r in rows
    ensures Binding(rowHash, same, fewer)
  {
  }

  lemma BindingPrefixes<C>(rowHash: RowHash<C>, same: (Row<C>, Row<C>) -> bool,
                           a: seq<Row<C>>, m: nat, b: seq<Row<C>>, n: nat)
    requires Binding(rowHash, same, a + b) && m <= |a| && n <= |b|
    ensures Binding(rowHash, same, a[..m] + b[..n])
  {
    forall r | r in a[..m] + b[..n]
      ensures r in a + b
    {
      assert r in a || r in b;
    }
    BindingSubset(rowHash, same, a + b, a[..m] + b[..n]);
  }

  lemma GenesisPrefix<C>(genesis: JsString, rows: seq<Row<C>>, n: nat)
    requires GenesisIsNoHash(genesis, rows) && n <= |rows|
    ensures GenesisIsNoHash(genesis, rows[..n])
  {
  }

  /** A chain that is not empty does not end in the genesis hash. */
  lemma EmptyTogether<C>(genesis: JsString, a: seq<Row<C>>, b: seq<Row<C>>)
    requires GenesisIsNoHash(genesis, a) && GenesisIsNoHash(genesis, b)
    requires LastHash(genesis, a) == LastHash(genesis, b)
    ensures a == [] <==> b == []
  {
  }

  lemma SameRowsSnoc<C>(same: (Row<C>, Row<C>) -> bool, a: seq<Row<C>>, b: seq<Row<C>>)
    requires a != [] && b != []
    requires SameRows(same, a[..|a| - 1], b[..|b| - 1]) && SameRow(same, a[|a| - 1], b[|b| - 1])
    ensures SameRows(same, a, b)
  {
    forall i | 0 <= i < |a| - 1
      ensures SameRow(same, a[i], b[i])
    {
      assert SameRow(same, a[..|a| - 1][i], b[..|b| - 1][i]);
    }
  }

  /** Chains from one genesis that end in one hash are one chain. */
  lemma {:induction false} LastHashFixesChain<C>(rowHash: RowHash<C>, genesis: JsString,
                                                 same: (Row<C>, Row<C>) -> bool, a: seq<Row<C>>, b: seq<Row<C>>)
    requires Chained(rowHash, genesis, a) && Chained(rowHash, genesis, b) && Binding(rowHash, same, a + b)
    requires GenesisIsNoHash(genesis, a) && GenesisIsNoHash(genesis, b)
    requires LastHash(genesis, a) == LastHash(genesis, b)
    ensures SameRows(same, a, b)
  {
    EmptyTogether(genesis, a, b);
    if a == [] {
    } else {
      var m, n := |a| - 1, |b| - 1;
      SameHashSameRow(rowHash, genesis, same, a, m, b, n);
      PreviousLinks(rowHash, genesis, a, m);
      PreviousLinks(rowHash, genesis, b, n);
      BindingPrefixes(rowHash, same, a, m, b, n);
      GenesisPrefix(genesis, a, m);
      GenesisPrefix(genesis, b, n);
      LastHashFixesChain(rowHash, genesis, same, a[..m], b[..n]);
      SameRowsSnoc(same, a, b);
    }
  }

  /** No hash occurs twice in a chain. */
  lemma {:induction false} HashesDistinct<C>(rowHash: RowHash<C>, genesis: JsString,
                                             same: (Row<C>, Row<C>) -> bool, ordered: seq<Row<C>>, i: nat, j: nat)
    requires Chained(rowHash, genesis, ordered) && Binding(rowHash, same, ordered)
    requires GenesisIsNoHash(genesis, ordered)
    requires i < j < |ordered|
    ensures ordered[i].hash != ordered[j].hash
    decreases i
  {
    if ordered[i].hash == ordered[j].hash {
      BindingSubset(rowHash, same, ordered, ordered + ordered);
      SameHashSameRow(rowHash, genesis, same, ordered, i, ordered, j);
      assert LinkOk(rowHash, genesis, ordered, i) && LinkOk(rowHash, genesis, ordered, j);
      if i > 0 {
        HashesDistinct(rowHash, genesis, same, ordered, i - 1, j - 1);
      }
    }
  }

  // ---------- (ts, id) order ----------

  function RowLe<C>(): (Row<C>, Row<C>) -> bool {
    (a: Row<C>, b: Row<C>) => a.instant < b.instant || (a.instant == b.instant && a.id <= b.id)
  }

  predicate KeyBelow<C>(a: Row<C>, b: Row<C>) {
    a.instant < b.instant || (a.instant == b.instant && a.id < b.id)
  }

  ghost predicate UniqueIds<C>(rows: seq<Row<C>>) {
    forall a, b :: a in rows && b in rows && a.id == b.id ==> a == b
  }

  /** `ORDER BY ts ASC, id ASC` */
  function Ordered<C(!new)>(rows: seq<Row<C>>): (r: seq<Row<C>>)
    ensures multiset(r) == multiset(rows) && |r| == |rows|
    ensures forall row :: row in r <==> row in rows
  {
    var r := Sorting.Sort(RowLe(), rows);
    Sorting.SameElements(r, rows);
    assert forall row :: (row in r <==> row in multiset(r)) && (row in rows <==> row in multiset(rows));
    r
  }

  lemma RowLeIsPreorder<C(!new)>()
    ensures Sorting.TotalPreorder(RowLe<C>())
  {
  }

  /** In order of time, and of id at one time. */
  lemma OrderedAscends<C(!new)>(rows: seq<Row<C>>, i: nat, j: nat)
    requires i < j < |rows|
    ensures var r := Ordered(rows);
            multiset(r) == multiset(rows) && (r[i].instant < r[j].instant || (r[i].instant == r[j].instant && r[i].id <= r[j].id))
  {
    RowLeIsPreorder<C>();
    Sorting.SortSorted(RowLe(), rows);
    assert RowLe<C>()(Ordered(rows)[i], Ordered(rows)[j]);
  }

  lemma SortedMiddle<C>(s: seq<Row<C>>, row: Row<C>, k: nat)
    requires Sorting.Sorted(RowLe(), s) && k <= |s|
    requires forall i :: 0 <= i < k ==> KeyBelow(s[i], row)
    requires forall i :: k <= i < |s| ==> KeyBelow(row, s[i])
    ensures Sorting.Sorted(RowLe(), s[..k] + [row] + s[k..])
    ensures multiset(s[..k] + [row] + s[k..]) == multiset(s) + multiset{row}
  {
    assert s == s[..k] + s[k..];
    assert multiset(s) == multiset(s[..k]) + multiset(s[k..]);
  }

  /** A new row stands between the rows below it and the rows above it. */
  lemma OrderedAppend<C(!new)>(rows: seq<Row<C>>, row: Row<C>, k: nat)
    requires UniqueIds(rows + [row]) && k <= |rows|
    requires forall i :: 0 <= i < k ==> KeyBelow(Ordered(rows)[i], row)
    requires forall i :: k <= i < |rows| ==> KeyBelow(row, Ordered(rows)[i])
    ensures Ordered(rows + [row]) == Ordered(rows)[..k] + [row] + Ordered(rows)[k..]
  {
    var s := Ordered(rows);
    RowLeIsPreorder<C>();
    Sorting.SortSorted(RowLe(), rows);
    SortedMiddle(s, row, k);
    Sorting.SortIs(RowLe(), rows + [row], s[..k] + [row] + s[k..]);
  }

  /** Where a row with a new id belongs in the order of the others. */
  lemma Position<C(!new)>(rows: seq<Row<C>>, row: Row<C>) returns (k: nat)
    requires UniqueIds(rows) && forall r :: r in rows ==> r.id != row.id
    ensures k <= |rows|
    ensures forall i :: 0 <= i < k ==> KeyBelow(Ordered(rows)[i], row)
    ensures forall i :: k <= i < |rows| ==> KeyBelow(row, Ordered(rows)[i])
  {
    var s := Ordered(rows);
    RowLeIsPreorder<C>();
    Sorting.SortSorted(RowLe(), rows);
    k := 0;
    while k < |s| && KeyBelow(s[k], row)
      invariant k <= |s|
      invariant forall i :: 0 <= i < k ==> KeyBelow(s[i], row)
    {
      k := k + 1;
    }
    forall i | k <= i < |s|
      ensures KeyBelow(row, s[i])
    {
      assert s[k] in s && s[i] in s;
      assert k < i ==> RowLe<C>()(s[k], s[i]);
    }
  }

  // ---------- Appending ----------

  ghost predicate GreatestKey<C>(rows: seq<Row<C>>, row: Row<C>) {
    forall r :: r in rows ==> KeyBelow(r, row)
  }

  /** The links before the insertion point are not disturbed. */
  lemma PrefixLinks<C>(rowHash: RowHash<C>, genesis: JsString, s: seq<Row<C>>, row: Row<C>, k: nat)
    requires Chained(rowHash, genesis, s) && k <= |s|
    ensures var t := s[..k] + [row] + s[k..];
            && (forall i :: 0 <= i < k ==> LinkOk(rowHash, genesis, t, i))
            && t[k] == row
            && Expected(genesis, t, k) == Expected(genesis, s, k)
  {
    var t := s[..k] + [row] + s[k..];
    forall i | 0 <= i < k
      ensures LinkOk(rowHash, genesis, t, i)
    {
      assert LinkOk(rowHash, genesis, s, i);
      assert t[i] == s[i] && (i > 0 ==> t[i - 1] == s[i - 1]);
    }
    assert k > 0 ==> t[k - 1] == s[k - 1];
  }

  lemma ChainedSnoc<C>(rowHash: RowHash<C>, genesis: JsString, s: seq<Row<C>>, row: Row<C>)
    requires Chained(rowHash, genesis, s) && row.prevHash == LastHash(genesis, s)
    ensures Chained(rowHash, genesis, s + [row]) <==> row.hash == rowHash(row)
    ensures row.hash != rowHash(row) ==> FirstBroken(rowHash, genesis, s + [row], |s|)
  {
    var t := s + [row];
    assert s[..|s|] + [row] + s[|s|..] == t;
    PrefixLinks(rowHash, genesis, s, row, |s|);
    assert LinkOk(rowHash, genesis, t, |s|) <==> row.hash == rowHash(row);
  }

  lemma OrderedLast<C(!new)>(rows: seq<Row<C>>, row: Row<C>)
    requires UniqueIds(rows + [row]) && GreatestKey(rows, row)
    ensures Ordered(rows + [row]) == Ordered(rows) + [row]
  {
    var s := Ordered(rows);
    forall i | 0 <= i < |s|
      ensures KeyBelow(s[i], row)
    {
      assert s[i] in rows;
    }
    OrderedAppend(rows, row, |rows|);
    assert s[..|s|] + [row] + s[|s|..] == s + [row];
  }

  /** A row that comes last and continues the last hash only has to carry its own hash. */
  lemma AppendLast<C(!new)>(rowHash: RowHash<C>, genesis: JsString, rows: seq<Row<C>>, row: Row<C>)
    requires UniqueIds(rows + [row]) && GreatestKey(rows, row)
    requires Chained(rowHash, genesis, Ordered(rows)) && row.prevHash == LastHash(genesis, Ordered(rows))
    ensures Ordered(rows + [row])[|rows|] == row
    ensures Chained(rowHash, genesis, Ordered(rows + [row])) <==> row.hash == rowHash(row)
    ensures row.hash != rowHash(row) ==> FirstBroken(rowHash, genesis, Ordered(rows + [row]), |rows|)
  {
    OrderedLast(rows, row);
    ChainedSnoc(rowHash, genesis, Ordered(rows), row);
  }

  lemma LastHashIsNew<C>(rowHash: RowHash<C>, genesis: JsString, same: (Row<C>, Row<C>) -> bool, s: seq<Row<C>>, k: nat)
    requires Chained(rowHash, genesis, s) && Binding(rowHash, same, s) && GenesisIsNoHash(genesis, s) && k < |s|
    ensures Expected(genesis, s, k) != LastHash(genesis, s)
  {
    if k > 0 {
      HashesDistinct(rowHash, genesis, same, s, k - 1, |s| - 1);
    }
  }

  lemma ChainBrokenAt<C>(rowHash: RowHash<C>, genesis: JsString, same: (Row<C>, Row<C>) -> bool,
                         s: seq<Row<C>>, row: Row<C>, k: nat)
    requires Chained(rowHash, genesis, s) && row.prevHash == LastHash(genesis, s) && k < |s|
    requires Binding(rowHash, same, s) && GenesisIsNoHash(genesis, s)
    ensures var t := s[..k] + [row] + s[k..]; FirstBroken(rowHash, genesis, t, k) && t[k] == row
  {
    PrefixLinks(rowHash, genesis, s, row, k);
    LastHashIsNew(rowHash, genesis, same, s, k);
  }

  lemma OrderedBinding<C(!new)>(rowHash: RowHash<C>, genesis: JsString, same: (Row<C>, Row<C>) -> bool, rows: seq<Row<C>>)
    requires Binding(rowHash, same, rows) && GenesisIsNoHash(genesis, rows)
    ensures Binding(rowHash, same, Ordered(rows)) && GenesisIsNoHash(genesis, Ordered(rows))
  {
    BindingSubset(rowHash, same, rows, Ordered(rows));
  }

  /** A row that continues the last hash from further up the chain breaks it there. */
  lemma AppendMisplaced<C(!new)>(rowHash: RowHash<C>, genesis: JsString, same: (Row<C>, Row<C>) -> bool,
                                 rows: seq<Row<C>>, row: Row<C>, k: nat)
    requires UniqueIds(rows + [row]) && k < |rows|
    requires Chained(rowHash, genesis, Ordered(rows)) && row.prevHash == LastHash(genesis, Ordered(rows))
    requires Binding(rowHash, same, rows) && GenesisIsNoHash(genesis, rows)
    requires forall i :: 0 <= i < k ==> KeyBelow(Ordered(rows)[i], row)
    requires forall i :: k <= i < |rows| ==> KeyBelow(row, Ordered(rows)[i])
    ensures FirstBroken(rowHash, genesis, Ordered(rows + [row]), k) && Ordered(rows + [row])[k] == row
  {
    OrderedAppend(rows, row, k);
    OrderedBinding(rowHash, genesis, same, rows);
    ChainBrokenAt(rowHash, genesis, same, Ordered(rows), row, k);
  }

  /**
   A row that continues the last hash keeps the chain exactly when it comes last and carries its own
   hash; otherwise it is itself the first broken row.
   */
  lemma AppendVerdict<C(!new)>(rowHash: RowHash<C>, genesis: JsString, same: (Row<C>, Row<C>) -> bool,
                               rows: seq<Row<C>>, row: Row<C>)
    requires UniqueIds(rows) && (forall r :: r in rows ==> r.id != row.id)
    requires Chained(rowHash, genesis, Ordered(rows)) && row.prevHash == LastHash(genesis, Ordered(rows))
    requires Binding(rowHash, same, rows) && GenesisIsNoHash(genesis, rows)
    ensures Chained(rowHash, genesis, Ordered(rows + [row])) <==> GreatestKey(rows, row) && row.hash == rowHash(row)
    ensures !Chained(rowHash, genesis, Ordered(rows + [row])) ==>
              exists k: nat :: FirstBroken(rowHash, genesis, Ordered(rows + [row]), k) && Ordered(rows + [row])[k] == row
  {
    var k := Position(rows, row);
    if k < |rows| {
      assert Ordered(rows)[k] in rows;
      AppendMisplaced(rowHash, genesis, same, rows, row, k);
      assert !LinkOk(rowHash, genesis, Ordered(rows + [row]), k);
    } else {
      forall r | r in rows
        ensures KeyBelow(r, row)
      {
        assert r in Ordered(rows);
      }
      AppendLast(rowHash, genesis, rows, row);
    }
  }
}
