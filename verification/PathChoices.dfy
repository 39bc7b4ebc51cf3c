/**
 What a dotted path of packages/core/knowledge-base/form-taxonomy.ts finds in a value, said without
 a walk: a path picks a property for each segment and, at a segment ending in `[]` whose property is
 an array, one of its elements. The values it finds are those that some choice of elements leads to,
 in the order of the choices.
 */
module PathChoices {
  import opened Wrappers
  import opened JsStrings
  import opened Json
  import opened FieldPaths

  // ---------- Segments and properties ----------

  /** The path is these segments with a dot between each two, and no segment has a dot. */
  predicate JoinedBy(path: JsString, segments: seq<JsString>, dot: CodeUnit) {
    segments != [] && dot !in segments[0] &&
    if |segments| == 1 then path == segments[0]
    else
      && segments[0] + [dot] <= path
      && JoinedBy(path[|segments[0]| + 1..], segments[1..], dot)
  }

  lemma {:induction false} SplitIsJoined(path: JsString, dot: CodeUnit)
    ensures JoinedBy(path, Split(path, dot), dot)
  {
    var segments := Split(path, dot);
    if path == [] {
    } else {
      var tail := Split(path[1..], dot);
      SplitIsJoined(path[1..], dot);
      if path[0] == dot {
        assert segments[1..] == tail;
      } else if |tail| == 1 {
        assert path == [path[0]] + path[1..];
      } else {
        assert segments[1..] == tail[1..];
        assert path[|segments[0]| + 1..] == path[1..][|tail[0]| + 1..];
        assert path == [path[0]] + path[1..];
      }
    }
  }

  /** The key a segment names, and whether it ends in `[]`. */
  ghost predicate Names(segment: JsString, key: JsString, expands: bool) {
    if expands then segment == key + Text("[]") else segment == key && forall k: JsString :: segment != k + Text("[]")
  }

  lemma NamesKey(segment: JsString, key: JsString, expands: bool)
    ensures Names(segment, key, expands) <==> key == KeyOf(segment) && expands == Expands(segment)
  {
    var brackets := Text("[]");
    assert brackets == [0x5B, 0x5D];
    if Expands(segment) {
      assert segment == segment[..|segment| - 2] + brackets;
    }
    if segment == key + brackets {
      assert key == segment[..|segment| - 2];
    }
  }

  /** `p` is the property of `node` under `key`: a field, an element, or the length of an array. */
  ghost predicate HasProperty(node: Json, key: JsString, p: Json) {
    match node
    case Obj(fields) =>
      exists i :: 0 <= i < |fields| && fields[i] == Field(key, p) && forall j :: 0 <= j < i ==> fields[j].key != key
    case Arr(items) =>
      || (key == Text("length") && p == Num(Decimal(|items|)))
      || exists i :: 0 <= i < |items| && key == Decimal(i) && p == items[i]
    case _ => false
  }

  lemma {:induction false} FirstField(fields: seq<Field>, i: nat)
    requires i < |fields| && forall j :: 0 <= j < i ==> fields[j].key != fields[i].key
    ensures fields[i].key in Keys(fields) && Lookup(fields, fields[i].key) == fields[i].value
  {
    assert Keys(fields)[i] == fields[i].key;
    if i == 0 {
    } else {
      FirstField(fields[1..], i - 1);
    }
  }

  lemma {:induction false} FieldOf(fields: seq<Field>, key: JsString) returns (i: nat)
    requires key in Keys(fields)
    ensures i < |fields| && fields[i].key == key && forall j :: 0 <= j < i ==> fields[j].key != key
  {
    if fields[0].key == key {
      i := 0;
    } else {
      var k :| 0 <= k < |fields| && Keys(fields)[k] == key;
      assert Keys(fields[1..])[k - 1] == key;
      i := FieldOf(fields[1..], key);
      i := i + 1;
    }
  }

  lemma ObjectProperty(fields: seq<Field>, key: JsString, p: Json)
    ensures HasProperty(Obj(fields), key, p) <==> key in Keys(fields) && Lookup(fields, key) == p
  {
    if key in Keys(fields) {
      var i := FieldOf(fields, key);
      FirstField(fields, i);
      assert fields[i] == Field(key, Lookup(fields, key));
    }
    if HasProperty(Obj(fields), key, p) {
      var i :| 0 <= i < |fields| && fields[i] == Field(key, p) && forall j :: 0 <= j < i ==> fields[j].key != key;
      FirstField(fields, i);
    }
  }

  lemma LengthIsNoIndex()
    ensures LENGTH == Text("length") && IndexOf(LENGTH) == None
  {
    assert !IsDigit(LENGTH[0]);
  }

  lemma ArrayProperty(items: seq<Json>, key: JsString, p: Json)
    ensures HasProperty(Arr(items), key, p) <==> Get(Arr(items), key) == Some(p)
  {
    LengthIsNoIndex();
    forall i: nat
      ensures IndexOf(Decimal(i)) == Some(i)
    {
      DecimalIsIndex(i);
    }
    if IndexOf(key).Some? {
      IndexIsDecimal(key);
    }
  }

  lemma PropertyIsGet(node: Json, key: JsString, p: Json)
    ensures HasProperty(node, key, p) <==> Get(node, key) == Some(p)
  {
    match node
    case Obj(fields) => ObjectProperty(fields, key, p);
    case Arr(items) => ArrayProperty(items, key, p);
    case _ =>
  }

  // ---------- Choices ----------

  /** What a segment picks at a node: choice `i` of the elements, or the property itself as choice 0. */
  ghost predicate Picks(node: Json, segment: JsString, i: nat, child: Json) {
    exists key, expands, p :: Names(segment, key, expands) && HasProperty(node, key, p) &&
      if expands && p.Arr? then i < |p.items| && child == p.items[i] else i == 0 && child == p
  }

  /** The path leads from `node` to `x` by these choices, one for each segment. */
  ghost predicate Leads(node: Json, segments: seq<JsString>, choice: seq<nat>, x: Json)
    decreases |segments|
  {
    if segments == [] || choice == [] then segments == [] && choice == [] && x == node
    else exists child :: Picks(node, segments[0], choice[0], child) && Leads(child, segments[1..], choice[1..], x)
  }

  ghost predicate Earlier(a: seq<nat>, b: seq<nat>) {
    exists k :: 0 <= k < |a| && k < |b| && a[..k] == b[..k] && a[k] < b[k]
  }

  ghost predicate Ascending(choices: seq<seq<nat>>) {
    forall i, j :: 0 <= i < j < |choices| ==> Earlier(choices[i], choices[j])
  }

  /** The choices and what they lead to, earlier choices first, and no choice left out. */
  ghost predicate Lists(node: Json, segments: seq<JsString>, choices: seq<seq<nat>>, values: seq<Json>) {
    && |choices| == |values|
    && (forall i :: 0 <= i < |choices| ==> Leads(node, segments, choices[i], values[i]))
    && Ascending(choices)
    && forall choice, x :: Leads(node, segments, choice, x) ==> choice in choices
  }

  /** `values` is what the path finds at `node`, in order. */
  ghost predicate Finds(node: Json, segments: seq<JsString>, values: seq<Json>) {
    exists choices :: Lists(node, segments, choices, values)
  }

  lemma PicksChild(node: Json, segment: JsString, i: nat, child: Json)
    ensures Picks(node, segment, i, child) <==> i < |Children(node, segment)| && Children(node, segment)[i] == child
  {
    var key, expands := KeyOf(segment), Expands(segment);
    NamesKey(segment, key, expands);
    if Picks(node, segment, i, child) {
      var k, e, p :| Names(segment, k, e) && HasProperty(node, k, p) &&
        if e && p.Arr? then i < |p.items| && child == p.items[i] else i == 0 && child == p;
      NamesKey(segment, k, e);
      PropertyIsGet(node, k, p);
    }
    if Get(node, key).Some? {
      PropertyIsGet(node, key, Get(node, key).value);
    }
  }

  // ---------- The walk lists the choices ----------

  /** Put `k` in front of every choice. */
  function After(k: nat, choices: seq<seq<nat>>): (r: seq<seq<nat>>)
    ensures |r| == |choices| && forall i :: 0 <= i < |choices| ==> r[i] == [k] + choices[i]
  {
    seq(|choices|, i requires 0 <= i < |choices| => [k] + choices[i])
  }

  function Choices(node: Json, segments: seq<JsString>): (r: seq<seq<nat>>)
    decreases |segments|, 0
  {
    if segments == [] then [[]] else ChoicesFrom(Children(node, segments[0]), 0, segments[1..])
  }

  /** The choices at the nodes from the `k`-th on. */
  function ChoicesFrom(nodes: seq<Json>, k: nat, segments: seq<JsString>): (r: seq<seq<nat>>)
    requires k <= |nodes|
    decreases |segments|, 1, |nodes| - k
  {
    if k == |nodes| then [] else After(k, Choices(nodes[k], segments)) + ChoicesFrom(nodes, k + 1, segments)
  }

  lemma ResolveAllFrom(nodes: seq<Json>, k: nat, segments: seq<JsString>)
    requires k < |nodes|
    ensures ResolveAll(nodes[k..], segments) == Resolve(nodes[k], segments) + ResolveAll(nodes[k + 1..], segments)
  {
    assert nodes[k..][1..] == nodes[k + 1..];
  }

  lemma LeadsFirst(node: Json, segments: seq<JsString>, choice: seq<nat>, x: Json)
    requires segments != []
    ensures Leads(node, segments, choice, x) <==>
            choice != [] && choice[0] < |Children(node, segments[0])|
            && Leads(Children(node, segments[0])[choice[0]], segments[1..], choice[1..], x)
  {
    if choice != [] {
      var children := Children(node, segments[0]);
      if choice[0] < |children| {
        PicksChild(node, segments[0], choice[0], children[choice[0]]);
      }
      if Leads(node, segments, choice, x) {
        var child :| Picks(node, segments[0], choice[0], child) && Leads(child, segments[1..], choice[1..], x);
        PicksChild(node, segments[0], choice[0], child);
      }
    }
  }

  /** `Lists` for several nodes, the first choice saying which, from `k` on. */
  ghost predicate ListsFrom(nodes: seq<Json>, k: nat, segments: seq<JsString>, choices: seq<seq<nat>>, values: seq<Json>) {
    && |choices| == |values|
    && (forall i :: 0 <= i < |choices| ==>
          choices[i] != [] && k <= choices[i][0] < |nodes| && Leads(nodes[choices[i][0]], segments, choices[i][1..], values[i]))
    && Ascending(choices)
    && forall m: nat, choice, x :: k <= m < |nodes| && Leads(nodes[m], segments, choice, x) ==> [m] + choice in choices
  }

  lemma EarlierBehind(k: nat, a: seq<nat>, b: seq<nat>)
    requires Earlier(a, b)
    ensures Earlier([k] + a, [k] + b)
  {
    var i :| 0 <= i < |a| && i < |b| && a[..i] == b[..i] && a[i] < b[i];
    assert ([k] + a)[..i + 1] == [k] + a[..i] && ([k] + b)[..i + 1] == [k] + b[..i];
    assert ([k] + a)[i + 1] == a[i] && ([k] + b)[i + 1] == b[i];
  }

  lemma EarlierHead(a: seq<nat>, b: seq<nat>)
    requires a != [] && b != [] && a[0] < b[0]
    ensures Earlier(a, b)
  {
    assert a[..0] == b[..0];
  }

  lemma LeadsStep(nodes: seq<Json>, k: nat, segments: seq<JsString>, choices: seq<seq<nat>>, values: seq<Json>,
                  moreChoices: seq<seq<nat>>, moreValues: seq<Json>, i: nat)
    requires k < |nodes| && Lists(nodes[k], segments, choices, values) && i < |choices + moreChoices|
    requires ListsFrom(nodes, k + 1, segments, moreChoices, moreValues)
    ensures var choice := (After(k, choices) + moreChoices)[i];
            && choice != [] && k <= choice[0] < |nodes|
            && Leads(nodes[choice[0]], segments, choice[1..], (values + moreValues)[i])
  {
    if i < |choices| {
      assert ([k] + choices[i])[1..] == choices[i];
    } else {
      assert (values + moreValues)[i] == moreValues[i - |choices|];
    }
  }

  lemma AscendingStep(k: nat, choices: seq<seq<nat>>, more: seq<seq<nat>>)
    requires Ascending(choices) && Ascending(more) && forall i :: 0 <= i < |more| ==> more[i] != [] && k < more[i][0]
    ensures Ascending(After(k, choices) + more)
  {
    var n, all := |choices|, After(k, choices) + more;
    forall i, j | 0 <= i < j < |all|
      ensures Earlier(all[i], all[j])
    {
      if j < n {
        EarlierBehind(k, choices[i], choices[j]);
      } else if i < n {
        EarlierHead(all[i], all[j]);
      } else {
        assert Earlier(more[i - n], more[j - n]);
      }
    }
  }

  lemma AllStep(nodes: seq<Json>, k: nat, segments: seq<JsString>, choices: seq<seq<nat>>, values: seq<Json>,
                moreChoices: seq<seq<nat>>, moreValues: seq<Json>, m: nat, choice: seq<nat>, x: Json)
    requires k <= m < |nodes| && Lists(nodes[k], segments, choices, values)
    requires ListsFrom(nodes, k + 1, segments, moreChoices, moreValues) && Leads(nodes[m], segments, choice, x)
    ensures [m] + choice in After(k, choices) + moreChoices
  {
    if m == k {
      var i :| 0 <= i < |choices| && choices[i] == choice;
      assert (After(k, choices) + moreChoices)[i] == [m] + choice;
    } else {
      assert [m] + choice in moreChoices;
    }
  }

  lemma ListsFromStep(nodes: seq<Json>, k: nat, segments: seq<JsString>, choices: seq<seq<nat>>, values: seq<Json>,
                      moreChoices: seq<seq<nat>>, moreValues: seq<Json>)
    requires k < |nodes| && Lists(nodes[k], segments, choices, values)
    requires ListsFrom(nodes, k + 1, segments, moreChoices, moreValues)
    ensures ListsFrom(nodes, k, segments, After(k, choices) + moreChoices, values + moreValues)
  {
    var all := After(k, choices) + moreChoices;
    forall i | 0 <= i < |all|
      ensures all[i] != [] && k <= all[i][0] < |nodes|
      ensures Leads(nodes[all[i][0]], segments, all[i][1..], (values + moreValues)[i])
    {
      LeadsStep(nodes, k, segments, choices, values, moreChoices, moreValues, i);
    }
    AscendingStep(k, choices, moreChoices);
    forall m: nat, choice, x | k <= m < |nodes| && Leads(nodes[m], segments, choice, x)
      ensures [m] + choice in all
    {
      AllStep(nodes, k, segments, choices, values, moreChoices, moreValues, m, choice, x);
    }
  }

  lemma {:induction false} ResolveLists(node: Json, segments: seq<JsString>)
    ensures Lists(node, segments, Choices(node, segments), Resolve(node, segments))
    decreases |segments|, 0
  {
    var choices, values := Choices(node, segments), Resolve(node, segments);
    if segments == [] {
      assert choices[0] == [];
    } else {
      var children := Children(node, segments[0]);
      ResolveListsFrom(children, 0, segments[1..]);
      assert children[0..] == children;
      forall i | 0 <= i < |choices|
        ensures Leads(node, segments, choices[i], values[i])
      {
        LeadsFirst(node, segments, choices[i], values[i]);
      }
      forall choice, x | Leads(node, segments, choice, x)
        ensures choice in choices
      {
        LeadsFirst(node, segments, choice, x);
        assert choice == [choice[0]] + choice[1..];
      }
    }
  }

  lemma {:induction false} ResolveListsFrom(nodes: seq<Json>, k: nat, segments: seq<JsString>)
    requires k <= |nodes|
    ensures ListsFrom(nodes, k, segments, ChoicesFrom(nodes, k, segments), ResolveAll(nodes[k..], segments))
    decreases |segments|, 1, |nodes| - k
  {
    if k == |nodes| {
    } else {
      ResolveLists(nodes[k], segments);
      ResolveListsFrom(nodes, k + 1, segments);
      ResolveAllFrom(nodes, k, segments);
      ListsFromStep(nodes, k, segments, Choices(nodes[k], segments), Resolve(nodes[k], segments),
                    ChoicesFrom(nodes, k + 1, segments), ResolveAll(nodes[k + 1..], segments));
    }
  }

  // ---------- There is one such list ----------

  lemma {:induction false} LeadsToOne(node: Json, segments: seq<JsString>, choice: seq<nat>, x: Json, y: Json)
    requires Leads(node, segments, choice, x) && Leads(node, segments, choice, y)
    ensures x == y
    decreases |segments|
  {
    if segments == [] {
    } else {
      LeadsFirst(node, segments, choice, x);
      LeadsFirst(node, segments, choice, y);
      LeadsToOne(Children(node, segments[0])[choice[0]], segments[1..], choice[1..], x, y);
    }
  }

  lemma DifferOnce(a: seq<nat>, b: seq<nat>, k: nat, m: nat)
    requires k < |a| && k < |b| && a[..k] == b[..k] && a[k] != b[k]
    requires m < |a| && m < |b| && a[..m] == b[..m] && a[m] != b[m]
    ensures k == m
  {
    assert forall i :: 0 <= i < k ==> a[..k][i] == b[..k][i];
    assert forall i :: 0 <= i < m ==> a[..m][i] == b[..m][i];
  }

  lemma NotEarlierBoth(a: seq<nat>, b: seq<nat>)
    requires Earlier(a, b)
    ensures !Earlier(b, a) && a != b
  {
    var k :| 0 <= k < |a| && k < |b| && a[..k] == b[..k] && a[k] < b[k];
    if Earlier(b, a) {
      var m :| 0 <= m < |b| && m < |a| && b[..m] == a[..m] && b[m] < a[m];
      DifferOnce(a, b, k, m);
    }
  }

  lemma SameFirst(a: seq<seq<nat>>, b: seq<seq<nat>>)
    requires Ascending(a) && Ascending(b) && a != [] && forall c :: c in a <==> c in b
    ensures b != [] && a[0] == b[0]
  {
    assert a[0] in b;
    var i :| 0 <= i < |b| && b[i] == a[0];
    assert b[0] in a;
    var j :| 0 <= j < |a| && a[j] == b[0];
    if i > 0 && j > 0 {
      NotEarlierBoth(a[0], a[j]);
    }
  }

  lemma {:induction false} SameChoices(a: seq<seq<nat>>, b: seq<seq<nat>>)
    requires Ascending(a) && Ascending(b) && forall c :: c in a <==> c in b
    ensures a == b
  {
    if a != [] {
      SameFirst(a, b);
      forall c
        ensures c in a[1..] <==> c in b[1..]
      {
        InTail(a, c);
        InTail(b, c);
      }
      SameChoices(a[1..], b[1..]);
      assert a == [a[0]] + a[1..] && b == [b[0]] + b[1..];
    } else if b != [] {
      SameFirst(b, a);
    }
  }

  lemma InTail(a: seq<seq<nat>>, c: seq<nat>)
    requires Ascending(a) && a != []
    ensures c in a[1..] <==> c in a && c != a[0]
  {
    if c in a[1..] {
      var i :| 0 <= i < |a| - 1 && a[1..][i] == c;
      NotEarlierBoth(a[0], a[i + 1]);
    }
  }

  /** A path finds one list of values. */
  lemma FindsOneList(node: Json, segments: seq<JsString>, values: seq<Json>)
    ensures Finds(node, segments, values) <==> values == Resolve(node, segments)
  {
    ResolveLists(node, segments);
    if Finds(node, segments, values) {
      var choices :| Lists(node, segments, choices, values);
      var walked, found := Choices(node, segments), Resolve(node, segments);
      SameChoices(choices, walked);
      forall i | 0 <= i < |values|
        ensures values[i] == found[i]
      {
        LeadsToOne(node, segments, choices[i], values[i], found[i]);
      }
    }
  }

  /** The path leads to the value by some choice of elements. */
  ghost predicate Found(node: Json, segments: seq<JsString>, x: Json) {
    exists choice :: Leads(node, segments, choice, x)
  }

  lemma FoundIsResolved(node: Json, segments: seq<JsString>, x: Json)
    ensures Found(node, segments, x) <==> x in Resolve(node, segments)
  {
    var choices, values := Choices(node, segments), Resolve(node, segments);
    ResolveLists(node, segments);
    if Found(node, segments, x) {
      var choice :| Leads(node, segments, choice, x);
      var i :| 0 <= i < |choices| && choices[i] == choice;
      LeadsToOne(node, segments, choice, x, values[i]);
    }
    if x in values {
      var i :| 0 <= i < |values| && values[i] == x;
      assert Leads(node, segments, choices[i], values[i]);
    }
  }
}
