/**
 The hash-chained audit log: the hash preimage of packages/core/audit.ts, the writer of
 apps/server/src/policies/audit-service.ts and the verify loop of apps/server/src/api/audit.ts.

 SHA-256 stays abstract. Where a theorem needs it, the hypothesis is that no two of the preimages
 at hand collide, never that the hash is injective on all texts.
 */
module AuditLog {
  import opened Wrappers
  import opened JsStrings
  import opened Json
  import opened CanonicalJson
  import JsonParser
  import opened HashChain

  /** The fields of an event that are hashed. */
  datatype Payload = Payload(
    actorId: JsString, action: JsString, entityType: JsString, entityId: JsString,
    before: Json, after: Json, ts: JsString)

  datatype Event = Event(payload: Payload, ip: Option<JsString>, userAgent: Option<JsString>)

  /** The columns of audit_events beside its id, timestamp and hashes. */
  datatype Content = Content(
    actorId: JsString, action: JsString, entityType: JsString, entityId: JsString,
    before: Json, after: Json, ip: Option<JsString>, userAgent: Option<JsString>)

  type Row = HashChain.Row<Content>

  /**
   What the log relies on: the hexadecimal SHA-256 of a text's UTF-8 bytes, PostgreSQL's reading of
   a timestamp and of a JSONB value (either may reject), `Date.prototype.toISOString`, and the
   genesis hash.
   */
  datatype Platform = Platform(
    sha256Hex: JsString -> JsString,
    instantOf: JsString -> Option<int>,
    isoOf: int -> JsString,
    jsonb: Json -> Option<Json>,
    genesis: JsString)

  ghost predicate NoBrace(s: JsString) {
    OPEN_BRACE !in s
  }

  /** Hashes are hexadecimal, and JSONB keeps a value up to the order of its keys. */
  ghost predicate Sound(p: Platform) {
    && NoBrace(p.genesis)
    && (forall text :: NoBrace(p.sha256Hex(text)))
    && forall v: Json :: Valid(v) && p.jsonb(v).Some? ==> Valid(p.jsonb(v).value) && Equivalent(v, p.jsonb(v).value)
  }

  // ---------- The preimage of a row's hash ----------

  const ACTOR_ID: JsString := [OPEN_BRACE] + Text("\"actor_id\":")
  const ACTION: JsString := Text(",\"action\":")
  const ENTITY_TYPE: JsString := Text(",\"entity_type\":")
  const ENTITY_ID: JsString := Text(",\"entity_id\":")
  const BEFORE: JsString := Text(",\"before\":")
  const AFTER: JsString := [COMMA] + Text("\"after\":")
  const TS: JsString := [COMMA] + Text("\"ts\":")

  /** The JSON object that `computeAuditHash` builds by hand. */
  function Body(p: Payload): (r: JsString) {
    ACTOR_ID + (Quote(p.actorId) + (ACTION + (Quote(p.action) + (ENTITY_TYPE + (Quote(p.entityType) +
    (ENTITY_ID + (Quote(p.entityId) + (BEFORE + (Canonical(p.before) + BodyAfter(p))))))))))
  }

  function BodyAfter(p: Payload): (r: JsString) {
    AFTER + (Canonical(p.after) + (TS + (Quote(p.ts) + [CLOSE_BRACE])))
  }

  function Preimage(prevHash: JsString, p: Payload): (r: JsString) {
    prevHash + Body(p)
  }

  ghost predicate ValidPayload(p: Payload) {
    Valid(p.before) && Valid(p.after)
  }

  /** Equal but for the order of object keys in `before` and `after`. */
  ghost predicate SamePayload(p: Payload, q: Payload) {
    && p.actorId == q.actorId && p.action == q.action
    && p.entityType == q.entityType && p.entityId == q.entityId && p.ts == q.ts
    && Equivalent(p.before, q.before) && Equivalent(p.after, q.after)
  }

  lemma Cancel(a: JsString, x: JsString, y: JsString)
    requires a + x == a + y
    ensures x == y
  {
    assert x == (a + x)[|a|..] && y == (a + y)[|a|..];
  }

  /** Reads a label and the quoted string behind it off the front of both texts. */
  lemma CancelQuoted(tag: JsString, x: JsString, restX: JsString, y: JsString, restY: JsString)
    requires tag + (Quote(x) + restX) == tag + (Quote(y) + restY)
    ensures x == y && restX == restY
  {
    Cancel(tag, Quote(x) + restX, Quote(y) + restY);
    JsonParser.QuotePrefixFree(x, restX, y, restY);
  }

  lemma CancelCanonical(tag: JsString, v: Json, restV: JsString, w: Json, restW: JsString)
    requires Valid(v) && Valid(w) && JsonParser.Delimited(restV) && JsonParser.Delimited(restW)
    requires tag + (Canonical(v) + restV) == tag + (Canonical(w) + restW)
    ensures Equivalent(v, w) && restV == restW
  {
    Cancel(tag, Canonical(v) + restV, Canonical(w) + restW);
    JsonParser.CanonicalPrefixFree(v, restV, w, restW);
  }

  lemma BodyAfterDecodable(p: Payload, q: Payload)
    requires ValidPayload(p) && ValidPayload(q) && BodyAfter(p) == BodyAfter(q)
    ensures Equivalent(p.after, q.after) && p.ts == q.ts
  {
    var tsP, tsQ := TS + (Quote(p.ts) + [CLOSE_BRACE]), TS + (Quote(q.ts) + [CLOSE_BRACE]);
    CancelCanonical(AFTER, p.after, tsP, q.after, tsQ);
    CancelQuoted(TS, p.ts, [CLOSE_BRACE], q.ts, [CLOSE_BRACE]);
  }

  lemma BodyDecodable(p: Payload, q: Payload)
    requires ValidPayload(p) && ValidPayload(q) && Body(p) == Body(q)
    ensures SamePayload(p, q)
  {
    var p4, q4 := BEFORE + (Canonical(p.before) + BodyAfter(p)), BEFORE + (Canonical(q.before) + BodyAfter(q));
    var p3, q3 := ENTITY_ID + (Quote(p.entityId) + p4), ENTITY_ID + (Quote(q.entityId) + q4);
    var p2, q2 := ENTITY_TYPE + (Quote(p.entityType) + p3), ENTITY_TYPE + (Quote(q.entityType) + q3);
    var p1, q1 := ACTION + (Quote(p.action) + p2), ACTION + (Quote(q.action) + q2);
    CancelQuoted(ACTOR_ID, p.actorId, p1, q.actorId, q1);
    CancelQuoted(ACTION, p.action, p2, q.action, q2);
    CancelQuoted(ENTITY_TYPE, p.entityType, p3, q.entityType, q3);
    CancelQuoted(ENTITY_ID, p.entityId, p4, q.entityId, q4);
    CancelCanonical(BEFORE, p.before, BodyAfter(p), q.before, BodyAfter(q));
    BodyAfterDecodable(p, q);
  }

  lemma SameBody(p: Payload, q: Payload)
    requires ValidPayload(p) && ValidPayload(q) && SamePayload(p, q)
    ensures Body(p) == Body(q)
  {
    JsonParser.CanonicalIffEquivalent(p.before, q.before);
    JsonParser.CanonicalIffEquivalent(p.after, q.after);
  }

  lemma BraceAfter(h: JsString, x: JsString)
    requires NoBrace(h) && x != [] && x[0] == OPEN_BRACE
    ensures (h + x)[|h|] == OPEN_BRACE
    ensures forall i :: 0 <= i < |h| ==> (h + x)[i] != OPEN_BRACE
  {
  }

  lemma SplitAtBrace(h: JsString, x: JsString, g: JsString, y: JsString)
    requires NoBrace(h) && NoBrace(g) && x != [] && y != [] && x[0] == OPEN_BRACE && y[0] == OPEN_BRACE
    requires h + x == g + y
    ensures h == g && x == y
  {
    BraceAfter(h, x);
    BraceAfter(g, y);
    assert |h| == |g|;
    assert h == (h + x)[..|h|] && g == (g + y)[..|g|];
    Cancel(h, x, y);
  }

  /** A preimage determines the previous hash and the payload, up to key order, and no more. */
  lemma PreimageDecodable(h: JsString, p: Payload, g: JsString, q: Payload)
    requires NoBrace(h) && NoBrace(g) && ValidPayload(p) && ValidPayload(q)
    ensures Preimage(h, p) == Preimage(g, q) <==> h == g && SamePayload(p, q)
  {
    if Preimage(h, p) == Preimage(g, q) {
      SplitAtBrace(h, Body(p), g, Body(q));
      BodyDecodable(p, q);
    }
    if SamePayload(p, q) {
      SameBody(p, q);
    }
  }

  // ---------- The writer and the verifier ----------

  /** What the verifier hashes for a row: its stored columns, with the timestamp printed back. */
  function RowPayload(p: Platform, row: Row): (r: Payload) {
    var c := row.content;
    Payload(c.actorId, c.action, c.entityType, c.entityId, c.before, c.after, p.isoOf(row.instant))
  }

  function RowPreimage(p: Platform, row: Row): (r: JsString) {
    Preimage(row.prevHash, RowPayload(p, row))
  }

  function Hasher(p: Platform): RowHash<Content> {
    (row: Row) => p.sha256Hex(RowPreimage(p, row))
  }

  /** The log verifies. */
  ghost predicate Verifies(p: Platform, rows: seq<Row>) {
    Chained(Hasher(p), p.genesis, Ordered(rows))
  }

  /** `row` is the first row in (ts, id) order that does not verify. */
  ghost predicate FirstInvalid(p: Platform, rows: seq<Row>, row: Row) {
    exists i: nat :: FirstBroken(Hasher(p), p.genesis, Ordered(rows), i) && Ordered(rows)[i] == row
  }

  datatype Verdict = Intact | Broken(firstInvalidId: nat)

  /** The row `emitAuditEvent` inserts, unless PostgreSQL rejects one of its values. */
  function NewRow(p: Platform, rows: seq<Row>, id: nat, e: Event): (r: Option<Row>) {
    var q := e.payload;
    var instant, before, after := p.instantOf(q.ts), p.jsonb(q.before), p.jsonb(q.after);
    if instant.None? || before.None? || after.None? then
      None
    else
      var prevHash := LastHash(p.genesis, Ordered(rows));
      var content := Content(q.actorId, q.action, q.entityType, q.entityId, before.value, after.value, e.ip, e.userAgent);
      Some(Row.Row(id, instant.value, content, prevHash, p.sha256Hex(Preimage(prevHash, q))))
  }

  class AuditTable {
    const platform: Platform
    /** The rows of audit_events in the order they were inserted. */
    var rows: seq<Row>

    constructor (platform: Platform)
      ensures this.platform == platform && rows == []
    {
      this.platform := platform;
      rows := [];
    }

    /** `emitAuditEvent`: one serializable transaction; a rejected insert leaves the table alone. */
    method EmitAuditEvent(id: nat, event: Event) returns (inserted: Option<Row>)
      modifies this
      ensures inserted == NewRow(platform, old(rows), id, event)
      ensures rows == match inserted case Some(row) => old(rows) + [row] case None => old(rows)
      ensures inserted.None? <==>
                || platform.instantOf(event.payload.ts) == None
                || platform.jsonb(event.payload.before) == None || platform.jsonb(event.payload.after) == None
      ensures inserted.Some? ==>
                var row, p := inserted.value, event.payload;
                && row.id == id && platform.instantOf(p.ts) == Some(row.instant)
                && row.content.actorId == p.actorId && row.content.action == p.action
                && row.content.entityType == p.entityType && row.content.entityId == p.entityId
                && platform.jsonb(p.before) == Some(row.content.before)
                && platform.jsonb(p.after) == Some(row.content.after)
                && row.content.ip == event.ip && row.content.userAgent == event.userAgent
      ensures inserted.Some? ==>
                var row := inserted.value;
                && row.prevHash == (if old(rows) == [] then platform.genesis else Ordered(old(rows))[|old(rows)| - 1].hash)
                && row.hash == platform.sha256Hex(Preimage(row.prevHash, event.payload))
    {
      var payload := event.payload;
      var latestRows := Ordered(rows);
      var prevHash := if latestRows == [] then platform.genesis else latestRows[|latestRows| - 1].hash;
      var hash := platform.sha256Hex(Preimage(prevHash, payload));
      var instant := platform.instantOf(payload.ts);
      var before := platform.jsonb(payload.before);
      var after := platform.jsonb(payload.after);
      if instant.None? || before.None? || after.None? {
        return None;
      }
      var content := Content(payload.actorId, payload.action, payload.entityType, payload.entityId,
                             before.value, after.value, event.ip, event.userAgent);
      var row := Row.Row(id, instant.value, content, prevHash, hash);
      rows := rows + [row];
      return Some(row);
    }

    /** GET /api/audit/verify: an intact log, or the id of the first row that breaks the chain. */
    method Verify() returns (verdict: Verdict)
      ensures verdict.Intact? <==> Verifies(platform, rows)
      ensures verdict.Broken? ==> exists row :: FirstInvalid(platform, rows, row) && row.id == verdict.firstInvalidId
    {
      var ordered := Ordered(rows);
      var expectedPrevHash := platform.genesis;
      for i := 0 to |ordered|
        invariant expectedPrevHash == Expected(platform.genesis, ordered, i)
        invariant forall j :: 0 <= j < i ==> LinkOk(Hasher(platform), platform.genesis, ordered, j)
      {
        var row := ordered[i];
        if row.prevHash != expectedPrevHash {
          assert FirstBroken(Hasher(platform), platform.genesis, ordered, i);
          assert FirstInvalid(platform, rows, row);
          return Broken(row.id);
        }
        var computed := platform.sha256Hex(RowPreimage(platform, row));
        if computed != row.hash {
          assert FirstBroken(Hasher(platform), platform.genesis, ordered, i);
          assert FirstInvalid(platform, rows, row);
          return Broken(row.id);
        }
        expectedPrevHash := row.hash;
      }
      return Intact;
    }
  }

  // ---------- The last hash fixes the log ----------

  /** No two of the rows' preimages have the same SHA-256. */
  ghost predicate CollisionFree(p: Platform, rows: seq<Row>) {
    forall a, b :: a in rows && b in rows && Hasher(p)(a) == Hasher(p)(b) ==> RowPreimage(p, a) == RowPreimage(p, b)
  }

  ghost predicate ValidRows(rows: seq<Row>) {
    forall row :: row in rows ==> Valid(row.content.before) && Valid(row.content.after)
  }

  /** Rows agree on everything that is hashed, up to the order of object keys. */
  ghost predicate SameHashed(p: Platform, a: Row, b: Row) {
    SamePayload(RowPayload(p, a), RowPayload(p, b))
  }

  ghost function SameHashedBy(p: Platform): (Row, Row) -> bool {
    (a: Row, b: Row) => SameHashed(p, a, b)
  }

  ghost predicate PlainPrevHashes(rows: seq<Row>) {
    forall row :: row in rows ==> NoBrace(row.prevHash)
  }

  lemma HasherAt(p: Platform, row: Row)
    ensures Hasher(p)(row) == p.sha256Hex(Preimage(row.prevHash, RowPayload(p, row)))
  {
    var text := RowPreimage(p, row);
    assert Hasher(p)(row) == p.sha256Hex(text);
    assert text == Preimage(row.prevHash, RowPayload(p, row));
  }

  lemma HashIsPlain(p: Platform, row: Row)
    requires Sound(p)
    ensures NoBrace(Hasher(p)(row))
  {
    assert NoBrace(p.sha256Hex(RowPreimage(p, row)));
  }

  lemma ChainedPlain(p: Platform, ordered: seq<Row>)
    requires Sound(p) && Chained(Hasher(p), p.genesis, ordered)
    ensures PlainPrevHashes(ordered)
  {
    forall i | 0 <= i < |ordered|
      ensures NoBrace(ordered[i].prevHash)
    {
      assert LinkOk(Hasher(p), p.genesis, ordered, i);
      if i > 0 {
        assert LinkOk(Hasher(p), p.genesis, ordered, i - 1);
        HashIsPlain(p, ordered[i - 1]);
      }
    }
  }

  /** Without collisions, a row's hash fixes its previous hash and its hashed columns. */
  lemma CollisionFreeBinds(p: Platform, rows: seq<Row>)
    requires CollisionFree(p, rows) && ValidRows(rows) && PlainPrevHashes(rows)
    ensures Binding(Hasher(p), SameHashedBy(p), rows)
  {
    forall a, b | a in rows && b in rows && Hasher(p)(a) == Hasher(p)(b)
      ensures a.prevHash == b.prevHash && SameHashedBy(p)(a, b)
    {
      PreimageBinds(p, a, b);
    }
  }

  lemma PreimageBinds(p: Platform, a: Row, b: Row)
    requires RowPreimage(p, a) == RowPreimage(p, b) && NoBrace(a.prevHash) && NoBrace(b.prevHash)
    requires Valid(a.content.before) && Valid(a.content.after) && Valid(b.content.before) && Valid(b.content.after)
    ensures a.prevHash == b.prevHash && SameHashedBy(p)(a, b)
  {
    PreimageDecodable(a.prevHash, RowPayload(p, a), b.prevHash, RowPayload(p, b));
  }

  /** Two verifying logs from one genesis that end in one hash are one log, row by row. */
  lemma LastHashFixesLog(p: Platform, a: seq<Row>, b: seq<Row>)
    requires Sound(p) && Verifies(p, a) && Verifies(p, b) && ValidRows(a) && ValidRows(b)
    requires CollisionFree(p, Ordered(a) + Ordered(b)) && GenesisIsNoHash(p.genesis, a + b)
    requires LastHash(p.genesis, Ordered(a)) == LastHash(p.genesis, Ordered(b))
    ensures |a| == |b|
    ensures forall i :: 0 <= i < |a| ==>
              Ordered(a)[i].hash == Ordered(b)[i].hash && SameHashed(p, Ordered(a)[i], Ordered(b)[i])
  {
    var s, t := Ordered(a), Ordered(b);
    ChainedPlain(p, s);
    ChainedPlain(p, t);
    CollisionFreeBinds(p, s + t);
    LastHashFixesChain(Hasher(p), p.genesis, SameHashedBy(p), s, t);
    forall i | 0 <= i < |a|
      ensures s[i].hash == t[i].hash && SameHashed(p, s[i], t[i])
    {
      assert SameRow(SameHashedBy(p), s[i], t[i]);
    }
  }

  // ---------- Appending ----------

  /** The timestamp's text survives storage: `toISOString` prints it back. */
  predicate TsRoundTrips(p: Platform, ts: JsString) {
    p.instantOf(ts).Some? && p.isoOf(p.instantOf(ts).value) == ts
  }

  /** What the writer hashed and what the verifier will hash for the new row do not collide. */
  ghost predicate NewRowCollisionFree(p: Platform, e: Event, row: Row) {
    p.sha256Hex(Preimage(row.prevHash, e.payload)) == Hasher(p)(row) ==>
      Preimage(row.prevHash, e.payload) == RowPreimage(p, row)
  }

  /** JSONB gives back the payload up to key order, so only the timestamp can differ. */
  lemma StoredPayload(p: Platform, rows: seq<Row>, id: nat, e: Event, row: Row)
    requires Sound(p) && ValidPayload(e.payload) && NewRow(p, rows, id, e) == Some(row)
    ensures ValidPayload(RowPayload(p, row))
    ensures SamePayload(e.payload, RowPayload(p, row)) <==> TsRoundTrips(p, e.payload.ts)
  {
  }

  /** The new row's own hash checks out exactly when its timestamp survives storage. */
  lemma NewRowHash(p: Platform, rows: seq<Row>, id: nat, e: Event, row: Row)
    requires Sound(p) && ValidPayload(e.payload) && NewRow(p, rows, id, e) == Some(row)
    requires NewRowCollisionFree(p, e, row) && NoBrace(row.prevHash)
    ensures row.hash == Hasher(p)(row) <==> TsRoundTrips(p, e.payload.ts)
  {
    HasherAt(p, row);
    assert row.hash == p.sha256Hex(Preimage(row.prevHash, e.payload));
    StoredPayload(p, rows, id, e, row);
    PreimageDecodable(row.prevHash, e.payload, row.prevHash, RowPayload(p, row));
  }

  lemma LastHashPlain(p: Platform, rows: seq<Row>)
    requires Sound(p) && Verifies(p, rows)
    ensures NoBrace(LastHash(p.genesis, Ordered(rows)))
  {
    if rows != [] {
      assert LinkOk(Hasher(p), p.genesis, Ordered(rows), |rows| - 1);
      HashIsPlain(p, Ordered(rows)[|rows| - 1]);
    }
  }

  /**
   Appending to a verifying log gives a verifying log exactly when the new row comes last in
   (ts, id) order and its timestamp survives storage; otherwise the new row is the first one that
   does not verify.
   */
  lemma AppendVerdict(p: Platform, rows: seq<Row>, id: nat, e: Event, row: Row)
    requires Sound(p) && ValidPayload(e.payload) && ValidRows(rows)
    requires UniqueIds(rows) && (forall r :: r in rows ==> r.id != id)
    requires Verifies(p, rows) && NewRow(p, rows, id, e) == Some(row)
    requires CollisionFree(p, rows) && NewRowCollisionFree(p, e, row) && GenesisIsNoHash(p.genesis, rows)
    ensures Verifies(p, rows + [row]) <==> GreatestKey(rows, row) && TsRoundTrips(p, e.payload.ts)
    ensures !Verifies(p, rows + [row]) ==> FirstInvalid(p, rows + [row], row)
  {
    ChainedPlain(p, Ordered(rows));
    CollisionFreeBinds(p, rows);
    LastHashPlain(p, rows);
    NewRowHash(p, rows, id, e, row);
    HashChain.AppendVerdict(Hasher(p), p.genesis, SameHashedBy(p), rows, row);
  }

  /** A writer whose keys grow and whose timestamps survive storage keeps the log verifying. */
  lemma GrowingAppend(p: Platform, rows: seq<Row>, id: nat, e: Event, row: Row)
    requires Sound(p) && ValidPayload(e.payload)
    requires UniqueIds(rows) && (forall r :: r in rows ==> r.id != id)
    requires Verifies(p, rows) && NewRow(p, rows, id, e) == Some(row)
    requires GreatestKey(rows, row) && TsRoundTrips(p, e.payload.ts)
    ensures UniqueIds(rows + [row]) && Verifies(p, rows + [row])
  {
    StoredPayload(p, rows, id, e, row);
    SameBody(e.payload, RowPayload(p, row));
    HasherAt(p, row);
    AppendLast(Hasher(p), p.genesis, rows, row);
  }

  // ---------- Whole runs of the writer ----------

  datatype Insert = Insert(id: nat, event: Event)

  /** The table after a run of `emitAuditEvent` from the empty table; rejected inserts leave no row. */
  function LogAfter(p: Platform, inserts: seq<Insert>): (r: seq<Row>) {
    if inserts == [] then []
    else
      var rows, last := LogAfter(p, inserts[..|inserts| - 1]), inserts[|inserts| - 1];
      match NewRow(p, rows, last.id, last.event)
      case None => rows
      case Some(row) => rows + [row]
  }

  /** Ids are new, payloads are JSON, timestamps survive storage, and keys grow. */
  ghost predicate GrowingWriter(p: Platform, inserts: seq<Insert>) {
    inserts != [] ==>
      var before, last := inserts[..|inserts| - 1], inserts[|inserts| - 1];
      var rows := LogAfter(p, before);
      && GrowingWriter(p, before)
      && ValidPayload(last.event.payload) && TsRoundTrips(p, last.event.payload.ts)
      && (forall r :: r in rows ==> r.id != last.id)
      && (NewRow(p, rows, last.id, last.event).Some? ==> GreatestKey(rows, NewRow(p, rows, last.id, last.event).value))
  }

  /** Such a writer leaves a verifying log after every run, with no hypothesis on collisions. */
  lemma {:induction false} GrowingWriterVerifies(p: Platform, inserts: seq<Insert>)
    requires Sound(p) && GrowingWriter(p, inserts)
    ensures UniqueIds(LogAfter(p, inserts)) && Verifies(p, LogAfter(p, inserts))
  {
    if inserts == [] {
    } else {
      var before, last := inserts[..|inserts| - 1], inserts[|inserts| - 1];
      GrowingWriterVerifies(p, before);
      var rows := LogAfter(p, before);
      match NewRow(p, rows, last.id, last.event)
      case None =>
      case Some(row) => GrowingAppend(p, rows, last.id, last.event, row);
    }
  }
}
