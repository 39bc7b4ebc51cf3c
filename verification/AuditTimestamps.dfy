/**
 An event that leaves the audit log unverifiable although every insert succeeds: its timestamp is
 ISO 8601 without milliseconds, which `toISOString` does not print back. The server's own callers of
 emitAuditEvent pass `new Date().toISOString()`, whose text survives.
 */
module AuditTimestamps {
  import opened Wrappers
  import opened JsStrings
  import opened Json
  import opened CanonicalJson
  import JsonParser
  import opened JsonText
  import opened HashChain
  import opened AuditLog

  const SHORT_TS: JsString := Text("2024-01-01T00:00:00Z")

  const FULL_TS: JsString := Text("2024-01-01T00:00:00.000Z")

  /** Reads both texts as one instant; its hash of a text tells the text's length. */
  function LengthPlatform(): (r: Platform) {
    Platform(
      (text: JsString) => seq(|text|, _ => 0x30),
      (ts: JsString) => if ts == SHORT_TS || ts == FULL_TS then Some(1_704_067_200_000) else None,
      (instant: int) => FULL_TS,
      (v: Json) => Some(v),
      [0x30])
  }

  lemma LengthPlatformIsSound()
    ensures Sound(LengthPlatform())
  {
    forall v: Json | Valid(v)
      ensures Equivalent(v, v)
    {
      JsonParser.CanonicalIffEquivalent(v, v);
    }
  }

  /** With the other fields equal, a longer timestamp makes a longer preimage. */
  lemma LongerTimestamp(h: JsString, p: Payload, ts: JsString)
    requires Plain(p.ts) && Plain(ts) && |p.ts| < |ts|
    ensures |Preimage(h, p)| < |Preimage(h, p.(ts := ts))|
  {
    PlainEscape(p.ts);
    PlainEscape(ts);
    assert |BodyAfter(p)| < |BodyAfter(p.(ts := ts))|;
  }

  lemma Timestamps()
    ensures Plain(SHORT_TS) && Plain(FULL_TS) && |SHORT_TS| < |FULL_TS|
  {
  }

  const SHORT_EVENT: Event := Event(Payload([], [], [], [], Null, Null, SHORT_TS), None, None)

  lemma HashOf(text: JsString)
    ensures |LengthPlatform().sha256Hex(text)| == |text|
  {
  }

  lemma ShortRow(id: nat) returns (row: AuditLog.Row)
    ensures NewRow(LengthPlatform(), [], id, SHORT_EVENT) == Some(row)
    ensures LengthPlatform().instantOf(SHORT_TS) == LengthPlatform().instantOf(FULL_TS) == Some(row.instant)
    ensures RowPayload(LengthPlatform(), row) == SHORT_EVENT.payload.(ts := FULL_TS)
  {
    row := NewRow(LengthPlatform(), [], id, SHORT_EVENT).value;
  }

  lemma NoCollision(row: AuditLog.Row)
    requires RowPayload(LengthPlatform(), row) == SHORT_EVENT.payload.(ts := FULL_TS)
    ensures NewRowCollisionFree(LengthPlatform(), SHORT_EVENT, row)
  {
    Timestamps();
    LongerTimestamp(row.prevHash, SHORT_EVENT.payload, FULL_TS);
    HashOf(Preimage(row.prevHash, SHORT_EVENT.payload));
    HashOf(RowPreimage(LengthPlatform(), row));
    HasherAt(LengthPlatform(), row);
  }

  /** The only row of a log that was empty is the first one that does not verify. */
  lemma MissingMillisecondsBreakTheLog(id: nat) returns (row: AuditLog.Row)
    ensures var p := LengthPlatform();
            && Sound(p) && Verifies(p, []) && p.instantOf(SHORT_TS) == p.instantOf(FULL_TS) == Some(row.instant)
            && NewRow(p, [], id, SHORT_EVENT) == Some(row)
            && !Verifies(p, [row]) && FirstInvalid(p, [row], row)
  {
    LengthPlatformIsSound();
    Timestamps();
    row := ShortRow(id);
    NoCollision(row);
    AuditLog.AppendVerdict(LengthPlatform(), [], id, SHORT_EVENT, row);
    assert [] + [row] == [row];
  }
}
