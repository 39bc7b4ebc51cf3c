/**
 The preimage of a row's hash as JSON: `computeAuditHash` of packages/core/audit.ts hashes the previous
 hash followed by one object, whose members have these names, in this order, with these values.
 */
module AuditPreimage {
  import opened JsStrings
  import opened Json
  import opened CanonicalJson
  import opened JsonParser
  import opened JsonText
  import opened AuditLog

  /** The object that is hashed. */
  function PayloadObject(p: Payload): (r: Json) {
    Obj([Field(Text("actor_id"), Str(p.actorId)),
         Field(Text("action"), Str(p.action)),
         Field(Text("entity_type"), Str(p.entityType)),
         Field(Text("entity_id"), Str(p.entityId)),
         Field(Text("before"), Normalize(p.before)),
         Field(Text("after"), Normalize(p.after)),
         Field(Text("ts"), Str(p.ts))])
  }

  /** A label of the template with its value is a member of the object. */
  lemma MemberText(key: JsString, value: JsString, behind: JsString)
    ensures Quote(key) + [COLON] + (value + behind) == Member(key, value) + behind
    ensures [COMMA] + (Quote(key) + [COLON]) + (value + behind) == [COMMA] + (Member(key, value) + behind)
  {
    Assoc(Quote(key) + [COLON], value, behind);
    Assoc([COMMA], Quote(key) + [COLON], value + behind);
  }

  /** The label of a member, in quotation marks and with its colon. */
  lemma LabelText(name: string)
    requires Plain(Text(name))
    ensures Text("\"" + name + "\":") == Quote(Text(name)) + [COLON]
  {
    PlainEscape(Text(name));
    TextConcat("\"" + name, "\":");
    TextConcat("\"", name);
    assert Text("\":") == [QUOTE] + [COLON] && Text("\"") == [QUOTE];
    Assoc([QUOTE] + Text(name), [QUOTE], [COLON]);
  }

  lemma CommaLabelText(name: string)
    requires Plain(Text(name))
    ensures Text(",\"" + name + "\":") == [COMMA] + (Quote(Text(name)) + [COLON])
  {
    LabelText(name);
    assert ",\"" + name + "\":" == "," + ("\"" + name + "\":");
    TextConcat(",", "\"" + name + "\":");
    assert Text(",") == [COMMA];
  }

  lemma ActorIdLabel()
    ensures ACTOR_ID == [OPEN_BRACE] + (Quote(Text("actor_id")) + [COLON])
  {
    assert "\"" + "actor_id" + "\":" == "\"actor_id\":";
    LabelText("actor_id");
  }

  lemma ActionLabel()
    ensures ACTION == [COMMA] + (Quote(Text("action")) + [COLON])
  {
    assert ",\"" + "action" + "\":" == ",\"action\":";
    CommaLabelText("action");
  }

  lemma EntityTypeLabel()
    ensures ENTITY_TYPE == [COMMA] + (Quote(Text("entity_type")) + [COLON])
  {
    assert ",\"" + "entity_type" + "\":" == ",\"entity_type\":";
    CommaLabelText("entity_type");
  }

  lemma EntityIdLabel()
    ensures ENTITY_ID == [COMMA] + (Quote(Text("entity_id")) + [COLON])
  {
    assert ",\"" + "entity_id" + "\":" == ",\"entity_id\":";
    CommaLabelText("entity_id");
  }

  lemma BeforeLabel()
    ensures BEFORE == [COMMA] + (Quote(Text("before")) + [COLON])
  {
    assert ",\"" + "before" + "\":" == ",\"before\":";
    CommaLabelText("before");
  }

  lemma AfterLabel()
    ensures AFTER == [COMMA] + (Quote(Text("after")) + [COLON])
  {
    assert "\"" + "after" + "\":" == "\"after\":";
    LabelText("after");
  }

  lemma TsLabel()
    ensures TS == [COMMA] + (Quote(Text("ts")) + [COLON])
  {
    assert "\"" + "ts" + "\":" == "\"ts\":";
    LabelText("ts");
  }

  // The members from the last one on.

  function TsMember(p: Payload): (r: JsString) {
    Member(Text("ts"), Quote(p.ts)) + ([CLOSE_BRACE] + [])
  }

  function AfterMembers(p: Payload): (r: JsString) {
    Member(Text("after"), Canonical(p.after)) + ([COMMA] + TsMember(p))
  }

  function BeforeMembers(p: Payload): (r: JsString) {
    Member(Text("before"), Canonical(p.before)) + ([COMMA] + AfterMembers(p))
  }

  function EntityMembers(p: Payload): (r: JsString) {
    Member(Text("entity_type"), Quote(p.entityType)) +
    ([COMMA] + (Member(Text("entity_id"), Quote(p.entityId)) + ([COMMA] + BeforeMembers(p))))
  }

  function ActorMembers(p: Payload): (r: JsString) {
    Member(Text("actor_id"), Quote(p.actorId)) +
    ([COMMA] + (Member(Text("action"), Quote(p.action)) + ([COMMA] + EntityMembers(p))))
  }

  lemma BodyAfterText(p: Payload)
    ensures BodyAfter(p) == [COMMA] + AfterMembers(p)
  {
    AfterLabel();
    TsLabel();
    MemberText(Text("ts"), Quote(p.ts), [CLOSE_BRACE]);
    assert [CLOSE_BRACE] + [] == [CLOSE_BRACE];
    MemberText(Text("after"), Canonical(p.after), [COMMA] + TsMember(p));
  }

  lemma BeforeText(p: Payload)
    ensures BEFORE + (Canonical(p.before) + BodyAfter(p)) == [COMMA] + BeforeMembers(p)
  {
    BeforeLabel();
    BodyAfterText(p);
    MemberText(Text("before"), Canonical(p.before), [COMMA] + AfterMembers(p));
  }

  lemma EntityText(p: Payload)
    ensures ENTITY_TYPE + (Quote(p.entityType) + (ENTITY_ID + (Quote(p.entityId) +
            (BEFORE + (Canonical(p.before) + BodyAfter(p)))))) == [COMMA] + EntityMembers(p)
  {
    EntityTypeLabel();
    EntityIdLabel();
    BeforeText(p);
    MemberText(Text("entity_id"), Quote(p.entityId), [COMMA] + BeforeMembers(p));
    MemberText(Text("entity_type"), Quote(p.entityType),
               [COMMA] + (Member(Text("entity_id"), Quote(p.entityId)) + ([COMMA] + BeforeMembers(p))));
  }

  lemma BodyText(p: Payload)
    ensures Body(p) == [OPEN_BRACE] + ActorMembers(p)
  {
    ActorIdLabel();
    ActionLabel();
    EntityText(p);
    var behind := [COMMA] + EntityMembers(p);
    MemberText(Text("action"), Quote(p.action), behind);
    var more := [COMMA] + (Member(Text("action"), Quote(p.action)) + behind);
    MemberText(Text("actor_id"), Quote(p.actorId), more);
    Assoc([OPEN_BRACE], Quote(Text("actor_id")) + [COLON], Quote(p.actorId) + more);
  }

  // Reading them back.

  lemma ReadQuoted(key: JsString, x: JsString, more: JsString, fields: seq<Field>)
    requires ParseFields(more) == Got(fields, [])
    ensures ParseFields(Member(key, Quote(x)) + ([COMMA] + more)) == Got([Field(key, Str(x))] + fields, [])
  {
    ParseString(x, [COMMA] + more);
    ParseMoreFields(key, Quote(x), Str(x), more, fields, []);
  }

  lemma ReadCanonical(key: JsString, v: Json, more: JsString, fields: seq<Field>)
    requires Valid(v) && ParseFields(more) == Got(fields, [])
    ensures ParseFields(Member(key, Canonical(v)) + ([COMMA] + more)) == Got([Field(key, Normalize(v))] + fields, [])
  {
    ParseCanonical(v, [COMMA] + more);
    ParseMoreFields(key, Canonical(v), Normalize(v), more, fields, []);
  }

  function BeforeFields(p: Payload): (r: seq<Field>) {
    [Field(Text("before"), Normalize(p.before))] +
    ([Field(Text("after"), Normalize(p.after))] + [Field(Text("ts"), Str(p.ts))])
  }

  function EntityFields(p: Payload): (r: seq<Field>) {
    [Field(Text("entity_type"), Str(p.entityType))] + ([Field(Text("entity_id"), Str(p.entityId))] + BeforeFields(p))
  }

  function ActorFields(p: Payload): (r: seq<Field>) {
    [Field(Text("actor_id"), Str(p.actorId))] + ([Field(Text("action"), Str(p.action))] + EntityFields(p))
  }

  lemma FieldsInARow(a: Field, b: Field, c: Field, d: Field, e: Field, f: Field, g: Field)
    ensures [a] + ([b] + ([c] + ([d] + ([e] + ([f] + [g]))))) == [a, b, c, d, e, f, g]
  {
  }

  lemma ReadTs(p: Payload)
    ensures ParseFields(TsMember(p)) == Got([Field(Text("ts"), Str(p.ts))], [])
  {
    ParseString(p.ts, [CLOSE_BRACE] + []);
    ParseLastField(Text("ts"), Quote(p.ts), Str(p.ts), []);
  }

  lemma ReadBefore(p: Payload)
    requires ValidPayload(p)
    ensures ParseFields(BeforeMembers(p)) == Got(BeforeFields(p), [])
  {
    ReadTs(p);
    var ts := [Field(Text("ts"), Str(p.ts))];
    ReadCanonical(Text("after"), p.after, TsMember(p), ts);
    ReadCanonical(Text("before"), p.before, AfterMembers(p), [Field(Text("after"), Normalize(p.after))] + ts);
  }

  lemma ReadEntity(p: Payload)
    requires ValidPayload(p)
    ensures ParseFields(EntityMembers(p)) == Got(EntityFields(p), [])
  {
    ReadBefore(p);
    ReadQuoted(Text("entity_id"), p.entityId, BeforeMembers(p), BeforeFields(p));
    ReadQuoted(Text("entity_type"), p.entityType,
               Member(Text("entity_id"), Quote(p.entityId)) + ([COMMA] + BeforeMembers(p)),
               [Field(Text("entity_id"), Str(p.entityId))] + BeforeFields(p));
  }

  lemma ReadActor(p: Payload)
    requires ValidPayload(p)
    ensures ParseFields(ActorMembers(p)) == Got(ActorFields(p), [])
  {
    ReadEntity(p);
    ReadQuoted(Text("action"), p.action, EntityMembers(p), EntityFields(p));
    ReadQuoted(Text("actor_id"), p.actorId,
               Member(Text("action"), Quote(p.action)) + ([COMMA] + EntityMembers(p)),
               [Field(Text("action"), Str(p.action))] + EntityFields(p));
  }

  lemma ActorFieldsOfObject(p: Payload)
    ensures PayloadObject(p) == Obj(ActorFields(p))
  {
    FieldsInARow(Field(Text("actor_id"), Str(p.actorId)), Field(Text("action"), Str(p.action)),
                 Field(Text("entity_type"), Str(p.entityType)), Field(Text("entity_id"), Str(p.entityId)),
                 Field(Text("before"), Normalize(p.before)), Field(Text("after"), Normalize(p.after)),
                 Field(Text("ts"), Str(p.ts)));
  }

  lemma MembersStart(p: Payload)
    ensures ActorMembers(p) != [] && ActorMembers(p)[0] == QUOTE
  {
  }

  /** The hand-built object reads back as the object of the payload, names, order and values. */
  lemma BodyReadsBack(p: Payload)
    requires ValidPayload(p)
    ensures ParseValue(Body(p)) == Got(PayloadObject(p), [])
  {
    BodyText(p);
    ReadActor(p);
    MembersStart(p);
    ParseObject(ActorMembers(p), ActorFields(p), []);
    ActorFieldsOfObject(p);
  }

  /** What is hashed: the previous hash, then the object. */
  lemma PreimageReadsBack(h: JsString, p: Payload)
    requires ValidPayload(p)
    ensures h <= Preimage(h, p) && ParseValue(Preimage(h, p)[|h|..]) == Got(PayloadObject(p), [])
  {
    BodyReadsBack(p);
    assert Preimage(h, p)[|h|..] == Body(p);
  }
}
