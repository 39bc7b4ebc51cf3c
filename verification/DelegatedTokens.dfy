/**
 Single-use delegated tokens: the checks of apps/server/src/auth/delegated-token.ts, the expiry and
 revocation checks of `verifyJwt`, and the revoked_tokens table of packages/db/revocation.ts. Times
 are PostgreSQL's microseconds on one clock that server and database share; `exp` is in seconds. The
 server reads the clock in milliseconds, but only compares whole seconds. Each verification is one
 atomic step.
 */
module DelegatedTokens {
  import opened Wrappers

  const SECOND: int := 1_000_000

  /** `exp` is None when the claim is missing; 0 also counts as missing in the expiry check. */
  datatype Payload = Payload(
    sub: string, taskId: string, agentType: string, jti: string, scope: string, exp: Option<int>)

  /** What trying one verification key comes to. */
  datatype KeyCheck = Accepts | Rejects | Throws

  /**
   A text without three parts or with a bad signature part; a payload part that does not decode, which
   shows only behind the signature check; or a payload. The last two come with each active key's outcome.
   */
  datatype Token =
    | Malformed
    | Undecodable(keyChecks: seq<KeyCheck>)
    | Signed(payload: Payload, keyChecks: seq<KeyCheck>)

  datatype Expected = Expected(taskId: string, agentType: string, createdBy: string)

  datatype Error =
    | InvalidToken | InvalidSignature | InvalidPayload | TokenExpired | TokenRevoked
    | AlreadyUsed | TaskMismatch | AgentMismatch | SubMismatch | ScopeMismatch | InvalidDate

  datatype Outcome = Accepted(payload: Payload) | Refused(error: Error)

  /** revoked_tokens: the expiry by jti. */
  type Revocations = map<string, int>

  predicate IsExpired(exp: Option<int>, now: int) {
    exp.Some? && exp.value != 0 && exp.value < now / SECOND
  }

  predicate SignatureOk(keyChecks: seq<KeyCheck>) {
    exists i :: 0 <= i < |keyChecks| && keyChecks[i] == Accepts
  }

  /** What the claims of a token must say, apart from its jti and its expiry. */
  predicate ClaimsMatch(p: Payload, e: Expected) {
    p.taskId == e.taskId && p.agentType == e.agentType && p.sub == e.createdBy && p.scope == "task_result"
  }

  /** The claim that is reported when several do not match. */
  function FirstMismatch(p: Payload, e: Expected): (r: Error)
    requires !ClaimsMatch(p, e)
  {
    if p.taskId != e.taskId then TaskMismatch
    else if p.agentType != e.agentType then AgentMismatch
    else if p.sub != e.createdBy then SubMismatch
    else ScopeMismatch
  }

  /** Everything but the revocation table lets the token pass. */
  predicate Presentable(t: Token, e: Expected, now: int) {
    && t.Signed? && SignatureOk(t.keyChecks) && !IsExpired(t.payload.exp, now)
    && ClaimsMatch(t.payload, e) && t.payload.exp.Some?
  }

  /** `INSERT ... ON CONFLICT (jti) DO NOTHING` */
  function Inserted(revoked: Revocations, jti: string, expiresAt: int): (r: Revocations) {
    if jti in revoked then revoked else revoked[jti := expiresAt]
  }

  /** `DELETE FROM revoked_tokens WHERE expires_at < NOW()` */
  function CleanedUp(revoked: Revocations, now: int): (r: Revocations) {
    map jti | jti in revoked && revoked[jti] >= now :: revoked[jti]
  }

  class RevokedTokens {
    var revoked: Revocations

    constructor ()
      ensures revoked == map[]
    {
      revoked := map[];
    }

    method RevokeToken(jti: string, expiresAt: int)
      modifies this
      ensures revoked == Inserted(old(revoked), jti, expiresAt)
      ensures revoked.Keys == old(revoked).Keys + {jti} && forall j :: j in old(revoked) ==> revoked[j] == old(revoked)[j]
      ensures jti !in old(revoked) ==> revoked[jti] == expiresAt
    {
      if jti !in revoked {
        revoked := revoked[jti := expiresAt];
      }
    }

    method IsRevoked(jti: string) returns (r: bool)
      ensures r <==> jti in revoked
    {
      r := jti in revoked;
    }

    method CleanupExpiredRevocations(now: int)
      modifies this
      ensures revoked == CleanedUp(old(revoked), now)
      ensures forall jti :: jti in revoked <==> jti in old(revoked) && now <= old(revoked)[jti]
      ensures forall jti :: jti in revoked ==> revoked[jti] == old(revoked)[jti]
    {
      revoked := map jti | jti in revoked && !(revoked[jti] < now) :: revoked[jti];
    }

    /** The loop of `verifyJwt` over the active keys: a key that throws is skipped. */
    method VerifySignature(keyChecks: seq<KeyCheck>) returns (verified: bool)
      ensures verified <==> SignatureOk(keyChecks)
    {
      verified := false;
      for i := 0 to |keyChecks|
        invariant !verified && forall j :: 0 <= j < i ==> keyChecks[j] != Accepts
      {
        if keyChecks[i] == Accepts {
          verified := true;
          break;
        }
      }
    }

    /** `verifyJwt` */
    method VerifyJwt(token: Token, now: int) returns (outcome: Outcome)
      ensures outcome.Accepted? <==>
                && token.Signed? && SignatureOk(token.keyChecks) && !IsExpired(token.payload.exp, now)
                && (token.payload.jti == "" || token.payload.jti !in revoked)
      ensures outcome.Accepted? ==> outcome.payload == token.payload
      ensures outcome.Accepted? && token.payload.exp.Some? && token.payload.exp.value != 0 ==>
                now < 1_000_000 * (token.payload.exp.value + 1)
      ensures outcome == Refused(TokenExpired) ==>
                && token.Signed? && token.payload.exp.Some? && token.payload.exp.value != 0
                && now >= 1_000_000 * (token.payload.exp.value + 1)
      ensures outcome.Refused? ==>
                match outcome.error
                case InvalidToken => token.Malformed?
                case InvalidSignature => !token.Malformed? && !SignatureOk(token.keyChecks)
                case InvalidPayload => token.Undecodable? && SignatureOk(token.keyChecks)
                case TokenExpired => token.Signed? && SignatureOk(token.keyChecks) && IsExpired(token.payload.exp, now)
                case TokenRevoked =>
                  token.Signed? && SignatureOk(token.keyChecks) && !IsExpired(token.payload.exp, now) &&
                  token.payload.jti in revoked
                case _ => false
    {
      if token.Malformed? {
        return Refused(InvalidToken);
      }
      var verified := VerifySignature(token.keyChecks);
      if !verified {
        return Refused(InvalidSignature);
      }
      if token.Undecodable? {
        return Refused(InvalidPayload);
      }
      var payload := token.payload;
      if payload.exp.Some? && payload.exp.value != 0 && payload.exp.value < now / SECOND {
        return Refused(TokenExpired);
      }
      if payload.jti != "" {
        var isRevoked := IsRevoked(payload.jti);
        if isRevoked {
          return Refused(TokenRevoked);
        }
      }
      return Accepted(payload);
    }

    /**
     `verifyDelegatedToken`: a token passes exactly when it is presentable and its jti is not in the
     table, and a token that passes is consumed; a refused one changes nothing.
     */
    method VerifyDelegatedToken(token: Token, expected: Expected, now: int) returns (outcome: Outcome)
      modifies this
      ensures outcome.Accepted? <==> Presentable(token, expected, now) && token.payload.jti !in old(revoked)
      ensures outcome.Accepted? ==>
                && outcome.payload == token.payload
                && revoked == old(revoked)[token.payload.jti := token.payload.exp.value * SECOND]
      ensures outcome.Accepted? <==>
                && token.Signed? && (exists i :: 0 <= i < |token.keyChecks| && token.keyChecks[i] == Accepts)
                && var p := token.payload;
                && p.taskId == expected.taskId && p.agentType == expected.agentType && p.sub == expected.createdBy
                && p.scope == "task_result" && p.jti !in old(revoked)
                && p.exp.Some? && (p.exp.value == 0 || now < 1_000_000 * (p.exp.value + 1))
      ensures outcome.Accepted? ==> revoked == old(revoked)[token.payload.jti := 1_000_000 * token.payload.exp.value]
      ensures outcome.Refused? ==> revoked == old(revoked)
      ensures outcome == Refused(TaskMismatch) ==> token.Signed? && token.payload.taskId != expected.taskId
      ensures outcome == Refused(AgentMismatch) ==>
                token.Signed? && token.payload.taskId == expected.taskId && token.payload.agentType != expected.agentType
      ensures outcome == Refused(SubMismatch) ==>
                && token.Signed? && token.payload.taskId == expected.taskId
                && token.payload.agentType == expected.agentType && token.payload.sub != expected.createdBy
      ensures outcome == Refused(ScopeMismatch) ==>
                && token.Signed? && token.payload.taskId == expected.taskId
                && token.payload.agentType == expected.agentType && token.payload.sub == expected.createdBy
                && token.payload.scope != "task_result"
      ensures revoked == After(old(revoked), Verify(token, expected, now))
      // A second use is refused as revoked; the table check here only ever catches an empty jti.
      ensures outcome == Refused(AlreadyUsed) ==> token.Signed? && token.payload.jti == ""
      ensures token.Signed? && SignatureOk(token.keyChecks) && !IsExpired(token.payload.exp, now)
              && token.payload.jti !in old(revoked) && !ClaimsMatch(token.payload, expected) ==>
                outcome == Refused(FirstMismatch(token.payload, expected))
    {
      outcome := VerifyJwt(token, now);
      if outcome.Refused? {
        return;
      }
      var payload := outcome.payload;
      var used := IsRevoked(payload.jti);
      if used {
        return Refused(AlreadyUsed);
      }
      if payload.taskId != expected.taskId {
        return Refused(TaskMismatch);
      }
      if payload.agentType != expected.agentType {
        return Refused(AgentMismatch);
      }
      if payload.sub != expected.createdBy {
        return Refused(SubMismatch);
      }
      if payload.scope != "task_result" {
        return Refused(ScopeMismatch);
      }
      if payload.exp.None? {
        // new Date(NaN).toISOString() throws before the insert.
        return Refused(InvalidDate);
      }
      RevokeToken(payload.jti, payload.exp.value * SECOND);
    }
  }

  // ---------- Runs ----------

  datatype Op =
    | Verify(token: Token, expected: Expected, now: int)
    | Revoke(jti: string, expiresAt: int, now: int)
    | Cleanup(now: int)

  /** The verification lets its token pass. */
  predicate Passes(revoked: Revocations, op: Op) {
    op.Verify? && Presentable(op.token, op.expected, op.now) && op.token.payload.jti !in revoked
  }

  predicate PassesJti(revoked: Revocations, op: Op, jti: string) {
    Passes(revoked, op) && op.token.payload.jti == jti
  }

  function After(revoked: Revocations, op: Op): (r: Revocations) {
    match op
    case Verify(token, expected, now) =>
      if Passes(revoked, op) then revoked[token.payload.jti := token.payload.exp.value * SECOND] else revoked
    case Revoke(jti, expiresAt, _) => Inserted(revoked, jti, expiresAt)
    case Cleanup(now) => CleanedUp(revoked, now)
  }

  function TableAfter(revoked: Revocations, ops: seq<Op>): (r: Revocations) {
    if ops == [] then revoked else After(TableAfter(revoked, ops[..|ops| - 1]), ops[|ops| - 1])
  }

  /** How many verifications of a run let a token with this jti pass. */
  function PassCount(revoked: Revocations, ops: seq<Op>, jti: string): (n: nat) {
    if ops == [] then 0
    else
      var before, last := ops[..|ops| - 1], ops[|ops| - 1];
      PassCount(revoked, before, jti) + if PassesJti(TableAfter(revoked, before), last, jti) then 1 else 0
  }

  ghost predicate ClockForward(ops: seq<Op>) {
    forall i, j :: 0 <= i < j < |ops| ==> ops[i].now <= ops[j].now
  }

  /** Every token presented with this jti carries the same expiry. */
  ghost predicate OneExpiry(ops: seq<Op>, jti: string, exp: int) {
    forall i :: 0 <= i < |ops| && ops[i].Verify? && ops[i].token.Signed? && ops[i].token.payload.jti == jti ==>
      ops[i].token.payload.exp == Some(exp)
  }

  /** Later than `exp` but in the second that starts there: not yet expired, but perhaps cleaned up. */
  predicate InGraceSecond(exp: int, now: int) {
    SECOND * exp < now < SECOND * (exp + 1)
  }

  /** No token with this jti is presented in its grace second. */
  ghost predicate NothingInGraceSecond(ops: seq<Op>, jti: string, exp: int) {
    forall i :: 0 <= i < |ops| && ops[i].Verify? && ops[i].token.Signed? && ops[i].token.payload.jti == jti ==>
      !InGraceSecond(exp, ops[i].now)
  }

  ghost predicate WholeSeconds(ops: seq<Op>) {
    forall i :: 0 <= i < |ops| ==> ops[i].now % SECOND == 0
  }

  /** The state after a run in which the jti has passed at most once. */
  ghost predicate UsedOnce(revoked: Revocations, ops: seq<Op>, jti: string, exp: int) {
    var table := TableAfter(revoked, ops);
    && PassCount(revoked, ops, jti) <= 1
    && (PassCount(revoked, ops, jti) == 1 ==>
          (jti in table && table[jti] == SECOND * exp) || (ops != [] && ops[|ops| - 1].now > SECOND * exp))
  }

  lemma UsedOnceStep(revoked: Revocations, ops: seq<Op>, op: Op, jti: string, exp: int)
    requires UsedOnce(revoked, ops, jti, exp) && exp != 0
    requires ops != [] ==> ops[|ops| - 1].now <= op.now
    requires op.Verify? && op.token.Signed? && op.token.payload.jti == jti ==>
               op.token.payload.exp == Some(exp) && !InGraceSecond(exp, op.now)
    ensures UsedOnce(revoked, ops + [op], jti, exp)
  {
  }

  lemma EarlierOps(ops: seq<Op>, n: nat, jti: string, exp: int)
    requires ClockForward(ops) && OneExpiry(ops, jti, exp) && NothingInGraceSecond(ops, jti, exp) && n <= |ops|
    ensures ClockForward(ops[..n]) && OneExpiry(ops[..n], jti, exp) && NothingInGraceSecond(ops[..n], jti, exp)
  {
  }

  /**
   Single use: in every run on a shared clock that does not go back, a jti passes at most once, provided
   it is not presented in the second that starts at its expiry.
   */
  lemma {:induction false} PassesAtMostOnce(revoked: Revocations, ops: seq<Op>, jti: string, exp: int)
    requires ClockForward(ops) && OneExpiry(ops, jti, exp) && exp != 0 && NothingInGraceSecond(ops, jti, exp)
    ensures UsedOnce(revoked, ops, jti, exp)
    ensures PassCount(revoked, ops, jti) <= 1
  {
    if ops == [] {
    } else {
      var n := |ops| - 1;
      EarlierOps(ops, n, jti, exp);
      PassesAtMostOnce(revoked, ops[..n], jti, exp);
      UsedOnceStep(revoked, ops[..n], ops[n], jti, exp);
      assert ops == ops[..n] + [ops[n]];
    }
  }

  /** On a clock of whole seconds there is nothing to provide for. */
  lemma SingleUseOnWholeSeconds(revoked: Revocations, ops: seq<Op>, jti: string, exp: int)
    requires ClockForward(ops) && OneExpiry(ops, jti, exp) && exp != 0 && WholeSeconds(ops)
    ensures PassCount(revoked, ops, jti) <= 1
  {
    forall i | 0 <= i < |ops|
      ensures !InGraceSecond(exp, ops[i].now)
    {
      assert ops[i].now == SECOND * (ops[i].now / SECOND);
    }
    PassesAtMostOnce(revoked, ops, jti, exp);
  }

  // ---------- Exactly when a token passes again ----------

  /** Nothing but cleanups touches the jti. */
  ghost predicate OnlyCleanupsTouch(revoked: Revocations, ops: seq<Op>, jti: string) {
    forall i :: 0 <= i < |ops| ==>
      && !PassesJti(TableAfter(revoked, ops[..i]), ops[i], jti)
      && !(ops[i].Revoke? && ops[i].jti == jti)
  }

  ghost predicate CleanedAfter(ops: seq<Op>, instant: int) {
    exists i :: 0 <= i < |ops| && ops[i].Cleanup? && ops[i].now > instant
  }

  lemma CleanedAfterMore(ops: seq<Op>, op: Op, instant: int)
    ensures CleanedAfter(ops + [op], instant) <==> CleanedAfter(ops, instant) || (op.Cleanup? && op.now > instant)
  {
    var all := ops + [op];
    if CleanedAfter(ops, instant) {
      var i :| 0 <= i < |ops| && ops[i].Cleanup? && ops[i].now > instant;
      assert all[i].Cleanup? && all[i].now > instant;
    }
    if op.Cleanup? && op.now > instant {
      assert all[|ops|].Cleanup? && all[|ops|].now > instant;
    }
  }

  lemma OnlyCleanupsTouchPrefix(revoked: Revocations, ops: seq<Op>, jti: string, n: nat)
    requires OnlyCleanupsTouch(revoked, ops, jti) && n <= |ops|
    ensures OnlyCleanupsTouch(revoked, ops[..n], jti)
  {
    forall i | 0 <= i < n
      ensures !PassesJti(TableAfter(revoked, ops[..n][..i]), ops[..n][i], jti)
      ensures !(ops[..n][i].Revoke? && ops[..n][i].jti == jti)
    {
      assert ops[..n][..i] == ops[..i];
    }
  }

  lemma RowStep(table: Revocations, op: Op, jti: string)
    requires !PassesJti(table, op, jti) && !(op.Revoke? && op.jti == jti)
    ensures jti in After(table, op) <==> jti in table && !(op.Cleanup? && op.now > table[jti])
    ensures jti in After(table, op) ==> After(table, op)[jti] == table[jti]
  {
  }

  lemma {:induction false} RowStaysUntilCleanup(revoked: Revocations, ops: seq<Op>, jti: string)
    requires jti in revoked && OnlyCleanupsTouch(revoked, ops, jti)
    ensures jti in TableAfter(revoked, ops) <==> !CleanedAfter(ops, revoked[jti])
    ensures jti in TableAfter(revoked, ops) ==> TableAfter(revoked, ops)[jti] == revoked[jti]
  {
    if ops == [] {
    } else {
      var n := |ops| - 1;
      OnlyCleanupsTouchPrefix(revoked, ops, jti, n);
      RowStaysUntilCleanup(revoked, ops[..n], jti);
      RowStep(TableAfter(revoked, ops[..n]), ops[n], jti);
      CleanedAfterMore(ops[..n], ops[n], revoked[jti]);
      assert ops == ops[..n] + [ops[n]];
    }
  }

  /**
   After a token has passed, presenting it again succeeds exactly when a cleanup has run later than
   its expiry and everything but the table still lets it pass.
   */
  lemma PassesAgainExactly(revoked: Revocations, first: Op, between: seq<Op>, again: Op)
    requires Passes(revoked, first) && again.Verify? && again.token == first.token
    requires OnlyCleanupsTouch(After(revoked, first), between, first.token.payload.jti)
    ensures Passes(TableAfter(After(revoked, first), between), again) <==>
            CleanedAfter(between, SECOND * first.token.payload.exp.value) && Presentable(again.token, again.expected, again.now)
  {
    RowStaysUntilCleanup(After(revoked, first), between, first.token.payload.jti);
  }

  /**
   The expiry check then leaves only the rest of the second that starts at the expiry, unless `exp`
   is 0, which never expires.
   */
  lemma PassesAgainOnlyInGraceSecond(revoked: Revocations, first: Op, between: seq<Op>, again: Op)
    requires Passes(revoked, first) && again.Verify? && again.token == first.token
    requires OnlyCleanupsTouch(After(revoked, first), between, first.token.payload.jti)
    requires forall i :: 0 <= i < |between| ==> between[i].now <= again.now
    requires Passes(TableAfter(After(revoked, first), between), again) && first.token.payload.exp.value != 0
    ensures InGraceSecond(first.token.payload.exp.value, again.now)
  {
    var exp := first.token.payload.exp.value;
    PassesAgainExactly(revoked, first, between, again);
    var i :| 0 <= i < |between| && between[i].Cleanup? && between[i].now > SECOND * exp;
    assert exp >= again.now / SECOND;
  }

  const WORKER_TOKEN: Token :=
    Signed(Payload("user", "task", "coding", "jti", "task_result", Some(100)), [Accepts])

  const TASK: Expected := Expected("task", "coding", "user")

  /** A token that expires at second 100 passes again two microseconds later. */
  lemma GraceSecondReplay()
    ensures var ops := [Verify(WORKER_TOKEN, TASK, 100_000_000), Cleanup(100_000_001), Verify(WORKER_TOKEN, TASK, 100_000_002)];
            ClockForward(ops) && OneExpiry(ops, "jti", 100) && PassCount(map[], ops, "jti") == 2
  {
    var first, cleanup, again := Verify(WORKER_TOKEN, TASK, 100_000_000), Cleanup(100_000_001), Verify(WORKER_TOKEN, TASK, 100_000_002);
    assert WORKER_TOKEN.keyChecks[0] == Accepts;
    var ops := [first, cleanup, again];
    assert ops[..2] == [first, cleanup] && [first, cleanup][..1] == [first] && [first][..0] == [];
    assert Passes(map[], first) && Passes(map[], again);
    assert TableAfter(map[], [first]) == map["jti" := 100_000_000];
    assert TableAfter(map[], [first, cleanup]) == map[];
    assert PassCount(map[], [first], "jti") == 1;
    assert PassCount(map[], [first, cleanup], "jti") == 1;
  }
}
