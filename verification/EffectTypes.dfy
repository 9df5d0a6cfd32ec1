/** Effect requests, history events and the ledger states of the effect contract. */
module EffectTypes {
  import opened Wrappers
  import opened Ordering
  import opened HexDigests

  datatype EffectState =
    | EffectProposed | IntentValidated | PolicyAndApprovalChecked | IdempotencyReserved
    | PreconditionRevalidated | ExecutionAuthorized | EffectAttempted | EffectObserved
    | EffectCommitted | ReadOnlyNoEffect | DuplicateRefused | PolicyRefused | ApprovalRequired
    | PreconditionStale | AttemptFailed | ResultUnknown | ReconciliationRequired
    | CompensationRequired | Compensating | Compensated | CompensationFailed

  predicate Terminal(s: EffectState) {
    || s.EffectCommitted? || s.ReadOnlyNoEffect? || s.DuplicateRefused? || s.PolicyRefused? || s.ApprovalRequired?
    || s.PreconditionStale? || s.AttemptFailed? || s.Compensated? || s.CompensationFailed?
  }

  predicate Unresolved(s: EffectState) {
    s.ResultUnknown? || s.ReconciliationRequired?
  }

  function Transitions(s: EffectState): set<EffectState> {
    match s
    case EffectProposed => {IntentValidated, ReadOnlyNoEffect}
    case IntentValidated => {PolicyAndApprovalChecked}
    case PolicyAndApprovalChecked => {IdempotencyReserved, PolicyRefused, ApprovalRequired}
    case IdempotencyReserved => {PreconditionRevalidated, DuplicateRefused}
    case PreconditionRevalidated => {ExecutionAuthorized, PreconditionStale}
    case ExecutionAuthorized => {EffectAttempted}
    case EffectAttempted => {EffectObserved, ResultUnknown, AttemptFailed}
    case EffectObserved => {EffectCommitted, ReconciliationRequired}
    case ResultUnknown => {ReconciliationRequired}
    case ReconciliationRequired => {EffectObserved, CompensationRequired}
    case CompensationRequired => {Compensating}
    case Compensating => {Compensated, CompensationFailed}
    case _ => {}
  }

  /** Final are exactly the states with no way out; unresolved are reconciliation and
      the state that can only go there. */
  lemma StatesDivide(s: EffectState)
    ensures Terminal(s) <==> Transitions(s) == {}
    ensures Unresolved(s) <==> s == ReconciliationRequired || Transitions(s) == {ReconciliationRequired}
  {
  }

  // ------------------------------------------------------------- identities

  /** A digest: text supplied from outside, or SHA-256 of a known value. `Root` is
      the marker that starts a chain; it is no digest. */
  datatype Sha =
    | Root
    | Literal(text: Name)
    | OfIdentity(key: IdentityKey)
    | OfEvent(body: EventBody)
    | OfCompensation(parent: Sha, plan: Sha, readback: Sha)
    | OfApproval(approval: Sha, childEffect: Name)
    | OfPrecondition(readback: Sha, version: Name)

  predicate IsH64(s: Sha) {
    match s
    case Root => false
    case Literal(n) => IsHex(n.text, 64)
    case _ => true
  }

  predicate IdChar(c: char) {
    Alphanumeric(c) || c == '.' || c == '_' || c == ':' || c == '/' || c == '-'
  }

  predicate Alphanumeric(c: char) {
    'A' <= c <= 'Z' || 'a' <= c <= 'z' || '0' <= c <= '9'
  }

  /** 3 to 128 characters, the first alphanumeric. */
  predicate SafeId(n: Name) {
    && 3 <= |n.text| <= 128 && Alphanumeric(n.text[0])
    && forall i :: 0 <= i < |n.text| ==> IdChar(n.text[i])
  }

  predicate NonBlank(n: Name) {
    exists i :: 0 <= i < |n.text| && n.text[i] !in {' ', '\t', '\n', '\r'}
  }

  datatype IdentityKey = IdentityKey(tenant: Name, project: Name, effectId: Name, idempotencyKey: Name)

  datatype ProviderSubject = ProviderSubject(repository: Name, commit: Name, tree: Name)

  // --------------------------------------------------------------- requests

  datatype SideEffect = ReversibleWrite | IrreversibleWrite
  datatype ApprovalRule = BeforeExternalWrite | BeforeIrreversibleAction
  datatype Disposition = Declared | HumanOwned | NotPossible

  datatype Intent = Intent(
    effectId: Name,
    jobId: Name,
    idempotencyKey: Name,
    requestSha: Sha,
    sideEffect: SideEffect,
    targetSubject: Name,
    approvalRule: ApprovalRule,
    disposition: Disposition,
    planSha: Sha)

  datatype WorkflowRequest = WorkflowRequest(jobId: Name, tenant: Name, idempotencyKey: Name, requestSha: Sha)

  datatype Target = Target(providerId: Name, resourceId: Name, action: Name, providerSubject: ProviderSubject)

  datatype Request = Request(
    tenant: Name,
    project: Name,
    logicalOperation: Name,
    taskId: Name,
    attemptId: Name,
    intent: Intent,
    workflow: WorkflowRequest,
    target: Target,
    policySha: Sha,
    approvalSha: Sha,
    preconditionSha: Sha,
    expectedVersion: Name)

  predicate ValidSubject(p: ProviderSubject) {
    NonBlank(p.repository) && IsHex(p.commit.text, 40) && IsHex(p.tree.text, 40)
  }

  predicate ValidIntent(i: Intent) {
    && SafeId(i.effectId) && SafeId(i.jobId) && SafeId(i.idempotencyKey)
    && IsH64(i.requestSha) && NonBlank(i.targetSubject) && IsH64(i.planSha)
  }

  /** `validate_admission_request`, without the fields fixed to a constant. */
  predicate ValidRequest(r: Request) {
    && SafeId(r.tenant) && SafeId(r.project) && SafeId(r.logicalOperation) && SafeId(r.taskId) && SafeId(r.attemptId)
    && ValidIntent(r.intent)
    && r.workflow == WorkflowRequest(r.intent.jobId, r.tenant, r.intent.idempotencyKey, r.intent.requestSha)
    && NonBlank(r.target.providerId) && NonBlank(r.target.resourceId) && NonBlank(r.target.action)
    && ValidSubject(r.target.providerSubject)
    && IsH64(r.policySha) && IsH64(r.approvalSha)
    && NonBlank(r.expectedVersion) && IsH64(r.preconditionSha)
  }

  /** Every identifier, digest and free text a request carries. */
  function Identifiers(r: Request): set<Name> {
    {r.tenant, r.project, r.logicalOperation, r.taskId, r.attemptId, r.intent.effectId, r.intent.jobId,
     r.intent.idempotencyKey, r.workflow.jobId, r.workflow.tenant, r.workflow.idempotencyKey}
  }

  function Digests(r: Request): set<Sha> {
    {r.intent.requestSha, r.intent.planSha, r.policySha, r.approvalSha, r.preconditionSha, r.workflow.requestSha}
  }

  function Texts(r: Request): set<Name> {
    {r.intent.targetSubject, r.target.providerId, r.target.resourceId, r.target.action,
     r.target.providerSubject.repository, r.expectedVersion}
  }

  /** A request is valid exactly when its identifiers are safe, its digests digests, its
      texts not blank, its provider subject a Git commit and tree, and its workflow part
      repeats the intent's. */
  lemma ValidRequestIff(r: Request)
    ensures ValidRequest(r) <==>
            && (forall n :: n in Identifiers(r) ==> SafeId(n))
            && (forall d :: d in Digests(r) ==> IsH64(d))
            && (forall n :: n in Texts(r) ==> NonBlank(n))
            && IsHex(r.target.providerSubject.commit.text, 40) && IsHex(r.target.providerSubject.tree.text, 40)
            && r.workflow.jobId == r.intent.jobId && r.workflow.tenant == r.tenant
            && r.workflow.idempotencyKey == r.intent.idempotencyKey && r.workflow.requestSha == r.intent.requestSha
  {
    hide SafeId, IsH64, NonBlank, IsHex;
    assert {r.tenant, r.project, r.logicalOperation, r.taskId, r.attemptId} <= Identifiers(r);
    assert {r.intent.effectId, r.intent.jobId, r.intent.idempotencyKey} <= Identifiers(r);
    assert {r.intent.requestSha, r.intent.planSha, r.policySha, r.approvalSha, r.preconditionSha} <= Digests(r);
  }

  /** Safe identifiers: a letter or digit, and 2 to 127 more characters. */
  lemma SafeIdIff(n: Name)
    ensures SafeId(n) <==>
            exists first, rest :: n.text == [first] + rest && Alphanumeric(first) && 2 <= |rest| <= 127
                                  && forall i :: 0 <= i < |rest| ==> Alphanumeric(rest[i]) || rest[i] in "._:/-"
  {
    if SafeId(n) {
      var first, rest := n.text[0], n.text[1..];
      assert n.text == [first] + rest;
      forall i | 0 <= i < |rest| ensures rest[i] == n.text[i + 1] {
      }
    }
    if first, rest :| n.text == [first] + rest && Alphanumeric(first) && 2 <= |rest| <= 127
                      && forall i :: 0 <= i < |rest| ==> Alphanumeric(rest[i]) || rest[i] in "._:/-" {
      forall i | 0 <= i < |n.text| ensures IdChar(n.text[i]) {
        assert i > 0 ==> n.text[i] == rest[i - 1];
      }
    }
  }

  /** Text supplied as a digest is one exactly if it writes 64 hexadecimal digits; the
      marker that starts a chain is none. */
  lemma SuppliedDigestIff(text: Name)
    ensures IsH64(Literal(text)) <==> exists ns :: Nibbles(ns) && |ns| == 64 && text.text == Written(ns)
    ensures !IsH64(Root)
  {
    HexIff(text.text, 64);
  }

  function KeyOf(r: Request): IdentityKey {
    IdentityKey(r.tenant, r.project, r.intent.effectId, r.intent.idempotencyKey)
  }

  function IdentitySha(r: Request): Sha {
    OfIdentity(KeyOf(r))
  }

  // ----------------------------------------------------------------- events

  datatype EventKind = StateTransition | AttemptRecorded | ReadbackRecorded | TaskProjection | OtherKind

  /** `ProviderFailure` is an outcome of the provider that the ledger does not record. */
  datatype Outcome = RetryableFailure | Success | Timeout | ConnectionLost | Unknown | ProviderFailure

  datatype Actor = EffectLedger | OtherActor

  /** The keys the reducer reads from an event payload. `target` is `None` for a
      missing or unknown state name, which are refused alike. */
  datatype Payload = Payload(
    attemptId: Option<Name>,
    outcome: Option<Outcome>,
    actor: Option<Actor>,
    requestSha: Option<Sha>,
    normalizedSha: Option<Sha>,
    providerSubject: Option<ProviderSubject>,
    verified: bool,
    sha: Option<Sha>,
    remoteVersion: Option<Name>,
    providerId: Option<Name>,
    resourceId: Option<Name>,
    action: Option<Name>,
    target: Option<EffectState>,
    attemptResult: Option<Outcome>,
    taskDone: bool,
    writesLoopx: bool,
    otherWriter: bool,
    sensitive: bool)

  datatype EventBody = EventBody(sequence: int, previous: Sha, identity: Sha, kind: EventKind, payload: Payload)
  datatype Event = Event(body: EventBody, sha: Sha)

  // ----------------------------------------------------------------- ledger

  datatype Attempt = Attempt(id: Name, outcome: Outcome, requestSha: Sha, providerSubject: ProviderSubject)

  datatype Readback = Readback(remoteVersion: Name, sha: Sha, providerId: Name, resourceId: Name, action: Name)

  /** What a history has established so far. */
  datatype Ledger = Ledger(state: EffectState, attempts: seq<Attempt>, readbacks: seq<Readback>, commits: nat)

  datatype LedgerError =
    | InvalidRequest
    | SequenceMismatch
    | DigestMismatch
    | IdentityMismatch
    | UnknownEvent
    | SecretPersistence
    | DirectLoopxWrite
    | DuplicateAuthority
    | DoubleCommit
    | EventAfterTerminal
    | UnknownRetryForbidden
    | AttemptIdentityMissing
    | DuplicateAttempt
    | AttemptOutcomeInvalid
    | SelfCommit
    | AttemptRequestDrift
    | MutableSubject
    | ReadbackRequired
    | ReadbackDisagreement
    | ReadbackTargetMismatch
    | UnresolvedEffectHidden
    | AttemptMissing
    | UnresolvedCommit
    | VocabularyDrift
    | TimeoutAsCommit
    | IllegalTransition
}
