/** Reserving effects, authorising one, and the provider boundary around an attempt. */
module EffectAdmission {
  import opened Wrappers
  import opened Ordering
  import opened HexDigests
  import opened EffectTypes
  import opened EffectReducer
  import opened EffectHistory

  // ------------------------------------------------------------ reservation

  datatype Duplicate = DuplicateOf | Distinct
  datatype Clash = CrossTenant | Collision

  predicate SharesKey(a: Request, b: Request) {
    a.intent.effectId == b.intent.effectId || a.intent.idempotencyKey == b.intent.idempotencyKey
  }

  predicate SameScope(a: Request, b: Request) {
    a.tenant == b.tenant && a.project == b.project
  }

  predicate Clashes(a: Request, b: Request) {
    SharesKey(a, b) && (!SameScope(a, b) || a.intent.requestSha != b.intent.requestSha)
  }

  /** `classify_duplicate` on valid requests. */
  function ClassifyDuplicate(existing: Request, candidate: Request): Result<Duplicate, Clash> {
    if SharesKey(existing, candidate) && !SameScope(existing, candidate) then Err(CrossTenant)
    else if SharesKey(existing, candidate) && existing.intent.requestSha != candidate.intent.requestSha
    then Err(Collision)
    else if KeyOf(existing) == KeyOf(candidate) then Ok(DuplicateOf)
    else Ok(Distinct)
  }

  /** How two requests compare. Sharing an effect id or a key, they clash in another
      tenant or project or with another request digest, and are the same effect if they
      share both; sharing one only, or none, they are two. */
  lemma DuplicateIff(a: Request, b: Request)
    ensures var shared := a.intent.effectId == b.intent.effectId || a.intent.idempotencyKey == b.intent.idempotencyKey;
            var both := a.intent.effectId == b.intent.effectId && a.intent.idempotencyKey == b.intent.idempotencyKey;
            var scoped := a.tenant == b.tenant && a.project == b.project;
            var alike := a.intent.requestSha == b.intent.requestSha;
            && (ClassifyDuplicate(a, b) == Err(CrossTenant) <==> shared && !scoped)
            && (ClassifyDuplicate(a, b) == Err(Collision) <==> shared && scoped && !alike)
            && (ClassifyDuplicate(a, b) == Ok(DuplicateOf) <==> both && scoped && alike)
            && (ClassifyDuplicate(a, b).Err? <==> Clashes(a, b))
  {
  }

  datatype Decision = Accepted | Repeated(existing: Sha)
  datatype ReservationError = InvalidCandidate | InvalidExisting | Clashing(clash: Clash)

  /** The entry lets the scan go on. */
  predicate Passes(existing: Request, candidate: Request) {
    ValidRequest(existing) && ClassifyDuplicate(existing, candidate) == Ok(Distinct)
  }

  /** `reservation_batch`: scan in order; the first duplicate or clash decides. */
  method Reserve(existing: seq<Request>, candidate: Request) returns (r: Result<Decision, ReservationError>)
    ensures r == Ok(Accepted) <==> ValidRequest(candidate) && forall p :: p in existing ==> Passes(p, candidate)
    ensures r.Ok? && r.value.Repeated? ==>
              && r.value.existing == IdentitySha(candidate)
              && exists k :: 0 <= k < |existing| && KeyOf(existing[k]) == KeyOf(candidate) &&
                   forall j :: 0 <= j < k ==> Passes(existing[j], candidate)
    ensures Reservations(existing) ==> VerdictOf(r) == VerdictOn(existing, candidate)
    ensures Reservations(existing) && r == Ok(Accepted) ==> Reservations(existing + [candidate])
  {
    if !ValidRequest(candidate) {
      return Err(InvalidCandidate);
    }
    for i := 0 to |existing|
      invariant forall k :: 0 <= k < i ==> Passes(existing[k], candidate)
    {
      assert existing[i] in existing;
      if !ValidRequest(existing[i]) {
        return Err(InvalidExisting);
      }
      var c := ClassifyDuplicate(existing[i], candidate);
      if c.Err? {
        assert Clashes(existing[i], candidate);
        return Err(Clashing(c.error));
      }
      if c.value == DuplicateOf {
        if Reservations(existing) {
          DuplicateClashesWithNone(existing, existing[i], candidate);
        }
        return Ok(Repeated(IdentitySha(existing[i])));
      }
    }
    assert forall p :: p in existing ==> Passes(p, candidate);
    return Ok(Accepted);
  }

  /** What a list grown only by accepted candidates satisfies: identities are
      distinct, and entries that share an effect id or a key agree on everything else. */
  ghost predicate Reservations(list: seq<Request>) {
    && (forall p :: p in list ==> ValidRequest(p))
    && (forall i, j :: 0 <= i < j < |list| ==> KeyOf(list[i]) != KeyOf(list[j]) && !Clashes(list[i], list[j]))
  }

  /** An entry identical to the candidate rules out any clash elsewhere in the list. */
  lemma DuplicateClashesWithNone(list: seq<Request>, same: Request, candidate: Request)
    requires Reservations(list) && same in list
    requires KeyOf(same) == KeyOf(candidate) && same.intent.requestSha == candidate.intent.requestSha
    ensures forall p :: p in list ==> !Clashes(p, candidate)
  {
    var i :| 0 <= i < |list| && list[i] == same;
    forall p | p in list ensures !Clashes(p, candidate) {
      var j :| 0 <= j < |list| && list[j] == p;
      assert i < j ==> !Clashes(list[i], list[j]);
      assert j < i ==> !Clashes(list[j], list[i]);
    }
  }

  /** The kind of answer `Reserve` gives. */
  datatype Verdict = Reserves | Repeats | Refuses

  function VerdictOf(r: Result<Decision, ReservationError>): Verdict {
    match r
    case Ok(Accepted) => Reserves
    case Ok(Repeated(_)) => Repeats
    case Err(_) => Refuses
  }

  ghost function VerdictOn(list: seq<Request>, candidate: Request): Verdict {
    if !ValidRequest(candidate) || exists p :: p in list && Clashes(p, candidate) then Refuses
    else if exists p :: p in list && KeyOf(p) == KeyOf(candidate) then Repeats
    else Reserves
  }

  /** The verdict depends on which reservations there are, not on their order, and
      an accepted request submitted again is a duplicate. */
  lemma VerdictIgnoresOrder(list: seq<Request>, permuted: seq<Request>, candidate: Request)
    requires Reservations(list) && multiset(list) == multiset(permuted)
    ensures VerdictOn(list, candidate) == VerdictOn(permuted, candidate)
    ensures VerdictOn(list, candidate) == Reserves ==> VerdictOn(list + [candidate], candidate) == Repeats
  {
    forall p ensures p in list <==> p in permuted {
      assert p in list <==> p in multiset(list);
      assert p in permuted <==> p in multiset(permuted);
    }
    if VerdictOn(list, candidate) == Reserves {
      forall p | p in list + [candidate] ensures !Clashes(p, candidate) {
        assert p in list || p == candidate;
      }
      assert candidate in list + [candidate];
    }
  }

  // ---------------------------------------------------------- authorisation

  /** Fields of the policy, approval and precondition observations; the flags say
      that the constant-valued ones carry their required constants. */
  datatype PolicyObservation = PolicyObservation(
    constants: bool, allow: bool, policySha: Sha, epoch: int, identity: Sha, tenant: Name, project: Name)

  datatype Approval = Approval(
    constants: bool, approved: bool, approvalSha: Sha, identity: Sha, jobId: Name, taskId: Name, attemptId: Name,
    tenant: Name, project: Name)

  datatype Precondition = Precondition(
    constants: bool, identity: Sha, preconditionSha: Sha, remoteVersion: Name, targetSubject: Name)

  datatype Authorization = Authorization(
    identity: Sha, attemptId: Name, tenant: Name, project: Name, target: Target, requestSha: Sha, policySha: Sha,
    policyEpoch: int, approvalSha: Sha, preconditionSha: Sha, expectedVersion: Name)

  datatype GateError = InvalidAdmission | PolicyRefusal | ApprovalRefusal | PreconditionRefusal | StrongApprovalNeeded

  predicate PolicyHolds(r: Request, p: PolicyObservation) {
    && p.constants && p.allow && p.policySha == r.policySha && p.epoch >= 1
    && p.identity == IdentitySha(r) && p.tenant == r.tenant && p.project == r.project
  }

  predicate ApprovalHolds(r: Request, a: Approval) {
    && a.constants && a.approved && a.approvalSha == r.approvalSha && a.identity == IdentitySha(r)
    && a.jobId == r.intent.jobId && a.taskId == r.taskId && a.attemptId == r.attemptId
    && a.tenant == r.tenant && a.project == r.project
  }

  predicate PreconditionHolds(r: Request, p: Precondition) {
    && p.constants && p.identity == IdentitySha(r) && p.preconditionSha == r.preconditionSha
    && p.remoteVersion == r.expectedVersion && p.targetSubject == r.intent.targetSubject
  }

  function Authorize(r: Request, policy: PolicyObservation, approval: Approval, precondition: Precondition)
    : Result<Authorization, GateError>
  {
    if !ValidRequest(r) then Err(InvalidAdmission)
    else if !PolicyHolds(r, policy) then Err(PolicyRefusal)
    else if !ApprovalHolds(r, approval) then Err(ApprovalRefusal)
    else if !PreconditionHolds(r, precondition) then Err(PreconditionRefusal)
    else if r.intent.sideEffect == IrreversibleWrite && r.intent.approvalRule != BeforeIrreversibleAction then
      Err(StrongApprovalNeeded)
    else Ok(Authorization(IdentitySha(r), r.attemptId, r.tenant, r.project, r.target, r.intent.requestSha,
                          policy.policySha, policy.epoch, approval.approvalSha, precondition.preconditionSha,
                          precondition.remoteVersion))
  }

  /** A valid request is admitted by one policy observation an epoch, one approval and one
      precondition, all fixed by the request; an irreversible write needs the strong rule. */
  lemma AuthorizedIff(r: Request, policy: PolicyObservation, approval: Approval, pre: Precondition)
    ensures Authorize(r, policy, approval, pre).Ok? <==>
            && ValidRequest(r) && policy.epoch >= 1
            && policy == PolicyObservation(true, true, r.policySha, policy.epoch, OfIdentity(KeyOf(r)), r.tenant,
                                           r.project)
            && approval == Approval(true, true, r.approvalSha, OfIdentity(KeyOf(r)), r.intent.jobId, r.taskId,
                                    r.attemptId, r.tenant, r.project)
            && pre == Precondition(true, OfIdentity(KeyOf(r)), r.preconditionSha, r.expectedVersion,
                                   r.intent.targetSubject)
            && (r.intent.sideEffect == IrreversibleWrite ==> r.intent.approvalRule == BeforeIrreversibleAction)
    ensures Authorize(r, policy, approval, pre).Ok? ==>
              Authorize(r, policy, approval, pre).value
              == Authorization(OfIdentity(KeyOf(r)), r.attemptId, r.tenant, r.project, r.target, r.intent.requestSha,
                               r.policySha, policy.epoch, r.approvalSha, r.preconditionSha, r.expectedVersion)
  {
    hide ValidRequest;
  }

  /** The fields of a request that the three observations repeat. */
  ghost predicate SameBindings(a: Request, b: Request) {
    && KeyOf(a) == KeyOf(b)
    && a.policySha == b.policySha && a.approvalSha == b.approvalSha && a.preconditionSha == b.preconditionSha
    && a.intent.jobId == b.intent.jobId && a.taskId == b.taskId && a.attemptId == b.attemptId
    && a.expectedVersion == b.expectedVersion && a.intent.targetSubject == b.intent.targetSubject
  }

  /** Observations that admit one request admit exactly the valid requests that share
      its effect, job, task, attempt, bindings, version and target subject. */
  lemma ObservationsBindExactly(a: Request, b: Request,
                                policy: PolicyObservation, approval: Approval, pre: Precondition)
    requires Authorize(a, policy, approval, pre).Ok?
    ensures Authorize(b, policy, approval, pre).Ok? <==>
            && ValidRequest(b) && SameBindings(a, b)
            && (b.intent.sideEffect == IrreversibleWrite ==> b.intent.approvalRule == BeforeIrreversibleAction)
  {
    hide ValidRequest;
    assert IdentitySha(a) == policy.identity;
  }

  /** They do not bind the provider's resource or the request digest: both may be
      replaced in an admitted request. */
  lemma TargetAndDigestAreFree(a: Request, policy: PolicyObservation, approval: Approval, pre: Precondition,
                               resource: Name, digest: Sha)
    returns (b: Request)
    requires Authorize(a, policy, approval, pre).Ok? && NonBlank(resource) && IsH64(digest)
    ensures Authorize(b, policy, approval, pre).Ok?
    ensures b.target.resourceId == resource && b.intent.requestSha == digest
  {
    b := a.(
      target := a.target.(resourceId := resource),
      intent := a.intent.(requestSha := digest),
      workflow := a.workflow.(requestSha := digest));
    ObservationsBindExactly(a, b, policy, approval, pre);
  }

  // ------------------------------------------------------- provider boundary

  datatype Route = Api | Browser
  datatype Packet = Packet(authorization: Authorization, secretHandle: bool, route: Route)

  datatype ProviderError =
    | RawCredential | MutableProviderSubject | ProviderTargetMismatch | ProviderSelfCommit | ResultSchemaMismatch
    | ReadbackNotAdmissible | TargetReadbackMismatch | ReadbackMissing | RemoteDisagreement | EvidenceSubstitution
    | CommitNotAdmissible

  function BuildPacket(a: Authorization, secretHandle: bool, route: Route): Result<Packet, ProviderError> {
    if !IsHex(a.target.providerSubject.commit.text, 40) || !IsHex(a.target.providerSubject.tree.text, 40) then
      Err(MutableProviderSubject)
    else if !secretHandle then Err(RawCredential)
    else Ok(Packet(a, secretHandle, route))
  }

  /** What a provider reports; its outcome is one of success, failure, timeout and connection loss. */
  datatype ProviderResult = ProviderResult(
    constants: bool, identity: Sha, attemptId: Name, target: Target, observationOnly: bool, claimsCommit: bool,
    sha: Sha, outcome: Outcome, secretFree: bool)

  datatype Observation = Observation(
    identity: Sha, attemptId: Name, outcome: Outcome, proposal: EffectState, sha: Sha, route: Route)

  function Classify(p: Packet, r: ProviderResult): Result<Observation, ProviderError> {
    if !r.constants || !r.secretFree then Err(ResultSchemaMismatch)
    else if r.identity != p.authorization.identity || r.attemptId != p.authorization.attemptId
            || r.target.providerId != p.authorization.target.providerId
            || r.target.resourceId != p.authorization.target.resourceId
            || r.target.action != p.authorization.target.action then Err(ProviderTargetMismatch)
    else if r.target.providerSubject != p.authorization.target.providerSubject then Err(MutableProviderSubject)
    else if !r.observationOnly || r.claimsCommit then Err(ProviderSelfCommit)
    else if !IsH64(r.sha) then Err(ResultSchemaMismatch)
    else match r.outcome
         case Success => Ok(Observation(r.identity, r.attemptId, Success, EffectObserved, r.sha, p.route))
         case ProviderFailure =>
           Ok(Observation(r.identity, r.attemptId, ProviderFailure, AttemptFailed, r.sha, p.route))
         case Timeout => Ok(Observation(r.identity, r.attemptId, Timeout, ResultUnknown, r.sha, p.route))
         case ConnectionLost => Ok(Observation(r.identity, r.attemptId, ConnectionLost, ResultUnknown, r.sha, p.route))
         case _ => Err(ResultSchemaMismatch)
  }

  datatype TargetReadback = TargetReadback(
    constants: bool, target: Target, verified: bool, sha: Sha, remoteVersion: Name, evidence: Route)

  datatype ReadbackReceipt = ReadbackReceipt(
    identity: Sha, attemptId: Name, providerId: Name, resourceId: Name, action: Name, remoteVersion: Name, sha: Sha)

  function ValidateReadback(p: Packet, o: Observation, r: TargetReadback): Result<ReadbackReceipt, ProviderError> {
    if o.identity != p.authorization.identity || o.attemptId != p.authorization.attemptId
    then Err(ProviderTargetMismatch)
    else if o.outcome == ProviderFailure then Err(ReadbackNotAdmissible)
    else if r.target.providerId != p.authorization.target.providerId
            || r.target.resourceId != p.authorization.target.resourceId
            || r.target.action != p.authorization.target.action then Err(TargetReadbackMismatch)
    else if !r.verified || !IsH64(r.sha) then Err(ReadbackMissing)
    else if r.remoteVersion != p.authorization.expectedVersion then Err(RemoteDisagreement)
    else if r.evidence != p.route || !r.constants then Err(EvidenceSubstitution)
    else Ok(ReadbackReceipt(p.authorization.identity, p.authorization.attemptId, r.target.providerId,
                            r.target.resourceId, r.target.action, r.remoteVersion, r.sha))
  }

  datatype Proposal = Proposal(identity: Sha, attemptId: Name, readbackSha: Sha, resultSha: Sha)

  function ProposeCommit(p: Packet, o: Observation, receipt: Option<ReadbackReceipt>): Result<Proposal, ProviderError> {
    if !(o.outcome == Success || o.outcome == Timeout || o.outcome == ConnectionLost) then Err(CommitNotAdmissible)
    else if receipt.None? then Err(ReadbackMissing)
    else if receipt.value.identity != p.authorization.identity then Err(TargetReadbackMismatch)
    else Ok(Proposal(p.authorization.identity, p.authorization.attemptId, receipt.value.sha, o.sha))
  }

  /** One attempt from authorisation to commit proposal. */
  function ProposeFor(a: Authorization, secretHandle: bool, route: Route, result: ProviderResult,
                      readback: TargetReadback)
    : Result<Proposal, ProviderError>
  {
    var packet :- BuildPacket(a, secretHandle, route);
    var observation :- Classify(packet, result);
    var receipt :- ValidateReadback(packet, observation, readback);
    ProposeCommit(packet, observation, Some(receipt))
  }

  /** A provider result and a readback support one attempt on one target only. */
  lemma EvidenceBindsOneAttempt(a: Authorization, b: Authorization, secretA: bool, secretB: bool, routeA: Route,
                                routeB: Route, result: ProviderResult, readback: TargetReadback)
    requires ProposeFor(a, secretA, routeA, result, readback).Ok?
    requires ProposeFor(b, secretB, routeB, result, readback).Ok?
    ensures a.identity == b.identity && a.attemptId == b.attemptId
    ensures a.target == b.target && a.expectedVersion == b.expectedVersion && routeA == routeB
    ensures ProposeFor(a, secretA, routeA, result, readback) == ProposeFor(b, secretB, routeB, result, readback)
    ensures secretA && readback.verified && !result.claimsCommit && readback.remoteVersion == a.expectedVersion
  {
  }

  /** The result and the readback report this request's attempt on its own target: no
      failure, no claim of a commit, the expected version, read back by the same route. */
  ghost predicate Supports(request: Request, route: Route, result: ProviderResult, readback: TargetReadback) {
    && result.constants && result.secretFree && result.observationOnly && !result.claimsCommit
    && result.identity == IdentitySha(request) && result.attemptId == request.attemptId
    && result.target == request.target && IsH64(result.sha)
    && result.outcome in {Success, Timeout, ConnectionLost}
    && readback.constants && readback.verified && IsH64(readback.sha)
    && readback.remoteVersion == request.expectedVersion && readback.evidence == route
    && readback.target.providerId == request.target.providerId
    && readback.target.resourceId == request.target.resourceId && readback.target.action == request.target.action
  }

  /** For an admitted request a commit is proposed exactly on supporting evidence,
      gathered through a secret handle. */
  lemma ProposedIff(request: Request, policy: PolicyObservation, approval: Approval, pre: Precondition,
                    secretHandle: bool, route: Route, result: ProviderResult, readback: TargetReadback)
    requires Authorize(request, policy, approval, pre).Ok?
    ensures var a := Authorize(request, policy, approval, pre).value;
            && (ProposeFor(a, secretHandle, route, result, readback).Ok? <==>
                  secretHandle && Supports(request, route, result, readback))
            && (ProposeFor(a, secretHandle, route, result, readback).Ok? ==>
                  ProposeFor(a, secretHandle, route, result, readback).value
                  == Proposal(IdentitySha(request), request.attemptId, readback.sha, result.sha))
  {
    hide IsH64, SafeId, NonBlank;
  }

  /** The state proposed for an attempt may follow it; it ends the effect exactly when the
      provider failed, and leaves it unresolved exactly when the provider was not heard. */
  lemma ProposedStateFollows(p: Packet, r: ProviderResult)
    requires Classify(p, r).Ok?
    ensures var o := Classify(p, r).value;
            && o.proposal in Transitions(EffectAttempted)
            && (Terminal(o.proposal) <==> r.outcome == ProviderFailure)
            && (Unresolved(o.proposal) <==> r.outcome in {Timeout, ConnectionLost})
            && o == Observation(r.identity, r.attemptId, r.outcome, o.proposal, r.sha, p.route)
  {
  }

  /** A failed attempt never yields a commit proposal, whichever step is asked, and the
      ledger could not record it. */
  lemma FailureProposesNothing(request: Request, p: Packet, o: Observation, readback: TargetReadback,
                               receipt: Option<ReadbackReceipt>, ledger: Ledger, payload: Payload)
    requires o.outcome == ProviderFailure && payload.outcome == Some(ProviderFailure)
    ensures ValidateReadback(p, o, readback).Err? && ProposeCommit(p, o, receipt).Err?
    ensures Apply(request, ledger, AttemptRecorded, payload).Err?
  {
  }

  /** A packet built for one authorisation takes nothing from another: no result, readback
      or receipt under a different identity, and is built only for a fixed Git subject. */
  lemma StepsBindAlone(a: Authorization, secretHandle: bool, route: Route, p: Packet, r: ProviderResult, o: Observation,
                       readback: TargetReadback, receipt: ReadbackReceipt)
    requires BuildPacket(a, secretHandle, route) == Ok(p)
    ensures p.authorization == a && p.route == route && secretHandle
    ensures IsHex(a.target.providerSubject.commit.text, 40) && IsHex(a.target.providerSubject.tree.text, 40)
    ensures Classify(p, r).Ok? ==> r.identity == a.identity && r.attemptId == a.attemptId && r.target == a.target
    ensures ValidateReadback(p, o, readback).Ok? ==> o.identity == a.identity && o.attemptId == a.attemptId
    ensures ProposeCommit(p, o, Some(receipt)).Ok? ==> receipt.identity == a.identity && ProposeCommit(p, o, None).Err?
  {
  }

  /** Every commit proposal is backed by a history the ledger accepts: it ends
      committed with exactly that attempt and that readback, passing through an
      unknown result and a reconciliation when the provider timed out or was lost. */
  lemma ProposalsAreRealisable(request: Request, policy: PolicyObservation, approval: Approval, pre: Precondition,
                               secretHandle: bool, route: Route, result: ProviderResult, readback: TargetReadback)
    returns (history: seq<Event>)
    requires Authorize(request, policy, approval, pre).Ok?
    requires ProposeFor(Authorize(request, policy, approval, pre).value, secretHandle, route, result, readback).Ok?
    ensures var proposal := ProposeFor(Authorize(request, policy, approval, pre).value, secretHandle, route, result,
                                       readback).value;
            && Fold(request, history).Ok?
            && (var ledger := Fold(request, history).value;
                && ledger.state == EffectCommitted && ledger.commits == 1
                && ledger.attempts == [AttemptOf(request, proposal.attemptId, result.outcome)]
                && |ledger.readbacks| == 1 && ledger.readbacks[0].sha == proposal.readbackSha)
            && proposal.identity == IdentitySha(request)
    ensures Trace(SpecsOf(history)) == CommittedTrace(result.outcome != Success, 0)
    ensures var packet := Packet(Authorize(request, policy, approval, pre).value, secretHandle, route);
            Classify(packet, result).Ok?
            && Trace(SpecsOf(history))[|ADMISSION|] == Classify(packet, result).value.proposal
  {
    history := CommittedTracesOccur(request, request.attemptId, result.outcome, readback.sha,
                                    result.outcome != Success, 0);
  }
}
