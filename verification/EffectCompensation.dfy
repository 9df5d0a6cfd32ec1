/** Compensating a committed effect by a linked effect request of its own. */
module EffectCompensation {
  import opened Wrappers
  import opened Ordering
  import opened EffectTypes
  import opened EffectReducer
  import opened EffectHistory
  import opened EffectAdmission
  import opened EffectTraces

  datatype CompensationError =
    | InvalidParent
    | RequiresReversibleParent
    | NotDeclared
    | UnknownEffectForbidden
    | RequiresCommittedParent
    | InvalidChild
    | IdempotencyReuse
    | IdentityReuse
    | NotAuthorized
    | ParentIdentityDrift
    | AuditDeletion
    | LineageMismatch
    | AdmissionRequired

  datatype Link = Link(
    parentIdentity: Sha,
    parentEffectId: Name,
    parentKey: Name,
    parentHead: Sha,
    parentReadback: Sha,
    parentVersion: Name,
    childIdentity: Sha,
    childEffectId: Name,
    childKey: Name,
    child: Request,
    authorization: Authorization)

  function Suffixed(n: Name, suffix: string): Name {
    Name(n.text + suffix)
  }

  /** The compensating request, derived from the parent and its last readback. */
  function ChildOf(parent: Request, readback: Readback): Request {
    var key := Suffixed(parent.intent.idempotencyKey, ":comp");
    var effect := Suffixed(parent.intent.effectId, ":comp");
    var requestSha := OfCompensation(IdentitySha(parent), parent.intent.planSha, readback.sha);
    parent.(
      intent := parent.intent.(
        effectId := effect,
        idempotencyKey := key,
        requestSha := requestSha,
        targetSubject := Suffixed(parent.intent.targetSubject, "/compensation"),
        disposition := HumanOwned),
      logicalOperation := Suffixed(parent.logicalOperation, ":compensate"),
      attemptId := Suffixed(parent.attemptId, ":comp"),
      target := parent.target.(action := Name("compensate")),
      workflow := parent.workflow.(idempotencyKey := key, requestSha := requestSha),
      approvalSha := OfApproval(parent.approvalSha, effect),
      preconditionSha := OfPrecondition(readback.sha, readback.remoteVersion),
      expectedVersion := readback.remoteVersion)
  }

  function FixedPolicy(r: Request): PolicyObservation {
    PolicyObservation(true, true, r.policySha, 7, IdentitySha(r), r.tenant, r.project)
  }

  function FixedApproval(r: Request): Approval {
    Approval(true, true, r.approvalSha, IdentitySha(r), r.intent.jobId, r.taskId, r.attemptId, r.tenant, r.project)
  }

  function FixedPrecondition(r: Request): Precondition {
    Precondition(true, IdentitySha(r), r.preconditionSha, r.expectedVersion, r.intent.targetSubject)
  }

  function BuildLink(parent: Request, result: Reduction): Result<Link, CompensationError> {
    if !ValidRequest(parent) then Err(InvalidParent)
    else if parent.intent.sideEffect != ReversibleWrite then Err(RequiresReversibleParent)
    else if parent.intent.disposition != Declared then Err(NotDeclared)
    else if Unresolved(result.ledger.state) then Err(UnknownEffectForbidden)
    else if result.ledger.state != EffectCommitted || result.ledger.commits != 1 then Err(RequiresCommittedParent)
    else if result.ledger.attempts == [] || result.ledger.readbacks == [] then Err(RequiresCommittedParent)
    else
      var readback := result.ledger.readbacks[|result.ledger.readbacks| - 1];
      var child := ChildOf(parent, readback);
      if !ValidRequest(child) then Err(InvalidChild)
      else if child.intent.idempotencyKey == parent.intent.idempotencyKey then Err(IdempotencyReuse)
      else if IdentitySha(child) == IdentitySha(parent) then Err(IdentityReuse)
      else match Authorize(child, FixedPolicy(child), FixedApproval(child), FixedPrecondition(child))
           case Err(_) => Err(NotAuthorized)
           case Ok(authorization) =>
             Ok(Link(IdentitySha(parent), parent.intent.effectId, parent.intent.idempotencyKey, result.head,
                     readback.sha, readback.remoteVersion, IdentitySha(child), child.intent.effectId,
                     child.intent.idempotencyKey, child, authorization))
  }

  function ValidateLink(parent: Request, result: Reduction, link: Link): Result<(), CompensationError> {
    if !ValidRequest(parent) then Err(InvalidParent)
    else if link.parentIdentity != IdentitySha(parent) || link.parentEffectId != parent.intent.effectId
            || link.parentKey != parent.intent.idempotencyKey then Err(ParentIdentityDrift)
    else if link.parentHead != result.head then Err(AuditDeletion)
    else if !ValidRequest(link.child) then Err(InvalidChild)
    else if link.childIdentity != IdentitySha(link.child) then Err(LineageMismatch)
    else if link.childKey == link.parentKey then Err(IdempotencyReuse)
    else if link.authorization.identity != link.childIdentity then Err(AdmissionRequired)
    else Ok(())
  }

  /** The child's four lengthened identifiers must fit in 128 characters. */
  predicate LeavesRoom(parent: Request) {
    && |parent.intent.effectId.text| <= 123 && |parent.intent.idempotencyKey.text| <= 123
    && |parent.attemptId.text| <= 123 && |parent.logicalOperation.text| <= 117
  }

  lemma SuffixSafe(n: Name, suffix: string)
    requires SafeId(n) && forall i :: 0 <= i < |suffix| ==> IdChar(suffix[i])
    ensures SafeId(Suffixed(n, suffix)) <==> |n.text| + |suffix| <= 128
  {
  }

  lemma SuffixNonBlank(n: Name, suffix: string)
    requires NonBlank(n)
    ensures NonBlank(Suffixed(n, suffix))
  {
    var i :| 0 <= i < |n.text| && n.text[i] !in {' ', '\t', '\n', '\r'};
    assert Suffixed(n, suffix).text[i] == n.text[i];
  }

  lemma ChildValidIff(parent: Request, readback: Readback)
    requires ValidRequest(parent) && ReadbackFits(parent, readback)
    ensures ValidRequest(ChildOf(parent, readback)) <==> LeavesRoom(parent)
  {
    SuffixSafe(parent.intent.effectId, ":comp");
    SuffixSafe(parent.intent.idempotencyKey, ":comp");
    SuffixSafe(parent.attemptId, ":comp");
    SuffixSafe(parent.logicalOperation, ":compensate");
    SuffixNonBlank(parent.intent.targetSubject, "/compensation");
    assert Name("compensate").text[0] == 'c';
  }

  /** The child's request digest fixes the parent, its compensation plan and the readback
      undone; its approval and precondition fix the approval, the child and that readback. */
  lemma ChildIsBound(p: Request, a: Readback, q: Request, b: Readback)
    ensures ChildOf(p, a).intent.requestSha == ChildOf(q, b).intent.requestSha <==>
            KeyOf(p) == KeyOf(q) && p.intent.planSha == q.intent.planSha && a.sha == b.sha
    ensures ChildOf(p, a).approvalSha == ChildOf(q, b).approvalSha <==>
            p.approvalSha == q.approvalSha && ChildOf(p, a).intent.effectId == ChildOf(q, b).intent.effectId
    ensures ChildOf(p, a).preconditionSha == ChildOf(q, b).preconditionSha <==>
            a.sha == b.sha && a.remoteVersion == b.remoteVersion
  {
  }

  /** What reads the child back, and what authorises it, is of the parent's provider and
      resource, for the action `compensate`, from the version the parent left. */
  lemma ChildTarget(parent: Request, readback: Readback, r: Readback, pre: Precondition)
    ensures ReadbackFits(ChildOf(parent, readback), r) <==>
            && IsH64(r.sha) && r.remoteVersion == readback.remoteVersion && r.action == Name("compensate")
            && r.providerId == parent.target.providerId && r.resourceId == parent.target.resourceId
    ensures PreconditionHolds(ChildOf(parent, readback), pre) ==>
              && pre.remoteVersion == readback.remoteVersion
              && pre.targetSubject.text == parent.intent.targetSubject.text + "/compensation"
  {
    hide IsH64;
  }

  lemma FixedAuthorises(request: Request)
    requires ValidRequest(request) && request.intent.sideEffect == ReversibleWrite
    ensures Authorize(request, FixedPolicy(request), FixedApproval(request), FixedPrecondition(request)).Ok?
  {
    hide ValidRequest;
  }

  lemma ChildDiffers(parent: Request, readback: Readback)
    ensures ChildOf(parent, readback).intent.sideEffect == parent.intent.sideEffect
    ensures ChildOf(parent, readback).intent.effectId != parent.intent.effectId
    ensures ChildOf(parent, readback).intent.idempotencyKey != parent.intent.idempotencyKey
  {
    assert |Suffixed(parent.intent.effectId, ":comp").text| == |parent.intent.effectId.text| + 5;
    assert |Suffixed(parent.intent.idempotencyKey, ":comp").text| == |parent.intent.idempotencyKey.text| + 5;
  }

  /** For a parent whose accepted history committed, a link is built exactly when
      the write is reversible, its compensation declared and its identifiers leave room. */
  lemma LinkBuiltIff(parent: Request, history: seq<Event>, ledger: Ledger)
    requires ValidRequest(parent) && Fold(parent, history) == Ok(ledger) && ledger.state == EffectCommitted
    ensures BuildLink(parent, Reduction(ledger, Head(history), |history|)).Ok? <==>
            && parent.intent.sideEffect == ReversibleWrite && parent.intent.disposition == Declared
            && LeavesRoom(parent)
  {
    hide ValidRequest, LeavesRoom, Fold, CommittedTrace, ChildOf, Authorize, ReadbackFits;
    CommittedHistories(parent, history, ledger);
    var readback := ledger.readbacks[|ledger.readbacks| - 1];
    ChildValidIff(parent, readback);
    ChildDiffers(parent, readback);
    if LeavesRoom(parent) && parent.intent.sideEffect == ReversibleWrite {
      FixedAuthorises(ChildOf(parent, readback));
    }
  }

  /** Only a committed parent can be compensated. */
  lemma LinkNeedsCommit(parent: Request, history: seq<Event>, ledger: Ledger)
    requires Fold(parent, history) == Ok(ledger)
    ensures BuildLink(parent, Reduction(ledger, Head(history), |history|)).Ok? ==> ledger.state == EffectCommitted
  {
  }

  /** Every built link validates; its child is a distinct effect that clashes with
      nothing of the parent's, cannot be compensated in turn, and can be reserved once. */
  lemma BuiltLinksAreSound(parent: Request, result: Reduction, childResult: Reduction, list: seq<Request>)
    requires BuildLink(parent, result).Ok?
    ensures var link := BuildLink(parent, result).value;
            && ValidateLink(parent, result, link) == Ok(())
            && ClassifyDuplicate(parent, link.child) == Ok(Distinct)
            && BuildLink(link.child, childResult) == Err(NotDeclared)
            && (VerdictOn(list, link.child) == Reserves ==> VerdictOn(list + [link.child], link.child) == Repeats)
  {
    var link := BuildLink(parent, result).value;
    ChildDiffers(parent, result.ledger.readbacks[|result.ledger.readbacks| - 1]);
    if VerdictOn(list, link.child) == Reserves {
      forall p | p in list + [link.child] ensures !Clashes(p, link.child) {
        assert p in list || p == link.child;
      }
      assert link.child in list + [link.child];
    }
  }

  /** A link built on an accepted history names its last event, its last readback and its
      own child. */
  lemma LinkNamesHistory(parent: Request, history: seq<Event>, ledger: Ledger)
    requires Fold(parent, history) == Ok(ledger)
    requires BuildLink(parent, Reduction(ledger, Head(history), |history|)).Ok?
    ensures var link := BuildLink(parent, Reduction(ledger, Head(history), |history|)).value;
            var readbacks := Payloads(SpecsOf(history), ReadbackRecorded);
            && history != [] && link.parentHead == history[|history| - 1].sha
            && readbacks != [] && Some(link.parentReadback) == readbacks[|readbacks| - 1].sha
            && Some(link.parentVersion) == readbacks[|readbacks| - 1].remoteVersion
            && link.parentIdentity == OfIdentity(KeyOf(parent)) && link.childIdentity == OfIdentity(KeyOf(link.child))
            && link.childEffectId == link.child.intent.effectId && link.childKey == link.child.intent.idempotencyKey
            && link.parentEffectId == parent.intent.effectId && link.parentKey == parent.intent.idempotencyKey
            && link.authorization.identity == link.childIdentity
  {
    AcceptedIff(parent, history);
    hide ValidRequest, Fold, Payloads, ChildOf, LastState, AllPermitted, Chained;
    assert history != [] by { StartIsUncommitted(parent); }
    var readbacks := Payloads(SpecsOf(history), ReadbackRecorded);
    assert Some(ledger.readbacks[|readbacks| - 1]) == ReadbackFrom(readbacks[|readbacks| - 1]);
  }

  lemma StartIsUncommitted(parent: Request)
    ensures Fold(parent, []) == Ok(INITIAL) && INITIAL.state != EffectCommitted
  {
  }

  /** Exactly the links that validate: parent and child are valid, the link names the
      parent's identity, effect and key and the history's head, and the child's identity,
      under which it was authorised, with a key other than the parent's. It may say
      anything else. */
  lemma LinkValidatesIff(parent: Request, result: Reduction, link: Link)
    ensures ValidateLink(parent, result, link).Ok? <==>
            && ValidRequest(parent) && ValidRequest(link.child) && link.childKey != parent.intent.idempotencyKey
            && link == link.(
                 parentIdentity := OfIdentity(KeyOf(parent)), parentEffectId := parent.intent.effectId,
                 parentKey := parent.intent.idempotencyKey, parentHead := result.head,
                 childIdentity := OfIdentity(KeyOf(link.child)),
                 authorization := link.authorization.(identity := OfIdentity(KeyOf(link.child))))
  {
    hide ValidRequest;
  }

  /** A validated link belongs to one parent and one history, and carries a valid
      child that was authorised under its own identity. */
  lemma ValidatedLinksAreBound(parent: Request, result: Reduction, other: Request, otherResult: Reduction, link: Link)
    requires ValidateLink(parent, result, link).Ok? && ValidateLink(other, otherResult, link).Ok?
    ensures KeyOf(parent) == KeyOf(other) && result.head == otherResult.head
    ensures ValidRequest(link.child) && link.authorization.identity == IdentitySha(link.child)
  {
    assert IdentitySha(parent) == link.parentIdentity == IdentitySha(other);
  }

  /** The validator compares the keys the link states, and never asks whether the
      stated child key is the child's, nor, as the builder does, whether the two
      identities differ. A validated child is another effect than its parent exactly
      when they do; stating the child's own key is enough ... */
  lemma ValidatedChildDiffersIff(parent: Request, result: Reduction, link: Link)
    requires ValidateLink(parent, result, link).Ok?
    ensures KeyOf(link.child) != KeyOf(parent) <==> link.childIdentity != link.parentIdentity
    ensures link.childKey == link.child.intent.idempotencyKey ==>
              link.childIdentity != link.parentIdentity && ClassifyDuplicate(parent, link.child) != Ok(DuplicateOf)
  {
    assert link.childIdentity == OfIdentity(KeyOf(link.child)) && link.parentIdentity == OfIdentity(KeyOf(parent));
  }

  /** ... but without that the child may be the parent itself. */
  lemma ValidatedChildMayBeParent(parent: Request, result: Reduction, authorization: Authorization) returns (link: Link)
    requires ValidRequest(parent) && authorization.identity == IdentitySha(parent)
    ensures ValidateLink(parent, result, link).Ok? && link.child == parent
    ensures link.childKey != link.child.intent.idempotencyKey
  {
    var other := Suffixed(parent.intent.idempotencyKey, ":comp");
    assert |other.text| != |parent.intent.idempotencyKey.text|;
    link := Link(IdentitySha(parent), parent.intent.effectId, parent.intent.idempotencyKey, result.head, Root,
                 parent.expectedVersion, IdentitySha(parent), parent.intent.effectId, other, parent, authorization);
  }
}
