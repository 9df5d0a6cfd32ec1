/** Which state sequences an accepted effect history can have. */
module EffectHistory {
  import opened Wrappers
  import opened Ordering
  import opened EffectTypes
  import opened EffectReducer

  /** The states a history passes through. */
  function Trace(specs: seq<Spec>): seq<EffectState> {
    if specs == [] then [EffectProposed]
    else
      var before, last := Trace(specs[..|specs| - 1]), specs[|specs| - 1];
      if last.kind == StateTransition && last.payload.target.Some? then before + [last.payload.target.value] else before
  }

  function SpecsOf(history: seq<Event>): (r: seq<Spec>)
    ensures |r| == |history|
  {
    seq(|history|, i requires 0 <= i < |history| => Spec(history[i].body.kind, history[i].body.payload))
  }

  /** An accepted history folds as its specs do. */
  lemma {:induction false} AcceptedSpecs(request: Request, history: seq<Event>)
    requires Fold(request, history).Ok?
    ensures FoldSpecs(request, SpecsOf(history)) == Fold(request, history)
    decreases |history|
  {
    if history != [] {
      var init := history[..|history| - 1];
      assert SpecsOf(history)[..|history| - 1] == SpecsOf(init);
      AcceptedSpecs(request, init);
    }
  }

  // ------------------------------------------------------ committed traces

  const ADMISSION := [EffectProposed, IntentValidated, PolicyAndApprovalChecked, IdempotencyReserved,
                      PreconditionRevalidated, ExecutionAuthorized, EffectAttempted]

  /** From the attempt to the first observation: directly, or through an unknown result. */
  function Detour(unknown: bool): seq<EffectState> {
    if unknown then [ResultUnknown, ReconciliationRequired] else []
  }

  /** Observations sent back for reconciliation. */
  function Loops(k: nat): seq<EffectState> {
    if k == 0 then [] else Loops(k - 1) + [EffectObserved, ReconciliationRequired]
  }

  function ObservedTrace(unknown: bool, k: nat): seq<EffectState> {
    ADMISSION + Detour(unknown) + Loops(k) + [EffectObserved]
  }

  function CommittedTrace(unknown: bool, k: nat): seq<EffectState> {
    ObservedTrace(unknown, k) + [EffectCommitted]
  }

  /** How a trace ending in state `s` must look. */
  ghost predicate Shaped(t: seq<EffectState>, s: EffectState) {
    match s
    case EffectProposed => t == ADMISSION[..1]
    case IntentValidated => t == ADMISSION[..2]
    case PolicyAndApprovalChecked => t == ADMISSION[..3]
    case IdempotencyReserved => t == ADMISSION[..4]
    case PreconditionRevalidated => t == ADMISSION[..5]
    case ExecutionAuthorized => t == ADMISSION[..6]
    case EffectAttempted => t == ADMISSION
    case ResultUnknown => t == ADMISSION + [ResultUnknown]
    case EffectObserved => exists unknown: bool, k: nat :: t == ObservedTrace(unknown, k)
    case ReconciliationRequired => exists unknown: bool, k: nat :: (unknown || k > 0) && t == Reconciling(unknown, k)
    case EffectCommitted => exists unknown: bool, k: nat :: t == CommittedTrace(unknown, k)
    case ReadOnlyNoEffect => t == ADMISSION[..1] + [ReadOnlyNoEffect]
    case PolicyRefused => t == ADMISSION[..3] + [PolicyRefused]
    case ApprovalRequired => t == ADMISSION[..3] + [ApprovalRequired]
    case DuplicateRefused => t == ADMISSION[..4] + [DuplicateRefused]
    case PreconditionStale => t == ADMISSION[..5] + [PreconditionStale]
    case AttemptFailed => t == ADMISSION + [AttemptFailed]
    case CompensationRequired => Compensates(t, [CompensationRequired])
    case Compensating => Compensates(t, [CompensationRequired, Compensating])
    case Compensated => Compensates(t, [CompensationRequired, Compensating, Compensated])
    case CompensationFailed => Compensates(t, [CompensationRequired, Compensating, CompensationFailed])
  }

  /** `t` ends with `last` after a reconciliation. */
  ghost predicate Compensates(t: seq<EffectState>, last: seq<EffectState>) {
    exists unknown: bool, k: nat :: (unknown || k > 0) && t == Reconciling(unknown, k) + last
  }

  function Reconciling(unknown: bool, k: nat): seq<EffectState> {
    ADMISSION + Detour(unknown) + Loops(k)
  }

  /** What every accepted prefix satisfies. */
  ghost predicate LedgerInvariant(request: Request, specs: seq<Spec>, ledger: Ledger) {
    && Shaped(Trace(specs), ledger.state)
    && ledger.commits == (if ledger.state == EffectCommitted then 1 else 0)
    && (EffectAttempted in Trace(specs) ==> ledger.attempts != [])
    && (ledger.state == EffectCommitted ==> ledger.readbacks != [])
    && (forall r :: r in ledger.readbacks ==> ReadbackFits(request, r))
    && (forall a :: a in ledger.attempts ==> AttemptFits(request, a))
    && (forall i, j :: 0 <= i < j < |ledger.attempts| ==> ledger.attempts[i].id != ledger.attempts[j].id)
  }

  /** Verified against the request's own target at the expected version. */
  predicate ReadbackFits(request: Request, r: Readback) {
    && r.remoteVersion == request.expectedVersion && IsH64(r.sha)
    && r.providerId == request.target.providerId && r.resourceId == request.target.resourceId
    && r.action == request.target.action
  }

  predicate AttemptFits(request: Request, a: Attempt) {
    a.requestSha == request.intent.requestSha && a.providerSubject == request.target.providerSubject
  }

  lemma ObservedExtends(t: seq<EffectState>, to: EffectState)
    requires Shaped(t, EffectObserved) && to in Transitions(EffectObserved)
    ensures Shaped(t + [to], to)
  {
    var unknown: bool, k: nat :| t == ObservedTrace(unknown, k);
    if to == ReconciliationRequired {
      assert t + [to] == Reconciling(unknown, k + 1);
    } else {
      assert t + [to] == CommittedTrace(unknown, k);
    }
  }

  lemma ReconcilingExtends(t: seq<EffectState>)
    requires Shaped(t, ReconciliationRequired)
    ensures Shaped(t + [EffectObserved], EffectObserved)
    ensures Shaped(t + [CompensationRequired], CompensationRequired)
  {
    var unknown: bool, k: nat :| (unknown || k > 0) && t == Reconciling(unknown, k);
    assert t + [EffectObserved] == ObservedTrace(unknown, k);
  }

  lemma CompensationExtends(t: seq<EffectState>, before: seq<EffectState>, to: EffectState)
    requires Compensates(t, before)
    ensures Compensates(t + [to], before + [to])
  {
    var unknown: bool, k: nat :| (unknown || k > 0) && t == Reconciling(unknown, k) + before;
    assert t + [to] == Reconciling(unknown, k) + (before + [to]);
  }

  lemma AttemptedExtends()
    ensures Shaped(ADMISSION + [EffectObserved], EffectObserved)
    ensures Shaped(ADMISSION + [ResultUnknown] + [ReconciliationRequired], ReconciliationRequired)
  {
    assert ADMISSION + [EffectObserved] == ObservedTrace(false, 0);
    assert ADMISSION + [ResultUnknown] + [ReconciliationRequired] == Reconciling(true, 0);
  }

  lemma AdmissionExtends(t: seq<EffectState>, i: nat, to: EffectState)
    requires i < 6 && Shaped(t, ADMISSION[i]) && to in Transitions(ADMISSION[i])
    ensures Shaped(t + [to], to)
  {
    hide Compensates, ObservedTrace, Reconciling, CommittedTrace;
    assert t == ADMISSION[..i + 1];
    assert ADMISSION[..i + 1] + [ADMISSION[i + 1]] == ADMISSION[..i + 2] && ADMISSION[..7] == ADMISSION;
  }

  /** A transition extends the shape of the trace. */
  lemma ShapeExtends(t: seq<EffectState>, from: EffectState, to: EffectState)
    requires Shaped(t, from) && to in Transitions(from)
    ensures Shaped(t + [to], to)
  {
    hide Compensates, ObservedTrace, Reconciling, CommittedTrace;
    match from
    case EffectProposed => AdmissionExtends(t, 0, to);
    case IntentValidated => AdmissionExtends(t, 1, to);
    case PolicyAndApprovalChecked => AdmissionExtends(t, 2, to);
    case IdempotencyReserved => AdmissionExtends(t, 3, to);
    case PreconditionRevalidated => AdmissionExtends(t, 4, to);
    case ExecutionAuthorized => AdmissionExtends(t, 5, to);
    case EffectAttempted => AttemptedExtends();
    case EffectObserved => ObservedExtends(t, to);
    case ResultUnknown => AttemptedExtends();
    case ReconciliationRequired => ReconcilingExtends(t);
    case CompensationRequired =>
      CompensationExtends(t, [CompensationRequired], to);
      assert [CompensationRequired] + [to] == [CompensationRequired, to];
    case Compensating =>
      CompensationExtends(t, [CompensationRequired, Compensating], to);
      assert [CompensationRequired, Compensating] + [to] == [CompensationRequired, Compensating, to];
    case _ =>
  }

  lemma LedgerStep(request: Request, specs: seq<Spec>, ledger: Ledger, spec: Spec)
    requires LedgerInvariant(request, specs, ledger)
    requires Apply(request, ledger, spec.kind, spec.payload).Ok?
    ensures LedgerInvariant(request, specs + [spec], Apply(request, ledger, spec.kind, spec.payload).value)
  {
    hide Shaped, Transitions;
    assert (specs + [spec])[..|specs|] == specs;
    if spec.kind == StateTransition {
      ShapeExtends(Trace(specs), ledger.state, spec.payload.target.value);
    }
  }

  lemma {:induction false} LedgerInvariantHolds(request: Request, specs: seq<Spec>)
    requires FoldSpecs(request, specs).Ok?
    ensures LedgerInvariant(request, specs, FoldSpecs(request, specs).value)
    decreases |specs|
  {
    if specs != [] {
      var init, last := specs[..|specs| - 1], specs[|specs| - 1];
      assert specs == init + [last];
      LedgerInvariantHolds(request, init);
      LedgerStep(request, init, FoldSpecs(request, init).value, last);
    }
  }

  /** Every accepted history that commits went once through the six admission
      states in order, then once into the attempt with an attempt already on record,
      then through an observation (possibly by way of an unknown result and any
      number of reconciliations) straight to the commit. It holds a readback of its
      own target at the expected version and counts one commit; any other accepted
      history counts none. */
  lemma CommittedHistories(request: Request, history: seq<Event>, ledger: Ledger)
    requires Fold(request, history) == Ok(ledger)
    ensures ledger.state != EffectCommitted ==> ledger.commits == 0
    ensures ledger.state == EffectCommitted ==>
              && ledger.commits == 1
              && (exists unknown: bool, k: nat :: Trace(SpecsOf(history)) == CommittedTrace(unknown, k))
              && ledger.attempts != [] && ledger.readbacks != []
              && ReadbackFits(request, ledger.readbacks[|ledger.readbacks| - 1])
  {
    AcceptedSpecs(request, history);
    LedgerInvariantHolds(request, SpecsOf(history));
  }

  lemma {:induction false} SpecsPrefix(request: Request, specs: seq<Spec>, n: nat)
    requires n <= |specs| && FoldSpecs(request, specs).Ok?
    ensures FoldSpecs(request, specs[..n]).Ok?
    decreases |specs|
  {
    if n < |specs| {
      var init := specs[..|specs| - 1];
      assert init[..n] == specs[..n];
      SpecsPrefix(request, init, n);
    } else {
      assert specs[..n] == specs;
    }
  }

  /** Wherever an accepted history enters the attempted state, an attempt is
      already recorded; wherever it commits, the latest readback fits. */
  lemma EntriesAreBacked(request: Request, specs: seq<Spec>, i: nat)
    requires i < |specs| && FoldSpecs(request, specs).Ok? && specs[i].kind == StateTransition
    ensures FoldSpecs(request, specs[..i]).Ok?
    ensures specs[i].payload.target == Some(EffectAttempted) ==> FoldSpecs(request, specs[..i]).value.attempts != []
    ensures specs[i].payload.target == Some(EffectCommitted) ==>
              var readbacks := FoldSpecs(request, specs[..i]).value.readbacks;
              readbacks != [] && ReadbackFits(request, readbacks[|readbacks| - 1])
  {
    SpecsPrefix(request, specs, i + 1);
    SpecsPrefix(request, specs, i);
    assert specs[..i + 1][..i] == specs[..i];
    LedgerInvariantHolds(request, specs[..i]);
  }

  /** Who may record what, and when; `before` is the ledger the event meets. */
  ghost predicate Authorised(before: Ledger, spec: Spec) {
    var p := spec.payload;
    && CleanPayload(spec.kind, p) && !Terminal(before.state)
    && (spec.kind == AttemptRecorded ==>
          && p.actor == Some(EffectLedger) && !Unresolved(before.state)
          && p.attemptId.Some? && forall a :: a in before.attempts ==> a.id != p.attemptId.value)
    && (spec.kind == ReadbackRecorded ==> p.actor == Some(EffectLedger) && p.verified)
    && (spec.kind == TaskProjection && p.taskDone ==>
          !Unresolved(before.state) && before.state != CompensationRequired && before.state != Compensating)
    && (spec.kind == StateTransition ==>
          && p.actor != Some(OtherActor) && p.target.Some? && p.target.value in Transitions(before.state)
          && (p.target == Some(EffectCommitted) ==>
                p.attemptResult !in {Some(Timeout), Some(ConnectionLost), Some(Unknown)}))
  }

  lemma ApplyAuthorises(request: Request, before: Ledger, spec: Spec)
    requires CleanPayload(spec.kind, spec.payload) && Apply(request, before, spec.kind, spec.payload).Ok?
    ensures Authorised(before, spec)
  {
  }

  /** Every event of an accepted history was authorised when it was made: no secret
      and no foreign writer, no recorder but the ledger, no repeated or blind retry,
      no task reported done over an unresolved effect, no commit on an unknown result. */
  lemma AcceptedEventsAreAuthorised(request: Request, history: seq<Event>, i: nat)
    requires Fold(request, history).Ok? && i < |history|
    ensures Fold(request, history[..i]).Ok?
    ensures Authorised(Fold(request, history[..i]).value, SpecsOf(history)[i])
  {
    FoldPrefix(request, history, i + 1);
    FoldPrefix(request, history, i);
    assert history[..i + 1][..i] == history[..i];
    var body := history[i].body;
    assert CheckEvent(request, history[i], i, Head(history[..i])).Ok?;
    ApplyAuthorises(request, Fold(request, history[..i]).value, Spec(body.kind, body.payload));
  }

  // ----------------------------------------------- every such trace occurs

  const BLANK := Payload(None, None, None, None, None, None, false, None, None, None, None, None, None, None,
                         false, false, false, false)

  function ToState(s: EffectState): Spec {
    Spec(StateTransition, BLANK.(target := Some(s)))
  }

  function AttemptSpec(request: Request, id: Name, outcome: Outcome): Spec {
    Spec(AttemptRecorded, BLANK.(
      attemptId := Some(id), outcome := Some(outcome), actor := Some(EffectLedger),
      requestSha := Some(request.intent.requestSha), normalizedSha := Some(request.intent.requestSha),
      providerSubject := Some(request.target.providerSubject)))
  }

  function ReadbackSpec(request: Request, sha: Sha): Spec {
    Spec(ReadbackRecorded, BLANK.(
      actor := Some(EffectLedger), verified := true, sha := Some(sha),
      remoteVersion := Some(request.expectedVersion), providerId := Some(request.target.providerId),
      resourceId := Some(request.target.resourceId), action := Some(request.target.action)))
  }

  predicate AllClean(specs: seq<Spec>) {
    forall s :: s in specs ==> CleanPayload(s.kind, s.payload)
  }

  /** `specs` is accepted, ends in `ledger` and passes through `trace`. */
  ghost predicate Realises(request: Request, specs: seq<Spec>, ledger: Ledger, trace: seq<EffectState>) {
    AllClean(specs) && FoldSpecs(request, specs) == Ok(ledger) && Trace(specs) == trace
  }

  lemma Move(request: Request, specs: seq<Spec>, ledger: Ledger, trace: seq<EffectState>, to: EffectState)
    requires Realises(request, specs, ledger, trace)
    requires to in Transitions(ledger.state) && to != EffectCommitted
    requires to == EffectAttempted ==> ledger.attempts != []
    ensures Realises(request, specs + [ToState(to)], ledger.(state := to), trace + [to])
  {
    hide CheckAttempt, CheckReadback;
    assert (specs + [ToState(to)])[..|specs|] == specs;
  }

  lemma Record(request: Request, specs: seq<Spec>, ledger: Ledger, trace: seq<EffectState>, spec: Spec)
    requires Realises(request, specs, ledger, trace)
    requires spec.kind in {AttemptRecorded, ReadbackRecorded} && CleanPayload(spec.kind, spec.payload)
    requires Apply(request, ledger, spec.kind, spec.payload).Ok?
    ensures Realises(request, specs + [spec], Apply(request, ledger, spec.kind, spec.payload).value, trace)
  {
    assert (specs + [spec])[..|specs|] == specs;
  }

  function AttemptOf(request: Request, id: Name, outcome: Outcome): Attempt {
    Attempt(id, outcome, request.intent.requestSha, request.target.providerSubject)
  }

  lemma Authorized(request: Request) returns (specs: seq<Spec>)
    ensures Realises(request, specs, Ledger(ExecutionAuthorized, [], [], 0), ADMISSION[..6])
  {
    specs := [];
    assert Realises(request, specs, INITIAL, ADMISSION[..1]);
    for i := 1 to 6
      invariant Realises(request, specs, Ledger(ADMISSION[i - 1], [], [], 0), ADMISSION[..i])
    {
      Move(request, specs, Ledger(ADMISSION[i - 1], [], [], 0), ADMISSION[..i], ADMISSION[i]);
      specs := specs + [ToState(ADMISSION[i])];
      assert ADMISSION[..i] + [ADMISSION[i]] == ADMISSION[..i + 1];
    }
  }

  lemma Attempted(request: Request, id: Name, outcome: Outcome) returns (specs: seq<Spec>)
    requires id.text != "" && outcome != ProviderFailure
    ensures Realises(request, specs, Ledger(EffectAttempted, [AttemptOf(request, id, outcome)], [], 0), ADMISSION)
  {
    specs := Authorized(request);
    var ledger := Ledger(ExecutionAuthorized, [], [], 0);
    Record(request, specs, ledger, ADMISSION[..6], AttemptSpec(request, id, outcome));
    specs := specs + [AttemptSpec(request, id, outcome)];
    assert ledger.attempts + [AttemptOf(request, id, outcome)] == [AttemptOf(request, id, outcome)];
    ledger := ledger.(attempts := [AttemptOf(request, id, outcome)]);
    Move(request, specs, ledger, ADMISSION[..6], EffectAttempted);
    specs := specs + [ToState(EffectAttempted)];
    assert ADMISSION[..6] + [EffectAttempted] == ADMISSION;
  }

  lemma ObservedOnce(request: Request, id: Name, outcome: Outcome, unknown: bool) returns (specs: seq<Spec>)
    requires id.text != "" && outcome != ProviderFailure
    ensures Realises(request, specs, Ledger(EffectObserved, [AttemptOf(request, id, outcome)], [], 0),
                     ADMISSION + Detour(unknown) + [EffectObserved])
  {
    hide Realises, AttemptOf;
    specs := Attempted(request, id, outcome);
    var ledger, trace := Ledger(EffectAttempted, [AttemptOf(request, id, outcome)], [], 0), ADMISSION;
    if unknown {
      Move(request, specs, ledger, trace, ResultUnknown);
      specs, ledger, trace := specs + [ToState(ResultUnknown)],
                              ledger.(state := ResultUnknown), trace + [ResultUnknown];
      Move(request, specs, ledger, trace, ReconciliationRequired);
      specs, ledger, trace := specs + [ToState(ReconciliationRequired)],
                              ledger.(state := ReconciliationRequired), trace + [ReconciliationRequired];
    }
    assert trace == ADMISSION + Detour(unknown);
    Move(request, specs, ledger, trace, EffectObserved);
    specs := specs + [ToState(EffectObserved)];
  }

  lemma ObservedAgain(request: Request, before: seq<Spec>, ledger: Ledger, trace: seq<EffectState>)
    returns (specs: seq<Spec>)
    requires ledger.state == EffectObserved && Realises(request, before, ledger, trace)
    ensures Realises(request, specs, ledger, trace + [ReconciliationRequired] + [EffectObserved])
  {
    Move(request, before, ledger, trace, ReconciliationRequired);
    specs := before + [ToState(ReconciliationRequired)];
    Move(request, specs, ledger.(state := ReconciliationRequired), trace + [ReconciliationRequired], EffectObserved);
    specs := specs + [ToState(EffectObserved)];
  }

  lemma OneMoreLoop(unknown: bool, k: nat)
    ensures ObservedTrace(unknown, k) + [ReconciliationRequired] + [EffectObserved] == ObservedTrace(unknown, k + 1)
  {
  }

  lemma {:induction false} Reconciled(request: Request, id: Name, outcome: Outcome, unknown: bool, k: nat)
    returns (specs: seq<Spec>)
    requires id.text != "" && outcome != ProviderFailure
    ensures Realises(request, specs, Ledger(EffectObserved, [AttemptOf(request, id, outcome)], [], 0),
                     ObservedTrace(unknown, k))
    decreases k
  {
    if k == 0 {
      specs := ObservedOnce(request, id, outcome, unknown);
      assert ADMISSION + Detour(unknown) + [EffectObserved] == ObservedTrace(unknown, 0);
    } else {
      var before := Reconciled(request, id, outcome, unknown, k - 1);
      specs := ObservedAgain(request, before, Ledger(EffectObserved, [AttemptOf(request, id, outcome)], [], 0),
                             ObservedTrace(unknown, k - 1));
      OneMoreLoop(unknown, k - 1);
    }
  }

  /** Every committed trace is the trace of an accepted chained history. */
  lemma CommittedTracesOccur(request: Request, id: Name, outcome: Outcome, sha: Sha, unknown: bool, k: nat)
    returns (history: seq<Event>)
    requires id.text != "" && outcome != ProviderFailure && IsH64(sha)
    ensures Fold(request, history).Ok? && Trace(SpecsOf(history)) == CommittedTrace(unknown, k)
    ensures var ledger := Fold(request, history).value;
            && ledger.state == EffectCommitted && ledger.commits == 1
            && ledger.attempts == [AttemptOf(request, id, outcome)]
            && |ledger.readbacks| == 1 && ledger.readbacks[0].sha == sha && ReadbackFits(request, ledger.readbacks[0])
  {
    var specs := Reconciled(request, id, outcome, unknown, k);
    var attempts, trace := [AttemptOf(request, id, outcome)], ObservedTrace(unknown, k);
    var readback := Readback(request.expectedVersion, sha, request.target.providerId, request.target.resourceId,
                             request.target.action);
    Record(request, specs, Ledger(EffectObserved, attempts, [], 0), trace, ReadbackSpec(request, sha));
    assert [] + [readback] == [readback];
    specs := specs + [ReadbackSpec(request, sha)];
    Commit(request, specs, Ledger(EffectObserved, attempts, [readback], 0), trace);
    specs := specs + [ToState(EffectCommitted)];
    ChainPasses(request, specs);
    history := Chain(request, specs);
    SpecsOfChain(request, specs);
  }

  lemma CommitApplies(request: Request, ledger: Ledger)
    requires ledger.state == EffectObserved && ledger.attempts != [] && ledger.commits == 0
    requires ledger.readbacks != [] && ReadbackFits(request, ledger.readbacks[|ledger.readbacks| - 1])
    ensures Apply(request, ledger, StateTransition, ToState(EffectCommitted).payload) ==
            Ok(ledger.(state := EffectCommitted, commits := 1))
  {
    var readback := Latest(ledger.readbacks);
    assert CheckTransition(EffectObserved, Some(EffectCommitted), EffectLedger, None, readback, request.expectedVersion)
           == Ok(EffectCommitted);
  }

  lemma Commit(request: Request, specs: seq<Spec>, ledger: Ledger, trace: seq<EffectState>)
    requires Realises(request, specs, ledger, trace)
    requires ledger.state == EffectObserved && ledger.attempts != [] && ledger.commits == 0
    requires ledger.readbacks != [] && ReadbackFits(request, ledger.readbacks[|ledger.readbacks| - 1])
    ensures Realises(request, specs + [ToState(EffectCommitted)], ledger.(state := EffectCommitted, commits := 1),
                     trace + [EffectCommitted])
  {
    CommitApplies(request, ledger);
    assert (specs + [ToState(EffectCommitted)])[..|specs|] == specs;
  }

  lemma {:induction false} SpecsOfChain(request: Request, specs: seq<Spec>)
    ensures SpecsOf(Chain(request, specs)) == specs
    decreases |specs|
  {
    if specs != [] {
      var init := specs[..|specs| - 1];
      SpecsOfChain(request, init);
      var h := Chain(request, specs);
      assert h == Chain(request, init) + [h[|h| - 1]];
      assert SpecsOf(h) == SpecsOf(Chain(request, init)) + [specs[|specs| - 1]];
      assert specs == init + [specs[|specs| - 1]];
    }
  }
}
