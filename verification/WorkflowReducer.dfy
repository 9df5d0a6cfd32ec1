/** The offload workflow: a fold over a hash-chained typed history of 26 states. */
module WorkflowReducer {
  import opened Wrappers
  import opened Ordering
  import opened HashChains
  import opened HexDigests

  datatype State =
    | Submitted | AdmissionPending | Admitted | DeliveryPending | RemoteDispatched | Running | WaitingForResult
    | WaitingForHuman | Verifying | Reconciling | RetryScheduled | CancelRequested | Cancelling | Cancelled
    | DeadlineExpired | PolicyRefused | RuntimeAbsent | ActivityFailed | ResultStale | ResultRefused
    | Compensating | Compensated | CompensationFailed | FailedCleanup | Failed | Completed

  predicate Terminal(s: State) {
    || s.Cancelled? || s.DeadlineExpired? || s.PolicyRefused? || s.RuntimeAbsent? || s.ResultStale? || s.ResultRefused?
    || s.Compensated? || s.CompensationFailed? || s.FailedCleanup? || s.Failed? || s.Completed?
  }

  /** `TRANSITIONS`. */
  predicate Allowed(from: State, to: State) {
    match from
    case Submitted => to.AdmissionPending?
    case AdmissionPending => to.Admitted? || to.PolicyRefused? || to.RuntimeAbsent? || to.DeadlineExpired?
    case Admitted => to.DeliveryPending? || to.WaitingForHuman? || to.CancelRequested?
    case DeliveryPending =>
      to.RemoteDispatched? || to.RetryScheduled? || to.CancelRequested? || to.DeadlineExpired? || to.RuntimeAbsent?
    case RemoteDispatched => to.Running? || to.RetryScheduled? || to.CancelRequested? || to.ActivityFailed?
    case Running =>
      || to.WaitingForResult? || to.WaitingForHuman? || to.RetryScheduled? || to.CancelRequested?
      || to.ActivityFailed? || to.DeadlineExpired?
    case WaitingForResult => to.Verifying? || to.RetryScheduled? || to.CancelRequested? || to.DeadlineExpired?
    case WaitingForHuman => to.Admitted? || to.CancelRequested? || to.DeadlineExpired? || to.PolicyRefused?
    case Verifying => to.Reconciling? || to.ResultStale? || to.ResultRefused? || to.Compensating? || to.FailedCleanup?
    case Reconciling => to.Completed? || to.Compensating? || to.FailedCleanup? || to.Failed?
    case RetryScheduled => to.DeliveryPending? || to.CancelRequested? || to.DeadlineExpired?
    case CancelRequested => to.Cancelling?
    case Cancelling => to.Cancelled? || to.Compensating? || to.FailedCleanup?
    case ActivityFailed => to.RetryScheduled? || to.Compensating? || to.Failed?
    case Compensating => to.Compensated? || to.CompensationFailed?
    case _ => false
  }

  /** The typed events; each but `EffectRequested` and `OtherEvent` names a state change. */
  datatype EventType =
    | OnAdmissionRequested | OnAdmissionAllowed | OnDeliveryRequested | OnRemoteDispatched | OnExecutionStarted
    | OnResultWaiting | OnResultReceived | OnResultVerified | OnReconciled | OnHumanWaitRequired | OnHumanApproved
    | OnRetryRequested | OnRetryReady | OnCancelRequested | OnCancelStarted | OnCancelled | OnDeadlineExpired
    | OnPolicyRefused | OnRuntimeAbsent | OnActivityFailed | OnResultStale | OnResultRefused
    | OnCompensationRequired | OnCompensated | OnCompensationFailed | OnCleanupFailed | OnFailed
    | EffectRequested | OtherEvent

  /** `EVENT_TO_STATE`. */
  function EventToState(e: EventType): Option<State> {
    match e
    case OnAdmissionRequested => Some(AdmissionPending)
    case OnAdmissionAllowed => Some(Admitted)
    case OnDeliveryRequested => Some(DeliveryPending)
    case OnRemoteDispatched => Some(RemoteDispatched)
    case OnExecutionStarted => Some(Running)
    case OnResultWaiting => Some(WaitingForResult)
    case OnResultReceived => Some(Verifying)
    case OnResultVerified => Some(Reconciling)
    case OnReconciled => Some(Completed)
    case OnHumanWaitRequired => Some(WaitingForHuman)
    case OnHumanApproved => Some(Admitted)
    case OnRetryRequested => Some(RetryScheduled)
    case OnRetryReady => Some(DeliveryPending)
    case OnCancelRequested => Some(CancelRequested)
    case OnCancelStarted => Some(Cancelling)
    case OnCancelled => Some(Cancelled)
    case OnDeadlineExpired => Some(DeadlineExpired)
    case OnPolicyRefused => Some(PolicyRefused)
    case OnRuntimeAbsent => Some(RuntimeAbsent)
    case OnActivityFailed => Some(ActivityFailed)
    case OnResultStale => Some(ResultStale)
    case OnResultRefused => Some(ResultRefused)
    case OnCompensationRequired => Some(Compensating)
    case OnCompensated => Some(Compensated)
    case OnCompensationFailed => Some(CompensationFailed)
    case OnCleanupFailed => Some(FailedCleanup)
    case OnFailed => Some(Failed)
    case _ => None
  }

  /** Final are exactly the states with no way out. */
  lemma TerminalIff(s: State)
    ensures Terminal(s) <==> forall t :: !Allowed(s, t)
  {
    if !Terminal(s) {
      NotTerminal(s);
    }
  }

  lemma NotTerminal(s: State)
    requires !Terminal(s)
    ensures exists t :: Allowed(s, t)
  {
    var t := WayOn(s);
    assert Allowed(s, t);
  }

  /** Some state that may follow, if any may. */
  function WayOn(s: State): State {
    match s
    case Submitted => AdmissionPending
    case AdmissionPending => Admitted
    case WaitingForHuman => Admitted
    case Admitted => DeliveryPending
    case RetryScheduled => DeliveryPending
    case DeliveryPending => RemoteDispatched
    case RemoteDispatched => Running
    case Running => WaitingForResult
    case WaitingForResult => Verifying
    case Verifying => Reconciling
    case Reconciling => Completed
    case CancelRequested => Cancelling
    case Cancelling => Cancelled
    case ActivityFailed => Failed
    case _ => Compensated
  }

  // ------------------------------------------------------------ submissions

  datatype Sha = Root | Literal(text: Name) | OfEvent(body: EventBody)

  predicate IsH64(s: Option<Sha>) {
    match s
    case Some(Literal(n)) => IsHex(n.text, 64)
    case Some(OfEvent(_)) => true
    case _ => false
  }

  datatype SideEffect = ReadOnly | ReversibleWrite | OtherWrite

  datatype Submission = Submission(
    subject: Name,
    jobId: Name,
    tenant: Name,
    sideEffect: SideEffect,
    budgetAttempts: int,
    maxAttempts: int,
    policySha: Sha,
    runtimeSha: Sha,
    source: Name,
    otherFieldsValid: bool)

  /** The attempt bounds of `validate_job`; every other check is folded into one flag. */
  predicate ValidSubmission(s: Submission) {
    s.otherFieldsValid && 1 <= s.budgetAttempts <= 20 && 1 <= s.maxAttempts <= s.budgetAttempts
  }

  /** Text supplied as a digest is one exactly if it writes 64 hexadecimal digits; a
      missing one and the marker that starts a chain are none. */
  lemma SuppliedDigestIff(text: Name)
    ensures IsH64(Some(Literal(text))) <==> exists ns :: Nibbles(ns) && |ns| == 64 && text.text == Written(ns)
    ensures !IsH64(None) && !IsH64(Some(Root))
  {
    HexIff(text.text, 64);
  }

  // ----------------------------------------------------------------- events

  datatype Decision = Approve | Refuse
  datatype EffectMode = AdmissionRequest | CompensationRequest | OtherMode

  /** The payload keys that the reducer and its boundary layers read. */
  datatype Payload = Payload(
    sensitive: bool,
    writesLoopx: bool,
    mode: EffectMode,
    ownedByLedger: bool,
    idempotencyKey: Option<Name>,
    wallClock: bool,
    fromHistory: bool,
    parentAttempt: Option<Name>,
    nextAttempt: Option<Name>,
    attempt: Option<Name>,
    receipt: Option<Sha>,
    requestedFrom: Option<State>,
    waitTyped: bool,
    decision: Option<Decision>,
    byHuman: bool,
    decidedJob: Option<Name>,
    decidedTenant: Option<Name>,
    decidedPolicy: Option<Sha>,
    decidedRuntime: Option<Sha>,
    decidedSource: Option<Name>,
    evidence: Option<Sha>,
    reversible: bool,
    originalCommitted: bool,
    effectId: Option<Name>,
    parentKey: Option<Name>,
    compensationKey: Option<Name>,
    notExercised: bool,
    providerWrite: bool)

  datatype EventBody = EventBody(
    sequence: int, previous: Sha, subject: Name, jobId: Name, kind: EventType, payload: Payload)
  datatype Event = Event(body: EventBody, sha: Sha)

  datatype EffectRequest = EffectRequest(jobId: Name, tenant: Name, idempotencyKey: Name, payload: Payload)

  datatype Replay = Replay(state: State, retries: nat, effects: seq<EffectRequest>)

  datatype ReplayError =
    | InvalidSubmission | SequenceMismatch | DigestMismatch | SubjectMismatch | UnknownEvent | SecretLeak
    | DirectLoopxWrite | StaleReconciliation | EventAfterTerminal | UnexpectedEffect | OwnerBypass
    | RetryBudgetExceeded | HumanWaitAsSuccess | IllegalTransition

  function CheckEvent(s: Submission, event: Event, sequence: int, previous: Sha): Result<(), ReplayError> {
    if event.body.sequence != sequence then Err(SequenceMismatch)
    else if event.body.previous != previous then Err(DigestMismatch)
    else if event.body.subject != s.subject || event.body.jobId != s.jobId then Err(SubjectMismatch)
    else if event.sha != OfEvent(event.body) then Err(DigestMismatch)
    else if event.body.kind == OtherEvent then Err(UnknownEvent)
    else if event.body.payload.sensitive then Err(SecretLeak)
    else if event.body.payload.writesLoopx then Err(DirectLoopxWrite)
    else Ok(())
  }

  function CheckTransition(from: State, to: State): Result<(), ReplayError> {
    if from == WaitingForHuman && to == Completed then Err(HumanWaitAsSuccess)
    else if !Allowed(from, to) then Err(IllegalTransition)
    else Ok(())
  }

  function RequestEffect(s: Submission, p: Payload): Result<EffectRequest, ReplayError> {
    if s.sideEffect == ReadOnly then Err(UnexpectedEffect)
    else if p.mode != AdmissionRequest || !p.ownedByLedger
            || p.idempotencyKey.None? || p.idempotencyKey.value.text == "" then Err(OwnerBypass)
    else Ok(EffectRequest(s.jobId, s.tenant, p.idempotencyKey.value, p))
  }

  /** The effect of one well-chained event. */
  function Apply(s: Submission, r: Replay, kind: EventType, p: Payload): Result<Replay, ReplayError> {
    if r.state == ResultStale && (kind.OnResultReceived? || kind.OnResultVerified? || kind.OnReconciled?) then
      Err(StaleReconciliation)
    else if Terminal(r.state) then Err(EventAfterTerminal)
    else if kind == EffectRequested then
      var effect :- RequestEffect(s, p);
      Ok(r.(effects := r.effects + [effect]))
    else
      var retries := if kind == OnRetryRequested then r.retries + 1 else r.retries;
      if kind == OnRetryRequested && retries > s.maxAttempts - 1 then Err(RetryBudgetExceeded)
      else match EventToState(kind)
           case None => Err(UnknownEvent)
           case Some(to) =>
             var _ :- CheckTransition(r.state, to);
             Ok(r.(state := to, retries := retries))
  }

  /** An accepted event either requests an effect and leaves the state alone, or moves along an allowed transition. */
  lemma ApplyMoves(s: Submission, r: Replay, kind: EventType, p: Payload)
    requires Apply(s, r, kind, p).Ok?
    ensures var t := Apply(s, r, kind, p).value;
            if kind == EffectRequested then t.state == r.state && t.retries == r.retries
            else
              && EventToState(kind) == Some(t.state) && Allowed(r.state, t.state) && !Terminal(r.state)
              && t.retries == r.retries + (if kind == OnRetryRequested then 1 else 0)
              && (kind == OnRetryRequested ==> t.retries <= s.maxAttempts - 1)
              && (kind == OnRetryRequested <==> t.state == RetryScheduled)
              && (kind == OnHumanWaitRequired <==> t.state == WaitingForHuman)
  {
  }

  const START := Replay(Submitted, 0, [])

  function Head(history: seq<Event>): Sha {
    HeadOf(history, ShaOf, Root)
  }

  function Fold(s: Submission, history: seq<Event>): Result<Replay, ReplayError> {
    if history == [] then Ok(START)
    else
      var init, last := history[..|history| - 1], history[|history| - 1];
      var before :- Fold(s, init);
      var _ :- CheckEvent(s, last, |init|, Head(init));
      Apply(s, before, last.body.kind, last.body.payload)
  }

  datatype Reduction = Reduction(replay: Replay, head: Sha, count: nat)

  /** `reduce_history`. */
  method Reduce(s: Submission, history: seq<Event>) returns (r: Result<Reduction, ReplayError>)
    ensures r == if !ValidSubmission(s) then Err(InvalidSubmission)
                 else if Fold(s, history).Err? then Err(Fold(s, history).error)
                 else Ok(Reduction(Fold(s, history).value, Head(history), |history|))
  {
    if !ValidSubmission(s) {
      return Err(InvalidSubmission);
    }
    var replay, previous := START, Root;
    for i := 0 to |history|
      invariant previous == Head(history[..i]) && Fold(s, history[..i]) == Ok(replay)
    {
      var event := history[i];
      assert history[..i + 1][..i] == history[..i];
      var checked := CheckEvent(s, event, i, previous);
      if checked.Err? {
        FoldPrefix(s, history, i + 1);
        return Err(checked.error);
      }
      var next := Apply(s, replay, event.body.kind, event.body.payload);
      if next.Err? {
        FoldPrefix(s, history, i + 1);
        return Err(next.error);
      }
      replay, previous := next.value, event.sha;
    }
    assert history[..|history|] == history;
    return Ok(Reduction(replay, previous, |history|));
  }

  /** A history is accepted only if each of its prefixes is, and fails as its first refused prefix does. */
  lemma {:induction false} FoldPrefix(s: Submission, history: seq<Event>, n: nat)
    requires n <= |history|
    ensures Fold(s, history).Ok? ==> Fold(s, history[..n]).Ok?
    ensures Fold(s, history[..n]).Err? ==> Fold(s, history) == Fold(s, history[..n])
    decreases |history|
  {
    if n < |history| {
      var init := history[..|history| - 1];
      assert init[..n] == history[..n];
      FoldPrefix(s, init, n);
    } else {
      assert history[..n] == history;
    }
  }

  function ShaOf(e: Event): Sha {
    e.sha
  }

  function PreviousOf(e: Event): Sha {
    e.body.previous
  }

  /** An accepted history is chained, and every digest in it is that of its own event. */
  lemma {:induction false} AcceptedIsLinked(s: Submission, history: seq<Event>)
    requires Fold(s, history).Ok?
    ensures Linked(history, ShaOf, PreviousOf, Root)
    ensures forall e :: e in history ==> e.sha == OfEvent(e.body)
    decreases |history|
  {
    hide Apply;
    if history != [] {
      var init, last := history[..|history| - 1], history[|history| - 1];
      assert history == init + [last];
      AcceptedIsLinked(s, init);
      LinkedSnoc(init, last, ShaOf, PreviousOf, Root);
    }
  }

  lemma RootMeansEmpty(a: Submission, h: seq<Event>)
    requires Fold(a, h).Ok?
    ensures Head(h) == Root <==> h == []
  {
    hide Fold;
    AcceptedIsLinked(a, h);
  }

  /** Two accepted histories with the same head are the same, event for event. */
  lemma EqualHeadsEqualHistories(a: Submission, h: seq<Event>, b: Submission, k: seq<Event>)
    requires Fold(a, h).Ok? && Fold(b, k).Ok? && Head(h) == Head(k)
    ensures h == k
  {
    hide Fold;
    AcceptedIsLinked(a, h);
    AcceptedIsLinked(b, k);
    forall i, j | 0 <= i < |h| && 0 <= j < |k| && ShaOf(h[i]) == ShaOf(k[j]) ensures h[i] == k[j] {
      assert h[i].sha == OfEvent(h[i].body) && k[j].sha == OfEvent(k[j].body);
    }
    EqualHeads(h, k, ShaOf, PreviousOf, Root);
  }

  // ------------------------------------------------------------ chain_events

  datatype Spec = Spec(kind: EventType, payload: Payload)

  function MakeEvent(s: Submission, sequence: int, spec: Spec, previous: Sha): Event {
    var body := EventBody(sequence, previous, s.subject, s.jobId, spec.kind, spec.payload);
    Event(body, OfEvent(body))
  }

  function Chain(s: Submission, specs: seq<Spec>): (r: seq<Event>)
    ensures |r| == |specs|
  {
    if specs == [] then []
    else
      var before := Chain(s, specs[..|specs| - 1]);
      before + [MakeEvent(s, |before|, specs[|specs| - 1], Head(before))]
  }

  method ChainEvents(s: Submission, specs: seq<Spec>) returns (history: seq<Event>)
    ensures history == Chain(s, specs)
  {
    history := [];
    var previous := Root;
    for i := 0 to |specs|
      invariant history == Chain(s, specs[..i]) && previous == Head(history)
    {
      assert specs[..i + 1][..i] == specs[..i];
      var event := MakeEvent(s, i, specs[i], previous);
      history := history + [event];
      previous := event.sha;
    }
    assert specs[..|specs|] == specs;
  }

  predicate CleanSpec(spec: Spec) {
    spec.kind != OtherEvent && !spec.payload.sensitive && !spec.payload.writesLoopx
  }

  function FoldSpecs(s: Submission, specs: seq<Spec>): Result<Replay, ReplayError> {
    if specs == [] then Ok(START)
    else
      var last := specs[|specs| - 1];
      var before :- FoldSpecs(s, specs[..|specs| - 1]);
      Apply(s, before, last.kind, last.payload)
  }

  /** An event made for the end of a history passes its checks exactly when its payload is clean. */
  lemma MadeEventChecks(s: Submission, history: seq<Event>, spec: Spec)
    ensures var event := MakeEvent(s, |history|, spec, Head(history));
            && event.body.kind == spec.kind && event.body.payload == spec.payload
            && (CheckEvent(s, event, |history|, Head(history)).Ok? <==> CleanSpec(spec))
  {
  }

  lemma FoldOneMore(s: Submission, history: seq<Event>, spec: Spec)
    ensures Fold(s, history).Ok? && CleanSpec(spec) ==>
              Fold(s, history + [MakeEvent(s, |history|, spec, Head(history))])
              == Apply(s, Fold(s, history).value, spec.kind, spec.payload)
    ensures Fold(s, history).Err? || !CleanSpec(spec) ==>
              Fold(s, history + [MakeEvent(s, |history|, spec, Head(history))]).Err?
  {
    hide Apply, CheckEvent, MakeEvent, CleanSpec;
    MadeEventChecks(s, history, spec);
    var event := MakeEvent(s, |history|, spec, Head(history));
    assert (history + [event])[..|history|] == history;
  }

  /** A chained history passes every chain check: it is accepted exactly when its
      payloads are clean and its specs fold, and then it ends in the same state. */
  lemma {:induction false} ChainPasses(s: Submission, specs: seq<Spec>)
    ensures Fold(s, Chain(s, specs)).Ok? <==> FoldSpecs(s, specs).Ok? && forall x :: x in specs ==> CleanSpec(x)
    ensures Fold(s, Chain(s, specs)).Ok? ==> Fold(s, Chain(s, specs)) == FoldSpecs(s, specs)
    decreases |specs|
  {
    if specs != [] {
      var init, last := specs[..|specs| - 1], specs[|specs| - 1];
      assert specs == init + [last];
      FoldOneMore(s, Chain(s, init), last);
      ChainPasses(s, init);
    }
  }

  function SpecsOf(history: seq<Event>): (r: seq<Spec>)
    ensures |r| == |history|
    ensures forall i :: 0 <= i < |r| ==> r[i] == Spec(history[i].body.kind, history[i].body.payload)
  {
    seq(|history|, i requires 0 <= i < |history| => Spec(history[i].body.kind, history[i].body.payload))
  }

  lemma {:induction false} AcceptedSpecs(s: Submission, history: seq<Event>)
    requires Fold(s, history).Ok?
    ensures FoldSpecs(s, SpecsOf(history)) == Fold(s, history)
    decreases |history|
  {
    if history != [] {
      var init := history[..|history| - 1];
      assert SpecsOf(history)[..|history| - 1] == SpecsOf(init);
      AcceptedSpecs(s, init);
    }
  }

  lemma {:induction false} SpecsOfChain(s: Submission, specs: seq<Spec>)
    ensures SpecsOf(Chain(s, specs)) == specs
    decreases |specs|
  {
    if specs != [] {
      var init, last := specs[..|specs| - 1], specs[|specs| - 1];
      SpecsOfChain(s, init);
      var before := Chain(s, init);
      assert Chain(s, specs) == before + [MakeEvent(s, |before|, last, Head(before))];
      assert SpecsOf(Chain(s, specs)) == SpecsOf(before) + [last];
      assert specs == init + [last];
    }
  }

  // ---------------------------------------------------------- effect requests

  /** The payloads of the effect requests, in order. */
  function Requested(specs: seq<Spec>): seq<Payload> {
    if specs == [] then []
    else
      var before, last := Requested(specs[..|specs| - 1]), specs[|specs| - 1];
      if last.kind == EffectRequested then before + [last.payload] else before
  }

  ghost predicate Admissible(s: Submission, p: Payload) {
    s.sideEffect != ReadOnly && p.mode == AdmissionRequest && p.ownedByLedger
    && p.idempotencyKey.Some? && p.idempotencyKey.value.text != ""
  }

  ghost predicate Forwards(s: Submission, e: EffectRequest, p: Payload) {
    e.jobId == s.jobId && e.tenant == s.tenant && Some(e.idempotencyKey) == p.idempotencyKey && e.payload == p
  }

  /** The replay forwards every effect request of an accepted history, in order, for
      this job and tenant; each asks the effect ledger for admission, and a read-only
      job makes none. */
  lemma {:induction false} EffectsAreRequested(s: Submission, specs: seq<Spec>)
    requires FoldSpecs(s, specs).Ok?
    ensures var effects, payloads := FoldSpecs(s, specs).value.effects, Requested(specs);
            && |effects| == |payloads|
            && forall i :: 0 <= i < |effects| ==> Admissible(s, payloads[i]) && Forwards(s, effects[i], payloads[i])
    decreases |specs|
  {
    if specs != [] {
      var init, last := specs[..|specs| - 1], specs[|specs| - 1];
      EffectsAreRequested(s, init);
      EffectsKept(s, FoldSpecs(s, init).value, last);
      hide Apply;
    }
  }

  lemma EffectsKept(s: Submission, r: Replay, spec: Spec)
    requires Apply(s, r, spec.kind, spec.payload).Ok?
    ensures var t := Apply(s, r, spec.kind, spec.payload).value;
            if spec.kind != EffectRequested then t.effects == r.effects
            else Admissible(s, spec.payload) && |t.effects| == |r.effects| + 1
                 && t.effects[..|r.effects|] == r.effects && Forwards(s, t.effects[|r.effects|], spec.payload)
  {
  }
}
