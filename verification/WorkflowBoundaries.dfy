/** The retry, human-wait and compensation layers around the reducer. Each scans
    the raw history with a state of its own and then replays it. */
module WorkflowBoundaries {
  import opened Wrappers
  import opened Ordering
  import opened WorkflowReducer
  import opened WorkflowRuns

  datatype BoundaryError =
    | WallClockSource | RetryBudget | LostParentAttempt | InvalidNextAttempt | UntypedTimer | UntypedDeadline
    | CancelStateMismatch | UntypedCancellation | WaitSchemaMismatch | ApprovalBeforeWait | DuplicateDecision
    | SelfApproval | ScopeMismatch | StaleDecision | DecisionMismatch | RequiresReversible | DirectCompensation
    | RequiresCommitted | LineageMismatch | WithoutParent | FixtureAsLive | Replaying(error: ReplayError)

  // ---------------------------------------------- retries, timers, cancels

  const FIRST_ATTEMPT := Name("attempt-1")

  /** `attempt-` followed by at least one identifier character. */
  predicate AttemptName(n: Name) {
    && |n.text| > 8 && n.text[..8] == "attempt-"
    && forall i :: 8 <= i < |n.text| ==>
         var c := n.text[i];
         'A' <= c <= 'Z' || 'a' <= c <= 'z' || '0' <= c <= '9' || c == '.' || c == '_' || c == ':' || c == '-'
  }

  ghost predicate AttemptChars(rest: string) {
    rest != "" && forall i :: 0 <= i < |rest| ==>
      'A' <= rest[i] <= 'Z' || 'a' <= rest[i] <= 'z' || '0' <= rest[i] <= '9' || rest[i] in "._:-"
  }

  lemma NameFromChars(rest: string)
    requires AttemptChars(rest)
    ensures AttemptName(Name("attempt-" + rest))
  {
    var text := "attempt-" + rest;
    assert text[..8] == "attempt-";
    forall i | 8 <= i < |text| ensures text[i] == rest[i - 8] {
    }
  }

  lemma CharsFromName(n: Name)
    requires AttemptName(n)
    ensures AttemptChars(n.text[8..]) && n.text == "attempt-" + n.text[8..]
  {
    forall i | 0 <= i < |n.text[8..]| ensures n.text[8..][i] == n.text[i + 8] {
    }
  }

  /** An attempt's name is `attempt-` and at least one letter, digit, dot, underscore, colon or hyphen. */
  lemma AttemptNameIff(n: Name)
    ensures AttemptName(n) <==> exists rest :: n.text == "attempt-" + rest && AttemptChars(rest)
  {
    hide AttemptName, AttemptChars;
    if AttemptName(n) {
      CharsFromName(n);
    }
    if rest :| n.text == "attempt-" + rest && AttemptChars(rest) {
      NameFromChars(rest);
      assert n == Name("attempt-" + rest);
    }
  }

  /** The layer's own state, its current attempt and its own retry count. */
  datatype Shadow = Shadow(state: State, attempt: Name, retries: nat)

  function ShadowChecks(s: Submission, b: Shadow, kind: EventType, p: Payload): Result<Shadow, BoundaryError> {
    if p.wallClock then Err(WallClockSource)
    else match kind
         case OnRetryRequested =>
           if b.retries + 1 > s.maxAttempts - 1 then Err(RetryBudget)
           else if p.parentAttempt != Some(b.attempt) then Err(LostParentAttempt)
           else if p.nextAttempt.None? || !AttemptName(p.nextAttempt.value) || p.nextAttempt.value == b.attempt then
             Err(InvalidNextAttempt)
           else Ok(b.(attempt := p.nextAttempt.value, retries := b.retries + 1))
         case OnRetryReady =>
           if p.attempt != Some(b.attempt) then Err(LostParentAttempt)
           else if !IsH64(p.receipt) then Err(UntypedTimer) else Ok(b)
         case OnDeadlineExpired =>
           if !p.fromHistory then Err(WallClockSource) else if !IsH64(p.receipt) then Err(UntypedDeadline) else Ok(b)
         case OnCancelRequested =>
           if p.requestedFrom != Some(b.state) || !p.fromHistory then Err(CancelStateMismatch) else Ok(b)
         case OnCancelStarted => if !IsH64(p.receipt) then Err(UntypedCancellation) else Ok(b)
         case OnCancelled => if !IsH64(p.receipt) then Err(UntypedCancellation) else Ok(b)
         case _ => Ok(b)
  }

  /** The shadow state follows the event table without asking whether the transition is legal. */
  function ShadowStep(s: Submission, b: Shadow, kind: EventType, p: Payload): Result<Shadow, BoundaryError> {
    var next :- ShadowChecks(s, b, kind, p);
    Ok(if EventToState(kind).Some? then next.(state := EventToState(kind).value) else next)
  }

  const FIRST_SHADOW := Shadow(Submitted, FIRST_ATTEMPT, 0)

  function ShadowFold(s: Submission, specs: seq<Spec>): Result<Shadow, BoundaryError> {
    if specs == [] then Ok(FIRST_SHADOW)
    else
      var before :- ShadowFold(s, specs[..|specs| - 1]);
      ShadowStep(s, before, specs[|specs| - 1].kind, specs[|specs| - 1].payload)
  }

  /** `validate_operational_history`. */
  method ValidateOperational(s: Submission, history: seq<Event>) returns (r: Result<(Reduction, Name), BoundaryError>)
    ensures r.Ok? <==> ShadowFold(s, SpecsOf(history)).Ok? && ValidSubmission(s) && Fold(s, history).Ok?
    ensures r.Ok? ==> r.value.0 == Reduction(Fold(s, history).value, Head(history), |history|)
                      && r.value.1 == ShadowFold(s, SpecsOf(history)).value.attempt
  {
    var shadow := FIRST_SHADOW;
    ghost var specs := SpecsOf(history);
    for i := 0 to |history|
      invariant ShadowFold(s, specs[..i]) == Ok(shadow)
    {
      assert specs[..i + 1][..i] == specs[..i];
      var next := ShadowStep(s, shadow, history[i].body.kind, history[i].body.payload);
      if next.Err? {
        ShadowPrefix(s, specs, i + 1);
        return Err(next.error);
      }
      shadow := next.value;
    }
    assert specs[..|history|] == specs;
    var reduction := Reduce(s, history);
    if reduction.Err? {
      return Err(Replaying(reduction.error));
    }
    return Ok((reduction.value, shadow.attempt));
  }

  lemma {:induction false} ShadowPrefix(s: Submission, specs: seq<Spec>, n: nat)
    requires n <= |specs|
    ensures ShadowFold(s, specs).Ok? ==> ShadowFold(s, specs[..n]).Ok?
    decreases |specs|
  {
    if n < |specs| {
      var init := specs[..|specs| - 1];
      assert init[..n] == specs[..n];
      ShadowPrefix(s, init, n);
    } else {
      assert specs[..n] == specs;
    }
  }

  /** On every history both accept, the shadow state and retry count are the reducer's. */
  lemma {:induction false} ShadowTracksReducer(s: Submission, specs: seq<Spec>)
    requires ShadowFold(s, specs).Ok? && FoldSpecs(s, specs).Ok?
    ensures ShadowFold(s, specs).value.state == FoldSpecs(s, specs).value.state
    ensures ShadowFold(s, specs).value.retries == FoldSpecs(s, specs).value.retries
    decreases |specs|
  {
    if specs != [] {
      var init, last := specs[..|specs| - 1], specs[|specs| - 1];
      ShadowTracksReducer(s, init);
      ApplyMoves(s, FoldSpecs(s, init).value, last.kind, last.payload);
    }
  }

  /** The attempts named so far, the first one included. */
  function Attempts(specs: seq<Spec>): (r: seq<Name>)
    ensures r != []
  {
    if specs == [] then [FIRST_ATTEMPT]
    else
      var before, last := Attempts(specs[..|specs| - 1]), specs[|specs| - 1];
      if last.kind == OnRetryRequested && last.payload.nextAttempt.Some?
      then before + [last.payload.nextAttempt.value] else before
  }

  lemma {:induction false} AttemptsEndCurrent(s: Submission, specs: seq<Spec>)
    requires ShadowFold(s, specs).Ok?
    ensures var shadow := ShadowFold(s, specs).value;
            Attempts(specs)[|Attempts(specs)| - 1] == shadow.attempt && |Attempts(specs)| == shadow.retries + 1
    decreases |specs|
  {
    if specs != [] {
      AttemptsEndCurrent(s, specs[..|specs| - 1]);
    }
  }

  /** What the layer demands of one event, given its state before it. */
  ghost predicate EventFits(b: Shadow, spec: Spec) {
    var p := spec.payload;
    && !p.wallClock
    && (spec.kind == OnCancelRequested ==> p.requestedFrom == Some(b.state) && p.fromHistory)
    && (spec.kind == OnRetryRequested ==>
          && p.parentAttempt == Some(b.attempt)
          && p.nextAttempt.Some? && p.nextAttempt != Some(b.attempt) && AttemptName(p.nextAttempt.value))
    && (spec.kind == OnRetryReady ==> p.attempt == Some(b.attempt))
    && (spec.kind == OnDeadlineExpired ==> p.fromHistory)
    && (spec.kind in {OnRetryReady, OnDeadlineExpired, OnCancelStarted, OnCancelled} ==> IsH64(p.receipt))
  }

  lemma ShadowAt(s: Submission, specs: seq<Spec>, i: nat)
    requires ShadowFold(s, specs).Ok? && i < |specs|
    ensures ShadowFold(s, specs[..i]).Ok? && EventFits(ShadowFold(s, specs[..i]).value, specs[i])
  {
    ShadowPrefix(s, specs, i + 1);
    assert specs[..i + 1][..i] == specs[..i];
  }

  /** In an accepted operational history each cancel names the state the reducer is
      in, each retry continues the newest attempt with a different one, and each
      timer fires for the newest attempt: the retries form one parent-linked chain,
      as long as the reducer's retry count says. */
  lemma OperationalHistories(s: Submission, specs: seq<Spec>, i: nat)
    requires ShadowFold(s, specs).Ok? && FoldSpecs(s, specs).Ok? && i < |specs|
    ensures FoldSpecs(s, specs[..i]).Ok?
    ensures var replay, attempts := FoldSpecs(s, specs[..i]).value, Attempts(specs[..i]);
            && |attempts| == replay.retries + 1
            && EventFits(Shadow(replay.state, attempts[|attempts| - 1], replay.retries), specs[i])
  {
    hide FoldSpecs, ShadowFold, Attempts;
    ShadowAt(s, specs, i);
    SpecsPrefix(s, specs, i);
    ShadowTracksReducer(s, specs[..i]);
    AttemptsEndCurrent(s, specs[..i]);
  }

  ghost predicate Distinct(names: seq<Name>) {
    forall i, j :: 0 <= i < j < |names| ==> names[i] != names[j]
  }

  lemma {:induction false} AttemptsAlternate(s: Submission, specs: seq<Spec>)
    requires ShadowFold(s, specs).Ok?
    ensures |Attempts(specs)| == ShadowFold(s, specs).value.retries + 1
    ensures forall k :: 0 < k < |Attempts(specs)| ==> Attempts(specs)[k - 1] != Attempts(specs)[k]
    ensures ShadowFold(s, specs).value.retries <= (if s.maxAttempts < 1 then 0 else s.maxAttempts - 1)
    decreases |specs|
  {
    if specs != [] {
      AttemptsAlternate(s, specs[..|specs| - 1]);
      AttemptsEndCurrent(s, specs[..|specs| - 1]);
    }
  }

  const SECOND_ATTEMPT := Name("attempt-2")

  function Retry(from: Name, to: Name): Spec {
    Spec(OnRetryRequested, BLANK.(parentAttempt := Some(from), nextAttempt := Some(to)))
  }

  function Ready(attempt: Name, timer: Sha): Spec {
    Spec(OnRetryReady, BLANK.(attempt := Some(attempt), receipt := Some(timer)))
  }

  /** Accepted by the layer and by the reducer, which agree on where the run is. */
  ghost predicate Passes(s: Submission, specs: seq<Spec>, b: Shadow) {
    ShadowFold(s, specs) == Ok(b) && FoldSpecs(s, specs) == Ok(Replay(b.state, b.retries, []))
  }

  lemma StepFacts(s: Submission, b: Shadow, spec: Spec)
    requires ShadowStep(s, b, spec.kind, spec.payload).Ok? && EventToState(spec.kind).Some?
    ensures var next := ShadowStep(s, b, spec.kind, spec.payload).value;
            && next.state == EventToState(spec.kind).value
            && next.retries == b.retries + (if spec.kind == OnRetryRequested then 1 else 0)
            && (spec.kind == OnRetryRequested ==> b.retries + 1 <= s.maxAttempts - 1 && spec.payload.nextAttempt.Some?)
  {
    hide EventToState, AttemptName, IsH64;
  }

  lemma PassOn(s: Submission, specs: seq<Spec>, b: Shadow, spec: Spec)
    requires Passes(s, specs, b) && ShadowStep(s, b, spec.kind, spec.payload).Ok?
    requires EventToState(spec.kind).Some? && Allowed(b.state, EventToState(spec.kind).value)
    ensures Passes(s, specs + [spec], ShadowStep(s, b, spec.kind, spec.payload).value)
    ensures Attempts(specs + [spec]) ==
            Attempts(specs) + if spec.kind == OnRetryRequested then [spec.payload.nextAttempt.value] else []
  {
    hide Allowed, EventToState, Apply, ShadowStep;
    StepFacts(s, b, spec);
    assert (specs + [spec])[..|specs|] == specs;
    Applied(s, Replay(b.state, b.retries, []), spec.kind, spec.payload);
  }

  lemma NothingPasses(s: Submission)
    ensures Passes(s, [], FIRST_SHADOW) && Attempts([]) == [FIRST_ATTEMPT]
  {
  }

  lemma FirstNames()
    ensures AttemptName(FIRST_ATTEMPT) && AttemptName(SECOND_ATTEMPT) && FIRST_ATTEMPT != SECOND_ATTEMPT
  {
    assert FIRST_ATTEMPT.text[8] == '1' && SECOND_ATTEMPT.text[8] == '2';
  }

  /** Out to a second attempt and back to the first: a retry only has to name another
      attempt than the current one. */
  lemma AttemptNamedTwice(s: Submission, timer: Sha) returns (specs: seq<Spec>)
    requires s.maxAttempts >= 3 && IsH64(Some(timer))
    ensures ShadowFold(s, specs).Ok? && FoldSpecs(s, specs).Ok?
    ensures Attempts(specs) == [FIRST_ATTEMPT, SECOND_ATTEMPT, FIRST_ATTEMPT]
  {
    hide Passes, AttemptName, IsH64, Attempts;
    var first, second := FIRST_ATTEMPT, SECOND_ATTEMPT;
    NothingPasses(s);
    FirstNames();
    specs := [];
    PassOn(s, specs, FIRST_SHADOW, On(OnAdmissionRequested));
    specs := specs + [On(OnAdmissionRequested)];
    PassOn(s, specs, Shadow(AdmissionPending, first, 0), On(OnAdmissionAllowed));
    specs := specs + [On(OnAdmissionAllowed)];
    PassOn(s, specs, Shadow(Admitted, first, 0), On(OnDeliveryRequested));
    specs := specs + [On(OnDeliveryRequested)];
    specs := RetryTwice(s, specs, timer);
  }

  lemma RetryTwice(s: Submission, before: seq<Spec>, timer: Sha) returns (specs: seq<Spec>)
    requires s.maxAttempts >= 3 && IsH64(Some(timer))
    requires Passes(s, before, Shadow(DeliveryPending, FIRST_ATTEMPT, 0)) && Attempts(before) == [FIRST_ATTEMPT]
    ensures ShadowFold(s, specs).Ok? && FoldSpecs(s, specs).Ok?
    ensures Attempts(specs) == [FIRST_ATTEMPT, SECOND_ATTEMPT, FIRST_ATTEMPT]
  {
    hide AttemptName, IsH64, Attempts, FoldSpecs, ShadowFold, FIRST_ATTEMPT, SECOND_ATTEMPT;
    var first, second := FIRST_ATTEMPT, SECOND_ATTEMPT;
    FirstNames();
    specs := before;
    PassOn(s, specs, Shadow(DeliveryPending, first, 0), Retry(first, second));
    specs := specs + [Retry(first, second)];
    PassOn(s, specs, Shadow(RetryScheduled, second, 1), Ready(second, timer));
    specs := specs + [Ready(second, timer)];
    PassOn(s, specs, Shadow(DeliveryPending, second, 1), Retry(second, first));
    specs := specs + [Retry(second, first)];
    assert [first] + [second] + [first] == [first, second, first];
  }

  ghost predicate FreshRetry(specs: seq<Spec>, i: nat)
    requires i < |specs|
  {
    specs[i].kind == OnRetryRequested ==>
      specs[i].payload.nextAttempt.Some? && specs[i].payload.nextAttempt.value !in Attempts(specs[..i])
  }

  lemma DistinctSnoc(names: seq<Name>, last: Name)
    ensures Distinct(names + [last]) <==> Distinct(names) && last !in names
  {
    var more := names + [last];
    if Distinct(more) {
      forall i, j | 0 <= i < j < |names| ensures names[i] != names[j] {
        assert more[i] != more[j];
      }
      forall i | 0 <= i < |names| ensures names[i] != last {
        assert more[i] != more[|names|];
      }
    }
  }

  lemma LastIsFreshIff(s: Submission, specs: seq<Spec>)
    requires ShadowFold(s, specs).Ok? && specs != []
    ensures var init := specs[..|specs| - 1];
            && ShadowFold(s, init).Ok?
            && (Distinct(Attempts(specs)) <==> Distinct(Attempts(init)) && FreshRetry(specs, |init|))
  {
    var init, last := specs[..|specs| - 1], specs[|specs| - 1];
    ShadowAt(s, specs, |init|);
    hide ShadowFold, ShadowStep, Distinct;
    if last.kind == OnRetryRequested {
      DistinctSnoc(Attempts(init), last.payload.nextAttempt.value);
    }
  }

  lemma FreshInPrefix(specs: seq<Spec>, n: nat, i: nat)
    requires i < n <= |specs|
    ensures FreshRetry(specs, i) <==> FreshRetry(specs[..n], i)
  {
    hide Attempts;
    assert specs[..i] == specs[..n][..i];
  }

  /** The attempts of an accepted history are distinct exactly when each retry names
      one that was not named before, though the layer only compares the current one. */
  lemma {:induction false} DistinctIffFresh(s: Submission, specs: seq<Spec>)
    requires ShadowFold(s, specs).Ok?
    ensures Distinct(Attempts(specs)) <==> forall i :: 0 <= i < |specs| ==> FreshRetry(specs, i)
    decreases |specs|
  {
    hide *;
    if specs == [] {
      OneName();
    } else {
      var init := specs[..|specs| - 1];
      LastIsFreshIff(s, specs);
      DistinctIffFresh(s, init);
      forall i | 0 <= i < |init| ensures FreshRetry(specs, i) <==> FreshRetry(init, i) {
        FreshInPrefix(specs, |init|, i);
      }
    }
  }

  lemma OneName()
    ensures Distinct(Attempts([]))
  {
  }

  /** The layer keeps attempt names apart in every accepted history if and only if the
      job allows at most one retry. */
  lemma AttemptsDistinctIff(s: Submission, timer: Sha)
    requires IsH64(Some(timer))
    ensures (forall specs :: ShadowFold(s, specs).Ok? && FoldSpecs(s, specs).Ok? ==> Distinct(Attempts(specs)))
            <==> s.maxAttempts <= 2
  {
    hide ShadowFold, FoldSpecs, IsH64, Attempts;
    if s.maxAttempts <= 2 {
      forall specs | ShadowFold(s, specs).Ok? ensures Distinct(Attempts(specs)) {
        AttemptsAlternate(s, specs);
      }
    } else {
      var specs := AttemptNamedTwice(s, timer);
      var names := Attempts(specs);
      assert names[0] == names[2];
    }
  }

  lemma {:induction false} SpecsPrefix(s: Submission, specs: seq<Spec>, n: nat)
    requires n <= |specs| && FoldSpecs(s, specs).Ok?
    ensures FoldSpecs(s, specs[..n]).Ok?
    decreases |specs|
  {
    if n < |specs| {
      var init := specs[..|specs| - 1];
      assert init[..n] == specs[..n];
      SpecsPrefix(s, init, n);
    } else {
      assert specs[..n] == specs;
    }
  }

  // ------------------------------------------------------------ human waits

  datatype Human = Human(waitSeen: bool, decisionSeen: bool)

  /** An approval or refusal that carries a human decision. */
  predicate Decides(kind: EventType, p: Payload) {
    (kind.OnHumanApproved? || kind.OnPolicyRefused?) && p.decision.Some?
  }

  /** The decision names this job and tenant. */
  predicate InScope(s: Submission, p: Payload) {
    p.decidedJob == Some(s.jobId) && p.decidedTenant == Some(s.tenant)
  }

  /** The decision was taken on the bindings in force. */
  predicate Current(s: Submission, p: Payload) {
    p.decidedPolicy == Some(s.policySha) && p.decidedRuntime == Some(s.runtimeSha) && p.decidedSource == Some(s.source)
  }

  function HumanStep(s: Submission, h: Human, kind: EventType, p: Payload): Result<Human, BoundaryError> {
    if kind.OnHumanWaitRequired? then
      if !p.waitTyped || !IsH64(p.evidence) then Err(WaitSchemaMismatch) else Ok(h.(waitSeen := true))
    else if !Decides(kind, p) then Ok(h)
    else if !h.waitSeen then Err(ApprovalBeforeWait)
    else if h.decisionSeen then Err(DuplicateDecision)
    else if !p.byHuman then Err(SelfApproval)
    else if !InScope(s, p) then Err(ScopeMismatch)
    else if !Current(s, p) then Err(StaleDecision)
    else if !IsH64(p.receipt) || !IsH64(p.evidence) || !p.notExercised then Err(DecisionMismatch)
    else if p.decision.value != (if kind.OnHumanApproved? then Approve else Refuse) then Err(DecisionMismatch)
    else Ok(h.(decisionSeen := true))
  }

  function HumanFold(s: Submission, specs: seq<Spec>): Result<Human, BoundaryError> {
    if specs == [] then Ok(Human(false, false))
    else
      var before :- HumanFold(s, specs[..|specs| - 1]);
      HumanStep(s, before, specs[|specs| - 1].kind, specs[|specs| - 1].payload)
  }

  /** `validate_human_history`. */
  method ValidateHuman(s: Submission, history: seq<Event>) returns (r: Result<(Reduction, Human), BoundaryError>)
    ensures r.Ok? <==> HumanFold(s, SpecsOf(history)).Ok? && ValidSubmission(s) && Fold(s, history).Ok?
    ensures r.Ok? ==> r.value.0 == Reduction(Fold(s, history).value, Head(history), |history|)
                      && Ok(r.value.1) == HumanFold(s, SpecsOf(history))
  {
    var human := Human(false, false);
    ghost var specs := SpecsOf(history);
    for i := 0 to |history|
      invariant HumanFold(s, specs[..i]) == Ok(human)
    {
      assert specs[..i + 1][..i] == specs[..i];
      var next := HumanStep(s, human, history[i].body.kind, history[i].body.payload);
      if next.Err? {
        HumanPrefix(s, specs, i + 1);
        return Err(next.error);
      }
      human := next.value;
    }
    assert specs[..|history|] == specs;
    var reduction := Reduce(s, history);
    if reduction.Err? {
      return Err(Replaying(reduction.error));
    }
    return Ok((reduction.value, human));
  }

  lemma {:induction false} HumanPrefix(s: Submission, specs: seq<Spec>, n: nat)
    requires n <= |specs|
    ensures HumanFold(s, specs).Ok? ==> HumanFold(s, specs[..n]).Ok?
    decreases |specs|
  {
    if n < |specs| {
      var init := specs[..|specs| - 1];
      assert init[..n] == specs[..n];
      HumanPrefix(s, init, n);
    } else {
      assert specs[..n] == specs;
    }
  }

  function Decisions(specs: seq<Spec>): nat {
    if specs == [] then 0
    else
      var last := specs[|specs| - 1];
      Decisions(specs[..|specs| - 1]) + if Decides(last.kind, last.payload) then 1 else 0
  }

  /** The two flags say exactly whether a wait occurred and how many decisions did:
      never more than one, and never before a wait. */
  lemma {:induction false} DecidedOnceAfterWait(s: Submission, specs: seq<Spec>)
    requires HumanFold(s, specs).Ok?
    ensures HumanFold(s, specs).value.waitSeen <==> Count(specs, OnHumanWaitRequired) > 0
    ensures Decisions(specs) == (if HumanFold(s, specs).value.decisionSeen then 1 else 0)
    ensures Decisions(specs) > 0 ==> Count(specs, OnHumanWaitRequired) > 0
    decreases |specs|
  {
    if specs != [] {
      DecidedOnceAfterWait(s, specs[..|specs| - 1]);
    }
  }

  /** The event ends a human wait by admitting or refusing the job. */
  ghost predicate Resolves(s: Submission, before: seq<Spec>, spec: Spec) {
    && FoldSpecs(s, before).Ok? && FoldSpecs(s, before).value.state == WaitingForHuman
    && (spec.kind.OnAdmissionAllowed? || spec.kind.OnHumanApproved? || spec.kind.OnPolicyRefused?)
  }

  ghost function Resolutions(s: Submission, specs: seq<Spec>): nat {
    if specs == [] then 0
    else
      var init, last := specs[..|specs| - 1], specs[|specs| - 1];
      Resolutions(s, init) + if Resolves(s, init, last) then 1 else 0
  }

  /** How many waits were resolved by an event that carries no decision. */
  ghost function Undecided(s: Submission, specs: seq<Spec>): nat {
    if specs == [] then 0
    else
      var init, last := specs[..|specs| - 1], specs[|specs| - 1];
      Undecided(s, init) + if Resolves(s, init, last) && !Decides(last.kind, last.payload) then 1 else 0
  }

  /** A human decided: with the answer the event stands for, in scope, on current bindings and evidence. */
  predicate HumanDecided(s: Submission, spec: Spec) {
    var p := spec.payload;
    && p.decision == (if spec.kind.OnHumanApproved? then Some(Approve) else Some(Refuse))
    && (spec.kind.OnHumanApproved? || spec.kind.OnPolicyRefused?)
    && p.byHuman && p.decidedJob == Some(s.jobId) && p.decidedTenant == Some(s.tenant)
    && p.decidedPolicy == Some(s.policySha) && p.decidedRuntime == Some(s.runtimeSha)
    && p.decidedSource == Some(s.source) && IsH64(p.receipt) && IsH64(p.evidence) && p.notExercised
  }

  ghost predicate EveryWaitDecided(s: Submission, specs: seq<Spec>) {
    forall i :: 0 <= i < |specs| && Resolves(s, specs[..i], specs[i]) ==> HumanDecided(s, specs[i])
  }

  /** Every resolving event is an approval or refusal that carries a decision. */
  ghost predicate EveryWaitAnswered(s: Submission, specs: seq<Spec>) {
    forall i :: 0 <= i < |specs| && Resolves(s, specs[..i], specs[i]) ==> Decides(specs[i].kind, specs[i].payload)
  }

  lemma {:induction false} NoWayBack(s: Submission, specs: seq<Spec>, r: Replay)
    requires FoldSpecs(s, specs) == Ok(r) && Count(specs, OnHumanWaitRequired) > 0
    ensures r.state != Submitted && r.state != AdmissionPending
    decreases |specs|
  {
    hide Apply;
    var init, last := specs[..|specs| - 1], specs[|specs| - 1];
    var before := FoldSpecs(s, init).value;
    ApplyMoves(s, before, last.kind, last.payload);
    if Count(init, OnHumanWaitRequired) > 0 {
      NoWayBack(s, init, before);
    }
  }

  lemma HumanSnoc(s: Submission, specs: seq<Spec>, spec: Spec)
    requires HumanFold(s, specs).Ok?
    ensures HumanFold(s, specs + [spec]) == HumanStep(s, HumanFold(s, specs).value, spec.kind, spec.payload)
  {
    hide HumanStep;
    assert (specs + [spec])[..|specs|] == specs;
  }

  lemma DecisionNeedsWait(s: Submission, h: Human, spec: Spec)
    requires HumanStep(s, h, spec.kind, spec.payload).Ok? && Decides(spec.kind, spec.payload)
    ensures h.waitSeen
  {
  }

  lemma AllowedFromWait(from: State, kind: EventType)
    requires kind.OnHumanApproved? || kind.OnPolicyRefused?
    requires Allowed(from, EventToState(kind).value) && from != AdmissionPending
    ensures from == WaitingForHuman
  {
  }

  /** A decision is only ever taken in a wait. */
  lemma DecisionResolves(s: Submission, init: seq<Spec>, last: Spec)
    requires HumanFold(s, init).Ok? && HumanFold(s, init + [last]).Ok? && Decides(last.kind, last.payload)
    requires FoldSpecs(s, init).Ok? && Apply(s, FoldSpecs(s, init).value, last.kind, last.payload).Ok?
    ensures Resolves(s, init, last)
  {
    hide Apply, HumanStep, HumanFold, FoldSpecs, Allowed, Count, Decisions, EventToState;
    HumanSnoc(s, init, last);
    DecisionNeedsWait(s, HumanFold(s, init).value, last);
    DecidedOnceAfterWait(s, init);
    NoWayBack(s, init, FoldSpecs(s, init).value);
    ApplyMoves(s, FoldSpecs(s, init).value, last.kind, last.payload);
    AllowedFromWait(FoldSpecs(s, init).value.state, last.kind);
  }

  lemma {:induction false} ResolutionsSplit(s: Submission, specs: seq<Spec>)
    requires HumanFold(s, specs).Ok? && FoldSpecs(s, specs).Ok?
    ensures Resolutions(s, specs) == Undecided(s, specs) + Decisions(specs)
    decreases |specs|
  {
    hide Apply, HumanStep, Resolves;
    if specs != [] {
      var init, last := specs[..|specs| - 1], specs[|specs| - 1];
      assert specs == init + [last];
      ResolutionsSplit(s, init);
      if Decides(last.kind, last.payload) {
        DecisionResolves(s, init, last);
      }
    }
  }

  lemma {:induction false} AnsweredIff(s: Submission, specs: seq<Spec>)
    ensures EveryWaitAnswered(s, specs) <==> Undecided(s, specs) == 0
    decreases |specs|
  {
    hide Resolves, Decides;
    if specs != [] {
      var init, last := specs[..|specs| - 1], specs[|specs| - 1];
      AnsweredIff(s, init);
      forall i | 0 <= i < |init| ensures specs[..i] == init[..i] && specs[i] == init[i] {
      }
    }
  }

  lemma DecidedAt(s: Submission, specs: seq<Spec>, i: nat)
    requires HumanFold(s, specs).Ok? && i < |specs| && Decides(specs[i].kind, specs[i].payload)
    ensures HumanDecided(s, specs[i])
  {
    HumanPrefix(s, specs, i + 1);
    assert specs[..i + 1][..i] == specs[..i];
  }

  /** What the layer does not enforce. In a history that it and the reducer accept,
      every wait is resolved by a human decision if and only if no wait is left by an
      admission, each approval or refusal that ends one carries a decision, and at
      most one wait is resolved: of two resolved waits one is always undecided,
      because the layer takes one decision in a whole history. */
  lemma WaitsAreDecidedIff(s: Submission, specs: seq<Spec>)
    requires HumanFold(s, specs).Ok? && FoldSpecs(s, specs).Ok?
    ensures EveryWaitDecided(s, specs) <==> EveryWaitAnswered(s, specs) && Resolutions(s, specs) <= 1
    ensures EveryWaitDecided(s, specs) <==> Resolutions(s, specs) == Decisions(specs)
    ensures Resolutions(s, specs) <= Undecided(s, specs) + 1
  {
    hide HumanStep, Resolves, HumanDecided, Apply;
    ResolutionsSplit(s, specs);
    AnsweredIff(s, specs);
    DecidedOnceAfterWait(s, specs);
    forall i | 0 <= i < |specs|
      ensures HumanDecided(s, specs[i]) ==> Decides(specs[i].kind, specs[i].payload)
      ensures Decides(specs[i].kind, specs[i].payload) ==> HumanDecided(s, specs[i])
    {
      if HumanDecided(s, specs[i]) {
        DecidedDecides(s, specs[i]);
      }
      if Decides(specs[i].kind, specs[i].payload) {
        DecidedAt(s, specs, i);
      }
    }
  }

  lemma DecidedDecides(s: Submission, spec: Spec)
    requires HumanDecided(s, spec)
    ensures Decides(spec.kind, spec.payload)
  {
  }

  /** A typed wait left by an ordinary admission: both accept it and no human decided. */
  lemma WaitLeftUndecided(s: Submission, evidence: Sha) returns (history: seq<Event>)
    requires IsH64(Some(evidence))
    ensures Fold(s, history).Ok? && Fold(s, history).value.state == Admitted
    ensures HumanFold(s, SpecsOf(history)).Ok?
    ensures !EveryWaitDecided(s, SpecsOf(history)) && Decisions(SpecsOf(history)) == 0
    ensures forall spec :: spec in SpecsOf(history) ==> !spec.kind.OnHumanApproved? && !spec.kind.OnPolicyRefused?
  {
    var waiting := [On(OnAdmissionRequested), On(OnAdmissionAllowed),
                    Spec(OnHumanWaitRequired, BLANK.(evidence := Some(evidence)))];
    var specs := waiting + [On(OnAdmissionAllowed)];
    UndecidedRun(s, evidence);
    ChainPasses(s, specs);
    SpecsOfChain(s, specs);
    history := Chain(s, specs);
    assert specs[..3] == waiting;
    assert Resolves(s, specs[..3], specs[3]) && !HumanDecided(s, specs[3]);
  }

  /** `specs` is accepted, ends in `state` without a retry or effect, and holds no decision. */
  ghost predicate RunsUndecided(s: Submission, specs: seq<Spec>, state: State) {
    FoldSpecs(s, specs) == Ok(Replay(state, 0, [])) && HumanFold(s, specs).Ok? && Decisions(specs) == 0
  }

  lemma UndecidedRun(s: Submission, evidence: Sha)
    requires IsH64(Some(evidence))
    ensures var waiting := [On(OnAdmissionRequested), On(OnAdmissionAllowed),
                            Spec(OnHumanWaitRequired, BLANK.(evidence := Some(evidence)))];
            && RunsUndecided(s, waiting, WaitingForHuman)
            && RunsUndecided(s, waiting + [On(OnAdmissionAllowed)], Admitted)
  {
    hide RunsUndecided;
    var a, b := On(OnAdmissionRequested), On(OnAdmissionAllowed);
    var w := Spec(OnHumanWaitRequired, BLANK.(evidence := Some(evidence)));
    assert [] + [a] == [a] && [a] + [b] == [a, b] && [a, b] + [w] == [a, b, w];
    NothingRun(s);
    RunOn(s, [], a, AdmissionPending, Submitted);
    RunOn(s, [a], b, Admitted, AdmissionPending);
    RunOn(s, [a, b], w, WaitingForHuman, Admitted);
    RunOn(s, [a, b, w], b, Admitted, WaitingForHuman);
  }

  lemma NothingRun(s: Submission)
    ensures RunsUndecided(s, [], Submitted)
  {
  }

  /** One more undecided event that the layer has nothing to object to. */
  lemma RunOn(s: Submission, specs: seq<Spec>, spec: Spec, to: State, from: State)
    requires RunsUndecided(s, specs, from)
    requires EventToState(spec.kind) == Some(to) && Allowed(from, to) && !Terminal(from) && to != RetryScheduled
    requires spec.payload.decision.None? && spec.payload.waitTyped
    requires spec.kind == OnHumanWaitRequired ==> IsH64(spec.payload.evidence)
    ensures RunsUndecided(s, specs + [spec], to)
  {
    hide IsH64, Apply, HumanStep, Allowed, EventToState;
    assert (specs + [spec])[..|specs|] == specs;
    NoRetry(spec.kind, to);
    Applied(s, Replay(from, 0, []), spec.kind, spec.payload);
    Undisturbed(s, HumanFold(s, specs).value, spec);
  }

  lemma NoRetry(kind: EventType, to: State)
    requires EventToState(kind) == Some(to) && to != RetryScheduled
    ensures kind != OnRetryRequested
  {
  }

  lemma Undisturbed(s: Submission, h: Human, spec: Spec)
    requires spec.payload.decision.None? && spec.payload.waitTyped
    requires spec.kind == OnHumanWaitRequired ==> IsH64(spec.payload.evidence)
    ensures HumanStep(s, h, spec.kind, spec.payload).Ok?
  {
    hide IsH64;
  }

  // ------------------------------------------------------------ compensation

  datatype Lineage = Lineage(effectId: Name, parentKey: Name, compensationKey: Name)

  function CompensationStep(l: Option<Lineage>, kind: EventType, p: Payload): Result<Option<Lineage>, BoundaryError> {
    if kind.OnCompensationRequired? then
      if p.mode != CompensationRequest || !p.ownedByLedger then Err(DirectCompensation)
      else if !p.reversible then Err(RequiresReversible)
      else if !p.originalCommitted then Err(RequiresCommitted)
      else if p.effectId.None? || p.parentKey.None? || p.compensationKey.None? || p.effectId.value.text == ""
              || p.parentKey.value.text == "" || p.compensationKey.value.text == "" || p.parentKey == p.compensationKey
              || !IsH64(p.receipt) then Err(LineageMismatch)
      else if !p.notExercised then Err(FixtureAsLive)
      else if p.providerWrite then Err(DirectCompensation)
      else Ok(Some(Lineage(p.effectId.value, p.parentKey.value, p.compensationKey.value)))
    else if kind.OnCompensated? || kind.OnCompensationFailed? then
      if l.None? then Err(WithoutParent)
      else if !p.ownedByLedger || p.effectId != Some(l.value.effectId)
              || p.compensationKey != Some(l.value.compensationKey) || !IsH64(p.receipt) then Err(LineageMismatch)
      else if !p.notExercised then Err(FixtureAsLive)
      else if p.providerWrite then Err(DirectCompensation)
      else Ok(l)
    else if p.providerWrite then Err(DirectCompensation)
    else Ok(l)
  }

  function CompensationFold(specs: seq<Spec>): Result<Option<Lineage>, BoundaryError> {
    if specs == [] then Ok(None)
    else
      var before :- CompensationFold(specs[..|specs| - 1]);
      CompensationStep(before, specs[|specs| - 1].kind, specs[|specs| - 1].payload)
  }

  /** `validate_compensation_history`. */
  method ValidateCompensation(s: Submission, history: seq<Event>)
    returns (r: Result<(Reduction, Option<Lineage>), BoundaryError>)
    ensures r.Ok? <==> s.sideEffect == ReversibleWrite && CompensationFold(SpecsOf(history)).Ok?
                       && ValidSubmission(s) && Fold(s, history).Ok?
    ensures r.Ok? ==> r.value.0 == Reduction(Fold(s, history).value, Head(history), |history|)
                      && Ok(r.value.1) == CompensationFold(SpecsOf(history))
  {
    if s.sideEffect != ReversibleWrite {
      return Err(RequiresReversible);
    }
    var lineage: Option<Lineage> := None;
    ghost var specs := SpecsOf(history);
    for i := 0 to |history|
      invariant CompensationFold(specs[..i]) == Ok(lineage)
    {
      assert specs[..i + 1][..i] == specs[..i];
      var next := CompensationStep(lineage, history[i].body.kind, history[i].body.payload);
      if next.Err? {
        CompensationPrefix(specs, i + 1);
        return Err(next.error);
      }
      lineage := next.value;
    }
    assert specs[..|history|] == specs;
    var reduction := Reduce(s, history);
    if reduction.Err? {
      return Err(Replaying(reduction.error));
    }
    return Ok((reduction.value, lineage));
  }

  lemma {:induction false} CompensationPrefix(specs: seq<Spec>, n: nat)
    requires n <= |specs|
    ensures CompensationFold(specs).Ok? ==> CompensationFold(specs[..n]).Ok?
    decreases |specs|
  {
    if n < |specs| {
      var init := specs[..|specs| - 1];
      assert init[..n] == specs[..n];
      CompensationPrefix(init, n);
    } else {
      assert specs[..n] == specs;
    }
  }

  /** The lineage exists exactly in the compensation states, and its two keys differ. */
  ghost predicate LineageFits(l: Option<Lineage>, state: State, requests: nat) {
    && requests == (if l.Some? then 1 else 0)
    && (l.Some? <==> state.Compensating? || state.Compensated? || state.CompensationFailed?)
    && (l.Some? ==> l.value.parentKey != l.value.compensationKey)
  }

  lemma LineageStep(s: Submission, l: Option<Lineage>, r: Replay, spec: Spec, requests: nat)
    requires LineageFits(l, r.state, requests)
    requires CompensationStep(l, spec.kind, spec.payload).Ok? && Apply(s, r, spec.kind, spec.payload).Ok?
    ensures LineageFits(CompensationStep(l, spec.kind, spec.payload).value,
                        Apply(s, r, spec.kind, spec.payload).value.state,
                        requests + if spec.kind == OnCompensationRequired then 1 else 0)
  {
    ApplyMoves(s, r, spec.kind, spec.payload);
    hide Apply;
  }

  /** A history both accept requests compensation at most once; it has a lineage
      exactly if it did, its two keys differ, and it ends compensated (or failed to
      compensate) only with a lineage. */
  lemma {:induction false} CompensatedOnce(s: Submission, specs: seq<Spec>)
    requires CompensationFold(specs).Ok? && FoldSpecs(s, specs).Ok?
    ensures LineageFits(CompensationFold(specs).value, FoldSpecs(s, specs).value.state,
                        Count(specs, OnCompensationRequired))
    decreases |specs|
  {
    hide Apply, CompensationStep, LineageFits;
    if specs != [] {
      var init, last := specs[..|specs| - 1], specs[|specs| - 1];
      CompensatedOnce(s, init);
      LineageStep(s, CompensationFold(init).value, FoldSpecs(s, init).value, last, Count(init, OnCompensationRequired));
    } else {
      EmptyLineage();
    }
  }

  lemma EmptyLineage()
    ensures LineageFits(None, Submitted, 0)
  {
  }

  /** What the layer demands of one event, given the lineage before it. */
  ghost predicate CompensationFits(l: Option<Lineage>, spec: Spec) {
    var p := spec.payload;
    && !p.providerWrite
    && (spec.kind == OnCompensationRequired ==>
          p.mode == CompensationRequest && p.ownedByLedger && p.reversible && p.originalCommitted)
    && (spec.kind == OnCompensated || spec.kind == OnCompensationFailed ==>
          && p.ownedByLedger && l.Some?
          && p.effectId == Some(l.value.effectId) && p.compensationKey == Some(l.value.compensationKey))
    && (spec.kind in {OnCompensationRequired, OnCompensated, OnCompensationFailed} ==>
          IsH64(p.receipt) && p.notExercised)
  }

  /** In an accepted compensation history no event writes to a provider, a
      compensation is asked of the effect ledger for a committed, reversible effect,
      and its outcome names that effect under that key. */
  lemma CompensationHistories(specs: seq<Spec>, i: nat)
    requires CompensationFold(specs).Ok? && i < |specs|
    ensures CompensationFold(specs[..i]).Ok? && CompensationFits(CompensationFold(specs[..i]).value, specs[i])
  {
    CompensationPrefix(specs, i + 1);
    assert specs[..i + 1][..i] == specs[..i];
  }
}
