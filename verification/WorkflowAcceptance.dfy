/** Exactly which workflow histories the reducer and its boundary layers accept, said of
    the events alone. */
module WorkflowAcceptance {
  import opened Wrappers
  import opened Ordering
  import opened WorkflowReducer
  import opened WorkflowRuns
  import opened WorkflowBoundaries

  // ------------------------------------------------------------ the reducer

  /** Where each event may occur. */
  predicate OccursIn(kind: EventType, from: State) {
    match kind
    case OnAdmissionRequested => from.Submitted?
    case OnAdmissionAllowed => from.AdmissionPending? || from.WaitingForHuman?
    case OnHumanApproved => from.AdmissionPending? || from.WaitingForHuman?
    case OnPolicyRefused => from.AdmissionPending? || from.WaitingForHuman?
    case OnRuntimeAbsent => from.AdmissionPending? || from.DeliveryPending?
    case OnDeliveryRequested => from.Admitted? || from.RetryScheduled?
    case OnRetryReady => from.Admitted? || from.RetryScheduled?
    case OnRemoteDispatched => from.DeliveryPending?
    case OnExecutionStarted => from.RemoteDispatched?
    case OnHumanWaitRequired => from.Admitted? || from.Running?
    case OnResultWaiting => from.Running?
    case OnResultReceived => from.WaitingForResult?
    case OnResultVerified => from.Verifying?
    case OnResultStale => from.Verifying?
    case OnResultRefused => from.Verifying?
    case OnReconciled => from.Reconciling?
    case OnActivityFailed => from.RemoteDispatched? || from.Running?
    case OnFailed => from.Reconciling? || from.ActivityFailed?
    case OnRetryRequested =>
      || from.DeliveryPending? || from.RemoteDispatched? || from.Running? || from.WaitingForResult?
      || from.ActivityFailed?
    case OnDeadlineExpired =>
      || from.AdmissionPending? || from.DeliveryPending? || from.Running? || from.WaitingForResult?
      || from.WaitingForHuman? || from.RetryScheduled?
    case OnCancelRequested =>
      || from.Admitted? || from.DeliveryPending? || from.RemoteDispatched? || from.Running?
      || from.WaitingForResult? || from.WaitingForHuman? || from.RetryScheduled?
    case OnCancelStarted => from.CancelRequested?
    case OnCancelled => from.Cancelling?
    case OnCompensationRequired => from.Verifying? || from.Reconciling? || from.Cancelling? || from.ActivityFailed?
    case OnCompensated => from.Compensating?
    case OnCompensationFailed => from.Compensating?
    case OnCleanupFailed => from.Verifying? || from.Reconciling? || from.Cancelling?
    case _ => false
  }

  /** The events of a run that goes as planned. */
  predicate OnCourse(kind: EventType) {
    || kind.OnAdmissionRequested? || kind.OnAdmissionAllowed? || kind.OnHumanApproved? || kind.OnDeliveryRequested?
    || kind.OnRetryReady? || kind.OnRemoteDispatched? || kind.OnExecutionStarted? || kind.OnHumanWaitRequired?
    || kind.OnResultWaiting? || kind.OnResultReceived? || kind.OnResultVerified? || kind.OnReconciled?
  }

  lemma OnCourseIff(from: State, kind: EventType)
    requires OnCourse(kind)
    ensures EventToState(kind).Some? && Allowed(from, EventToState(kind).value) <==> OccursIn(kind, from)
  {
  }

  /** The events of a run that is cancelled, retried or out of time. */
  predicate Interrupts(kind: EventType) {
    || kind.OnRetryRequested? || kind.OnDeadlineExpired? || kind.OnCancelRequested? || kind.OnCancelStarted?
    || kind.OnCancelled? || kind.OnPolicyRefused? || kind.OnRuntimeAbsent?
  }

  lemma InterruptsIff(from: State, kind: EventType)
    requires Interrupts(kind)
    ensures EventToState(kind).Some? && Allowed(from, EventToState(kind).value) <==> OccursIn(kind, from)
  {
  }

  lemma OffCourseIff(from: State, kind: EventType)
    requires !OnCourse(kind) && !Interrupts(kind)
    ensures EventToState(kind).Some? && Allowed(from, EventToState(kind).value) <==> OccursIn(kind, from)
  {
  }

  /** An event may occur exactly where its state may be entered from. */
  lemma AllowedIff(from: State, kind: EventType)
    ensures EventToState(kind).Some? && Allowed(from, EventToState(kind).value) <==> OccursIn(kind, from)
  {
    hide *;
    if OnCourse(kind) {
      OnCourseIff(from, kind);
    } else if Interrupts(kind) {
      InterruptsIff(from, kind);
    } else {
      OffCourseIff(from, kind);
    }
  }

  /** The state named by the last event that names one. */
  function StateAfter(specs: seq<Spec>): State {
    if specs == [] then Submitted
    else
      var to := EventToState(specs[|specs| - 1].kind);
      if to.Some? then to.value else StateAfter(specs[..|specs| - 1])
  }

  /** What may follow the events `before`. */
  ghost predicate MayFollow(s: Submission, before: seq<Spec>, spec: Spec) {
    if spec.kind == EffectRequested then !Terminal(StateAfter(before)) && Admissible(s, spec.payload)
    else
      && OccursIn(spec.kind, StateAfter(before))
      && (spec.kind == OnRetryRequested ==> Count(before, OnRetryRequested) + 1 <= s.maxAttempts - 1)
  }

  ghost predicate EachMayFollow(s: Submission, specs: seq<Spec>) {
    forall i :: 0 <= i < |specs| ==> MayFollow(s, specs[..i], specs[i])
  }

  lemma MayFollowSnoc(s: Submission, specs: seq<Spec>, spec: Spec)
    ensures EachMayFollow(s, specs + [spec]) <==> EachMayFollow(s, specs) && MayFollow(s, specs, spec)
  {
    hide MayFollow;
    var more := specs + [spec];
    assert more[..|specs|] == specs;
    forall i | 0 <= i < |specs| ensures more[..i] == specs[..i] && more[i] == specs[i] {
    }
    if EachMayFollow(s, more) {
      assert MayFollow(s, more[..|specs|], more[|specs|]);
    }
  }

  lemma ApplyIff(s: Submission, r: Replay, kind: EventType, p: Payload)
    ensures Apply(s, r, kind, p).Ok? <==>
              if kind == EffectRequested then !Terminal(r.state) && Admissible(s, p)
              else OccursIn(kind, r.state) && (kind == OnRetryRequested ==> r.retries + 1 <= s.maxAttempts - 1)
  {
    hide OccursIn, EventToState, Allowed;
    AllowedIff(r.state, kind);
    if OccursIn(kind, r.state) {
      AllowedMoves(r.state, kind);
    }
    assert EventToState(EffectRequested).None? by { NamesNoState(); }
  }

  lemma NamesNoState()
    ensures EventToState(EffectRequested).None?
  {
  }

  /** Specs fold exactly when each may follow those before it. */
  lemma {:induction false} FoldsIff(s: Submission, specs: seq<Spec>)
    ensures FoldSpecs(s, specs).Ok? <==> EachMayFollow(s, specs)
    ensures FoldSpecs(s, specs).Ok? ==>
              && FoldSpecs(s, specs).value.state == StateAfter(specs)
              && FoldSpecs(s, specs).value.retries == Count(specs, OnRetryRequested)
    decreases |specs|
  {
    hide Apply, EventToState, Allowed, OccursIn, Admissible, EachMayFollow;
    if specs == [] {
      NothingFollows(s);
    } else {
      var init, last := specs[..|specs| - 1], specs[|specs| - 1];
      assert specs == init + [last];
      FoldsIff(s, init);
      MayFollowSnoc(s, init, last);
      NamesNoState();
      if FoldSpecs(s, init).Ok? {
        ApplyIff(s, FoldSpecs(s, init).value, last.kind, last.payload);
        if FoldSpecs(s, specs).Ok? {
          ApplyMoves(s, FoldSpecs(s, init).value, last.kind, last.payload);
        }
      }
    }
  }

  lemma NothingFollows(s: Submission)
    ensures EachMayFollow(s, [])
  {
  }

  /** Event `i` continues the chain of this job with a digest of its own. */
  ghost predicate Chained(s: Submission, history: seq<Event>, i: nat)
    requires i < |history|
  {
    var body := history[i].body;
    && body.sequence == i && body.previous == (if i == 0 then Root else history[i - 1].sha)
    && body.subject == s.subject && body.jobId == s.jobId && history[i].sha == OfEvent(body)
    && body.kind != OtherEvent && !body.payload.sensitive && !body.payload.writesLoopx
  }

  lemma CheckedIffChained(s: Submission, history: seq<Event>)
    requires history != []
    ensures CheckEvent(s, history[|history| - 1], |history| - 1, Head(history[..|history| - 1])).Ok? <==>
            Chained(s, history, |history| - 1)
  {
  }

  /** A history is accepted exactly when every event is chained to the one before it and
      may follow the events before it: its state is one the event may occur in, retries
      stay in the attempt budget, and effects are requested of the ledger by a job that
      may have some. It ends in the state its last event names. */
  lemma {:induction false} AcceptedIff(s: Submission, history: seq<Event>)
    ensures Fold(s, history).Ok? <==>
            (forall i :: 0 <= i < |history| ==> Chained(s, history, i)) && EachMayFollow(s, SpecsOf(history))
    ensures Fold(s, history).Ok? ==>
              && Fold(s, history).value.state == StateAfter(SpecsOf(history))
              && Fold(s, history).value.retries == Count(SpecsOf(history), OnRetryRequested)
    decreases |history|
  {
    hide Apply, MayFollow, EachMayFollow, CheckEvent, Head, FoldSpecs, StateAfter, Count;
    if history == [] {
      assert SpecsOf(history) == [];
      FoldsIff(s, []);
      assert FoldSpecs(s, []) == Ok(START) by { NothingFolds(s); }
    } else {
      var init, last := history[..|history| - 1], history[|history| - 1];
      var spec := Spec(last.body.kind, last.body.payload);
      assert SpecsOf(history) == SpecsOf(init) + [spec];
      AcceptedIff(s, init);
      FoldsIff(s, SpecsOf(history));
      FoldsIff(s, SpecsOf(init));
      CheckedIffChained(s, history);
      forall i | 0 <= i < |init| ensures Chained(s, history, i) <==> Chained(s, init, i) {
      }
      if Fold(s, init).Ok? {
        AcceptedSpecs(s, init);
        FoldSpecsOneMore(s, SpecsOf(init), spec);
      }
      MayFollowSnoc(s, SpecsOf(init), spec);
    }
  }

  lemma NothingFolds(s: Submission)
    ensures FoldSpecs(s, []) == Ok(START)
  {
  }

  lemma FoldSpecsOneMore(s: Submission, specs: seq<Spec>, spec: Spec)
    requires FoldSpecs(s, specs).Ok?
    ensures FoldSpecs(s, specs + [spec]) == Apply(s, FoldSpecs(s, specs).value, spec.kind, spec.payload)
  {
    hide Apply;
    assert (specs + [spec])[..|specs|] == specs;
  }

  // ------------------------------------------------- every state is reached

  const COURSE := [OnAdmissionRequested, OnAdmissionAllowed, OnDeliveryRequested, OnRemoteDispatched,
                   OnExecutionStarted, OnResultWaiting, OnResultReceived, OnResultVerified, OnReconciled]

  const STATES := [Submitted, AdmissionPending, Admitted, DeliveryPending, RemoteDispatched, Running,
                   WaitingForResult, Verifying, Reconciling, Completed]

  /** Events that lead to each state. */
  function RouteTo(t: State): seq<EventType> {
    match t
    case Submitted => []
    case AdmissionPending => COURSE[..1]
    case Admitted => COURSE[..2]
    case DeliveryPending => COURSE[..3]
    case RemoteDispatched => COURSE[..4]
    case Running => COURSE[..5]
    case WaitingForResult => COURSE[..6]
    case Verifying => COURSE[..7]
    case Reconciling => COURSE[..8]
    case Completed => COURSE
    case DeadlineExpired => COURSE[..1] + [OnDeadlineExpired]
    case PolicyRefused => COURSE[..1] + [OnPolicyRefused]
    case RuntimeAbsent => COURSE[..1] + [OnRuntimeAbsent]
    case WaitingForHuman => COURSE[..2] + [OnHumanWaitRequired]
    case CancelRequested => COURSE[..2] + [OnCancelRequested]
    case Cancelling => COURSE[..2] + [OnCancelRequested, OnCancelStarted]
    case Cancelled => COURSE[..2] + [OnCancelRequested, OnCancelStarted, OnCancelled]
    case RetryScheduled => COURSE[..3] + [OnRetryRequested]
    case ActivityFailed => COURSE[..4] + [OnActivityFailed]
    case ResultStale => COURSE[..7] + [OnResultStale]
    case ResultRefused => COURSE[..7] + [OnResultRefused]
    case Compensating => COURSE[..7] + [OnCompensationRequired]
    case Compensated => COURSE[..7] + [OnCompensationRequired, OnCompensated]
    case CompensationFailed => COURSE[..7] + [OnCompensationRequired, OnCompensationFailed]
    case FailedCleanup => COURSE[..7] + [OnCleanupFailed]
    case Failed => COURSE[..8] + [OnFailed]
  }

  /** The events as specs that carry nothing but their kind. */
  function Plain(kinds: seq<EventType>): (r: seq<Spec>)
    ensures |r| == |kinds|
    ensures forall i :: 0 <= i < |r| ==> r[i] == On(kinds[i])
  {
    seq(|kinds|, i requires 0 <= i < |kinds| => On(kinds[i]))
  }

  /** The events are accepted in order and end in `t`. */
  ghost predicate Arrives(s: Submission, kinds: seq<EventType>, t: State, retries: nat) {
    && FoldSpecs(s, Plain(kinds)) == Ok(Replay(t, retries, []))
    && forall spec :: spec in Plain(kinds) ==> CleanSpec(spec)
  }

  lemma GoOn(s: Submission, kinds: seq<EventType>, from: State, kind: EventType, to: State)
    requires Arrives(s, kinds, from, 0) && EventToState(kind) == Some(to) && OccursIn(kind, from)
    requires kind == OnRetryRequested ==> 2 <= s.maxAttempts
    ensures Arrives(s, kinds + [kind], to, if kind == OnRetryRequested then 1 else 0)
  {
    hide EventToState, Allowed, OccursIn, FoldSpecs, Apply;
    assert Plain(kinds + [kind]) == Plain(kinds) + [On(kind)];
    AllowedIff(from, kind);
    AllowedMoves(from, kind);
    FoldSpecsOneMore(s, Plain(kinds), On(kind));
    Applied(s, Replay(from, 0, []), kind, BLANK);
    CleanSnoc(kinds, kind);
  }

  lemma CleanSnoc(kinds: seq<EventType>, kind: EventType)
    requires EventToState(kind).Some? && forall spec :: spec in Plain(kinds) ==> CleanSpec(spec)
    ensures forall spec :: spec in Plain(kinds) + [On(kind)] ==> CleanSpec(spec)
  {
  }

  lemma CourseStep(n: nat)
    requires n < 9
    ensures EventToState(COURSE[n]) == Some(STATES[n + 1]) && OccursIn(COURSE[n], STATES[n])
    ensures COURSE[n] != OnRetryRequested
  {
  }

  lemma {:induction false} CourseArrives(s: Submission, n: nat)
    requires n <= 9
    ensures Arrives(s, COURSE[..n], STATES[n], 0)
  {
    if n == 0 {
      assert COURSE[..0] == [] && Plain([]) == [];
    } else {
      CourseArrives(s, n - 1);
      hide Arrives, EventToState, OccursIn;
      CourseStep(n - 1);
      GoOn(s, COURSE[..n - 1], STATES[n - 1], COURSE[n - 1], STATES[n]);
      assert COURSE[..n - 1] + [COURSE[n - 1]] == COURSE[..n];
    }
  }

  lemma CancelArrives(s: Submission)
    ensures Arrives(s, RouteTo(CancelRequested), CancelRequested, 0)
    ensures Arrives(s, RouteTo(Cancelling), Cancelling, 0)
    ensures Arrives(s, RouteTo(Cancelled), Cancelled, 0)
  {
    hide Arrives;
    CourseArrives(s, 2);
    GoOn(s, COURSE[..2], Admitted, OnCancelRequested, CancelRequested);
    GoOn(s, RouteTo(CancelRequested), CancelRequested, OnCancelStarted, Cancelling);
    assert RouteTo(CancelRequested) + [OnCancelStarted] == RouteTo(Cancelling);
    GoOn(s, RouteTo(Cancelling), Cancelling, OnCancelled, Cancelled);
    assert RouteTo(Cancelling) + [OnCancelled] == RouteTo(Cancelled);
  }

  lemma CompensationArrives(s: Submission)
    ensures Arrives(s, RouteTo(Compensating), Compensating, 0)
    ensures Arrives(s, RouteTo(Compensated), Compensated, 0)
    ensures Arrives(s, RouteTo(CompensationFailed), CompensationFailed, 0)
  {
    hide Arrives;
    CourseArrives(s, 7);
    GoOn(s, COURSE[..7], Verifying, OnCompensationRequired, Compensating);
    GoOn(s, RouteTo(Compensating), Compensating, OnCompensated, Compensated);
    assert RouteTo(Compensating) + [OnCompensated] == RouteTo(Compensated);
    GoOn(s, RouteTo(Compensating), Compensating, OnCompensationFailed, CompensationFailed);
    assert RouteTo(Compensating) + [OnCompensationFailed] == RouteTo(CompensationFailed);
  }

  lemma AsideArrives(s: Submission, n: nat, kind: EventType, t: State)
    requires n <= 8 && EventToState(kind) == Some(t) && OccursIn(kind, STATES[n])
    requires kind == OnRetryRequested ==> 2 <= s.maxAttempts
    ensures Arrives(s, COURSE[..n] + [kind], t, if kind == OnRetryRequested then 1 else 0)
  {
    hide Arrives;
    CourseArrives(s, n);
    GoOn(s, COURSE[..n], STATES[n], kind, t);
  }

  lemma RouteArrives(s: Submission, t: State)
    requires t == RetryScheduled ==> 2 <= s.maxAttempts
    ensures Arrives(s, RouteTo(t), t, if t == RetryScheduled then 1 else 0)
  {
    hide Arrives;
    if t in STATES {
      var n :| 0 <= n < |STATES| && STATES[n] == t;
      CourseArrives(s, n);
      assert RouteTo(t) == COURSE[..n];
    } else if t in {CancelRequested, Cancelling, Cancelled} {
      CancelArrives(s);
    } else if t in {Compensating, Compensated, CompensationFailed} {
      CompensationArrives(s);
    } else {
      RefusalArrives(s, t);
    }
  }

  lemma RefusalArrives(s: Submission, t: State)
    requires t == RetryScheduled ==> 2 <= s.maxAttempts
    requires t !in STATES && t !in {CancelRequested, Cancelling, Cancelled}
    requires t !in {Compensating, Compensated, CompensationFailed}
    ensures Arrives(s, RouteTo(t), t, if t == RetryScheduled then 1 else 0)
  {
    hide Arrives;
    if t == DeadlineExpired { AsideArrives(s, 1, OnDeadlineExpired, t); }
    if t == PolicyRefused { AsideArrives(s, 1, OnPolicyRefused, t); }
    if t == RuntimeAbsent { AsideArrives(s, 1, OnRuntimeAbsent, t); }
    if t == WaitingForHuman { AsideArrives(s, 2, OnHumanWaitRequired, t); }
    if t == RetryScheduled { AsideArrives(s, 3, OnRetryRequested, t); }
    if t == ActivityFailed { AsideArrives(s, 4, OnActivityFailed, t); }
    if t == ResultStale { AsideArrives(s, 7, OnResultStale, t); }
    if t == ResultRefused { AsideArrives(s, 7, OnResultRefused, t); }
    if t == FailedCleanup { AsideArrives(s, 7, OnCleanupFailed, t); }
    if t == Failed { AsideArrives(s, 8, OnFailed, t); }
  }

  /** Every one of the 26 states is reached by the events of its route, a scheduled retry
      if the job may retry at all. */
  lemma EveryStateIsReached(s: Submission, t: State) returns (history: seq<Event>)
    requires t == RetryScheduled ==> 2 <= s.maxAttempts
    ensures Fold(s, history).Ok? && Fold(s, history).value.state == t
    ensures SpecsOf(history) == Plain(RouteTo(t))
  {
    hide RouteTo;
    RouteArrives(s, t);
    ChainPasses(s, Plain(RouteTo(t)));
    SpecsOfChain(s, Plain(RouteTo(t)));
    history := Chain(s, Plain(RouteTo(t)));
  }
}
