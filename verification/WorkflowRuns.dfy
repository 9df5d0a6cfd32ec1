/** How long accepted workflow histories are, and what completed ones look like. */
module WorkflowRuns {
  import opened Wrappers
  import opened WorkflowReducer

  // ----------------------------------------------------------------- counts

  function Changes(specs: seq<Spec>): nat {
    if specs == [] then 0
    else Changes(specs[..|specs| - 1]) + if specs[|specs| - 1].kind == EffectRequested then 0 else 1
  }

  function Count(specs: seq<Spec>, kind: EventType): nat {
    if specs == [] then 0
    else Count(specs[..|specs| - 1], kind) + if specs[|specs| - 1].kind == kind then 1 else 0
  }

  /** The most state changes that can still follow, counting 5 less for every later retry or wait. */
  function Potential(s: State): nat {
    match s
    case Submitted => 10
    case AdmissionPending => 9
    case WaitingForHuman => 9
    case Admitted => 8
    case RetryScheduled => 8
    case DeliveryPending => 7
    case RemoteDispatched => 6
    case Running => 5
    case WaitingForResult => 4
    case ActivityFailed => 4
    case Verifying => 3
    case CancelRequested => 3
    case Reconciling => 2
    case Cancelling => 2
    case Compensating => 1
    case _ => 0
  }

  lemma PotentialPays(from: State, to: State)
    requires Allowed(from, to)
    ensures 1 + Potential(to) <= Potential(from) + if to == RetryScheduled || to == WaitingForHuman then 5 else 0
  {
  }

  lemma {:induction false} RetriesAreBudgeted(s: Submission, specs: seq<Spec>, r: Replay)
    requires ValidSubmission(s) && FoldSpecs(s, specs) == Ok(r)
    ensures r.retries == Count(specs, OnRetryRequested) <= s.maxAttempts - 1
    decreases |specs|
  {
    if specs != [] {
      var init, last := specs[..|specs| - 1], specs[|specs| - 1];
      RetriesAreBudgeted(s, init, FoldSpecs(s, init).value);
      ApplyMoves(s, FoldSpecs(s, init).value, last.kind, last.payload);
    }
  }

  lemma {:induction false} ChangesCost(s: Submission, specs: seq<Spec>, r: Replay)
    requires FoldSpecs(s, specs) == Ok(r)
    ensures Changes(specs) + Potential(r.state) <= 10 + 5 * (r.retries + Count(specs, OnHumanWaitRequired))
    decreases |specs|
  {
    if specs != [] {
      var init, last := specs[..|specs| - 1], specs[|specs| - 1];
      var before := FoldSpecs(s, init).value;
      ChangesCost(s, init, before);
      ApplyMoves(s, before, last.kind, last.payload);
      if last.kind != EffectRequested {
        PotentialPays(before.state, r.state);
      }
    }
  }

  /** The state changes of an accepted history number at most 10 plus 5 for each
      retry and each human wait, less what its final state could still do; and
      retries never exceed the attempt budget. */
  lemma ChangesAreBounded(s: Submission, history: seq<Event>, r: Replay)
    requires ValidSubmission(s) && Fold(s, history) == Ok(r)
    ensures var specs := SpecsOf(history);
            && Changes(specs) + Potential(r.state) <= 10 + 5 * (r.retries + Count(specs, OnHumanWaitRequired))
            && r.retries == Count(specs, OnRetryRequested) <= s.maxAttempts - 1 <= s.budgetAttempts - 1 <= 19
  {
    AcceptedSpecs(s, history);
    ChangesCost(s, SpecsOf(history), r);
    RetriesAreBudgeted(s, SpecsOf(history), r);
  }

  // --------------------------------------------------- the bound is attained

  const BLANK := Payload(false, false, OtherMode, false, None, false, true, None, None, None, None, None, true, None,
                         true, None, None, None, None, None, None, true, true, None, None, None, true, false)

  function On(kind: EventType): Spec {
    Spec(kind, BLANK)
  }

  /** `specs` is clean, accepted and ends in state `t` with these counts. */
  ghost predicate Reaching(s: Submission, specs: seq<Spec>, t: State, changes: nat, retries: nat, waits: nat) {
    && (forall x :: x in specs ==> CleanSpec(x))
    && FoldSpecs(s, specs) == Ok(Replay(t, retries, []))
    && Changes(specs) == changes && Count(specs, OnHumanWaitRequired) == waits
  }

  lemma Counted(specs: seq<Spec>, kind: EventType)
    requires kind != EffectRequested
    ensures Changes(specs + [On(kind)]) == Changes(specs) + 1
    ensures Count(specs + [On(kind)], OnHumanWaitRequired) ==
            Count(specs, OnHumanWaitRequired) + if kind == OnHumanWaitRequired then 1 else 0
  {
    assert (specs + [On(kind)])[..|specs|] == specs;
  }

  lemma Folded(s: Submission, specs: seq<Spec>, kind: EventType)
    requires FoldSpecs(s, specs).Ok?
    ensures FoldSpecs(s, specs + [On(kind)]) == Apply(s, FoldSpecs(s, specs).value, kind, BLANK)
  {
    assert (specs + [On(kind)])[..|specs|] == specs;
  }

  lemma AllowedMoves(from: State, kind: EventType)
    requires EventToState(kind).Some? && Allowed(from, EventToState(kind).value)
    ensures kind != EffectRequested && !Terminal(from) && from != ResultStale
    ensures CheckTransition(from, EventToState(kind).value).Ok?
  {
  }

  lemma Applied(s: Submission, r: Replay, kind: EventType, p: Payload)
    requires EventToState(kind).Some? && Allowed(r.state, EventToState(kind).value)
    requires kind == OnRetryRequested ==> r.retries + 1 <= s.maxAttempts - 1
    ensures Apply(s, r, kind, p) ==
            Ok(Replay(EventToState(kind).value, r.retries + (if kind == OnRetryRequested then 1 else 0), r.effects))
  {
    hide Allowed, Terminal, CheckTransition, EventToState;
    AllowedMoves(r.state, kind);
  }

  lemma Move(s: Submission, specs: seq<Spec>, from: State, kind: EventType, changes: nat, retries: nat, waits: nat)
    requires Reaching(s, specs, from, changes, retries, waits)
    requires EventToState(kind).Some? && Allowed(from, EventToState(kind).value)
    requires kind == OnRetryRequested ==> retries + 1 <= s.maxAttempts - 1
    ensures Reaching(s, specs + [On(kind)], EventToState(kind).value, changes + 1,
                     retries + (if kind == OnRetryRequested then 1 else 0),
                     waits + (if kind == OnHumanWaitRequired then 1 else 0))
  {
    hide FoldSpecs, Count, Changes;
    Counted(specs, kind);
    Folded(s, specs, kind);
    Applied(s, Replay(from, retries, []), kind, BLANK);
    assert forall x :: x in specs + [On(kind)] ==> x in specs || x == On(kind);
  }

  /** From a state that allows delivery, dispatch and start running. */
  lemma RunAgain(s: Submission, before: seq<Spec>, from: State, changes: nat, retries: nat, waits: nat)
    returns (specs: seq<Spec>)
    requires Reaching(s, before, from, changes, retries, waits) && Allowed(from, DeliveryPending)
    ensures Reaching(s, specs, Running, changes + 3, retries, waits)
  {
    hide FoldSpecs, Count, Changes;
    specs := before;
    Move(s, specs, from, OnDeliveryRequested, changes, retries, waits);
    specs := specs + [On(OnDeliveryRequested)];
    Move(s, specs, DeliveryPending, OnRemoteDispatched, changes + 1, retries, waits);
    specs := specs + [On(OnRemoteDispatched)];
    Move(s, specs, RemoteDispatched, OnExecutionStarted, changes + 2, retries, waits);
    specs := specs + [On(OnExecutionStarted)];
  }

  /** Running after `w` human waits. */
  lemma {:induction false} AfterWaits(s: Submission, w: nat) returns (specs: seq<Spec>)
    ensures Reaching(s, specs, Running, 5 + 5 * w, 0, w)
    decreases w
  {
    if w == 0 {
      specs := AtDispatch(s);
    } else {
      hide FoldSpecs, Count, Changes;
      specs := AfterWaits(s, w - 1);
      specs := WaitOnce(s, specs, 5 + 5 * (w - 1), w - 1);
    }
  }

  lemma NothingReached(s: Submission)
    ensures Reaching(s, [], Submitted, 0, 0, 0)
  {
  }

  lemma AtDispatch(s: Submission) returns (specs: seq<Spec>)
    ensures Reaching(s, specs, Running, 5, 0, 0)
  {
    hide Reaching;
    specs := [];
    NothingReached(s);
    Move(s, specs, Submitted, OnAdmissionRequested, 0, 0, 0);
    specs := specs + [On(OnAdmissionRequested)];
    Move(s, specs, AdmissionPending, OnAdmissionAllowed, 1, 0, 0);
    specs := specs + [On(OnAdmissionAllowed)];
    specs := RunAgain(s, specs, Admitted, 2, 0, 0);
  }

  lemma WaitOnce(s: Submission, before: seq<Spec>, changes: nat, waits: nat) returns (specs: seq<Spec>)
    requires Reaching(s, before, Running, changes, 0, waits)
    ensures Reaching(s, specs, Running, changes + 5, 0, waits + 1)
  {
    hide FoldSpecs, Count, Changes;
    specs := before;
    Move(s, specs, Running, OnHumanWaitRequired, changes, 0, waits);
    specs := specs + [On(OnHumanWaitRequired)];
    Move(s, specs, WaitingForHuman, OnHumanApproved, changes + 1, 0, waits + 1);
    specs := specs + [On(OnHumanApproved)];
    specs := RunAgain(s, specs, Admitted, changes + 2, 0, waits + 1);
  }

  lemma RetryOnce(s: Submission, before: seq<Spec>, changes: nat, retries: nat, waits: nat)
    returns (specs: seq<Spec>)
    requires Reaching(s, before, WaitingForResult, changes, retries, waits) && retries + 1 <= s.maxAttempts - 1
    ensures Reaching(s, specs, WaitingForResult, changes + 5, retries + 1, waits)
  {
    hide FoldSpecs, Count, Changes;
    Move(s, before, WaitingForResult, OnRetryRequested, changes, retries, waits);
    specs := RunAgain(s, before + [On(OnRetryRequested)], RetryScheduled, changes + 1, retries + 1, waits);
    Move(s, specs, Running, OnResultWaiting, changes + 4, retries + 1, waits);
    specs := specs + [On(OnResultWaiting)];
  }

  /** Waiting for a result after `w` human waits and `r` retries. */
  lemma {:induction false} AfterRetries(s: Submission, r: nat, w: nat) returns (specs: seq<Spec>)
    requires r <= s.maxAttempts - 1
    ensures Reaching(s, specs, WaitingForResult, 6 + 5 * r + 5 * w, r, w)
    decreases r
  {
    hide FoldSpecs, Count, Changes;
    if r == 0 {
      specs := AfterWaits(s, w);
      Move(s, specs, Running, OnResultWaiting, 5 + 5 * w, 0, w);
      specs := specs + [On(OnResultWaiting)];
    } else {
      specs := AfterRetries(s, r - 1, w);
      specs := RetryOnce(s, specs, 6 + 5 * (r - 1) + 5 * w, r - 1, w);
    }
  }

  lemma CancelAndCompensate(s: Submission, before: seq<Spec>, changes: nat, r: nat, w: nat) returns (specs: seq<Spec>)
    requires Reaching(s, before, WaitingForResult, changes, r, w)
    ensures Reaching(s, specs, Compensated, changes + 4, r, w)
  {
    hide FoldSpecs, Count, Changes;
    specs := before;
    Move(s, specs, WaitingForResult, OnCancelRequested, changes, r, w);
    specs := specs + [On(OnCancelRequested)];
    Move(s, specs, CancelRequested, OnCancelStarted, changes + 1, r, w);
    specs := specs + [On(OnCancelStarted)];
    Move(s, specs, Cancelling, OnCompensationRequired, changes + 2, r, w);
    specs := specs + [On(OnCompensationRequired)];
    Move(s, specs, Compensating, OnCompensated, changes + 3, r, w);
    specs := specs + [On(OnCompensated)];
  }

  /** For every affordable number of retries and every number of waits some accepted
      history makes exactly 10 + 5 * (retries + waits) state changes. */
  lemma BoundIsAttained(s: Submission, r: nat, w: nat) returns (history: seq<Event>)
    requires ValidSubmission(s) && r <= s.maxAttempts - 1
    ensures Fold(s, history) == Ok(Replay(Compensated, r, []))
    ensures exists specs :: history == Chain(s, specs) && Changes(specs) == 10 + 5 * (r + w)
                            && Count(specs, OnHumanWaitRequired) == w
  {
    var waiting := AfterRetries(s, r, w);
    var specs := CancelAndCompensate(s, waiting, 6 + 5 * r + 5 * w, r, w);
    ChainPasses(s, specs);
    history := Chain(s, specs);
  }

  // --------------------------------------------------------- completed runs

  function Trace(specs: seq<Spec>): (r: seq<State>)
    ensures r != []
  {
    if specs == [] then [Submitted]
    else
      var before, to := Trace(specs[..|specs| - 1]), EventToState(specs[|specs| - 1].kind);
      if to.Some? then before + [to.value] else before
  }

  predicate LoopEntry(s: State) {
    s.Submitted? || s.RetryScheduled? || s.WaitingForHuman?
  }

  /** The trace from its last retry, wait or submission on. */
  function Since(specs: seq<Spec>): seq<State> {
    if specs == [] then [Submitted]
    else
      var before, to := Since(specs[..|specs| - 1]), EventToState(specs[|specs| - 1].kind);
      if to.None? then before
      else if LoopEntry(to.value) then [to.value]
      else before + [to.value]
  }

  const DELIVERY := [DeliveryPending, RemoteDispatched, Running, WaitingForResult, Verifying, Reconciling, Completed]

  /** How a run gets from a loop entry to delivery. */
  function Lead(entry: State): seq<State> {
    match entry
    case Submitted => [Submitted, AdmissionPending, Admitted]
    case WaitingForHuman => [WaitingForHuman, Admitted]
    case _ => [RetryScheduled]
  }

  ghost predicate OnChain(since: seq<State>, length: nat)
    requires length <= 7
  {
    exists entry :: LoopEntry(entry) && since == Lead(entry) + DELIVERY[..length]
  }

  ghost predicate SinceFits(since: seq<State>, s: State) {
    match s
    case Submitted => since == [Submitted]
    case RetryScheduled => since == [RetryScheduled]
    case WaitingForHuman => since == [WaitingForHuman]
    case AdmissionPending => since == [Submitted, AdmissionPending]
    case Admitted => since == Lead(Submitted) || since == Lead(WaitingForHuman)
    case DeliveryPending => OnChain(since, 1)
    case RemoteDispatched => OnChain(since, 2)
    case Running => OnChain(since, 3)
    case WaitingForResult => OnChain(since, 4)
    case Verifying => OnChain(since, 5)
    case Reconciling => OnChain(since, 6)
    case Completed => OnChain(since, 7)
    case _ => true
  }

  lemma ChainExtends(since: seq<State>, length: nat)
    requires length < 7 && OnChain(since, length)
    ensures OnChain(since + [DELIVERY[length]], length + 1)
  {
    var entry :| LoopEntry(entry) && since == Lead(entry) + DELIVERY[..length];
    hide Lead;
    assert DELIVERY[..length + 1] == DELIVERY[..length] + [DELIVERY[length]];
    assert since + [DELIVERY[length]] == Lead(entry) + DELIVERY[..length + 1];
  }

  lemma DeliveryStarts(since: seq<State>, from: State)
    requires SinceFits(since, from) && Allowed(from, DeliveryPending)
    ensures OnChain(since + [DeliveryPending], 1)
  {
    var entry := since[0];
    assert since == Lead(entry);
    assert since + [DeliveryPending] == Lead(entry) + DELIVERY[..1];
  }

  lemma FitsOnChain(since: seq<State>, length: nat)
    requires 1 <= length <= 7
    ensures SinceFits(since, DELIVERY[length - 1]) <==> OnChain(since, length)
  {
    hide OnChain;
  }

  lemma ChainPredecessor(from: State, length: nat)
    requires 2 <= length <= 7 && Allowed(from, DELIVERY[length - 1])
    ensures from == DELIVERY[length - 2]
  {
  }

  lemma ChainTo(since: seq<State>, from: State, length: nat)
    requires 1 <= length <= 7 && SinceFits(since, from) && Allowed(from, DELIVERY[length - 1])
    ensures SinceFits(since + [DELIVERY[length - 1]], DELIVERY[length - 1])
  {
    hide SinceFits, OnChain, Allowed;
    FitsOnChain(since + [DELIVERY[length - 1]], length);
    if length == 1 {
      DeliveryStarts(since, from);
    } else {
      ChainPredecessor(from, length);
      FitsOnChain(since, length - 1);
      ChainExtends(since, length - 1);
    }
  }

  lemma OffChain(since: seq<State>, from: State, to: State)
    requires SinceFits(since, from) && Allowed(from, to) && !LoopEntry(to) && to !in DELIVERY
    ensures SinceFits(since + [to], to)
  {
    hide OnChain;
  }

  lemma SinceExtends(since: seq<State>, from: State, to: State)
    requires SinceFits(since, from) && Allowed(from, to) && !LoopEntry(to)
    ensures SinceFits(since + [to], to)
  {
    hide SinceFits, Allowed, LoopEntry;
    if to in DELIVERY {
      var k :| 0 <= k < |DELIVERY| && DELIVERY[k] == to;
      ChainTo(since, from, k + 1);
    } else {
      OffChain(since, from, to);
    }
  }

  predicate AfterCancel(s: State) {
    || s.CancelRequested? || s.Cancelling? || s.Cancelled? || s.Compensating? || s.Compensated?
    || s.CompensationFailed? || s.FailedCleanup?
  }

  lemma CancelStays(from: State, to: State)
    requires AfterCancel(from) && Allowed(from, to)
    ensures AfterCancel(to)
  {
  }

  lemma ShapeStays(since: seq<State>, from: State, to: State)
    requires SinceFits(since, from) && Allowed(from, to)
    ensures SinceFits(if LoopEntry(to) then [to] else since + [to], to)
  {
    hide SinceFits, Allowed;
    if LoopEntry(to) {
      EntryFits(to);
    } else {
      SinceExtends(since, from, to);
    }
  }

  /** What every accepted run satisfies: its shape since the last loop entry, and
      that it never leaves the cancel side again. */
  lemma {:induction false} RunInvariant(s: Submission, specs: seq<Spec>, r: Replay)
    requires FoldSpecs(s, specs) == Ok(r)
    ensures SinceFits(Since(specs), r.state)
    ensures Count(specs, OnCancelRequested) > 0 ==> AfterCancel(r.state)
    decreases |specs|
  {
    hide SinceFits, Apply, Allowed, AfterCancel, LoopEntry;
    if specs == [] {
      StartFits();
    } else {
      var init, last := specs[..|specs| - 1], specs[|specs| - 1];
      var before := FoldSpecs(s, init).value;
      RunInvariant(s, init, before);
      ApplyMoves(s, before, last.kind, last.payload);
      if last.kind != EffectRequested {
        ShapeStays(Since(init), before.state, r.state);
        if last.kind == OnCancelRequested {
          CancelStarts(r.state);
        } else if Count(init, OnCancelRequested) > 0 {
          CancelStays(before.state, r.state);
        }
      }
    }
  }

  lemma CancelStarts(to: State)
    requires to == CancelRequested
    ensures AfterCancel(to)
  {
  }

  lemma StartFits()
    ensures SinceFits(Since([]), Submitted)
  {
  }

  lemma EntryFits(entry: State)
    requires LoopEntry(entry)
    ensures SinceFits([entry], entry)
  {
  }

  /** A completed run contains no cancel request, and from its last retry, wait or
      submission on it is exactly one full chain from delivery to reconciliation. */
  lemma CompletedRuns(s: Submission, history: seq<Event>, r: Replay)
    requires Fold(s, history) == Ok(r) && r.state == Completed
    ensures Count(SpecsOf(history), OnCancelRequested) == 0
    ensures exists entry :: LoopEntry(entry) && Since(SpecsOf(history)) == Lead(entry) + DELIVERY
  {
    AcceptedSpecs(s, history);
    RunInvariant(s, SpecsOf(history), r);
    assert DELIVERY[..7] == DELIVERY;
    var entry :| LoopEntry(entry) && Since(SpecsOf(history)) == Lead(entry) + DELIVERY[..7];
  }
}
