/** Exactly which histories the retry, human-wait and compensation layers let through,
    said of the events alone, and ordinary ones that they do. */
module WorkflowLayers {
  import opened Wrappers
  import opened Ordering
  import opened WorkflowReducer
  import opened WorkflowRuns
  import opened WorkflowBoundaries
  import opened WorkflowAcceptance

  // ---------------------------------------------- retries, timers, cancels

  /** Where the layer believes the run to be: the state last named, the attempt last
      named and the number of retries. */
  function ShadowOf(specs: seq<Spec>): Shadow {
    var attempts := Attempts(specs);
    Shadow(StateAfter(specs), attempts[|attempts| - 1], Count(specs, OnRetryRequested))
  }

  /** Every event fits what was named before it, and retries stay in the attempt budget. */
  ghost predicate EachFits(s: Submission, specs: seq<Spec>) {
    forall i :: 0 <= i < |specs| ==>
      && EventFits(ShadowOf(specs[..i]), specs[i])
      && (specs[i].kind == OnRetryRequested ==> Count(specs[..i], OnRetryRequested) + 1 <= s.maxAttempts - 1)
  }

  lemma StepIff(s: Submission, b: Shadow, spec: Spec)
    ensures ShadowStep(s, b, spec.kind, spec.payload).Ok? <==>
              EventFits(b, spec) && (spec.kind == OnRetryRequested ==> b.retries + 1 <= s.maxAttempts - 1)
    ensures ShadowStep(s, b, spec.kind, spec.payload).Ok? ==>
              var next := ShadowStep(s, b, spec.kind, spec.payload).value;
              && next.state == (if EventToState(spec.kind).Some? then EventToState(spec.kind).value else b.state)
              && next.retries == b.retries + (if spec.kind == OnRetryRequested then 1 else 0)
              && (if spec.kind == OnRetryRequested then Some(next.attempt) == spec.payload.nextAttempt
                  else next.attempt == b.attempt)
  {
    hide EventToState, AttemptName, IsH64;
  }

  lemma ShadowSnoc(specs: seq<Spec>, spec: Spec)
    requires spec.kind == OnRetryRequested ==> spec.payload.nextAttempt.Some?
    ensures ShadowOf(specs + [spec]) ==
            Shadow(if EventToState(spec.kind).Some? then EventToState(spec.kind).value else ShadowOf(specs).state,
                   if spec.kind == OnRetryRequested then spec.payload.nextAttempt.value else ShadowOf(specs).attempt,
                   ShadowOf(specs).retries + if spec.kind == OnRetryRequested then 1 else 0)
  {
    hide EventToState;
    assert (specs + [spec])[..|specs|] == specs;
  }

  lemma FitsSnoc(s: Submission, specs: seq<Spec>, spec: Spec)
    ensures EachFits(s, specs + [spec]) <==>
              && EachFits(s, specs) && EventFits(ShadowOf(specs), spec)
              && (spec.kind == OnRetryRequested ==> Count(specs, OnRetryRequested) + 1 <= s.maxAttempts - 1)
  {
    hide EventFits, ShadowOf, Count;
    var more := specs + [spec];
    assert more[..|specs|] == specs && more[|specs|] == spec;
    forall i | 0 <= i < |specs| ensures more[..i] == specs[..i] && more[i] == specs[i] {
    }
  }

  /** The layer lets a history through exactly when every event fits. */
  lemma {:induction false} OperationalIff(s: Submission, specs: seq<Spec>)
    ensures ShadowFold(s, specs).Ok? <==> EachFits(s, specs)
    ensures ShadowFold(s, specs).Ok? ==> ShadowFold(s, specs).value == ShadowOf(specs)
    decreases |specs|
  {
    hide ShadowStep, EventFits, EachFits, ShadowOf, EventToState;
    if specs == [] {
      NothingFits(s);
    } else {
      var init, last := specs[..|specs| - 1], specs[|specs| - 1];
      assert specs == init + [last];
      OperationalIff(s, init);
      FitsSnoc(s, init, last);
      RetriesOf(init);
      if ShadowFold(s, init).Ok? {
        StepIff(s, ShadowOf(init), last);
        if ShadowFold(s, specs).Ok? {
          FittingRetry(ShadowOf(init), last);
          ShadowSnoc(init, last);
        }
      }
    }
  }

  lemma RetriesOf(specs: seq<Spec>)
    ensures ShadowOf(specs).retries == Count(specs, OnRetryRequested)
  {
  }

  lemma FittingRetry(b: Shadow, spec: Spec)
    requires EventFits(b, spec)
    ensures spec.kind == OnRetryRequested ==> spec.payload.nextAttempt.Some?
  {
  }

  lemma NothingFits(s: Submission)
    ensures EachFits(s, []) && ShadowOf([]) == FIRST_SHADOW
  {
  }

  // ------------------------------------------------------------ human waits

  ghost predicate WaitBefore(specs: seq<Spec>, i: nat)
    requires i <= |specs|
  {
    exists j :: 0 <= j < i && specs[j].kind == OnHumanWaitRequired
  }

  /** Every wait is typed and asks for evidence; at most one event decides, after a wait,
      and a human decided it. */
  ghost predicate HumanHistory(s: Submission, specs: seq<Spec>) {
    && (forall i :: 0 <= i < |specs| && specs[i].kind == OnHumanWaitRequired ==>
          specs[i].payload.waitTyped && IsH64(specs[i].payload.evidence))
    && Decisions(specs) <= 1
    && (forall i :: 0 <= i < |specs| && Decides(specs[i].kind, specs[i].payload) ==>
          HumanDecided(s, specs[i]) && WaitBefore(specs, i))
  }

  lemma {:induction false} CountsWaits(specs: seq<Spec>)
    ensures Count(specs, OnHumanWaitRequired) > 0 <==> WaitBefore(specs, |specs|)
    decreases |specs|
  {
    if specs != [] {
      var init := specs[..|specs| - 1];
      CountsWaits(init);
      if WaitBefore(init, |init|) {
        var j :| 0 <= j < |init| && init[j].kind == OnHumanWaitRequired;
        assert specs[j].kind == OnHumanWaitRequired;
      }
      if WaitBefore(specs, |specs|) {
        var j :| 0 <= j < |specs| && specs[j].kind == OnHumanWaitRequired;
        assert j < |init| ==> init[j].kind == OnHumanWaitRequired;
      }
    }
  }

  lemma HumanStepIff(s: Submission, h: Human, spec: Spec)
    ensures HumanStep(s, h, spec.kind, spec.payload).Ok? <==>
              && (spec.kind == OnHumanWaitRequired ==> spec.payload.waitTyped && IsH64(spec.payload.evidence))
              && (Decides(spec.kind, spec.payload) ==> h.waitSeen && !h.decisionSeen && HumanDecided(s, spec))
  {
    hide IsH64;
  }

  lemma HumanHistorySnoc(s: Submission, specs: seq<Spec>, spec: Spec)
    ensures HumanHistory(s, specs + [spec]) <==>
              && HumanHistory(s, specs)
              && (spec.kind == OnHumanWaitRequired ==> spec.payload.waitTyped && IsH64(spec.payload.evidence))
              && (Decides(spec.kind, spec.payload) ==>
                    HumanDecided(s, spec) && WaitBefore(specs, |specs|) && Decisions(specs) == 0)
  {
    hide HumanDecided, IsH64, Decides, WaitBefore;
    var more := specs + [spec];
    assert more[..|specs|] == specs && more[|specs|] == spec;
    forall i | 0 <= i <= |specs| ensures WaitBefore(more, i) <==> WaitBefore(specs, i) {
      WaitBeforeSnoc(specs, spec, i);
    }
    forall i | 0 <= i < |specs| ensures more[i] == specs[i] {
    }
  }

  lemma WaitBeforeSnoc(specs: seq<Spec>, spec: Spec, i: nat)
    requires i <= |specs|
    ensures WaitBefore(specs + [spec], i) <==> WaitBefore(specs, i)
  {
    var more := specs + [spec];
    forall j | 0 <= j < i ensures more[j] == specs[j] {
    }
  }

  /** The layer lets a history through exactly when its waits and decisions are in order. */
  lemma {:induction false} HumanIff(s: Submission, specs: seq<Spec>)
    ensures HumanFold(s, specs).Ok? <==> HumanHistory(s, specs)
    decreases |specs|
  {
    hide HumanStep, HumanHistory, HumanDecided, IsH64, Decides, WaitBefore;
    if specs == [] {
      NothingWaits(s);
    } else {
      var init, last := specs[..|specs| - 1], specs[|specs| - 1];
      assert specs == init + [last];
      HumanIff(s, init);
      HumanHistorySnoc(s, init, last);
      if HumanFold(s, init).Ok? {
        HumanStepIff(s, HumanFold(s, init).value, last);
        DecidedOnceAfterWait(s, init);
        CountsWaits(init);
      }
    }
  }

  lemma NothingWaits(s: Submission)
    ensures HumanHistory(s, [])
  {
  }

  /** A human's answer to a wait: in scope, on the bindings in force, with evidence. */
  function Answer(s: Submission, decision: Decision, evidence: Sha): Spec {
    Spec(if decision.Approve? then OnHumanApproved else OnPolicyRefused, BLANK.(
      decision := Some(decision), byHuman := true, decidedJob := Some(s.jobId), decidedTenant := Some(s.tenant),
      decidedPolicy := Some(s.policySha), decidedRuntime := Some(s.runtimeSha), decidedSource := Some(s.source),
      receipt := Some(evidence), evidence := Some(evidence), notExercised := true))
  }

  /** An ordinary decision: asked for, approved or refused by a human, and let through by
      the layer and the reducer; the job is then admitted or refused. */
  lemma DecisionIsAccepted(s: Submission, decision: Decision, evidence: Sha) returns (history: seq<Event>)
    requires IsH64(Some(evidence))
    ensures SpecsOf(history) == [On(OnAdmissionRequested), On(OnAdmissionAllowed),
                                 Spec(OnHumanWaitRequired, BLANK.(evidence := Some(evidence))),
                                 Answer(s, decision, evidence)]
    ensures Fold(s, history).Ok? && HumanFold(s, SpecsOf(history)).Ok?
    ensures Fold(s, history).value.state == match decision case Approve => Admitted case Refuse => PolicyRefused
    ensures Decisions(SpecsOf(history)) == 1 && EveryWaitDecided(s, SpecsOf(history))
  {
    var waiting := [On(OnAdmissionRequested), On(OnAdmissionAllowed),
                    Spec(OnHumanWaitRequired, BLANK.(evidence := Some(evidence)))];
    var answer := Answer(s, decision, evidence);
    var specs := waiting + [answer];
    AnswerIsTaken(s, waiting, decision, evidence);
    assert forall x :: x in specs ==> CleanSpec(x);
    hide FoldSpecs, HumanFold, IsH64, EveryWaitDecided, Decisions, Answer;
    ChainPasses(s, specs);
    SpecsOfChain(s, specs);
    history := Chain(s, specs);
  }

  lemma AnswerIsTaken(s: Submission, waiting: seq<Spec>, decision: Decision, evidence: Sha)
    requires IsH64(Some(evidence))
    requires waiting == [On(OnAdmissionRequested), On(OnAdmissionAllowed),
                         Spec(OnHumanWaitRequired, BLANK.(evidence := Some(evidence)))]
    ensures var specs := waiting + [Answer(s, decision, evidence)];
            && FoldSpecs(s, specs)
               == Ok(Replay(match decision case Approve => Admitted case Refuse => PolicyRefused, 0, []))
            && HumanFold(s, specs).Ok? && Decisions(specs) == 1 && EveryWaitDecided(s, specs)
  {
    var answer := Answer(s, decision, evidence);
    var specs := waiting + [answer];
    UndecidedRun(s, evidence);
    assert HumanDecided(s, answer) && Decides(answer.kind, answer.payload);
    assert specs[..3] == waiting;
    WaitingRun(s, waiting, evidence);
    HumanIff(s, waiting);
    CountsWaits(waiting);
    assert waiting[2].kind == OnHumanWaitRequired;
    HumanHistorySnoc(s, waiting, answer);
    HumanIff(s, specs);
    hide Apply, HumanFold, HumanHistory, HumanDecided, IsH64, Answer;
    assert FoldSpecs(s, specs) == Apply(s, Replay(WaitingForHuman, 0, []), answer.kind, answer.payload);
    AnswerMoves(s, decision, evidence);
    forall i | 0 <= i < |specs| && Resolves(s, specs[..i], specs[i]) ensures HumanDecided(s, specs[i]) {
      if i == 1 {
        assert specs[..1] == [On(OnAdmissionRequested)];
        NotWaitingYet(s);
      }
    }
  }

  lemma NotWaitingYet(s: Submission)
    ensures FoldSpecs(s, [On(OnAdmissionRequested)]).Ok? ==>
              FoldSpecs(s, [On(OnAdmissionRequested)]).value.state == AdmissionPending
  {
    FoldsIff(s, [On(OnAdmissionRequested)]);
  }

  lemma AnswerMoves(s: Submission, decision: Decision, evidence: Sha)
    ensures var answer := Answer(s, decision, evidence);
            Apply(s, Replay(WaitingForHuman, 0, []), answer.kind, answer.payload)
            == Ok(Replay(match decision case Approve => Admitted case Refuse => PolicyRefused, 0, []))
  {
  }

  lemma WaitingRun(s: Submission, waiting: seq<Spec>, evidence: Sha)
    requires RunsUndecided(s, waiting, WaitingForHuman)
    ensures FoldSpecs(s, waiting) == Ok(Replay(WaitingForHuman, 0, [])) && HumanFold(s, waiting).Ok?
    ensures Decisions(waiting) == 0
  {
  }

  // ----------------------------------------------------------- compensation

  /** The payload of the newest compensation request. */
  function NewestRequest(specs: seq<Spec>): Option<Payload> {
    if specs == [] then None
    else
      var last := specs[|specs| - 1];
      if last.kind == OnCompensationRequired then Some(last.payload) else NewestRequest(specs[..|specs| - 1])
  }

  /** Compensation of a committed, reversible effect, asked of the effect ledger under a
      new key. */
  predicate SoundRequest(p: Payload) {
    && p.mode == CompensationRequest && p.ownedByLedger && p.reversible && p.originalCommitted
    && p.effectId.Some? && p.parentKey.Some? && p.compensationKey.Some?
    && p.effectId.value.text != "" && p.parentKey.value.text != "" && p.compensationKey.value.text != ""
    && p.parentKey != p.compensationKey && IsH64(p.receipt) && p.notExercised
  }

  /** The outcome of the compensation that `request` asked for. */
  predicate AnswersRequest(request: Payload, p: Payload) {
    && p.ownedByLedger && p.effectId == request.effectId && p.compensationKey == request.compensationKey
    && IsH64(p.receipt) && p.notExercised
  }

  /** No event writes to a provider, every request is sound and every outcome answers the
      newest request before it. */
  ghost predicate CompensationHistory(specs: seq<Spec>) {
    forall i :: 0 <= i < |specs| ==> CompensationMayFollow(specs[..i], specs[i])
  }

  ghost predicate CompensationMayFollow(before: seq<Spec>, spec: Spec) {
    && !spec.payload.providerWrite
    && (spec.kind == OnCompensationRequired ==> SoundRequest(spec.payload))
    && (spec.kind == OnCompensated || spec.kind == OnCompensationFailed ==>
          NewestRequest(before).Some? && AnswersRequest(NewestRequest(before).value, spec.payload))
  }

  lemma CompensationSnoc(specs: seq<Spec>, spec: Spec)
    ensures CompensationHistory(specs + [spec]) <==> CompensationHistory(specs) && CompensationMayFollow(specs, spec)
  {
    hide CompensationMayFollow;
    var more := specs + [spec];
    assert more[..|specs|] == specs && more[|specs|] == spec;
    forall i | 0 <= i < |specs| ensures more[..i] == specs[..i] && more[i] == specs[i] {
    }
  }

  /** What the layer remembers of a request. */
  function LineageOf(request: Option<Payload>): Option<Lineage> {
    match request
    case Some(p) =>
      if p.effectId.Some? && p.parentKey.Some? && p.compensationKey.Some?
      then Some(Lineage(p.effectId.value, p.parentKey.value, p.compensationKey.value)) else None
    case None => None
  }

  lemma CompensationStepIff(before: seq<Spec>, spec: Spec)
    requires NewestRequest(before).Some? ==> SoundRequest(NewestRequest(before).value)
    ensures CompensationStep(LineageOf(NewestRequest(before)), spec.kind, spec.payload).Ok? <==>
            CompensationMayFollow(before, spec)
    ensures CompensationMayFollow(before, spec) ==>
              && CompensationStep(LineageOf(NewestRequest(before)), spec.kind, spec.payload).value
                 == LineageOf(NewestRequest(before + [spec]))
              && (NewestRequest(before + [spec]).Some? ==> SoundRequest(NewestRequest(before + [spec]).value))
  {
    hide IsH64;
    assert (before + [spec])[..|before|] == before;
  }

  /** The layer lets a history through exactly when its requests and outcomes are in
      order, and then holds the lineage of the newest request. */
  lemma {:induction false} CompensationIff(specs: seq<Spec>)
    ensures CompensationFold(specs).Ok? <==> CompensationHistory(specs)
    ensures CompensationFold(specs).Ok? ==> CompensationFold(specs) == Ok(LineageOf(NewestRequest(specs)))
    ensures CompensationFold(specs).Ok? && NewestRequest(specs).Some? ==> SoundRequest(NewestRequest(specs).value)
    decreases |specs|
  {
    hide CompensationStep, CompensationMayFollow, CompensationHistory, SoundRequest, LineageOf, NewestRequest;
    if specs == [] {
      NothingAsked();
    } else {
      var init, last := specs[..|specs| - 1], specs[|specs| - 1];
      assert specs == init + [last];
      CompensationIff(init);
      CompensationSnoc(init, last);
      if CompensationFold(init).Ok? {
        CompensationStepIff(init, last);
      }
    }
  }

  lemma NothingAsked()
    ensures CompensationHistory([]) && NewestRequest([]).None? && LineageOf(None).None?
  {
  }

  /** A request to compensate `effect`, committed under `parent`, under `key`. */
  function Request(effect: Name, parent: Name, key: Name, receipt: Sha): Spec {
    Spec(OnCompensationRequired, BLANK.(
      mode := CompensationRequest, ownedByLedger := true, reversible := true, originalCommitted := true,
      effectId := Some(effect), parentKey := Some(parent), compensationKey := Some(key), receipt := Some(receipt),
      notExercised := true))
  }

  function CompensationDone(effect: Name, key: Name, receipt: Sha): Spec {
    Spec(OnCompensated, BLANK.(
      ownedByLedger := true, effectId := Some(effect), compensationKey := Some(key), receipt := Some(receipt),
      notExercised := true))
  }

  /** An ordinary compensation: a verified result is refused, its effect compensated, and
      the layer and the reducer let it through. */
  lemma CompensationIsAccepted(s: Submission, effect: Name, parent: Name, key: Name, receipt: Sha)
    returns (history: seq<Event>)
    requires effect.text != "" && parent.text != "" && key.text != "" && parent != key && IsH64(Some(receipt))
    ensures SpecsOf(history) == Plain(COURSE[..7]) + [Request(effect, parent, key, receipt)]
                                + [CompensationDone(effect, key, receipt)]
    ensures Fold(s, history).Ok? && Fold(s, history).value.state == Compensated
    ensures CompensationFold(SpecsOf(history)) == Ok(Some(Lineage(effect, parent, key)))
  {
    var before := Plain(COURSE[..7]);
    var asked := before + [Request(effect, parent, key, receipt)];
    var specs := asked + [CompensationDone(effect, key, receipt)];
    CourseArrives(s, 7);
    assert forall x :: x in specs ==> CleanSpec(x);
    NothingAskedYet(before);
    RequestIsAnswered(before, effect, parent, key, receipt);
    ReducerCompensates(s, before, Request(effect, parent, key, receipt), CompensationDone(effect, key, receipt));
    hide FoldSpecs, CompensationFold, IsH64, Request, CompensationDone;
    ChainPasses(s, specs);
    SpecsOfChain(s, specs);
    history := Chain(s, specs);
  }

  lemma RequestIsAnswered(before: seq<Spec>, effect: Name, parent: Name, key: Name, receipt: Sha)
    requires effect.text != "" && parent.text != "" && key.text != "" && parent != key && IsH64(Some(receipt))
    requires CompensationHistory(before)
    ensures var specs := before + [Request(effect, parent, key, receipt)] + [CompensationDone(effect, key, receipt)];
            CompensationFold(specs) == Ok(Some(Lineage(effect, parent, key)))
  {
    var request, done := Request(effect, parent, key, receipt), CompensationDone(effect, key, receipt);
    var asked := before + [request];
    hide CompensationHistory, CompensationFold, IsH64;
    CompensationSnoc(before, request);
    CompensationSnoc(asked, done);
    assert asked[..|before|] == before && (asked + [done])[..|asked|] == asked;
    assert NewestRequest(asked) == Some(request.payload) == NewestRequest(asked + [done]);
    CompensationIff(asked + [done]);
  }

  lemma ReducerCompensates(s: Submission, before: seq<Spec>, request: Spec, done: Spec)
    requires FoldSpecs(s, before) == Ok(Replay(Verifying, 0, []))
    requires request.kind == OnCompensationRequired && done.kind == OnCompensated
    ensures FoldSpecs(s, before + [request] + [done]) == Ok(Replay(Compensated, 0, []))
  {
    hide FoldSpecs, Apply;
    FoldSpecsOneMore(s, before, request);
    Applied(s, Replay(Verifying, 0, []), OnCompensationRequired, request.payload);
    FoldSpecsOneMore(s, before + [request], done);
    Applied(s, Replay(Compensating, 0, []), OnCompensated, done.payload);
  }

  lemma NothingAskedYet(before: seq<Spec>)
    requires forall spec :: spec in before ==> spec.payload == BLANK
    requires forall spec :: spec in before ==>
               spec.kind !in {OnCompensationRequired, OnCompensated, OnCompensationFailed}
    ensures CompensationHistory(before)
  {
  }
}
