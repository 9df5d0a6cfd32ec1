/** Exactly which effect histories are accepted, and which state sequences they have. */
module EffectTraces {
  import opened Wrappers
  import opened Ordering
  import opened EffectTypes
  import opened EffectReducer
  import opened EffectHistory

  // ------------------------------------------------- every shaped trace occurs

  /** The state before the last one of a shaped trace. */
  ghost function Before(t: seq<EffectState>): EffectState
    requires |t| > 1
  {
    t[|t| - 2]
  }

  lemma LoopsEnd(unknown: bool, k: nat)
    requires unknown || k > 0
    ensures Reconciling(unknown, k)[|Reconciling(unknown, k)| - 1] == ReconciliationRequired
  {
  }

  lemma ObservedBack(t: seq<EffectState>)
    requires Shaped(t, EffectObserved)
    ensures |t| > 1 && Shaped(t[..|t| - 1], Before(t)) && EffectObserved in Transitions(Before(t))
  {
    var unknown: bool, k: nat :| t == ObservedTrace(unknown, k);
    assert t[..|t| - 1] == Reconciling(unknown, k);
    if unknown || k > 0 {
      LoopsEnd(unknown, k);
    } else {
      assert Reconciling(false, 0) == ADMISSION;
    }
  }

  lemma ReconcilingBack(t: seq<EffectState>)
    requires Shaped(t, ReconciliationRequired)
    ensures |t| > 1 && Shaped(t[..|t| - 1], Before(t)) && ReconciliationRequired in Transitions(Before(t))
  {
    var unknown: bool, k: nat :| (unknown || k > 0) && t == Reconciling(unknown, k);
    if k > 0 {
      assert t[..|t| - 1] == ObservedTrace(unknown, k - 1);
    } else {
      assert t[..|t| - 1] == ADMISSION + [ResultUnknown];
    }
  }

  lemma CommittedBack(t: seq<EffectState>)
    requires Shaped(t, EffectCommitted)
    ensures |t| > 1 && Shaped(t[..|t| - 1], Before(t)) && EffectCommitted in Transitions(Before(t))
  {
    var unknown: bool, k: nat :| t == CommittedTrace(unknown, k);
    assert t[..|t| - 1] == ObservedTrace(unknown, k);
  }

  lemma CompensationBack(t: seq<EffectState>, last: seq<EffectState>)
    requires last != [] && Compensates(t, last)
    ensures |t| > 1 && if |last| > 1 then Compensates(t[..|t| - 1], last[..|last| - 1]) && Before(t) == last[|last| - 2]
                       else Shaped(t[..|t| - 1], ReconciliationRequired) && Before(t) == ReconciliationRequired
  {
    var unknown: bool, k: nat :| (unknown || k > 0) && t == Reconciling(unknown, k) + last;
    LoopsEnd(unknown, k);
    if |last| > 1 {
      assert t[..|t| - 1] == Reconciling(unknown, k) + last[..|last| - 1];
    } else {
      assert t[..|t| - 1] == Reconciling(unknown, k);
    }
  }

  lemma CompensatingBack(t: seq<EffectState>, s: EffectState)
    requires Shaped(t, s) && s in {CompensationRequired, Compensating, Compensated, CompensationFailed}
    ensures |t| > 1 && Shaped(t[..|t| - 1], Before(t)) && s in Transitions(Before(t))
  {
    hide Compensates, Reconciling;
    var two := [CompensationRequired, Compensating];
    if s == CompensationRequired {
      CompensationBack(t, [s]);
    } else if s == Compensating {
      CompensationBack(t, two);
      assert two[..1] == [CompensationRequired];
    } else {
      var last := [CompensationRequired, Compensating, s];
      assert last[..2] == two;
      CompensationBack(t, last);
    }
  }

  /** A shaped trace continues a shorter one by an allowed transition. */
  lemma ShapeBack(t: seq<EffectState>, s: EffectState)
    requires Shaped(t, s) && s != EffectProposed
    ensures |t| > 1 && Shaped(t[..|t| - 1], Before(t)) && s in Transitions(Before(t))
  {
    hide Compensates, Transitions, ObservedTrace, Reconciling, CommittedTrace;
    if s == EffectObserved {
      ObservedBack(t);
    } else if s == ReconciliationRequired {
      ReconcilingBack(t);
    } else if s == EffectCommitted {
      CommittedBack(t);
    } else if s in {CompensationRequired, Compensating, Compensated, CompensationFailed} {
      CompensatingBack(t, s);
    } else {
      AdmissionBack(t, s);
    }
  }

  /** ... here within or straight after the admission states. */
  lemma AdmissionBack(t: seq<EffectState>, s: EffectState)
    requires Shaped(t, s) && s != EffectProposed && |t| <= 8 && t[..|t| - 1] == ADMISSION[..|t| - 1]
    ensures |t| > 1 && Shaped(t[..|t| - 1], Before(t)) && s in Transitions(Before(t))
  {
    assert ADMISSION[..7] == ADMISSION;
  }

  const ANY_ATTEMPT := Name("attempt")

  /** An attempt and a readback on record, in state `s`. */
  function Recorded(request: Request, s: EffectState): Ledger {
    Ledger(s, [AttemptOf(request, ANY_ATTEMPT, RetryableFailure)],
           [Readback(request.expectedVersion, IdentitySha(request), request.target.providerId,
                     request.target.resourceId, request.target.action)],
           if s == EffectCommitted then 1 else 0)
  }

  lemma StartRecorded(request: Request) returns (specs: seq<Spec>)
    ensures Realises(request, specs, Recorded(request, EffectProposed), [EffectProposed])
  {
    var attempt, readback := AttemptSpec(request, ANY_ATTEMPT, RetryableFailure),
                             ReadbackSpec(request, IdentitySha(request));
    var ledger := INITIAL.(attempts := [AttemptOf(request, ANY_ATTEMPT, RetryableFailure)]);
    assert Realises(request, [], INITIAL, [EffectProposed]);
    Record(request, [], INITIAL, [EffectProposed], attempt);
    assert INITIAL.attempts + [AttemptOf(request, ANY_ATTEMPT, RetryableFailure)] == ledger.attempts;
    Record(request, [] + [attempt], ledger, [EffectProposed], readback);
    specs := [] + [attempt] + [readback];
    assert ledger.readbacks + Recorded(request, EffectProposed).readbacks
           == Recorded(request, EffectProposed).readbacks;
  }

  lemma {:induction false} ShapedIsRealised(request: Request, t: seq<EffectState>, s: EffectState)
    returns (specs: seq<Spec>)
    requires Shaped(t, s)
    ensures Realises(request, specs, Recorded(request, s), t)
    decreases |t|
  {
    hide Shaped, Transitions, Realises;
    if s == EffectProposed {
      specs := StartRecorded(request);
      OnlyStart(t);
    } else {
      ShapeBack(t, s);
      var before, from := t[..|t| - 1], Before(t);
      ShapeEnds(t, s);
      assert t == before + [s];
      specs := ShapedIsRealised(request, before, from);
      if s == EffectCommitted {
        OnlyObservedCommits(from);
        Commit(request, specs, Recorded(request, from), before);
      } else {
        assert from != EffectCommitted by { CommittedIsFinal(from, s); }
        Move(request, specs, Recorded(request, from), before, s);
      }
      specs := specs + [ToState(s)];
    }
  }

  lemma OnlyStart(t: seq<EffectState>)
    requires Shaped(t, EffectProposed)
    ensures t == [EffectProposed]
  {
  }

  lemma CommittedIsFinal(from: EffectState, to: EffectState)
    requires to in Transitions(from)
    ensures from != EffectCommitted
  {
  }

  lemma OnlyObservedCommits(from: EffectState)
    requires EffectCommitted in Transitions(from)
    ensures from == EffectObserved
  {
  }

  /** A shaped trace ends in its state. */
  lemma ShapeEnds(t: seq<EffectState>, s: EffectState)
    requires Shaped(t, s)
    ensures t != [] && t[|t| - 1] == s
  {
    if s == ReconciliationRequired {
      var unknown: bool, k: nat :| (unknown || k > 0) && t == Reconciling(unknown, k);
      LoopsEnd(unknown, k);
    }
  }

  /** Some accepted history passes through `t` and ends in `s`. */
  ghost predicate Occurs(request: Request, t: seq<EffectState>, s: EffectState) {
    exists history :: Fold(request, history).Ok? && Fold(request, history).value.state == s
                      && Trace(SpecsOf(history)) == t
  }

  /** The traces of accepted histories are exactly the shaped ones: for each of the 21
      states the admission states in order, cut short where it refuses, or followed by
      the attempt's outcome and any number of reconciliations. */
  lemma TracesAreExactly(request: Request, t: seq<EffectState>, s: EffectState)
    ensures Occurs(request, t, s) <==> Shaped(t, s)
  {
    hide Shaped, Recorded;
    if Occurs(request, t, s) {
      var history :| Fold(request, history).Ok? && Fold(request, history).value.state == s
                     && Trace(SpecsOf(history)) == t;
      AcceptedSpecs(request, history);
      LedgerInvariantHolds(request, SpecsOf(history));
    }
    if Shaped(t, s) {
      var specs := ShapedIsRealised(request, t, s);
      ChainPasses(request, specs);
      SpecsOfChain(request, specs);
      assert Recorded(request, s).state == s by { RecordedIn(request, s); }
      assert Fold(request, Chain(request, specs)).value.state == s;
    }
  }

  lemma RecordedIn(request: Request, s: EffectState)
    ensures Recorded(request, s).state == s
  {
  }

  /** The shortest way to each state. */
  function RouteTo(s: EffectState): seq<EffectState> {
    match s
    case EffectProposed => ADMISSION[..1]
    case IntentValidated => ADMISSION[..2]
    case PolicyAndApprovalChecked => ADMISSION[..3]
    case IdempotencyReserved => ADMISSION[..4]
    case PreconditionRevalidated => ADMISSION[..5]
    case ExecutionAuthorized => ADMISSION[..6]
    case EffectAttempted => ADMISSION
    case ReadOnlyNoEffect => [EffectProposed, ReadOnlyNoEffect]
    case PolicyRefused => ADMISSION[..3] + [PolicyRefused]
    case ApprovalRequired => ADMISSION[..3] + [ApprovalRequired]
    case DuplicateRefused => ADMISSION[..4] + [DuplicateRefused]
    case PreconditionStale => ADMISSION[..5] + [PreconditionStale]
    case AttemptFailed => ADMISSION + [AttemptFailed]
    case ResultUnknown => ADMISSION + [ResultUnknown]
    case EffectObserved => ADMISSION + [EffectObserved]
    case EffectCommitted => ADMISSION + [EffectObserved, EffectCommitted]
    case ReconciliationRequired => ADMISSION + [EffectObserved, ReconciliationRequired]
    case CompensationRequired => ADMISSION + [EffectObserved, ReconciliationRequired, CompensationRequired]
    case Compensating => ADMISSION + [EffectObserved, ReconciliationRequired, CompensationRequired, Compensating]
    case Compensated =>
      ADMISSION + [EffectObserved, ReconciliationRequired, CompensationRequired, Compensating, Compensated]
    case CompensationFailed =>
      ADMISSION + [EffectObserved, ReconciliationRequired, CompensationRequired, Compensating, CompensationFailed]
  }

  lemma RouteIsShaped(s: EffectState)
    ensures Shaped(RouteTo(s), s)
  {
    assert Reconciling(false, 1) == ADMISSION + [EffectObserved, ReconciliationRequired];
    assert ObservedTrace(false, 0) == ADMISSION + [EffectObserved];
    assert CommittedTrace(false, 0) == ADMISSION + [EffectObserved, EffectCommitted];
  }

  /** Every one of the 21 states is reached. */
  lemma EveryStateIsReached(request: Request, s: EffectState)
    ensures Occurs(request, RouteTo(s), s)
  {
    RouteIsShaped(s);
    TracesAreExactly(request, RouteTo(s), s);
  }

  // ---------------------------------------------- which histories are accepted

  /** The payloads of one kind of event, in order. */
  function Payloads(specs: seq<Spec>, kind: EventKind): seq<Payload> {
    if specs == [] then []
    else
      var before, last := Payloads(specs[..|specs| - 1], kind), specs[|specs| - 1];
      if last.kind == kind then before + [last.payload] else before
  }

  function LastState(specs: seq<Spec>): EffectState {
    var trace := Trace(specs);
    if trace == [] then EffectProposed else trace[|trace| - 1]
  }

  /** An attempt of this request by the ledger itself, with an outcome the ledger records. */
  predicate SoundAttempt(request: Request, p: Payload) {
    && p.actor == Some(EffectLedger) && p.attemptId.Some? && p.attemptId.value.text != ""
    && p.outcome.Some? && p.outcome != Some(ProviderFailure)
    && p.requestSha == p.normalizedSha == Some(request.intent.requestSha)
    && p.providerSubject == Some(request.target.providerSubject)
  }

  /** A verified reading of this request's target at the expected version. */
  predicate SoundReadback(request: Request, p: Payload) {
    && p.actor == Some(EffectLedger) && p.verified && p.sha.Some? && IsH64(p.sha.value)
    && p.remoteVersion == Some(request.expectedVersion) && p.providerId == Some(request.target.providerId)
    && p.resourceId == Some(request.target.resourceId) && p.action == Some(request.target.action)
  }

  /** What may follow the events `before`, said of those events alone. */
  ghost predicate Permitted(request: Request, before: seq<Spec>, spec: Spec) {
    var state, p := LastState(before), spec.payload;
    && !Terminal(state)
    && match spec.kind
       case AttemptRecorded =>
         && !Unresolved(state) && SoundAttempt(request, p)
         && forall q :: q in Payloads(before, AttemptRecorded) ==> q.attemptId != p.attemptId
       case ReadbackRecorded => SoundReadback(request, p)
       case TaskProjection => p.taskDone ==> !Unresolved(state) && state !in {CompensationRequired, Compensating}
       case StateTransition =>
         && p.target.Some? && p.target.value in Transitions(state) && p.actor != Some(OtherActor)
         && (p.target == Some(EffectAttempted) ==> Payloads(before, AttemptRecorded) != [])
         && (p.target == Some(EffectCommitted) ==>
               && Payloads(before, ReadbackRecorded) != []
               && p.attemptResult !in {Some(Timeout), Some(ConnectionLost), Some(Unknown)})
       case OtherKind => false
  }

  ghost predicate AllPermitted(request: Request, specs: seq<Spec>) {
    forall i :: 0 <= i < |specs| ==> Permitted(request, specs[..i], specs[i])
  }

  function AttemptFrom(p: Payload): Option<Attempt> {
    if p.attemptId.None? || p.outcome.None? || p.requestSha.None? || p.providerSubject.None? then None
    else Some(Attempt(p.attemptId.value, p.outcome.value, p.requestSha.value, p.providerSubject.value))
  }

  function ReadbackFrom(p: Payload): Option<Readback> {
    if p.remoteVersion.None? || p.sha.None? || p.providerId.None? || p.resourceId.None? || p.action.None? then None
    else Some(Readback(p.remoteVersion.value, p.sha.value, p.providerId.value, p.resourceId.value, p.action.value))
  }

  /** The ledger holds the state the events end in, and every attempt and readback they
      record, in order. */
  ghost predicate Holds(specs: seq<Spec>, ledger: Ledger) {
    var attempts, readbacks := Payloads(specs, AttemptRecorded), Payloads(specs, ReadbackRecorded);
    && ledger.state == LastState(specs)
    && ledger.commits == (if ledger.state == EffectCommitted then 1 else 0)
    && |ledger.attempts| == |attempts| && |ledger.readbacks| == |readbacks|
    && (forall i :: 0 <= i < |attempts| ==> Some(ledger.attempts[i]) == AttemptFrom(attempts[i]))
    && (forall i :: 0 <= i < |readbacks| ==> Some(ledger.readbacks[i]) == ReadbackFrom(readbacks[i]))
  }

  lemma PayloadsOneMore(specs: seq<Spec>, spec: Spec, kind: EventKind)
    ensures Payloads(specs + [spec], kind) == Payloads(specs, kind) + if spec.kind == kind then [spec.payload] else []
  {
    assert (specs + [spec])[..|specs|] == specs;
  }

  lemma StateOneMore(specs: seq<Spec>, spec: Spec)
    ensures LastState(specs + [spec]) ==
            if spec.kind == StateTransition && spec.payload.target.Some? then spec.payload.target.value
            else LastState(specs)
  {
    assert (specs + [spec])[..|specs|] == specs;
  }

  lemma AttemptIff(request: Request, specs: seq<Spec>, ledger: Ledger, p: Payload)
    requires Holds(specs, ledger)
    ensures CheckAttempt(request, p, ledger).Ok? <==>
            && !Unresolved(ledger.state) && SoundAttempt(request, p)
            && forall q :: q in Payloads(specs, AttemptRecorded) ==> q.attemptId != p.attemptId
    ensures CheckAttempt(request, p, ledger).Ok? ==> Some(CheckAttempt(request, p, ledger).value) == AttemptFrom(p)
  {
    var attempts := Payloads(specs, AttemptRecorded);
    if p.attemptId.Some? {
      assert (exists a :: a in ledger.attempts && a.id == p.attemptId.value)
             <==> exists q :: q in attempts && q.attemptId == p.attemptId by {
        if a :| a in ledger.attempts && a.id == p.attemptId.value {
          var i :| 0 <= i < |ledger.attempts| && ledger.attempts[i] == a;
          assert attempts[i] in attempts && AttemptFrom(attempts[i]) == Some(a);
        }
        if q :| q in attempts && q.attemptId == p.attemptId {
          var i :| 0 <= i < |attempts| && attempts[i] == q;
          assert ledger.attempts[i] in ledger.attempts && AttemptFrom(q) == Some(ledger.attempts[i]);
        }
      }
    }
  }

  lemma ReadbackIff(request: Request, p: Payload)
    ensures CheckReadback(request, p).Ok? <==> SoundReadback(request, p)
    ensures CheckReadback(request, p).Ok? ==> Some(CheckReadback(request, p).value) == ReadbackFrom(p)
  {
  }

  /** In a ledger that accepted events lead to, an attempt backs everything after it and
      every readback fits, so most commit checks cannot fail. */
  lemma TransitionIff(request: Request, specs: seq<Spec>, ledger: Ledger, p: Payload)
    requires FoldSpecs(request, specs) == Ok(ledger) && !Terminal(ledger.state)
    ensures ApplyTransition(request, ledger, p).Ok? <==>
            && p.target.Some? && p.target.value in Transitions(ledger.state) && p.actor != Some(OtherActor)
            && (p.target == Some(EffectAttempted) ==> ledger.attempts != [])
            && (p.target == Some(EffectCommitted) ==>
                  && ledger.readbacks != []
                  && p.attemptResult !in {Some(Timeout), Some(ConnectionLost), Some(Unknown)})
    ensures ApplyTransition(request, ledger, p).Ok? ==>
              ApplyTransition(request, ledger, p).value
              == ledger.(state := p.target.value, commits := if p.target.value == EffectCommitted then 1 else 0)
  {
    LedgerInvariantHolds(request, specs);
    if p.target == Some(EffectCommitted) && EffectCommitted in Transitions(ledger.state) {
      OnlyObservedCommits(ledger.state);
      AttemptBacksObservation(request, specs, ledger);
    }
    hide LedgerInvariant, Shaped, Transitions, Trace;
    if p.target == Some(EffectCommitted) {
      assert p.target.value in Transitions(ledger.state) ==> ledger.state == EffectObserved;
    }
  }

  lemma AttemptBacksObservation(request: Request, specs: seq<Spec>, ledger: Ledger)
    requires LedgerInvariant(request, specs, ledger) && ledger.state == EffectObserved
    ensures ledger.attempts != []
    ensures ledger.commits == 0
    ensures ledger.readbacks != [] ==> ReadbackFits(request, ledger.readbacks[|ledger.readbacks| - 1])
  {
    var unknown: bool, k: nat :| Trace(specs) == ObservedTrace(unknown, k);
    assert Trace(specs)[6] == EffectAttempted;
  }

  lemma HoldsOneMore(specs: seq<Spec>, ledger: Ledger, spec: Spec, next: Ledger)
    requires Holds(specs, ledger)
    requires next.state == if spec.kind == StateTransition && spec.payload.target.Some? then spec.payload.target.value
                           else ledger.state
    requires next.commits == if next.state == EffectCommitted then 1 else 0
    requires if spec.kind != AttemptRecorded then next.attempts == ledger.attempts
             else AttemptFrom(spec.payload).Some?
                  && next.attempts == ledger.attempts + [AttemptFrom(spec.payload).value]
    requires if spec.kind != ReadbackRecorded then next.readbacks == ledger.readbacks
             else ReadbackFrom(spec.payload).Some?
                  && next.readbacks == ledger.readbacks + [ReadbackFrom(spec.payload).value]
    ensures Holds(specs + [spec], next)
  {
    hide AttemptFrom, ReadbackFrom, Payloads, LastState;
    StateOneMore(specs, spec);
    PayloadsOneMore(specs, spec, AttemptRecorded);
    PayloadsOneMore(specs, spec, ReadbackRecorded);
  }

  lemma StepIff(request: Request, specs: seq<Spec>, ledger: Ledger, spec: Spec)
    requires FoldSpecs(request, specs) == Ok(ledger) && Holds(specs, ledger)
    ensures Apply(request, ledger, spec.kind, spec.payload).Ok? <==> Permitted(request, specs, spec)
    ensures Apply(request, ledger, spec.kind, spec.payload).Ok? ==>
              Holds(specs + [spec], Apply(request, ledger, spec.kind, spec.payload).value)
  {
    hide CheckAttempt, CheckReadback, ApplyTransition, SoundAttempt, SoundReadback, AttemptFrom, ReadbackFrom;
    hide LastState, Payloads, Transitions, FoldSpecs;
    if !Terminal(ledger.state) {
      AttemptIff(request, specs, ledger, spec.payload);
      ReadbackIff(request, spec.payload);
      TransitionIff(request, specs, ledger, spec.payload);
    }
    if Apply(request, ledger, spec.kind, spec.payload).Ok? {
      HoldsOneMore(specs, ledger, spec, Apply(request, ledger, spec.kind, spec.payload).value);
    }
  }

  lemma PermittedSnoc(request: Request, specs: seq<Spec>, spec: Spec)
    ensures AllPermitted(request, specs + [spec]) <==> AllPermitted(request, specs) && Permitted(request, specs, spec)
  {
    hide Permitted;
    var more := specs + [spec];
    assert more[..|specs|] == specs;
    forall i | 0 <= i < |specs| ensures more[..i] == specs[..i] && more[i] == specs[i] {
    }
    if AllPermitted(request, more) {
      assert Permitted(request, more[..|specs|], more[|specs|]);
    }
  }

  /** Specs fold exactly when each is permitted after those before it, and the ledger
      then holds what they recorded. */
  lemma {:induction false} FoldsIffPermitted(request: Request, specs: seq<Spec>)
    ensures FoldSpecs(request, specs).Ok? <==> AllPermitted(request, specs)
    ensures FoldSpecs(request, specs).Ok? ==> Holds(specs, FoldSpecs(request, specs).value)
    decreases |specs|
  {
    hide Apply, Permitted, Holds, AllPermitted;
    if specs == [] {
      NothingHolds(request);
    } else {
      var init, last := specs[..|specs| - 1], specs[|specs| - 1];
      assert specs == init + [last];
      FoldsIffPermitted(request, init);
      PermittedSnoc(request, init, last);
      if FoldSpecs(request, init).Ok? {
        StepIff(request, init, FoldSpecs(request, init).value, last);
      }
    }
  }

  lemma NothingHolds(request: Request)
    ensures AllPermitted(request, []) && Holds([], INITIAL)
  {
  }

  /** Event `i` continues the chain of this effect with a digest of its own. */
  ghost predicate Chained(request: Request, history: seq<Event>, i: nat)
    requires i < |history|
  {
    var body := history[i].body;
    && body.sequence == i && body.previous == (if i == 0 then Root else history[i - 1].sha)
    && body.identity == OfIdentity(KeyOf(request)) && history[i].sha == OfEvent(body)
    && body.kind != OtherKind
    && !body.payload.sensitive && !body.payload.writesLoopx && !body.payload.otherWriter
  }

  lemma CheckedIffChained(request: Request, history: seq<Event>)
    requires history != []
    ensures CheckEvent(request, history[|history| - 1], |history| - 1, Head(history[..|history| - 1])).Ok? <==>
            Chained(request, history, |history| - 1)
  {
  }

  /** A history is accepted exactly when every event is chained to the one before it
      and permitted after the events before it; the ledger then holds exactly what the
      events record. */
  lemma {:induction false} AcceptedIff(request: Request, history: seq<Event>)
    ensures Fold(request, history).Ok? <==>
            (forall i :: 0 <= i < |history| ==> Chained(request, history, i))
            && AllPermitted(request, SpecsOf(history))
    ensures Fold(request, history).Ok? ==> Holds(SpecsOf(history), Fold(request, history).value)
    decreases |history|
  {
    hide Apply, Permitted, AllPermitted, Holds, CheckEvent, Head;
    if history == [] {
      assert SpecsOf(history) == [];
      NothingHolds(request);
    } else {
      var init, last := history[..|history| - 1], history[|history| - 1];
      var spec := Spec(last.body.kind, last.body.payload);
      assert SpecsOf(history) == SpecsOf(init) + [spec];
      AcceptedIff(request, init);
      PermittedSnoc(request, SpecsOf(init), spec);
      CheckedIffChained(request, history);
      forall i | 0 <= i < |init| ensures Chained(request, history, i) <==> Chained(request, init, i) {
      }
      if Fold(request, init).Ok? {
        AcceptedSpecs(request, init);
        StepIff(request, SpecsOf(init), Fold(request, init).value, spec);
      }
    }
  }
}
