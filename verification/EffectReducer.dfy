/** The canonical effect ledger: a fold over a hash-chained typed history. */
module EffectReducer {
  import opened Wrappers
  import opened Ordering
  import opened HashChains
  import opened EffectTypes

  const INITIAL := Ledger(EffectProposed, [], [], 0)

  // -------------------------------------------------------------- one event

  function CheckAttempt(request: Request, p: Payload, ledger: Ledger): Result<Attempt, LedgerError> {
    if Unresolved(ledger.state) then Err(UnknownRetryForbidden)
    else if p.attemptId.None? || p.attemptId.value.text == "" then Err(AttemptIdentityMissing)
    else if exists a :: a in ledger.attempts && a.id == p.attemptId.value then Err(DuplicateAttempt)
    else if p.outcome.None? || p.outcome.value == ProviderFailure then Err(AttemptOutcomeInvalid)
    else if p.actor != Some(EffectLedger) then Err(SelfCommit)
    else if p.requestSha != Some(request.intent.requestSha) || p.normalizedSha != Some(request.intent.requestSha) then
      Err(AttemptRequestDrift)
    else if p.providerSubject != Some(request.target.providerSubject) then Err(MutableSubject)
    else Ok(Attempt(p.attemptId.value, p.outcome.value, request.intent.requestSha, p.providerSubject.value))
  }

  function CheckReadback(request: Request, p: Payload): Result<Readback, LedgerError> {
    if p.actor != Some(EffectLedger) then Err(SelfCommit)
    else if !p.verified then Err(ReadbackRequired)
    else if p.sha.None? || !IsH64(p.sha.value) then Err(ReadbackRequired)
    else if p.remoteVersion != Some(request.expectedVersion) then Err(ReadbackDisagreement)
    else if p.providerId != Some(request.target.providerId) || p.resourceId != Some(request.target.resourceId)
            || p.action != Some(request.target.action) then Err(ReadbackTargetMismatch)
    else Ok(Readback(p.remoteVersion.value, p.sha.value, p.providerId.value, p.resourceId.value, p.action.value))
  }

  /** `validate_transition`; `readback` is the latest one recorded. */
  function CheckTransition(from: EffectState, to: Option<EffectState>, actor: Actor, attemptResult: Option<Outcome>,
                           readback: Option<Readback>, expectedVersion: Name): Result<EffectState, LedgerError>
  {
    if to.None? then Err(VocabularyDrift)
    else if actor != EffectLedger then Err(SelfCommit)
    else if Terminal(from) then Err(EventAfterTerminal)
    else if to.value == EffectCommitted && from == EffectAttempted then Err(ReadbackRequired)
    else if to.value == EffectCommitted && Unresolved(from) then Err(UnresolvedCommit)
    else if to.value == EffectCommitted
            && (attemptResult == Some(Timeout) || attemptResult == Some(ConnectionLost)
                || attemptResult == Some(Unknown))
    then Err(TimeoutAsCommit)
    else if to.value == EffectCommitted && (readback.None? || !IsH64(readback.value.sha)) then Err(ReadbackRequired)
    else if to.value == EffectCommitted && readback.value.remoteVersion != expectedVersion
    then Err(ReadbackDisagreement)
    else if to.value !in Transitions(from) then Err(IllegalTransition)
    else Ok(to.value)
  }

  function Latest(readbacks: seq<Readback>): Option<Readback> {
    if readbacks == [] then None else Some(readbacks[|readbacks| - 1])
  }

  function ApplyTransition(request: Request, ledger: Ledger, p: Payload): Result<Ledger, LedgerError> {
    var actor := if p.actor.Some? then p.actor.value else EffectLedger;
    if p.target == Some(EffectAttempted) && ledger.attempts == [] then Err(AttemptMissing)
    else if p.target == Some(EffectCommitted) && Unresolved(ledger.state) then
      Err(UnresolvedCommit)
    else if p.target == Some(EffectCommitted) && ledger.attempts == [] then Err(AttemptMissing)
    else if p.target == Some(EffectCommitted) && ledger.commits > 0 then Err(DoubleCommit)
    else if p.target == Some(EffectCommitted) && ledger.readbacks == [] then Err(ReadbackRequired)
    else
      var to :- CheckTransition(ledger.state, p.target, actor, p.attemptResult, Latest(ledger.readbacks),
                                request.expectedVersion);
      Ok(ledger.(state := to, commits := ledger.commits + if to == EffectCommitted then 1 else 0))
  }

  /** The effect of one well-chained event on the ledger. */
  function Apply(request: Request, ledger: Ledger, kind: EventKind, p: Payload): Result<Ledger, LedgerError> {
    if Terminal(ledger.state) then
      if ledger.state == EffectCommitted && kind == StateTransition && p.target == Some(EffectCommitted)
      then Err(DoubleCommit) else Err(EventAfterTerminal)
    else
      match kind
      case AttemptRecorded =>
        var attempt :- CheckAttempt(request, p, ledger);
        Ok(ledger.(attempts := ledger.attempts + [attempt]))
      case ReadbackRecorded =>
        var readback :- CheckReadback(request, p);
        Ok(ledger.(readbacks := ledger.readbacks + [readback]))
      case TaskProjection =>
        if (Unresolved(ledger.state) || ledger.state.CompensationRequired? || ledger.state.Compensating?) && p.taskDone
        then Err(UnresolvedEffectHidden) else Ok(ledger)
      case StateTransition => ApplyTransition(request, ledger, p)
      case OtherKind => Err(UnknownEvent)
  }

  /** The kind and payload checks of `validate_event`. */
  predicate CleanPayload(kind: EventKind, p: Payload) {
    kind != OtherKind && !p.sensitive && !p.writesLoopx && !p.otherWriter
  }

  function CheckEvent(request: Request, event: Event, sequence: int, previous: Sha): Result<(), LedgerError> {
    if event.body.sequence != sequence then Err(SequenceMismatch)
    else if event.body.previous != previous then Err(DigestMismatch)
    else if event.body.identity != IdentitySha(request) then Err(IdentityMismatch)
    else if event.sha != OfEvent(event.body) then Err(DigestMismatch)
    else if event.body.kind == OtherKind then Err(UnknownEvent)
    else if event.body.payload.sensitive then Err(SecretPersistence)
    else if event.body.payload.writesLoopx then Err(DirectLoopxWrite)
    else if event.body.payload.otherWriter then Err(DuplicateAuthority)
    else Ok(())
  }

  // --------------------------------------------------------------- the fold

  /** The digest a history ends on. */
  function Head(history: seq<Event>): Sha {
    HeadOf(history, ShaOf, Root)
  }

  function Fold(request: Request, history: seq<Event>): Result<Ledger, LedgerError> {
    if history == [] then Ok(INITIAL)
    else
      var init, last := history[..|history| - 1], history[|history| - 1];
      var ledger :- Fold(request, init);
      var _ :- CheckEvent(request, last, |init|, Head(init));
      Apply(request, ledger, last.body.kind, last.body.payload)
  }

  datatype Reduction = Reduction(ledger: Ledger, head: Sha, count: nat)

  /** `reduce_effect_history`. */
  method Reduce(request: Request, history: seq<Event>) returns (r: Result<Reduction, LedgerError>)
    ensures r == if !ValidRequest(request) then Err(InvalidRequest)
                 else if Fold(request, history).Err? then Err(Fold(request, history).error)
                 else Ok(Reduction(Fold(request, history).value, Head(history), |history|))
  {
    if !ValidRequest(request) {
      return Err(InvalidRequest);
    }
    var state, previous := EffectProposed, Root;
    var attempts: seq<Attempt>, readbacks: seq<Readback> := [], [];
    var commits := 0;
    for i := 0 to |history|
      invariant previous == Head(history[..i])
      invariant Fold(request, history[..i]) == Ok(Ledger(state, attempts, readbacks, commits))
    {
      var event := history[i];
      assert history[..i + 1][..i] == history[..i];
      var checked := CheckEvent(request, event, i, previous);
      if checked.Err? {
        FoldPrefix(request, history, i + 1);
        return Err(checked.error);
      }
      var next := Apply(request, Ledger(state, attempts, readbacks, commits), event.body.kind, event.body.payload);
      if next.Err? {
        FoldPrefix(request, history, i + 1);
        return Err(next.error);
      }
      state, attempts, readbacks, commits :=
        next.value.state, next.value.attempts, next.value.readbacks, next.value.commits;
      previous := event.sha;
    }
    assert history[..|history|] == history;
    return Ok(Reduction(Ledger(state, attempts, readbacks, commits), previous, |history|));
  }

  /** A history is accepted only if each of its prefixes is, and fails as its first refused prefix does. */
  lemma {:induction false} FoldPrefix(request: Request, history: seq<Event>, n: nat)
    requires n <= |history|
    ensures Fold(request, history).Ok? ==> Fold(request, history[..n]).Ok?
    ensures Fold(request, history[..n]).Err? ==> Fold(request, history) == Fold(request, history[..n])
    decreases |history|
  {
    if n < |history| {
      var init := history[..|history| - 1];
      assert init[..n] == history[..n];
      FoldPrefix(request, init, n);
    } else {
      assert history[..n] == history;
    }
  }

  // --------------------------------------------------------- tamper evidence

  function ShaOf(e: Event): Sha {
    e.sha
  }

  function PreviousOf(e: Event): Sha {
    e.body.previous
  }

  /** An accepted history is chained, and every digest in it is that of its own event. */
  lemma {:induction false} AcceptedIsLinked(request: Request, history: seq<Event>)
    requires Fold(request, history).Ok?
    ensures Linked(history, ShaOf, PreviousOf, Root)
    ensures forall e :: e in history ==> e.sha == OfEvent(e.body)
    decreases |history|
  {
    hide Apply;
    if history != [] {
      var init, last := history[..|history| - 1], history[|history| - 1];
      assert history == init + [last];
      AcceptedIsLinked(request, init);
      LinkedSnoc(init, last, ShaOf, PreviousOf, Root);
    }
  }

  lemma RootMeansEmpty(a: Request, h: seq<Event>)
    requires Fold(a, h).Ok?
    ensures Head(h) == Root <==> h == []
  {
    hide Fold;
    AcceptedIsLinked(a, h);
  }

  /** Two accepted histories with the same head are the same, event for event. */
  lemma EqualHeadsEqualHistories(a: Request, h: seq<Event>, b: Request, k: seq<Event>)
    requires Fold(a, h).Ok? && Fold(b, k).Ok? && Head(h) == Head(k)
    ensures h == k
  {
    hide Fold;
    AcceptedIsLinked(a, h);
    AcceptedIsLinked(b, k);
    forall i, j | 0 <= i < |h| && 0 <= j < |k| && ShaOf(h[i]) == ShaOf(k[j]) ensures h[i] == k[j] {
      assert h[i].sha == OfEvent(h[i].body) && k[j].sha == OfEvent(k[j].body);
    }
    EqualHeads(h, k, ShaOf, PreviousOf, Root);
  }

  // ------------------------------------------------------------ chain_events

  /** What the caller supplies for an event. */
  datatype Spec = Spec(kind: EventKind, payload: Payload)

  function MakeEvent(request: Request, sequence: int, spec: Spec, previous: Sha): Event {
    var body := EventBody(sequence, previous, IdentitySha(request), spec.kind, spec.payload);
    Event(body, OfEvent(body))
  }

  function Chain(request: Request, specs: seq<Spec>): (r: seq<Event>)
    ensures |r| == |specs|
  {
    if specs == [] then []
    else
      var before := Chain(request, specs[..|specs| - 1]);
      before + [MakeEvent(request, |before|, specs[|specs| - 1], Head(before))]
  }

  method ChainEvents(request: Request, specs: seq<Spec>) returns (history: seq<Event>)
    ensures history == Chain(request, specs)
  {
    history := [];
    var previous := Root;
    for i := 0 to |specs|
      invariant history == Chain(request, specs[..i]) && previous == Head(history)
    {
      assert specs[..i + 1][..i] == specs[..i];
      var event := MakeEvent(request, i, specs[i], previous);
      history := history + [event];
      previous := event.sha;
    }
    assert specs[..|specs|] == specs;
  }

  /** The fold on specs alone, without the chain. */
  function FoldSpecs(request: Request, specs: seq<Spec>): Result<Ledger, LedgerError> {
    if specs == [] then Ok(INITIAL)
    else
      var last := specs[|specs| - 1];
      var ledger :- FoldSpecs(request, specs[..|specs| - 1]);
      Apply(request, ledger, last.kind, last.payload)
  }

  lemma FoldOneMore(request: Request, history: seq<Event>, spec: Spec)
    ensures Fold(request, history).Ok? && CleanPayload(spec.kind, spec.payload) ==>
              Fold(request, history + [MakeEvent(request, |history|, spec, Head(history))])
              == Apply(request, Fold(request, history).value, spec.kind, spec.payload)
    ensures Fold(request, history).Err? || !CleanPayload(spec.kind, spec.payload) ==>
              Fold(request, history + [MakeEvent(request, |history|, spec, Head(history))]).Err?
  {
    var event := MakeEvent(request, |history|, spec, Head(history));
    assert (history + [event])[..|history|] == history;
  }

  /** A chained history passes every sequence, predecessor, identity and digest
      check: it is accepted exactly when its payloads are clean and its specs fold,
      and then it ends in the same ledger. */
  lemma {:induction false} ChainPasses(request: Request, specs: seq<Spec>)
    ensures Fold(request, Chain(request, specs)).Ok? <==>
            FoldSpecs(request, specs).Ok? && forall s :: s in specs ==> CleanPayload(s.kind, s.payload)
    ensures Fold(request, Chain(request, specs)).Ok? ==>
            Fold(request, Chain(request, specs)) == FoldSpecs(request, specs)
    decreases |specs|
  {
    if specs != [] {
      var init, last := specs[..|specs| - 1], specs[|specs| - 1];
      assert specs == init + [last];
      FoldOneMore(request, Chain(request, init), last);
      ChainPasses(request, init);
    }
  }
}
