/** What a target keeps over whole runs of applies and rollbacks. */
module ProjectHistory {
  import opened Wrappers
  import opened ProjectTypes
  import opened ProjectTransaction

  // ------------------------------------------------------- one failed apply

  /** A failed apply restores every file's bytes; it restores the whole tree,
      modes included, exactly when the undo's modes are the ones already there. */
  lemma {:induction false} UndoIsExactIff(s: Store, items: seq<FilePlan>)
    ensures forall p :: Bytes(Undone(s, items).files, p) == Bytes(s.files, p)
    ensures Undone(s, items) == s <==>
            forall p :: p in s.files && (p == MANAGED_PATH || p in Paths(items)) ==>
              s.files[p].mode == if p == MANAGED_PATH then PLAIN_MODE else OrPlain(First(items, p).value.mode)
  {
    forall p | p in s.files {
      UndoModeIsFirst(items, p, s.files[p].mode);
    }
    var t := Undone(s, items);
    assert t.files.Keys == s.files.Keys;
    if t == s {
      forall p | p in s.files && (p == MANAGED_PATH || p in Paths(items))
        ensures s.files[p].mode == if p == MANAGED_PATH then PLAIN_MODE else OrPlain(First(items, p).value.mode)
      {
        assert t.files[p] == s.files[p];
      }
    }
    if forall p :: p in s.files && (p == MANAGED_PATH || p in Paths(items)) ==>
         s.files[p].mode == if p == MANAGED_PATH then PLAIN_MODE else OrPlain(First(items, p).value.mode)
    {
      forall p | p in s.files ensures t.files[p] == s.files[p] {
      }
      assert t.files == s.files;
    }
  }

  /** Undoing a plan leaves a file it was to write with the mode it was to get, and a
      file it was to delete with 644; no plan does anything else to a file. */
  lemma UndoneModes(s: Store, items: seq<FilePlan>, p: Path)
    requires p in s.files && p != MANAGED_PATH && forall item :: item in items ==> ValidItem(item)
    ensures p in Undone(s, items).files
    ensures var mode := Undone(s, items).files[p].mode;
            match First(items, p)
            case None => mode == s.files[p].mode
            case Some(item) =>
              match item.action
              case Write => Some(mode) == item.mode
              case Delete => mode == PLAIN_MODE
              case OtherAction => false
  {
    UndoModeIsFirst(items, p, s.files[p].mode);
    if First(items, p).Some? {
      assert ValidItem(First(items, p).value);
    }
  }

  // -------------------------------------------------- rolling back an apply

  ghost predicate ConsistentAfters(items: seq<FilePlan>) {
    forall i, j :: 0 <= i < |items| && 0 <= j < |items| && items[i].path == items[j].path ==>
      items[i].after == items[j].after
  }

  /** What a plan and a receipt path must satisfy for the apply to be undoable. */
  ghost predicate Rollbackable(plan: Plan, receiptAt: Path) {
    && ConsistentAfters(plan.body.files)
    && MANAGED_PATH !in Paths(plan.body.files)
    && receiptAt !in Paths(plan.body.files)
    && receiptAt != MANAGED_PATH
  }

  ghost predicate HoldsReceipt(s: Store, at: Path, plan: Plan) {
    Bytes(s.files, at) == Some(ReceiptText(BuildReceipt(plan)))
  }

  /** No item of a plan can write the manifest or the receipt made from that plan. */
  lemma NoSelfReference(plan: Plan, i: nat)
    requires ValidPlan(plan) && i < |plan.body.files|
    ensures plan.body.files[i].after != Some(ManifestText(BuildManaged(plan)))
    ensures plan.body.files[i].after != Some(ReceiptText(BuildReceipt(plan)))
  {
  }

  /** The manifest and the receipt that an apply leaves agree with each other, with the
      plan and with the bytes on either side of the apply. */
  lemma DocumentsAgree(s: Store, plan: Plan, receiptAt: Path, source: map<string, string>)
    requires CanApply(s, plan, receiptAt, source) && receiptAt != MANAGED_PATH
    ensures var u := Committed(s, plan, receiptAt);
            && MANAGED_PATH in u.files && u.files[MANAGED_PATH].content.ManifestText?
            && receiptAt in u.files && u.files[receiptAt].content.ReceiptText?
            && u.files[MANAGED_PATH].mode == u.files[receiptAt].mode == PLAIN_MODE
            && var m, r := u.files[MANAGED_PATH].content.manifest, u.files[receiptAt].content.receipt;
               && m.contentSha == OfManifest(m.body) && r.contentSha == OfReceipt(r.body)
               && m.body.planSha == r.body.planSha == OfPlan(plan.body)
               && m.body.project == r.body.project == plan.body.project
               && m.body.consumerMode == r.body.consumerMode == plan.body.consumerMode
               && m.body.source == plan.body.release && source[m.body.source.commit] == m.body.source.tree
               && m.body.embedded == r.body.embeddedCreated == plan.body.embedded
               && r.body.managedBeforeSha == ShaOrNull(Bytes(s.files, MANAGED_PATH))
               && Some(r.body.managedAfter) == Bytes(u.files, MANAGED_PATH)
               && r.body.managedAfterSha == OfBytes(r.body.managedAfter)
  {
    hide Forward, ManagedEntries;
  }

  /** Rolling an apply back immediately is accepted exactly for `Rollbackable` plans. */
  lemma {:induction false} FreshRollbackIff(s: Store, plan: Plan, receiptAt: Path, source: map<string, string>)
    requires CanApply(s, plan, receiptAt, source)
    ensures CanRollback(Committed(s, plan, receiptAt), receiptAt) <==> Rollbackable(plan, receiptAt)
  {
    var t, items := Committed(s, plan, receiptAt), plan.body.files;
    if CanRollback(t, receiptAt) {
      assert receiptAt != MANAGED_PATH;
      forall i | 0 <= i < |items|
        ensures items[i].path != MANAGED_PATH && items[i].path != receiptAt
        ensures Bytes(t.files, items[i].path) == items[i].after
      {
        assert items[i] in items && ValidItem(items[i]);
        NoSelfReference(plan, i);
      }
    }
    if Rollbackable(plan, receiptAt) {
      forall item | item in items ensures ShaOrNull(Bytes(t.files, item.path)) == item.afterSha {
        assert item.path in Paths(items) && ValidItem(item);
        ForwardAt(s.files, items, item);
      }
    }
  }

  /** Later, with anything else changed and the receipt anywhere, the rollback of an
      undoable apply is accepted exactly while the manifest and every planned path
      have the bytes the apply gave them and the clone it made is clean at its commit. */
  lemma {:induction false} LaterRollbackIff(s: Store, plan: Plan, receiptAt: Path, source: map<string, string>,
                                            u: Store, at: Path)
    requires CanApply(s, plan, receiptAt, source) && Rollbackable(plan, receiptAt) && HoldsReceipt(u, at, plan)
    ensures var applied := Committed(s, plan, receiptAt);
            CanRollback(u, at) <==>
              && Bytes(u.files, MANAGED_PATH) == Bytes(applied.files, MANAGED_PATH)
              && (forall p :: p in Paths(plan.body.files) ==> Bytes(u.files, p) == Bytes(applied.files, p))
              && (plan.body.embedded.Some? ==> u.vendor == CleanClone(plan.body.embedded.value))
  {
    var applied, items := Committed(s, plan, receiptAt), plan.body.files;
    forall item | item in items
      ensures ShaOrNull(Bytes(u.files, item.path)) == item.afterSha
              <==> Bytes(u.files, item.path) == Bytes(applied.files, item.path)
    {
      assert item.path in Paths(items) && ValidItem(item);
      ForwardAt(s.files, items, item);
    }
    hide Forward, ValidPlan, BuildManaged;
  }

  /** ... and then gives back the tree before the apply, modes and the receipt
      aside, exactly when the plan carries the manifest it claims to replace.
      Nothing in the apply checks that payload against its digest. */
  lemma {:induction false} FreshRollbackRestoresIff(
      s: Store, plan: Plan, receiptAt: Path, source: map<string, string>)
    requires CanApply(s, plan, receiptAt, source) && Rollbackable(plan, receiptAt)
    ensures var t := RolledBack(Committed(s, plan, receiptAt), BuildReceipt(plan));
            && t.vendor == s.vendor && t.head == s.head
            && ((forall p :: p != receiptAt ==> FileAt(t.files, p) == FileAt(Undone(s, plan.body.files).files, p))
                <==> ShaOrNull(plan.body.previousManaged) == plan.body.previousManagedSha)
  {
    var u, items := Committed(s, plan, receiptAt), plan.body.files;
    var t := RolledBack(u, BuildReceipt(plan));
    BeforePayloads(s, plan);
    forall p | p != receiptAt && p !in Paths(items) && p != MANAGED_PATH
      ensures FileAt(u.files, p) == FileAt(s.files, p)
    {
      ForwardElsewhere(s.files, items, p);
    }
    forall p | p != receiptAt
      ensures FileAt(Restore(Backward(u.files, items), MANAGED_PATH, Bytes(s.files, MANAGED_PATH), Some(PLAIN_MODE)), p)
              == FileAt(Undone(s, items).files, p)
    {
      UndoneAt(s, items, u.files, p);
    }
    assert Bytes(t.files, MANAGED_PATH) == plan.body.previousManaged;
    assert Bytes(Undone(s, items).files, MANAGED_PATH) == Bytes(s.files, MANAGED_PATH);
    if forall p :: p != receiptAt ==> FileAt(t.files, p) == FileAt(Undone(s, items).files, p) {
      assert FileAt(t.files, MANAGED_PATH) == FileAt(Undone(s, items).files, MANAGED_PATH);
    }
  }

  // ------------------------------------------------------------- whole runs

  datatype Op =
    | Applying(plan: Plan, receiptAt: Path)
    | FailingApply(plan: Plan, receiptAt: Path, fault: Fault)
    | RollingBack(receiptAt: Path)

  /** One call on the target: an apply that succeeds, one that fails on the way and
      is undone, or a rollback; `None` if the call is refused. */
  ghost function Step(s: Store, op: Op, source: map<string, string>): Option<Store> {
    match op
    case Applying(plan, receiptAt) =>
      if CanApply(s, plan, receiptAt, source) then Some(Committed(s, plan, receiptAt)) else None
    case FailingApply(plan, receiptAt, fault) =>
      if CanApply(s, plan, receiptAt, source) && Fires(plan, fault)
      then Some(Undone(s, plan.body.files[..AppliedBefore(plan, fault)])) else None
    case RollingBack(receiptAt) =>
      if CanRollback(s, receiptAt) then Some(RolledBack(s, s.files[receiptAt].content.receipt)) else None
  }

  ghost function Run(s: Store, ops: seq<Op>, source: map<string, string>): Option<Store> {
    if ops == [] then Some(s)
    else
      var t := Run(s, ops[..|ops| - 1], source);
      if t.None? then None else Step(t.value, ops[|ops| - 1], source)
  }

  /** An apply not yet rolled back, with the store it was made on. */
  datatype Frame = Frame(base: Store, plan: Plan, receiptAt: Path)

  function Outcome(f: Frame): Store {
    Committed(f.base, f.plan, f.receiptAt)
  }

  function WithoutLast(frames: seq<Frame>): seq<Frame> {
    if frames == [] then [] else frames[..|frames| - 1]
  }

  /** The pending applies, if every rollback undoes the newest of them. */
  ghost function Pending(s0: Store, ops: seq<Op>, source: map<string, string>): seq<Frame>
    requires Run(s0, ops, source).Some?
  {
    if ops == [] then []
    else
      var init := ops[..|ops| - 1];
      var before := Pending(s0, init, source);
      match ops[|ops| - 1]
      case Applying(plan, receiptAt) => before + [Frame(Run(s0, init, source).value, plan, receiptAt)]
      case FailingApply(_, _, _) => before
      case RollingBack(_) => WithoutLast(before)
  }

  /** The paths that pending applies may have changed: the manifest and their plans' own. */
  function Named(frames: seq<Frame>): set<Path> {
    if frames == [] then {MANAGED_PATH}
    else Named(frames[..|frames| - 1]) + Paths(frames[|frames| - 1].plan.body.files)
  }

  /** The plan can be undone, and its receipt goes where no pending plan writes or deletes. */
  ghost predicate TidyApply(plan: Plan, receiptAt: Path, frames: seq<Frame>) {
    && Rollbackable(plan, receiptAt)
    && ShaOrNull(plan.body.previousManaged) == plan.body.previousManagedSha
    && receiptAt !in Named(frames)
  }

  /** What rolling a receipt back leaves at a path. */
  function Undoes(r: Receipt, files: Tree, p: Path): Option<Content> {
    if p == MANAGED_PATH then r.body.managedBefore
    else
      match First(r.body.files, p)
      case None => Bytes(files, p)
      case Some(item) => item.before
  }

  /** Two receipts that restore the same manifest, the same paths and the same clone on `s`. */
  ghost predicate SameUndo(s: Store, r: Receipt, g: Receipt) {
    && r.body.managedBefore == g.body.managedBefore && r.body.embeddedCreated.Some? == g.body.embeddedCreated.Some?
    && forall p :: p in Paths(r.body.files) + Paths(g.body.files) && p != MANAGED_PATH ==>
         Undoes(r, s.files, p) == Undoes(g, s.files, p)
  }

  /** The receipt at `at`, whoever wrote it, undoes what the newest frame's own would. */
  ghost predicate StandsIn(s: Store, at: Path, frames: seq<Frame>) {
    && frames != [] && at in s.files && s.files[at].content.ReceiptText?
    && SameUndo(s, s.files[at].content.receipt, BuildReceipt(frames[|frames| - 1].plan))
  }

  /** Every apply is tidy, and what is rolled back is a receipt of this run, wherever it
      lies, or one that stands in for the newest. */
  ghost predicate Tidy(s0: Store, ops: seq<Op>, source: map<string, string>)
    requires Run(s0, ops, source).Some?
  {
    ops == [] ||
    var init := ops[..|ops| - 1];
    && Tidy(s0, init, source)
    && match ops[|ops| - 1] {
         case Applying(plan, receiptAt) => TidyApply(plan, receiptAt, Pending(s0, init, source))
         case FailingApply(_, _, _) => true
         case RollingBack(at) =>
           || StandsIn(Run(s0, init, source).value, at, Pending(s0, init, source))
           || exists op :: op in init && op.Applying? && HoldsReceipt(Run(s0, init, source).value, at, op.plan)
       }
  }

  function ReceiptPaths(ops: seq<Op>): set<Path> {
    set op | op in ops && op.Applying? :: op.receiptAt
  }

  /** `v` has every byte of `u`, the same clone and the same HEAD; it may hold
      further receipts, but none at a path in `named`. */
  ghost predicate Extends(u: Store, v: Store, named: set<Path>, receipts: set<Path>) {
    && u.vendor == v.vendor && u.head == v.head
    && forall p :: Bytes(u.files, p) == Bytes(v.files, p) || (p !in u.files && p in receipts && p !in named)
  }

  /** `plan` was written for the tree `s`. */
  ghost predicate FitsTree(s: Store, plan: Plan) {
    && ValidPlan(plan)
    && (forall item :: item in plan.body.files ==> item.before == Bytes(s.files, item.path))
    && plan.body.previousManaged == Bytes(s.files, MANAGED_PATH)
    && (plan.body.embedded.Some? ==> s.vendor == NoVendor)
  }

  /** What holds of the newest frame: made by a tidy apply on the store below it. */
  ghost predicate Sound(f: Frame, below: seq<Frame>, receipts: set<Path>) {
    && FitsTree(f.base, f.plan) && TidyApply(f.plan, f.receiptAt, below)
    && f.receiptAt in receipts && f.receiptAt !in f.base.files
  }

  /** `s` is the start with the pending applies made on it one over the other, receipts aside. */
  ghost predicate Layered(s0: Store, frames: seq<Frame>, s: Store, receipts: set<Path>)
    decreases |frames|
  {
    if frames == [] then Extends(s0, s, Named(frames), receipts)
    else
      var below, top := frames[..|frames| - 1], frames[|frames| - 1];
      && Sound(top, below, receipts)
      && Extends(Outcome(top), s, Named(frames), receipts)
      && Layered(s0, below, top.base, receipts)
  }

  /** How many plans deep the manifest with digest `sha` is: each manifest names
      its plan, and each plan names the manifest it replaced. */
  function Depth(sha: Option<Digest>): nat {
    match sha
    case Some(OfBytes(ManifestText(m))) =>
      (match m.body.planSha
       case OfPlan(plan) => 1 + Depth(plan.previousManagedSha)
       case _ => 0)
    case _ => 0
  }

  function ManagedDepth(s: Store): nat {
    Depth(ShaOrNull(Bytes(s.files, MANAGED_PATH)))
  }

  lemma DepthStep(plan: Plan)
    requires plan.contentSha == OfPlan(plan.body)
    ensures Depth(Some(OfBytes(ManifestText(BuildManaged(plan))))) == 1 + Depth(plan.body.previousManagedSha)
  {
  }

  /** The plan was applied above `s0`: its manifest is deeper than the start's. */
  ghost predicate Above(s0: Store, plan: Plan) {
    ValidPlan(plan) && Depth(Some(OfBytes(ManifestText(BuildManaged(plan))))) > ManagedDepth(s0)
  }

  ghost predicate AllAbove(s0: Store, ops: seq<Op>) {
    forall op :: op in ops && op.Applying? ==> Above(s0, op.plan)
  }

  lemma {:induction false} ManifestIsNamed(frames: seq<Frame>)
    ensures MANAGED_PATH in Named(frames)
    decreases |frames|
  {
    if frames != [] {
      ManifestIsNamed(frames[..|frames| - 1]);
    }
  }

  lemma OutcomeManifest(f: Frame)
    requires f.receiptAt != MANAGED_PATH
    ensures Bytes(Outcome(f).files, MANAGED_PATH) == Some(ManifestText(BuildManaged(f.plan)))
  {
    hide Forward, BuildManaged, BuildReceipt;
  }

  /** Each pending apply deepens the manifest by one, and the newest one wrote it. */
  lemma {:induction false} LayerDepth(s0: Store, frames: seq<Frame>, s: Store, receipts: set<Path>)
    requires Layered(s0, frames, s, receipts)
    ensures ManagedDepth(s) == ManagedDepth(s0) + |frames|
    ensures frames != [] ==>
              Bytes(s.files, MANAGED_PATH) == Some(ManifestText(BuildManaged(frames[|frames| - 1].plan)))
    decreases |frames|
  {
    hide Committed, Forward, BuildManaged, Outcome, Rollbackable;
    ManifestIsNamed(frames);
    if frames != [] {
      var below, top := frames[..|frames| - 1], frames[|frames| - 1];
      LayerDepth(s0, below, top.base, receipts);
      RollbackableReceipt(top.plan, top.receiptAt);
      OutcomeManifest(top);
      DepthStep(top.plan);
    }
  }

  lemma RollbackableReceipt(plan: Plan, receiptAt: Path)
    requires Rollbackable(plan, receiptAt)
    ensures receiptAt != MANAGED_PATH && receiptAt !in Paths(plan.body.files) && MANAGED_PATH !in Paths(plan.body.files)
  {
  }

  lemma {:induction false} LayerExtends(s0: Store, frames: seq<Frame>, s: Store, t: Store, receipts: set<Path>)
    requires Layered(s0, frames, s, receipts) && Extends(s, t, Named(frames), receipts)
    ensures Layered(s0, frames, t, receipts)
  {
    hide Outcome, Sound, Named;
    ghost var u := if frames == [] then s0 else Outcome(frames[|frames| - 1]);
    forall p ensures Bytes(u.files, p) == Bytes(t.files, p) || (p !in u.files && p in receipts && p !in Named(frames)) {
      assert Bytes(s.files, p) == Bytes(t.files, p) || (p !in s.files && p in receipts && p !in Named(frames));
      assert Bytes(u.files, p) == Bytes(s.files, p) || (p !in u.files && p in receipts && p !in Named(frames));
    }
  }

  lemma FitsWhereApplied(s: Store, plan: Plan, receiptAt: Path, source: map<string, string>)
    requires CanApply(s, plan, receiptAt, source)
    requires ShaOrNull(plan.body.previousManaged) == plan.body.previousManagedSha
    ensures FitsTree(s, plan) && receiptAt !in s.files
  {
    BeforePayloads(s, plan);
  }

  /** One accepted apply pushes a frame. */
  lemma ApplyPushes(s0: Store, frames: seq<Frame>, s: Store, plan: Plan, receiptAt: Path, receipts: set<Path>,
                    source: map<string, string>)
    requires Layered(s0, frames, s, receipts) && receiptAt in receipts
    requires CanApply(s, plan, receiptAt, source) && TidyApply(plan, receiptAt, frames)
    ensures Layered(s0, frames + [Frame(s, plan, receiptAt)], Committed(s, plan, receiptAt), receipts)
    ensures Above(s0, plan)
  {
    hide CanApply, Committed, FitsTree, Rollbackable;
    var f := Frame(s, plan, receiptAt);
    FitsWhereApplied(s, plan, receiptAt, source);
    assert (frames + [f])[..|frames|] == frames;
    assert Layered(s0, frames + [f], Outcome(f), receipts);
    LayerDepth(s0, frames, s, receipts);
    FitsDepth(s, plan);
  }

  lemma FitsDepth(s: Store, plan: Plan)
    requires FitsTree(s, plan) && ShaOrNull(plan.body.previousManaged) == plan.body.previousManagedSha
    ensures ValidPlan(plan)
    ensures Depth(Some(OfBytes(ManifestText(BuildManaged(plan))))) == 1 + ManagedDepth(s)
  {
    DepthStep(plan);
  }

  /** A failed apply leaves every byte, the clone and the HEAD. */
  lemma FailureKeeps(s0: Store, frames: seq<Frame>, s: Store, items: seq<FilePlan>, receipts: set<Path>)
    requires Layered(s0, frames, s, receipts)
    ensures Layered(s0, frames, Undone(s, items), receipts)
  {
    UndoIsExactIff(s, items);
    LayerExtends(s0, frames, s, Undone(s, items), receipts);
  }

  /** The newest pending apply can always be rolled back ... */
  lemma TopAccepted(f: Frame, s: Store, named: set<Path>, receipts: set<Path>)
    requires FitsTree(f.base, f.plan) && Rollbackable(f.plan, f.receiptAt)
    requires Extends(Outcome(f), s, named, receipts) && Paths(f.plan.body.files) + {MANAGED_PATH} <= named
    ensures RollbackAccepts(s, BuildReceipt(f.plan))
  {
    var items := f.plan.body.files;
    OutcomeManifest(f);
    forall item | item in items ensures ShaOrNull(Bytes(s.files, item.path)) == item.afterSha {
      assert ValidItem(item) && item.path in Paths(items);
      ForwardAt(f.base.files, items, item);
      assert Bytes(Outcome(f).files, item.path) == Bytes(s.files, item.path);
    }
  }

  lemma OutcomeElsewhere(f: Frame, p: Path)
    requires p !in Paths(f.plan.body.files) && p != MANAGED_PATH && p != f.receiptAt
    ensures FileAt(Outcome(f).files, p) == FileAt(f.base.files, p)
  {
    ForwardElsewhere(f.base.files, f.plan.body.files, p);
  }

  /** ... which gives back the store it was made on, and leaves its receipt. */
  lemma TopRestores(f: Frame, s: Store, below: set<Path>, named: set<Path>, receipts: set<Path>)
    requires FitsTree(f.base, f.plan) && Rollbackable(f.plan, f.receiptAt)
    requires f.receiptAt in receipts && f.receiptAt !in below && f.receiptAt !in f.base.files
    requires named == below + Paths(f.plan.body.files)
    requires Extends(Outcome(f), s, named, receipts)
    ensures Extends(f.base, RolledBack(s, BuildReceipt(f.plan)), below, receipts)
  {
    hide Outcome, Backward, BuildManaged, ValidPlan;
    var items, t := f.plan.body.files, RolledBack(s, BuildReceipt(f.plan));
    assert Outcome(f).head == f.base.head by { OutcomeEnds(f); }
    assert t.vendor == f.base.vendor by { OutcomeEnds(f); }
    forall p ensures Bytes(f.base.files, p) == Bytes(t.files, p)
                     || (p !in f.base.files && p in receipts && p !in below) {
      BackwardAt(s.files, items, p);
      if p !in Paths(items) && p != MANAGED_PATH && p != f.receiptAt {
        OutcomeElsewhere(f, p);
        assert Bytes(Outcome(f).files, p) == Bytes(s.files, p)
               || (p !in Outcome(f).files && p in receipts && p !in named);
      }
    }
  }

  lemma OutcomeEnds(f: Frame)
    ensures Outcome(f).head == f.base.head
    ensures Outcome(f).vendor ==
            if f.plan.body.embedded.Some? then CleanClone(f.plan.body.embedded.value) else f.base.vendor
  {
  }

  /** One rollback of the newest frame is accepted and pops it. */
  lemma RollbackPops(s0: Store, frames: seq<Frame>, s: Store, receipts: set<Path>)
    requires Layered(s0, frames, s, receipts) && frames != []
    ensures var top := frames[|frames| - 1];
            && RollbackAccepts(s, BuildReceipt(top.plan))
            && Layered(s0, frames[..|frames| - 1], RolledBack(s, BuildReceipt(top.plan)), receipts)
            && HoldsReceipt(s, top.receiptAt, top.plan)
  {
    hide Rollbackable, FitsTree, RolledBack, RollbackAccepts, Outcome, Extends;
    var below, top := frames[..|frames| - 1], frames[|frames| - 1];
    ManifestIsNamed(frames);
    TopAccepted(top, s, Named(frames), receipts);
    TopRestores(top, s, Named(below), Named(frames), receipts);
    LayerExtends(s0, below, top.base, RolledBack(s, BuildReceipt(top.plan)), receipts);
    ReceiptStays(top, s, Named(frames), receipts);
  }

  lemma ReceiptStays(f: Frame, s: Store, named: set<Path>, receipts: set<Path>)
    requires Extends(Outcome(f), s, named, receipts)
    ensures HoldsReceipt(s, f.receiptAt, f.plan)
  {
    hide BuildReceipt, BuildManaged, Forward;
    assert Bytes(Outcome(f).files, f.receiptAt) == Bytes(s.files, f.receiptAt);
  }

  /** A receipt of the run is accepted exactly when its plan is the newest pending one. */
  lemma AcceptedIffNewest(s0: Store, frames: seq<Frame>, s: Store, plan: Plan, receipts: set<Path>)
    requires Layered(s0, frames, s, receipts) && Above(s0, plan)
    ensures RollbackAccepts(s, BuildReceipt(plan)) <==> frames != [] && plan == frames[|frames| - 1].plan
  {
    hide Layered, Depth;
    LayerDepth(s0, frames, s, receipts);
    if frames != [] {
      RollbackPops(s0, frames, s, receipts);
      assert ValidPlan(frames[|frames| - 1].plan) by { TopIsValid(s0, frames, s, receipts); }
    }
  }

  lemma TopIsValid(s0: Store, frames: seq<Frame>, s: Store, receipts: set<Path>)
    requires Layered(s0, frames, s, receipts) && frames != []
    ensures ValidPlan(frames[|frames| - 1].plan)
  {
  }

  lemma ApplyStep(s0: Store, ops: seq<Op>, before: Store, frames: seq<Frame>, op: Op, receipts: set<Path>,
                  source: map<string, string>)
    requires op.Applying? && op.receiptAt in receipts && AllAbove(s0, ops)
    requires Layered(s0, frames, before, receipts) && TidyApply(op.plan, op.receiptAt, frames)
    requires Step(before, op, source).Some?
    ensures Layered(s0, frames + [Frame(before, op.plan, op.receiptAt)], Step(before, op, source).value, receipts)
    ensures AllAbove(s0, ops + [op])
  {
    hide Layered, CanApply, Committed, Above, TidyApply;
    ApplyPushes(s0, frames, before, op.plan, op.receiptAt, receipts, source);
  }

  lemma RollbackStep(s0: Store, ops: seq<Op>, before: Store, frames: seq<Frame>, op: Op, receipts: set<Path>,
                     source: map<string, string>)
    requires op.RollingBack? && AllAbove(s0, ops) && Layered(s0, frames, before, receipts)
    requires StandsIn(before, op.receiptAt, frames)
             || exists o :: o in ops && o.Applying? && HoldsReceipt(before, op.receiptAt, o.plan)
    requires Step(before, op, source).Some?
    ensures Layered(s0, WithoutLast(frames), Step(before, op, source).value, receipts)
  {
    hide Layered, RollbackAccepts, RolledBack, Above, BuildReceipt, SameUndo;
    if StandsIn(before, op.receiptAt, frames) {
      RollbackPops(s0, frames, before, receipts);
      var own, r := BuildReceipt(frames[|frames| - 1].plan), before.files[op.receiptAt].content.receipt;
      SameUndoIff(before, r, own);
      LayerExtends(s0, WithoutLast(frames), RolledBack(before, own), RolledBack(before, r), receipts);
    } else {
      var o :| o in ops && o.Applying? && HoldsReceipt(before, op.receiptAt, o.plan);
      AcceptedIffNewest(s0, frames, before, o.plan, receipts);
      RollbackPops(s0, frames, before, receipts);
    }
  }

  ghost predicate SameBytes(u: Store, v: Store) {
    u.vendor == v.vendor && u.head == v.head && forall p :: Bytes(u.files, p) == Bytes(v.files, p)
  }

  /** Any accepted receipt restores its own manifest, and each path as its first item for it says. */
  lemma RollbackAt(s: Store, r: Receipt, p: Path)
    ensures Bytes(RolledBack(s, r).files, p) == Undoes(r, s.files, p)
  {
    BackwardAt(s.files, r.body.files, p);
  }

  /** A rollback asks of its receipt only the current manifest's digest and its own.
      So any document with both is accepted like the newest apply's own receipt, and
      has the same effect exactly when the two undo alike. */
  lemma SameUndoIff(s: Store, r: Receipt, g: Receipt)
    requires RollbackAccepts(s, r) && RollbackAccepts(s, g)
    ensures SameBytes(RolledBack(s, r), RolledBack(s, g)) <==> SameUndo(s, r, g)
  {
    forall p ensures Bytes(RolledBack(s, r).files, p) == Undoes(r, s.files, p)
             ensures Bytes(RolledBack(s, g).files, p) == Undoes(g, s.files, p) {
      RollbackAt(s, r, p);
      RollbackAt(s, g, p);
    }
    assert RolledBack(s, r).vendor == RolledBack(s, g).vendor
           <==> r.body.embeddedCreated.Some? == g.body.embeddedCreated.Some?;
    hide RolledBack;
    assert SameBytes(RolledBack(s, r), RolledBack(s, g)) ==>
        Undoes(r, s.files, MANAGED_PATH) == Undoes(g, s.files, MANAGED_PATH);
  }

  /** Every tidy run keeps its pending applies layered on the start. */
  lemma {:induction false} RunKeepsStack(
      s0: Store, ops: seq<Op>, s: Store, receipts: set<Path>, source: map<string, string>)
    requires Run(s0, ops, source) == Some(s) && Tidy(s0, ops, source) && ReceiptPaths(ops) <= receipts
    ensures Layered(s0, Pending(s0, ops, source), s, receipts) && AllAbove(s0, ops)
    decreases |ops|
  {
    hide Layered, TidyApply, Step, HoldsReceipt, StandsIn, AllAbove;
    if ops == [] {
      EmptyRun(s0, receipts);
    } else {
      var init, last := ops[..|ops| - 1], ops[|ops| - 1];
      assert ops == init + [last];
      var before := Run(s0, init, source).value;
      assert ReceiptPaths(init) <= receipts;
      RunKeepsStack(s0, init, before, receipts, source);
      match last
      case Applying(_, receiptAt) =>
        assert receiptAt in ReceiptPaths(ops);
        ApplyStep(s0, init, before, Pending(s0, init, source), last, receipts, source);
      case FailingApply(plan, _, fault) =>
        FailureStep(s0, init, before, Pending(s0, init, source), last, receipts, source);
      case RollingBack(_) =>
        RollbackStep(s0, init, before, Pending(s0, init, source), last, receipts, source);
        NoNewPlan(s0, init, last);
    }
  }

  lemma EmptyRun(s0: Store, receipts: set<Path>)
    ensures Layered(s0, [], s0, receipts) && AllAbove(s0, [])
  {
  }

  lemma NoNewPlan(s0: Store, ops: seq<Op>, op: Op)
    requires AllAbove(s0, ops) && !op.Applying?
    ensures AllAbove(s0, ops + [op])
  {
    hide Above;
  }

  lemma FailureStep(s0: Store, ops: seq<Op>, before: Store, frames: seq<Frame>, op: Op, receipts: set<Path>,
                    source: map<string, string>)
    requires op.FailingApply? && AllAbove(s0, ops) && Layered(s0, frames, before, receipts)
    requires Step(before, op, source).Some?
    ensures Layered(s0, frames, Step(before, op, source).value, receipts) && AllAbove(s0, ops + [op])
  {
    hide Layered, CanApply, Undone, Above;
    FailureKeeps(s0, frames, before, op.plan.body.files[..AppliedBefore(op.plan, op.fault)], receipts);
    NoNewPlan(s0, ops, op);
  }

  // ---------------------------------------------------------- what runs keep

  /** The start with the pending applies replayed on it, receipts aside. */
  function Replay(s0: Store, frames: seq<Frame>): Tree {
    if frames == [] then s0.files
    else
      var plan := frames[|frames| - 1].plan;
      Forward(Replay(s0, frames[..|frames| - 1]), plan.body.files)
      [MANAGED_PATH := File(ManifestText(BuildManaged(plan)), PLAIN_MODE)]
  }

  lemma {:induction false} ForwardAgrees(f: Tree, g: Tree, items: seq<FilePlan>, p: Path)
    requires Bytes(f, p) == Bytes(g, p)
    ensures Bytes(Forward(f, items), p) == Bytes(Forward(g, items), p)
  {
    if items != [] {
      ForwardAgrees(f, g, items[..|items| - 1], p);
    }
  }

  lemma {:induction false} LayersReplay(s0: Store, frames: seq<Frame>, s: Store, receipts: set<Path>, p: Path)
    requires Layered(s0, frames, s, receipts) && p !in receipts
    ensures Bytes(s.files, p) == Bytes(Replay(s0, frames), p)
    decreases |frames|
  {
    hide FitsTree, TidyApply, Named, BuildManaged, BuildReceipt;
    if frames != [] {
      var below, top := frames[..|frames| - 1], frames[|frames| - 1];
      LayersReplay(s0, below, top.base, receipts, p);
      ForwardAgrees(top.base.files, Replay(s0, below), top.plan.body.files, p);
      assert Bytes(Outcome(top).files, p) == Bytes(s.files, p);
    }
  }

  /** After any tidy run of applies, failed applies and rollbacks, in any order the
      target allows, the tree is the start with the pending applies replayed on it,
      receipts aside: each rollback undid exactly the newest apply. When none is
      pending every path has its bytes from the start, the manifest and the clone
      included, and only receipts are new. A receipt of the run is accepted exactly
      when its plan is the newest pending one. */
  lemma RunsConserveTheTree(s0: Store, ops: seq<Op>, s: Store, receipts: set<Path>, source: map<string, string>)
    requires Run(s0, ops, source) == Some(s) && Tidy(s0, ops, source) && ReceiptPaths(ops) <= receipts
    ensures var frames := Pending(s0, ops, source);
            && (forall p :: p !in receipts ==> Bytes(s.files, p) == Bytes(Replay(s0, frames), p))
            && (frames == [] ==> Extends(s0, s, {MANAGED_PATH}, receipts))
            && (forall op, at :: op in ops && op.Applying? && HoldsReceipt(s, at, op.plan) ==>
                  (CanRollback(s, at) <==> frames != [] && op.plan == frames[|frames| - 1].plan))
  {
    var frames := Pending(s0, ops, source);
    RunKeepsStack(s0, ops, s, receipts, source);
    hide Layered, Pending, Run, Tidy, Replay, Above, RollbackAccepts, BuildReceipt;
    forall p | p !in receipts ensures Bytes(s.files, p) == Bytes(Replay(s0, frames), p) {
      LayersReplay(s0, frames, s, receipts, p);
    }
    if frames == [] {
      NothingPending(s0, s, receipts);
    }
    forall op, at | op in ops && op.Applying? && HoldsReceipt(s, at, op.plan)
      ensures CanRollback(s, at) <==> frames != [] && op.plan == frames[|frames| - 1].plan
    {
      AcceptedIffNewest(s0, frames, s, op.plan, receipts);
    }
  }

  lemma NothingPending(s0: Store, s: Store, receipts: set<Path>)
    ensures Layered(s0, [], s, receipts) == Extends(s0, s, {MANAGED_PATH}, receipts)
  {
  }

  lemma RunOneMore(s0: Store, ops: seq<Op>, s: Store, op: Op, source: map<string, string>)
    requires Run(s0, ops, source) == Some(s)
    ensures Run(s0, ops + [op], source) == Step(s, op, source)
  {
    assert (ops + [op])[..|ops|] == ops;
  }

  /** Rolling every frame back, the newest first. */
  function Unwind(frames: seq<Frame>): seq<Op> {
    if frames == [] then []
    else [RollingBack(frames[|frames| - 1].receiptAt)] + Unwind(frames[..|frames| - 1])
  }

  /** Rolling layered frames back newest-first always succeeds and ends on the start. */
  lemma {:induction false} LayersUnwind(
      s0: Store, ops: seq<Op>, frames: seq<Frame>, s: Store, receipts: set<Path>, source: map<string, string>)
    requires Run(s0, ops, source) == Some(s) && Layered(s0, frames, s, receipts)
    ensures var t := Run(s0, ops + Unwind(frames), source);
            t.Some? && Extends(s0, t.value, {MANAGED_PATH}, receipts)
    decreases |frames|
  {
    hide Layered, Run, RolledBack, RollbackAccepts, BuildReceipt, Extends;
    if frames == [] {
      assert ops + Unwind(frames) == ops;
      NothingPending(s0, s, receipts);
    } else {
      var below, top := frames[..|frames| - 1], frames[|frames| - 1];
      RollbackPops(s0, frames, s, receipts);
      var op := RollingBack(top.receiptAt);
      RunOneMore(s0, ops, s, op, source);
      LayersUnwind(s0, ops + [op], below, RolledBack(s, BuildReceipt(top.plan)), receipts, source);
      assert (ops + [op]) + Unwind(below) == ops + Unwind(frames);
    }
  }

  /** After any such run, rolling the pending receipts back newest-first always
      succeeds and returns to the start. */
  lemma UnwindingReturnsToStart(s0: Store, ops: seq<Op>, s: Store, receipts: set<Path>, source: map<string, string>)
    requires Run(s0, ops, source) == Some(s) && Tidy(s0, ops, source) && ReceiptPaths(ops) <= receipts
    ensures var t := Run(s0, ops + Unwind(Pending(s0, ops, source)), source);
            t.Some? && Extends(s0, t.value, {MANAGED_PATH}, receipts)
  {
    RunKeepsStack(s0, ops, s, receipts, source);
    LayersUnwind(s0, ops, Pending(s0, ops, source), s, receipts, source);
  }
}
