/** Applying a signed plan to a target repository and rolling it back. */
module ProjectTransaction {
  import opened Wrappers
  import opened ProjectTypes

  datatype ProjectError =
    | PlanDrifted
    | TargetChanged
    | EmbeddedExists
    | ReceiptExists
    | StepFailed
    | InvalidReceipt
    | RollbackRefused

  /** Which step of the write phase fails, if any. A step is all-or-nothing. */
  datatype Fault = NoFault | FailClone | FailFile(index: nat) | FailManifest | FailReceipt

  // ---------------------------------------------------------------- plans

  predicate ValidItem(item: FilePlan) {
    && item.beforeSha == ShaOrNull(item.before)
    && match item.action {
         case Write => item.after.Some? && item.afterSha == ShaOrNull(item.after) && item.mode.Some?
         case Delete => item.after.None? && item.afterSha.None? && item.mode.None?
         case OtherAction => false
       }
  }

  ghost predicate ValidPlan(plan: Plan) {
    && plan.contentSha == OfPlan(plan.body)
    && forall item :: item in plan.body.files ==> ValidItem(item)
  }

  function ManagedEntries(items: seq<FilePlan>): seq<ManagedEntry> {
    if items == [] then []
    else if items[0].action == Write && items[0].afterSha.Some? && items[0].mode.Some? then
      [ManagedEntry(items[0].path, items[0].afterSha.value, items[0].mode.value)] + ManagedEntries(items[1..])
    else ManagedEntries(items[1..])
  }

  function BuildManaged(plan: Plan): Manifest {
    var body := ManifestBody(plan.body.project, plan.body.consumerMode, plan.contentSha, plan.body.release,
                             ManagedEntries(plan.body.files), plan.body.embedded);
    Manifest(body, OfManifest(body))
  }

  function BuildReceipt(plan: Plan): Receipt {
    var managed := ManifestText(BuildManaged(plan));
    var body := ReceiptBody(plan.body.project, plan.body.consumerMode, plan.contentSha, plan.body.files,
                            plan.body.previousManagedSha, plan.body.previousManaged, OfBytes(managed), managed,
                            plan.body.embedded);
    Receipt(body, OfReceipt(body))
  }

  // ------------------------------------------------- the effect on the tree

  function ApplyItem(files: Tree, item: FilePlan): Tree {
    if item.action == Write && item.after.Some? && item.mode.Some?
    then files[item.path := File(item.after.value, item.mode.value)]
    else files - {item.path}
  }

  function Forward(files: Tree, items: seq<FilePlan>): Tree {
    if items == [] then files
    else ApplyItem(Forward(files, items[..|items| - 1]), items[|items| - 1])
  }

  function OrPlain(mode: Option<Mode>): Mode {
    if mode.Some? then mode.value else PLAIN_MODE
  }

  function Restore(files: Tree, p: Path, content: Option<Content>, mode: Option<Mode>): Tree {
    if content.None? then files - {p} else files[p := File(content.value, OrPlain(mode))]
  }

  /** Restoring every item, the last one first. */
  function Backward(files: Tree, items: seq<FilePlan>): Tree
    decreases |items|
  {
    if items == [] then files
    else
      var last := items[|items| - 1];
      Backward(Restore(files, last.path, last.before, last.mode), items[..|items| - 1])
  }

  function Committed(s: Store, plan: Plan, receiptAt: Path): Store {
    Store(
      Forward(s.files, plan.body.files)
      [MANAGED_PATH := File(ManifestText(BuildManaged(plan)), PLAIN_MODE)]
      [receiptAt := File(ReceiptText(BuildReceipt(plan)), PLAIN_MODE)],
      if plan.body.embedded.Some? then CleanClone(plan.body.embedded.value) else s.vendor,
      s.head)
  }

  function RolledBack(s: Store, receipt: Receipt): Store {
    Store(
      Restore(Backward(s.files, receipt.body.files), MANAGED_PATH, receipt.body.managedBefore, Some(PLAIN_MODE)),
      if receipt.body.embeddedCreated.Some? then NoVendor else s.vendor,
      s.head)
  }

  /** The mode the undo leaves on `p`: that of the first item naming it, which is
      the mode the file was to have AFTER the apply, or 644 for a deletion. */
  function UndoMode(items: seq<FilePlan>, p: Path, mode: Mode): Mode {
    if items == [] then mode
    else if items[0].path == p then OrPlain(items[0].mode)
    else UndoMode(items[1..], p, mode)
  }

  /** The state before an apply, except for the modes that undoing `items` and
      rewriting the manifest sets. */
  ghost function Undone(s: Store, items: seq<FilePlan>): Store {
    s.(files := map p | p in s.files ::
                  File(s.files[p].content,
                       if p == MANAGED_PATH then PLAIN_MODE else UndoMode(items, p, s.files[p].mode)))
  }

  // ---------------------------------------------------- when a call proceeds

  ghost predicate CanApply(s: Store, plan: Plan, receiptAt: Path, source: map<string, string>) {
    && ValidPlan(plan)
    && plan.body.release.commit in source
    && source[plan.body.release.commit] == plan.body.release.tree
    && s.head == plan.body.targetHead
    && ShaOrNull(Bytes(s.files, MANAGED_PATH)) == plan.body.previousManagedSha
    && (forall item :: item in plan.body.files ==> ShaOrNull(Bytes(s.files, item.path)) == item.beforeSha)
    && (plan.body.embedded.Some? ==> s.vendor == NoVendor)
    && receiptAt !in s.files
  }

  predicate Fires(plan: Plan, fault: Fault) {
    match fault
    case NoFault => false
    case FailClone => plan.body.embedded.Some?
    case FailFile(i) => i < |plan.body.files|
    case FailManifest => true
    case FailReceipt => true
  }

  /** How many items had been applied when the fault struck. */
  function AppliedBefore(plan: Plan, fault: Fault): (n: nat)
    ensures n <= |plan.body.files|
  {
    match fault
    case FailClone => if plan.body.embedded.Some? then 0 else |plan.body.files|
    case FailFile(i) => if i < |plan.body.files| then i else |plan.body.files|
    case _ => |plan.body.files|
  }

  ghost predicate CanRollback(s: Store, receiptAt: Path) {
    && receiptAt in s.files
    && s.files[receiptAt].content.ReceiptText?
    && RollbackAccepts(s, s.files[receiptAt].content.receipt)
  }

  ghost predicate RollbackAccepts(s: Store, receipt: Receipt) {
    && receipt.contentSha == OfReceipt(receipt.body)
    && ShaOrNull(Bytes(s.files, MANAGED_PATH)) == Some(receipt.body.managedAfterSha)
    && (forall item :: item in receipt.body.files ==> ShaOrNull(Bytes(s.files, item.path)) == item.afterSha)
    && (receipt.body.embeddedCreated.Some? ==> s.vendor == CleanClone(receipt.body.embeddedCreated.value))
  }

  // -------------------------------------------------------- pointwise facts

  function First(items: seq<FilePlan>, p: Path): (r: Option<FilePlan>)
    ensures r.Some? <==> p in Paths(items)
    ensures r.Some? ==> r.value in items && r.value.path == p
  {
    if items == [] then None
    else if items[0].path == p then Some(items[0])
    else First(items[1..], p)
  }

  lemma {:induction false} FirstOfPrefix(items: seq<FilePlan>, last: FilePlan, p: Path)
    ensures First(items + [last], p) ==
            if First(items, p).Some? then First(items, p) else if last.path == p then Some(last) else None
  {
    if items == [] {
      assert items + [last] == [last];
      assert [last][1..] == [];
    } else {
      assert (items + [last])[1..] == items[1..] + [last];
      FirstOfPrefix(items[1..], last, p);
    }
  }

  lemma {:induction false} UndoModeIsFirst(items: seq<FilePlan>, p: Path, mode: Mode)
    ensures UndoMode(items, p, mode) == match First(items, p) case Some(item) => OrPlain(item.mode) case None => mode
  {
    if items != [] && items[0].path != p {
      UndoModeIsFirst(items[1..], p, mode);
    }
  }

  /** Undoing in reverse leaves each path as its FIRST item recorded it. */
  lemma {:induction false} BackwardAt(files: Tree, items: seq<FilePlan>, p: Path)
    ensures FileAt(Backward(files, items), p) ==
            match First(items, p)
            case None => FileAt(files, p)
            case Some(item) => if item.before.None? then None else Some(File(item.before.value, OrPlain(item.mode)))
    decreases |items|
  {
    if items != [] {
      var init, last := items[..|items| - 1], items[|items| - 1];
      assert items == init + [last];
      FirstOfPrefix(init, last, p);
      BackwardAt(Restore(files, last.path, last.before, last.mode), init, p);
    }
  }

  lemma {:induction false} ForwardElsewhere(files: Tree, items: seq<FilePlan>, p: Path)
    requires p !in Paths(items)
    ensures FileAt(Forward(files, items), p) == FileAt(files, p)
  {
    if items != [] {
      var init, last := items[..|items| - 1], items[|items| - 1];
      assert last in items && forall item :: item in init ==> item in items;
      ForwardElsewhere(files, init, p);
    }
  }

  /** Applying leaves each path as its LAST item prescribes. */
  lemma {:induction false} ForwardAt(files: Tree, items: seq<FilePlan>, item: FilePlan)
    requires forall i :: i in items ==> ValidItem(i)
    requires item in items
    requires forall i :: i in items && i.path == item.path ==> i.after == item.after
    ensures Bytes(Forward(files, items), item.path) == item.after
  {
    var init, last := items[..|items| - 1], items[|items| - 1];
    assert items == init + [last];
    assert last in items && ValidItem(last);
    if last.path != item.path {
      assert item in init;
      ForwardAt(files, init, item);
    }
  }

  /** Undoing `items` from any tree that differs from `s` only on their paths and
      on the manifest gives back `s`, modes aside. */
  lemma UndoneAt(s: Store, items: seq<FilePlan>, files: Tree, p: Path)
    requires forall item :: item in items ==> item.before == Bytes(s.files, item.path)
    requires p !in Paths(items) && p != MANAGED_PATH ==> FileAt(files, p) == FileAt(s.files, p)
    ensures FileAt(Restore(Backward(files, items), MANAGED_PATH, Bytes(s.files, MANAGED_PATH), Some(PLAIN_MODE)), p)
            == FileAt(Undone(s, items).files, p)
  {
    BackwardAt(files, items, p);
    if p in s.files {
      UndoModeIsFirst(items, p, s.files[p].mode);
    }
  }

  lemma SameTree(a: Tree, b: Tree)
    requires forall p :: FileAt(a, p) == FileAt(b, p)
    ensures a == b
  {
    forall p ensures p in a <==> p in b {
      assert FileAt(a, p) == FileAt(b, p);
    }
    forall p | p in a ensures a[p] == b[p] {
      assert FileAt(a, p) == FileAt(b, p);
    }
  }

  lemma BeforePayloads(s: Store, plan: Plan)
    requires ValidPlan(plan)
    requires forall item :: item in plan.body.files ==> ShaOrNull(Bytes(s.files, item.path)) == item.beforeSha
    ensures forall item :: item in plan.body.files ==> item.before == Bytes(s.files, item.path)
  {
    forall item | item in plan.body.files ensures item.before == Bytes(s.files, item.path) {
      assert ValidItem(item);
    }
  }

  // ------------------------------------------------------------- the target

  /** A target repository: its working files, its embedded clone and its HEAD. */
  class Target {
    var files: Tree
    var vendor: Vendor
    const head: Option<string>

    function View(): Store
      reads this
    {
      Store(files, vendor, head)
    }

    constructor (s: Store)
      ensures View() == s
    {
      files, vendor, head := s.files, s.vendor, s.head;
    }

    /** The payload checks on a plan read from disk. */
    static method VerifyPlan(plan: Plan) returns (ok: bool)
      ensures ok <==> ValidPlan(plan)
    {
      if plan.contentSha != OfPlan(plan.body) {
        return false;
      }
      for i := 0 to |plan.body.files|
        invariant forall k :: 0 <= k < i ==> ValidItem(plan.body.files[k])
      {
        if !ValidItem(plan.body.files[i]) {
          return false;
        }
      }
      return true;
    }

    /** Everything `Apply` checks before it writes. */
    method CheckApply(plan: Plan, receiptAt: Path, source: map<string, string>)
      returns (r: Result<(), ProjectError>)
      ensures r.Ok? <==> CanApply(View(), plan, receiptAt, source)
    {
      var valid := VerifyPlan(plan);
      if !valid {
        return Err(PlanDrifted);
      }
      if plan.body.release.commit !in source || source[plan.body.release.commit] != plan.body.release.tree {
        return Err(PlanDrifted);
      }
      if head != plan.body.targetHead {
        return Err(TargetChanged);
      }
      if ShaOrNull(Bytes(files, MANAGED_PATH)) != plan.body.previousManagedSha {
        return Err(TargetChanged);
      }
      for i := 0 to |plan.body.files|
        invariant forall k :: 0 <= k < i ==>
          ShaOrNull(Bytes(files, plan.body.files[k].path)) == plan.body.files[k].beforeSha
      {
        if ShaOrNull(Bytes(files, plan.body.files[i].path)) != plan.body.files[i].beforeSha {
          return Err(TargetChanged);
        }
      }
      if plan.body.embedded.Some? && vendor != NoVendor {
        return Err(EmbeddedExists);
      }
      if receiptAt in files {
        return Err(ReceiptExists);
      }
      return Ok(());
    }

    /** The catch block of `Apply`: restore the applied items in reverse, then the
        manifest, then remove a clone made by this call. */
    method UndoApplied(applied: seq<FilePlan>, currentManaged: Option<Content>, embeddedCreated: bool,
                       ghost start: Store)
      requires head == start.head && currentManaged == Bytes(start.files, MANAGED_PATH)
      requires if embeddedCreated then start.vendor == NoVendor else vendor == start.vendor
      requires forall item :: item in applied ==> item.before == Bytes(start.files, item.path)
      requires forall p :: p !in Paths(applied) && p != MANAGED_PATH ==> FileAt(files, p) == FileAt(start.files, p)
      modifies this
      ensures View() == Undone(start, applied)
    {
      ghost var broken := files;
      assert applied[..|applied|] == applied;
      var j := |applied|;
      while j > 0
        invariant 0 <= j <= |applied|
        invariant Backward(files, applied[..j]) == Backward(broken, applied)
        invariant vendor == old(vendor)
      {
        j := j - 1;
        assert applied[..j + 1][..j] == applied[..j];
        files := Restore(files, applied[j].path, applied[j].before, applied[j].mode);
      }
      files := Restore(files, MANAGED_PATH, currentManaged, Some(PLAIN_MODE));
      if embeddedCreated {
        vendor := NoVendor;
      }
      forall p ensures FileAt(files, p) == FileAt(Undone(start, applied).files, p) {
        UndoneAt(start, applied, broken, p);
      }
      SameTree(files, Undone(start, applied).files);
    }

    /** Clone, write and delete, write the manifest, write the receipt; undo in
        reverse if a step fails. */
    method Apply(plan: Plan, receiptAt: Path, source: map<string, string>, fault: Fault)
      returns (r: Result<Path, ProjectError>)
      modifies this
      ensures r.Ok? <==> CanApply(old(View()), plan, receiptAt, source) && !Fires(plan, fault)
      ensures r.Ok? ==> r.value == receiptAt && View() == Committed(old(View()), plan, receiptAt)
      ensures r.Err? && !CanApply(old(View()), plan, receiptAt, source) ==> View() == old(View())
      ensures r.Err? && CanApply(old(View()), plan, receiptAt, source) ==>
                View() == Undone(old(View()), plan.body.files[..AppliedBefore(plan, fault)])
    {
      hide BuildManaged, BuildReceipt, Undone, ApplyItem;
      var checked := CheckApply(plan, receiptAt, source);
      if checked.Err? {
        return Err(checked.error);
      }
      ghost var start := View();
      var items := plan.body.files;
      var currentManaged := Bytes(files, MANAGED_PATH);
      var failed, embeddedCreated := false, false;
      var applied: seq<FilePlan> := [];

      if plan.body.embedded.Some? {
        if fault == FailClone {
          failed := true;
        } else {
          vendor := CleanClone(plan.body.embedded.value);
          embeddedCreated := true;
        }
      }
      if !failed {
        var i := 0;
        while i < |items| && !failed
          invariant 0 <= i <= |items| && applied == items[..i]
          invariant files == Forward(start.files, applied)
          invariant vendor == if embeddedCreated then CleanClone(plan.body.embedded.value) else start.vendor
          invariant failed ==> fault == FailFile(i) && i < |items|
          invariant fault.FailFile? && fault.index < |items| ==> i <= fault.index
          decreases |items| - i, !failed
        {
          if fault == FailFile(i) {
            failed := true;
          } else {
            assert items[..i + 1][..i] == items[..i];
            files := ApplyItem(files, items[i]);
            applied := applied + [items[i]];
            i := i + 1;
          }
        }
      }
      assert !failed ==> applied == items;
      if !failed && fault != FailManifest {
        files := files[MANAGED_PATH := File(ManifestText(BuildManaged(plan)), PLAIN_MODE)];
        if fault != FailReceipt {
          files := files[receiptAt := File(ReceiptText(BuildReceipt(plan)), PLAIN_MODE)];
          return Ok(receiptAt);
        }
      }

      assert applied == items[..AppliedBefore(plan, fault)];
      BeforePayloads(start, plan);
      forall p | p !in Paths(applied) && p != MANAGED_PATH ensures FileAt(files, p) == FileAt(start.files, p) {
        ForwardElsewhere(start.files, applied, p);
      }
      UndoApplied(applied, currentManaged, embeddedCreated, start);
      return Err(StepFailed);
    }

    /** Undo a successful apply from the receipt it wrote. */
    method Rollback(receiptAt: Path) returns (r: Result<(), ProjectError>)
      modifies this
      ensures r.Ok? <==> CanRollback(old(View()), receiptAt)
      ensures r.Ok? ==> View() == RolledBack(old(View()), old(files)[receiptAt].content.receipt)
      ensures r.Err? ==> View() == old(View())
    {
      if receiptAt !in files || !files[receiptAt].content.ReceiptText? {
        return Err(InvalidReceipt);
      }
      var receipt := files[receiptAt].content.receipt;
      if receipt.contentSha != OfReceipt(receipt.body) {
        return Err(InvalidReceipt);
      }
      if ShaOrNull(Bytes(files, MANAGED_PATH)) != Some(receipt.body.managedAfterSha) {
        return Err(RollbackRefused);
      }
      var items := receipt.body.files;
      for i := 0 to |items|
        invariant forall k :: 0 <= k < i ==> ShaOrNull(Bytes(files, items[k].path)) == items[k].afterSha
      {
        if ShaOrNull(Bytes(files, items[i].path)) != items[i].afterSha {
          return Err(RollbackRefused);
        }
      }
      if receipt.body.embeddedCreated.Some? && vendor != CleanClone(receipt.body.embeddedCreated.value) {
        return Err(RollbackRefused);
      }
      ghost var start := files;
      assert items[..|items|] == items;
      var j := |items|;
      while j > 0
        invariant 0 <= j <= |items|
        invariant Backward(files, items[..j]) == Backward(start, items)
        invariant vendor == old(vendor)
      {
        j := j - 1;
        assert items[..j + 1][..j] == items[..j];
        files := Restore(files, items[j].path, items[j].before, items[j].mode);
      }
      assert items[..0] == [];
      assert files == Backward(start, items);
      files := Restore(files, MANAGED_PATH, receipt.body.managedBefore, Some(PLAIN_MODE));
      if receipt.body.embeddedCreated.Some? {
        vendor := NoVendor;
      }
      return Ok(());
    }
  }
}
