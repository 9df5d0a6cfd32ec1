/** Inputs at which promises of the project transaction fail, and what run
    conditions are for. */
module ProjectWitnesses {
  import opened Wrappers
  import opened Ordering
  import opened ProjectTypes
  import opened ProjectTransaction
  import opened ProjectHistory
  import ProjectPlanning

  const RELEASE := Release("core", "c", "t")
  const SOURCE: map<string, string> := map["c" := "t"]
  const EMPTY := Store(map[], NoVendor, None)
  const RECEIPT := TreePath(Name("r"))
  const FILE := TreePath(Name("f"))

  /** A remote consumer's plan for `s` that carries `previous` as the old manifest. */
  function PlanFor(s: Store, items: seq<FilePlan>, previous: Option<Content>): Plan {
    var body := PlanBody("p", RemoteConsumer, RELEASE, Foreign(""), s.head, ShaOrNull(Bytes(s.files, MANAGED_PATH)),
                         previous, Foreign(""), items, None);
    Plan(body, OfPlan(body))
  }

  function WriteOver(s: Store, p: Path, text: string): FilePlan {
    FilePlan(p, Write, Some(PLAIN_MODE), ShaOrNull(Bytes(s.files, p)), Bytes(s.files, p),
             Some(OfBytes(Text(text))), Some(Text(text)))
  }

  lemma PlanForIsAccepted(s: Store, items: seq<FilePlan>, previous: Option<Content>, receiptAt: Path)
    requires receiptAt !in s.files
    requires forall item :: item in items ==> ValidItem(item) && item.before == Bytes(s.files, item.path)
    ensures CanApply(s, PlanFor(s, items, previous), receiptAt, SOURCE)
  {
  }

  /** A plan that writes its own receipt's path is applied and then cannot be rolled back. */
  lemma AcceptedButNotRollbackable() returns (plan: Plan)
    ensures CanApply(EMPTY, plan, RECEIPT, SOURCE)
    ensures !CanRollback(Committed(EMPTY, plan, RECEIPT), RECEIPT)
  {
    var item := WriteOver(EMPTY, RECEIPT, "x");
    plan := PlanFor(EMPTY, [item], None);
    PlanForIsAccepted(EMPTY, [item], None, RECEIPT);
    assert item in plan.body.files;
    FreshRollbackIff(EMPTY, plan, RECEIPT, SOURCE);
  }

  /** A plan that carries a manifest its digest does not vouch for is applied and
      rolled back, and leaves that manifest where there was none. */
  lemma AcceptedButNotRestored() returns (plan: Plan)
    ensures CanApply(EMPTY, plan, RECEIPT, SOURCE) && CanRollback(Committed(EMPTY, plan, RECEIPT), RECEIPT)
    ensures Bytes(EMPTY.files, MANAGED_PATH) == None
    ensures Bytes(RolledBack(Committed(EMPTY, plan, RECEIPT), BuildReceipt(plan)).files, MANAGED_PATH)
            == Some(Text("old"))
  {
    plan := PlanFor(EMPTY, [], Some(Text("old")));
    PlanForIsAccepted(EMPTY, [], Some(Text("old")), RECEIPT);
    FreshRollbackIff(EMPTY, plan, RECEIPT, SOURCE);
  }

  /** An executable file that a failed apply was to overwrite comes back with its
      bytes and without its mode. */
  lemma FailedApplyChangesMode() returns (s: Store, plan: Plan, t: Store)
    ensures Step(s, FailingApply(plan, RECEIPT, FailManifest), SOURCE) == Some(t)
    ensures FILE in s.files && FILE in t.files && s.files[FILE].content == t.files[FILE].content
    ensures s.files[FILE].mode == 493 && t.files[FILE].mode == PLAIN_MODE
  {
    s := Store(map[FILE := File(Text("old"), 493)], NoVendor, None);
    var item := WriteOver(s, FILE, "new");
    plan := PlanFor(s, [item], None);
    assert RECEIPT.name.text[0] != FILE.name.text[0];
    PlanForIsAccepted(s, [item], None, RECEIPT);
    t := Undone(s, [item]);
    assert plan.body.files[..1] == [item];
  }

  /** A receipt path given by the caller that is a desired file: planning and applying
      succeed on a fresh target, the project does not verify, and it cannot be rolled back. */
  lemma ReceiptOverDesiredFile() returns (desired: Tree, request: ProjectPlanning.Request)
    ensures var plan := ProjectPlanning.PlanOf(EMPTY, desired, request);
            && ProjectPlanning.CanPlan(EMPTY, desired, request.project) && CanApply(EMPTY, plan, FILE, SOURCE)
            && !ProjectPlanning.Verifies(Committed(EMPTY, plan, FILE))
            && !CanRollback(Committed(EMPTY, plan, FILE), FILE)
  {
    desired := map[FILE := File(Text("new"), PLAIN_MODE)];
    request := ProjectPlanning.Request("p", RemoteConsumer, RELEASE, Foreign(""), Foreign(""));
    ProjectPlanning.PlannedIsAccepted(EMPTY, desired, request, FILE, SOURCE, EMPTY);
    ProjectPlanning.AppliedVerifiesIff(EMPTY, desired, request, FILE, EMPTY);
    FreshRollbackIff(EMPTY, ProjectPlanning.PlanOf(EMPTY, desired, request), FILE, SOURCE);
  }

  /** A document no apply wrote: it names the current manifest, its own digest and no
      file. It is accepted like the apply's own receipt, and leaves the applied file. */
  lemma StrangeReceiptIsAccepted() returns (plan: Plan, strange: Receipt)
    ensures CanApply(EMPTY, plan, RECEIPT, SOURCE)
    ensures var u := Committed(EMPTY, plan, RECEIPT);
            && RollbackAccepts(u, BuildReceipt(plan)) && RollbackAccepts(u, strange)
            && Bytes(RolledBack(u, BuildReceipt(plan)).files, FILE) == None
            && Bytes(RolledBack(u, strange).files, FILE) == Some(Text("new"))
            && Bytes(RolledBack(u, strange).files, MANAGED_PATH) == None
  {
    var item := WriteOver(EMPTY, FILE, "new");
    plan := PlanFor(EMPTY, [item], None);
    assert RECEIPT.name.text[0] != FILE.name.text[0];
    PlanForIsAccepted(EMPTY, [item], None, RECEIPT);
    var genuine := BuildReceipt(plan);
    var body := genuine.body.(files := []);
    strange := Receipt(body, OfReceipt(body));
    FreshRollbackIff(EMPTY, plan, RECEIPT, SOURCE);
    var u := Committed(EMPTY, plan, RECEIPT);
    ForwardAt(EMPTY.files, [item], item);
    assert plan.body.files == [item] && Bytes(u.files, FILE) == Some(Text("new"));
    RollbackAt(u, genuine, FILE);
    RollbackAt(u, strange, FILE);
    RollbackAt(u, strange, MANAGED_PATH);
  }

  /** An embedded project whose clone was moved to another commit, edited or removed
      since the apply cannot be rolled back; left alone, it can. */
  lemma ChangedCloneIsRefused(changed: Vendor) returns (plan: Plan)
    requires changed != CleanClone("c")
    ensures CanApply(EMPTY, plan, RECEIPT, SOURCE) && plan.body.embedded == Some("c")
    ensures CanRollback(Committed(EMPTY, plan, RECEIPT), RECEIPT)
    ensures !CanRollback(Committed(EMPTY, plan, RECEIPT).(vendor := changed), RECEIPT)
  {
    var body := PlanBody("p", EmbeddedCore, RELEASE, Foreign(""), None, None, None, Foreign(""), [], Some("c"));
    plan := Plan(body, OfPlan(body));
    var u := Committed(EMPTY, plan, RECEIPT);
    LaterRollbackIff(EMPTY, plan, RECEIPT, SOURCE, u, RECEIPT);
    LaterRollbackIff(EMPTY, plan, RECEIPT, SOURCE, u.(vendor := changed), RECEIPT);
  }

  // ------------------------------------------------- what tidy runs are for

  /** Two applies over each other, the second rolled back: the first can then be
      rolled back exactly when the second's receipt, which stays behind, does not lie
      on a path the first plan names. */
  lemma LeftoverReceiptBlocksIff(s: Store, p: Plan, at: Path, q: Plan, qAt: Path, source: map<string, string>)
    requires CanApply(s, p, at, source) && TidyApply(p, at, [])
    requires CanApply(Committed(s, p, at), q, qAt, source) && Rollbackable(q, qAt)
    requires ShaOrNull(q.body.previousManaged) == q.body.previousManagedSha
    ensures var t := RolledBack(Committed(Committed(s, p, at), q, qAt), BuildReceipt(q));
            RollbackAccepts(t, BuildReceipt(p)) <==> qAt !in Paths(p.body.files)
  {
    var u := Committed(s, p, at);
    if qAt in Paths(p.body.files) {
      LeftoverReceiptBlocks(s, p, at, q, qAt, source);
    } else {
      hide Layered, CanApply, Committed, RolledBack, RollbackAccepts, Above, BuildReceipt;
      EmptyRun(s, {at, qAt});
      ApplyPushes(s, [], s, p, at, {at, qAt}, source);
      assert [] + [Frame(s, p, at)] == [Frame(s, p, at)];
      NamedByOne(Frame(s, p, at));
      ApplyPushes(s, [Frame(s, p, at)], u, q, qAt, {at, qAt}, source);
      var both := [Frame(s, p, at)] + [Frame(u, q, qAt)];
      RollbackPops(s, both, Committed(u, q, qAt), {at, qAt});
      assert both[..|both| - 1] == [Frame(s, p, at)];
      RollbackPops(s, [Frame(s, p, at)], RolledBack(Committed(u, q, qAt), BuildReceipt(q)), {at, qAt});
    }
  }

  /** Such a receipt: a plan deletes a file, and the next receipt takes its place. */
  lemma LeftoverReceiptOccurs() returns (s: Store, p: Plan, q: Plan)
    ensures CanApply(s, p, RECEIPT, SOURCE) && CanApply(Committed(s, p, RECEIPT), q, FILE, SOURCE)
    ensures var t := RolledBack(Committed(Committed(s, p, RECEIPT), q, FILE), BuildReceipt(q));
            && RollbackAccepts(Committed(Committed(s, p, RECEIPT), q, FILE), BuildReceipt(q))
            && !RollbackAccepts(t, BuildReceipt(p))
  {
    s := Store(map[FILE := File(Text("old"), PLAIN_MODE)], NoVendor, None);
    var item := FilePlan(FILE, Delete, None, ShaOrNull(Bytes(s.files, FILE)), Bytes(s.files, FILE), None, None);
    p := PlanFor(s, [item], None);
    assert RECEIPT.name.text[0] != FILE.name.text[0];
    PlanForIsAccepted(s, [item], None, RECEIPT);
    var u := Committed(s, p, RECEIPT);
    q := PlanFor(u, [], Bytes(u.files, MANAGED_PATH));
    ForwardAt(s.files, [item], item);
    assert FILE !in u.files;
    PlanForIsAccepted(u, [], Bytes(u.files, MANAGED_PATH), FILE);
    FreshRollbackIff(u, q, FILE, SOURCE);
    LeftoverReceiptBlocksIff(s, p, RECEIPT, q, FILE, SOURCE);
    assert item in p.body.files;
  }

  lemma NamedByOne(f: Frame)
    ensures Named([f]) == {MANAGED_PATH} + Paths(f.plan.body.files)
  {
    assert [f][..0] == [];
  }

  lemma LeftoverReceiptBlocks(s: Store, p: Plan, at: Path, q: Plan, qAt: Path, source: map<string, string>)
    requires CanApply(s, p, at, source) && Rollbackable(p, at) && qAt in Paths(p.body.files)
    requires CanApply(Committed(s, p, at), q, qAt, source) && Rollbackable(q, qAt)
    ensures !RollbackAccepts(RolledBack(Committed(Committed(s, p, at), q, qAt), BuildReceipt(q)), BuildReceipt(p))
  {
    var t := RolledBack(Committed(Committed(s, p, at), q, qAt), BuildReceipt(q));
    var item :| item in p.body.files && item.path == qAt;
    ForwardAt(s.files, p.body.files, item);
    assert item.after.None? && ValidItem(item);
    BackwardAt(Committed(Committed(s, p, at), q, qAt).files, q.body.files, qAt);
    assert Bytes(t.files, qAt).Some?;
    assert BuildReceipt(p).body.files == p.body.files;
  }

  /** A used receipt is refused as long as its plan is not pending, and no longer:
      apply a plan, roll it back, and apply it again with a second receipt; then the
      used receipt is accepted again. */
  lemma UsedReceiptReturns(s: Store, plan: Plan, at: Path, again: Path, source: map<string, string>) returns (t: Store)
    requires CanApply(s, plan, at, source) && TidyApply(plan, at, []) && TidyApply(plan, again, [])
    requires at != again && again !in s.files
    ensures Run(s, [Applying(plan, at), RollingBack(at), Applying(plan, again)], source) == Some(t)
    ensures CanRollback(t, at)
  {
    hide Committed, RolledBack, CanApply, CanRollback, TidyApply, BuildReceipt;
    var u := Committed(s, plan, at);
    var v := FreshRollback(s, plan, at, source);
    SameBytesAccept(s, v, plan, at, again, source);
    t := Committed(v, plan, again);
    var ops := [Applying(plan, at), RollingBack(at), Applying(plan, again)];
    RunOneMore(s, [], s, ops[0], source);
    RunOneMore(s, [ops[0]], u, ops[1], source);
    RunOneMore(s, [ops[0], ops[1]], v, ops[2], source);
    assert [] + [ops[0]] == [ops[0]] && [ops[0]] + [ops[1]] == [ops[0], ops[1]];
    assert [ops[0], ops[1]] + [ops[2]] == ops;
    AcceptedThere(v, plan, at, again, source);
  }

  lemma FreshRollback(s: Store, plan: Plan, at: Path, source: map<string, string>) returns (v: Store)
    requires CanApply(s, plan, at, source) && TidyApply(plan, at, [])
    ensures v.vendor == s.vendor && v.head == s.head && forall p :: p != at ==> Bytes(v.files, p) == Bytes(s.files, p)
    ensures HoldsReceipt(v, at, plan)
    ensures Step(Committed(s, plan, at), RollingBack(at), source) == Some(v)
  {
    var u := Committed(s, plan, at);
    v := RolledBack(u, BuildReceipt(plan));
    FreshRollbackIff(s, plan, at, source);
    FreshRollbackRestoresIff(s, plan, at, source);
    UndoIsExactIff(s, plan.body.files);
    BackwardAt(u.files, plan.body.files, at);
    hide Undone, Committed, CanApply;
    assert HoldsReceipt(u, at, plan) by { CommittedReceipt(s, plan, at); }
    forall p | p != at ensures Bytes(v.files, p) == Bytes(s.files, p) {
      assert FileAt(v.files, p) == FileAt(Undone(s, plan.body.files).files, p);
      assert Bytes(Undone(s, plan.body.files).files, p) == Bytes(s.files, p);
    }
  }

  lemma CommittedReceipt(s: Store, plan: Plan, at: Path)
    ensures HoldsReceipt(Committed(s, plan, at), at, plan)
  {
  }

  lemma AcceptedThere(v: Store, plan: Plan, at: Path, again: Path, source: map<string, string>)
    requires CanApply(v, plan, again, source) && TidyApply(plan, at, []) && TidyApply(plan, again, []) && at != again
    requires HoldsReceipt(v, at, plan)
    ensures CanRollback(Committed(v, plan, again), at)
  {
    FreshRollbackIff(v, plan, again, source);
    ReceiptKept(v, plan, at, again);
    CommittedReceipt(v, plan, again);
    hide Committed, BuildReceipt, RollbackAccepts;
  }

  lemma SameBytesAccept(s: Store, v: Store, plan: Plan, at: Path, again: Path, source: map<string, string>)
    requires CanApply(s, plan, at, source) && v.vendor == s.vendor && v.head == s.head && again !in s.files
    requires TidyApply(plan, at, []) && at != again
    requires forall p :: p != at ==> Bytes(v.files, p) == Bytes(s.files, p)
    ensures CanApply(v, plan, again, source)
  {
    assert Bytes(v.files, again) == None;
    forall item | item in plan.body.files ensures ShaOrNull(Bytes(v.files, item.path)) == item.beforeSha {
      assert item.path in Paths(plan.body.files);
    }
  }

  lemma ReceiptKept(v: Store, plan: Plan, at: Path, again: Path)
    requires TidyApply(plan, at, []) && at != again
    ensures FileAt(Committed(v, plan, again).files, at) == FileAt(v.files, at)
  {
    ForwardElsewhere(v.files, plan.body.files, at);
  }
}
