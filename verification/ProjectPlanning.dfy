/** Planning a transaction from the desired files, and verifying its outcome. */
module ProjectPlanning {
  import opened Wrappers
  import opened ProjectTypes
  import opened ProjectTransaction
  import opened ProjectHistory

  datatype PlanError = InvalidManifest | ManagedDrifted | AnotherProject | UnmanagedConflict(path: Path)

  /** The validated requirements and the digests derived from them. */
  datatype Request = Request(
    project: string,
    consumerMode: ConsumerMode,
    release: Release,
    requirementsSha: Digest,
    lockSha: Digest)

  /** The entries of a readable manifest; none when there is no manifest. */
  function Entries(s: Store): seq<ManagedEntry> {
    match Bytes(s.files, MANAGED_PATH)
    case Some(ManifestText(m)) => m.body.paths
    case _ => []
  }

  function ListedPaths(entries: seq<ManagedEntry>): set<Path> {
    set e | e in entries :: e.path
  }

  ghost predicate ManifestUsable(s: Store, project: string) {
    match Bytes(s.files, MANAGED_PATH)
    case None => true
    case Some(ManifestText(m)) =>
      && m.contentSha == OfManifest(m.body)
      && DistinctPaths(m.body.paths)
      && (forall e :: e in m.body.paths ==>
            Bytes(s.files, e.path).Some? && ShaOrNull(Bytes(s.files, e.path)) == Some(e.sha))
      && m.body.project == project
    case Some(_) => false
  }

  ghost predicate CanPlan(s: Store, desired: Tree, project: string) {
    && ManifestUsable(s, project)
    && forall p :: p in desired && p in s.files ==> p in ListedPaths(Entries(s))
  }

  function ItemFor(s: Store, desired: Tree, p: Path): FilePlan {
    var before := Bytes(s.files, p);
    if p in desired then
      FilePlan(p, Write, Some(desired[p].mode), ShaOrNull(before), before,
               Some(OfBytes(desired[p].content)), Some(desired[p].content))
    else
      FilePlan(p, Delete, None, ShaOrNull(before), before, None, None)
  }

  function PlannedPaths(s: Store, desired: Tree): set<Path> {
    desired.Keys + ListedPaths(Entries(s))
  }

  function PlannedItems(s: Store, desired: Tree, paths: seq<Path>): (items: seq<FilePlan>)
    ensures |items| == |paths|
    ensures forall i :: 0 <= i < |items| ==> items[i] == ItemFor(s, desired, paths[i])
  {
    seq(|paths|, i requires 0 <= i < |paths| => ItemFor(s, desired, paths[i]))
  }

  /** One item for each desired or listed path. */
  function ItemsOf(s: Store, desired: Tree): seq<FilePlan> {
    PlannedItems(s, desired, Listing(PlannedPaths(s, desired)))
  }

  function PlanFrom(s: Store, items: seq<FilePlan>, request: Request): Plan {
    var body := PlanBody(
      request.project, request.consumerMode, request.release, request.requirementsSha, s.head,
      ShaOrNull(Bytes(s.files, MANAGED_PATH)), Bytes(s.files, MANAGED_PATH), request.lockSha, items,
      if request.consumerMode == EmbeddedCore then Some(request.release.commit) else None);
    Plan(body, OfPlan(body))
  }

  function PlanOf(s: Store, desired: Tree, request: Request): Plan {
    PlanFrom(s, ItemsOf(s, desired), request)
  }

  /** The manifest's paths, once it is well-formed, current and this project's own. */
  method LoadManaged(target: Target, project: string) returns (r: Result<set<Path>, PlanError>)
    ensures r.Ok? <==> ManifestUsable(target.View(), project)
    ensures r.Ok? ==> r.value == ListedPaths(Entries(target.View()))
  {
    var previous: set<Path> := {};
    if MANAGED_PATH !in target.files {
      return Ok(previous);
    }
    var content := target.files[MANAGED_PATH].content;
    if !content.ManifestText? || content.manifest.contentSha != OfManifest(content.manifest.body) {
      return Err(InvalidManifest);
    }
    var entries := content.manifest.body.paths;
    for i := 0 to |entries|
      invariant forall p :: p in previous <==> exists k :: 0 <= k < i && entries[k].path == p
      invariant forall k, l :: 0 <= k < l < i ==> entries[k].path != entries[l].path
    {
      if entries[i].path in previous {
        return Err(InvalidManifest);
      }
      previous := previous + {entries[i].path};
    }
    for i := 0 to |entries|
      invariant forall k :: 0 <= k < i ==> ShaOrNull(Bytes(target.files, entries[k].path)) == Some(entries[k].sha)
    {
      if ShaOrNull(Bytes(target.files, entries[i].path)) != Some(entries[i].sha) {
        assert entries[i] in entries;
        return Err(ManagedDrifted);
      }
    }
    if content.manifest.body.project != project {
      return Err(AnotherProject);
    }
    return Ok(previous);
  }

  /** Compare the manifest with the tree and plan every desired or listed path. */
  method PlanProject(target: Target, desired: Tree, request: Request) returns (r: Result<Plan, PlanError>)
    ensures r.Ok? <==> CanPlan(target.View(), desired, request.project)
    ensures r.Ok? ==> r.value == PlanOf(target.View(), desired, request)
  {
    var loaded := LoadManaged(target, request.project);
    if loaded.Err? {
      return Err(loaded.error);
    }
    var view, paths := target.View(), Listing(desired.Keys + loaded.value);
    var items := PlanItems(view, desired, loaded.value, paths);
    if items.Err? {
      return Err(items.error);
    }
    assert forall p :: p in desired ==> p in paths;
    return Ok(PlanFrom(view, items.value, request));
  }

  /** One item for each listed path, unless an unmanaged file is in the way. */
  method PlanItems(view: Store, desired: Tree, previous: set<Path>, paths: seq<Path>)
    returns (r: Result<seq<FilePlan>, PlanError>)
    ensures r.Ok? <==> forall p :: p in paths && p in desired && p in view.files ==> p in previous
    ensures r.Ok? ==> r.value == PlannedItems(view, desired, paths)
  {
    var items: seq<FilePlan> := [];
    for i := 0 to |paths|
      invariant |items| == i && forall k :: 0 <= k < i ==> items[k] == ItemFor(view, desired, paths[k])
      invariant forall k :: 0 <= k < i && paths[k] in desired && paths[k] in view.files ==> paths[k] in previous
    {
      if paths[i] in desired && paths[i] in view.files && paths[i] !in previous {
        assert paths[i] in paths;
        return Err(UnmanagedConflict(paths[i]));
      }
      items := items + [ItemFor(view, desired, paths[i])];
    }
    assert items == PlannedItems(view, desired, paths);
    return Ok(items);
  }

  ghost predicate Verifies(s: Store) {
    match Bytes(s.files, MANAGED_PATH)
    case Some(ManifestText(m)) =>
      && m.contentSha == OfManifest(m.body)
      && (forall e :: e in m.body.paths ==>
            e.path in s.files && OfBytes(s.files[e.path].content) == e.sha && s.files[e.path].mode == e.mode)
      && (m.body.embedded.Some? ==> s.vendor == CleanClone(m.body.embedded.value))
    case _ => false
  }

  method VerifyProject(target: Target) returns (r: Result<Manifest, PlanError>)
    ensures r.Ok? <==> Verifies(target.View())
    ensures r.Ok? ==> Bytes(target.files, MANAGED_PATH) == Some(ManifestText(r.value))
  {
    if MANAGED_PATH !in target.files || !target.files[MANAGED_PATH].content.ManifestText? {
      return Err(InvalidManifest);
    }
    var m := target.files[MANAGED_PATH].content.manifest;
    if m.contentSha != OfManifest(m.body) {
      return Err(InvalidManifest);
    }
    var entries := m.body.paths;
    for i := 0 to |entries|
      invariant forall k :: 0 <= k < i ==>
        && entries[k].path in target.files && OfBytes(target.files[entries[k].path].content) == entries[k].sha
        && target.files[entries[k].path].mode == entries[k].mode
    {
      var e := entries[i];
      assert e in entries;
      if e.path !in target.files || OfBytes(target.files[e.path].content) != e.sha
         || target.files[e.path].mode != e.mode
      {
        return Err(ManagedDrifted);
      }
    }
    if m.body.embedded.Some? && target.vendor != CleanClone(m.body.embedded.value) {
      return Err(ManagedDrifted);
    }
    return Ok(m);
  }

  // ------------------------------------------------------------------- laws

  /** Neither the manifest nor the receipt is a desired file, and they are two files. */
  predicate Clear(desired: Tree, receiptAt: Path) {
    MANAGED_PATH !in desired && receiptAt !in desired && receiptAt != MANAGED_PATH
  }

  ghost predicate ExactItems(s: Store, desired: Tree, paths: set<Path>, items: seq<FilePlan>) {
    && (forall item :: item in items ==> item.path in paths && item == ItemFor(s, desired, item.path))
    && Paths(items) == paths
  }

  lemma PlannedItem(s: Store, desired: Tree, paths: set<Path>)
    ensures ExactItems(s, desired, paths, PlannedItems(s, desired, Listing(paths)))
  {
    var order := Listing(paths);
    var items := PlannedItems(s, desired, order);
    forall p | p in paths ensures p in Paths(items) {
      var i :| 0 <= i < |order| && order[i] == p;
      assert items[i] in items;
    }
  }

  /** The item of a planned path. */
  lemma PlannedItemFor(s: Store, desired: Tree, p: Path)
    requires p in PlannedPaths(s, desired)
    ensures ItemFor(s, desired, p) in ItemsOf(s, desired)
  {
    PlannedItem(s, desired, PlannedPaths(s, desired));
  }

  lemma PlannedAreValid(s: Store, desired: Tree, paths: seq<Path>)
    ensures var items := PlannedItems(s, desired, paths);
            && (forall item :: item in items ==>
                  ValidItem(item) && item.beforeSha == ShaOrNull(Bytes(s.files, item.path)))
            && ConsistentAfters(items)
  {
  }

  ghost predicate SameWherePlanned(s: Store, t: Store, desired: Tree) {
    && t.head == s.head && Bytes(t.files, MANAGED_PATH) == Bytes(s.files, MANAGED_PATH)
    && forall p :: p in PlannedPaths(s, desired) ==> Bytes(t.files, p) == Bytes(s.files, p)
  }

  lemma SameWherePlannedIff(s: Store, t: Store, desired: Tree)
    ensures (forall item :: item in ItemsOf(s, desired) ==> ShaOrNull(Bytes(t.files, item.path)) == item.beforeSha)
            <==> forall p :: p in PlannedPaths(s, desired) ==> Bytes(t.files, p) == Bytes(s.files, p)
  {
    ItemsAreExact(s, desired);
    hide ItemsOf, PlannedPaths;
    if forall item :: item in ItemsOf(s, desired) ==> ShaOrNull(Bytes(t.files, item.path)) == item.beforeSha {
      forall p | p in PlannedPaths(s, desired) ensures Bytes(t.files, p) == Bytes(s.files, p) {
        assert ItemFor(s, desired, p) in ItemsOf(s, desired);
        assert ItemFor(s, desired, p).path == p;
      }
    }
  }

  lemma ItemsAreExact(s: Store, desired: Tree)
    ensures ExactItems(s, desired, PlannedPaths(s, desired), ItemsOf(s, desired))
    ensures forall p :: p in PlannedPaths(s, desired) ==> ItemFor(s, desired, p) in ItemsOf(s, desired)
  {
    hide PlannedPaths;
    PlannedItem(s, desired, PlannedPaths(s, desired));
    forall p | p in PlannedPaths(s, desired) ensures ItemFor(s, desired, p) in ItemsOf(s, desired) {
      assert p in Paths(ItemsOf(s, desired));
    }
  }

  lemma PlannedCanBeUndoneIff(s: Store, desired: Tree, request: Request, receiptAt: Path)
    ensures var plan := PlanOf(s, desired, request);
            && ValidPlan(plan) && Paths(plan.body.files) == PlannedPaths(s, desired)
            && (Rollbackable(plan, receiptAt) <==>
                && MANAGED_PATH !in PlannedPaths(s, desired) && receiptAt !in PlannedPaths(s, desired)
                && receiptAt != MANAGED_PATH)
            && ShaOrNull(plan.body.previousManaged) == plan.body.previousManagedSha
  {
    PlannedAreValid(s, desired, Listing(PlannedPaths(s, desired)));
    ItemsAreExact(s, desired);
    hide PlannedItems, Listing, PlannedPaths, ConsistentAfters, ValidItem;
  }

  /** A usable manifest cannot list itself. */
  lemma ManifestNotListed(s: Store, project: string)
    requires ManifestUsable(s, project)
    ensures MANAGED_PATH !in ListedPaths(Entries(s))
  {
  }

  /** A plan generated on `s` is accepted on a tree `t` exactly when HEAD, the
      manifest and every planned path still have what they had, the release is the
      source's, and clone and receipt are free; every drift between planning and
      applying is noticed. It can be rolled back exactly when the manifest and the
      receipt are no planned paths, and the plan carries the manifest it replaces. */
  lemma PlannedIsAccepted(s: Store, desired: Tree, request: Request, receiptAt: Path,
                          source: map<string, string>, t: Store)
    ensures var plan := PlanOf(s, desired, request);
            && (CanApply(t, plan, receiptAt, source) <==>
                && SameWherePlanned(s, t, desired)
                && request.release.commit in source && source[request.release.commit] == request.release.tree
                && (request.consumerMode == EmbeddedCore ==> t.vendor == NoVendor)
                && receiptAt !in t.files)
            && (Rollbackable(plan, receiptAt) <==>
                && MANAGED_PATH !in PlannedPaths(s, desired) && receiptAt !in PlannedPaths(s, desired)
                && receiptAt != MANAGED_PATH)
            && ShaOrNull(plan.body.previousManaged) == plan.body.previousManagedSha
  {
    PlannedCanBeUndoneIff(s, desired, request, receiptAt);
    SameWherePlannedIff(s, t, desired);
    hide ItemsOf, PlannedPaths, Rollbackable, ValidPlan;
  }

  /** Once planning succeeded, only a desired manifest or a planned receipt path can
      make a generated plan impossible to roll back. */
  lemma GeneratedCanBeUndoneIff(s: Store, desired: Tree, request: Request, receiptAt: Path)
    requires CanPlan(s, desired, request.project)
    ensures Rollbackable(PlanOf(s, desired, request), receiptAt) <==>
            Clear(desired, receiptAt) && receiptAt !in ListedPaths(Entries(s))
  {
    PlannedCanBeUndoneIff(s, desired, request, receiptAt);
    ManifestNotListed(s, request.project);
    hide PlanOf, ListedPaths, Entries, Rollbackable;
  }

  lemma PlannedWasListed(s: Store, desired: Tree, project: string, p: Path, content: Content)
    requires CanPlan(s, desired, project) && p in PlannedPaths(s, desired) && Bytes(s.files, p) == Some(content)
    ensures exists e :: e in Entries(s) && e.path == p && e.sha == OfBytes(content)
  {
    var e :| e in Entries(s) && e.path == p;
  }

  /** Writing never changes an existing file that the manifest in force did not list
      with its current digest, however the tree changed since it was planned for. */
  lemma ApplyKeepsUnmanagedFiles(s: Store, desired: Tree, request: Request, receiptAt: Path, t: Store, p: Path,
                                 source: map<string, string>)
    requires CanPlan(s, desired, request.project) && CanApply(t, PlanOf(s, desired, request), receiptAt, source)
    requires p in t.files && p != MANAGED_PATH
    ensures FileAt(Committed(t, PlanOf(s, desired, request), receiptAt).files, p) == Some(t.files[p])
            || exists e :: e in Entries(t) && e.path == p && e.sha == OfBytes(t.files[p].content)
  {
    ItemsAreExact(s, desired);
    SameWherePlannedIff(s, t, desired);
    hide ItemsOf, PlannedPaths, ValidPlan, BuildManaged, BuildReceipt;
    if p !in PlannedPaths(s, desired) {
      ForwardElsewhere(t.files, ItemsOf(s, desired), p);
    } else {
      PlannedWasListed(s, desired, request.project, p, t.files[p].content);
      assert Bytes(t.files, MANAGED_PATH) == Bytes(s.files, MANAGED_PATH);
    }
  }

  function EntryOf(item: FilePlan): ManagedEntry
    requires ValidItem(item) && item.action == Write
  {
    ManagedEntry(item.path, item.afterSha.value, item.mode.value)
  }

  ghost predicate WrittenAs(items: seq<FilePlan>, e: ManagedEntry) {
    exists item :: item in items && ValidItem(item) && item.action == Write && e == EntryOf(item)
  }

  /** The manifest lists exactly the written items. */
  lemma {:induction false} EntriesAreWrites(items: seq<FilePlan>)
    requires forall item :: item in items ==> ValidItem(item)
    ensures forall item :: item in items && item.action == Write ==> EntryOf(item) in ManagedEntries(items)
    ensures forall e :: e in ManagedEntries(items) ==> WrittenAs(items, e)
  {
    if items != [] {
      var head, rest := items[0], items[1..];
      assert items == [head] + rest && ValidItem(head);
      EntriesAreWrites(rest);
      forall e | e in ManagedEntries(rest) ensures WrittenAs(items, e) {
        assert WrittenAs(rest, e);
      }
      if head.action == Write {
        assert ManagedEntries(items) == [EntryOf(head)] + ManagedEntries(rest);
        assert WrittenAs(items, EntryOf(head));
      }
    }
  }

  ghost predicate DistinctPaths(entries: seq<ManagedEntry>) {
    forall i, j :: 0 <= i < j < |entries| ==> entries[i].path != entries[j].path
  }

  /** ... each path once. */
  lemma {:induction false} EntriesDistinct(items: seq<FilePlan>)
    requires forall item :: item in items ==> ValidItem(item)
    requires forall i, j :: 0 <= i < j < |items| ==> items[i].path != items[j].path
    ensures DistinctPaths(ManagedEntries(items))
  {
    if items != [] {
      var head, rest := items[0], items[1..];
      assert items == [head] + rest;
      EntriesDistinct(rest);
      EntriesAreWrites(rest);
      forall e | e in ManagedEntries(rest) ensures e.path != head.path {
        assert WrittenAs(rest, e);
        var item :| item in rest && ValidItem(item) && item.action == Write && e == EntryOf(item);
        var k :| 0 <= k < |rest| && rest[k] == item;
        assert items[0].path != items[k + 1].path;
      }
    }
  }

  lemma PlannedEntriesDistinct(s: Store, desired: Tree, paths: seq<Path>)
    requires forall i, j :: 0 <= i < j < |paths| ==> paths[i] != paths[j]
    ensures DistinctPaths(ManagedEntries(PlannedItems(s, desired, paths)))
  {
    var items := PlannedItems(s, desired, paths);
    forall item | item in items ensures ValidItem(item) {
      var i :| 0 <= i < |items| && items[i] == item;
      assert item == ItemFor(s, desired, paths[i]);
    }
    EntriesDistinct(items);
  }

  /** The desired files, the manifest that lists them, and nothing else managed. */
  lemma AppliedTree(s: Store, desired: Tree, request: Request, receiptAt: Path, t: Store, p: Path)
    requires p in PlannedPaths(s, desired) && p != MANAGED_PATH && p != receiptAt
    ensures FileAt(Committed(t, PlanOf(s, desired, request), receiptAt).files, p) == FileAt(desired, p)
  {
    ForwardPlanned(s, desired, t.files, p);
  }

  lemma ForwardPlanned(s: Store, desired: Tree, files: Tree, p: Path)
    requires p in PlannedPaths(s, desired)
    ensures FileAt(Forward(files, ItemsOf(s, desired)), p) == FileAt(desired, p)
  {
    PlannedItem(s, desired, PlannedPaths(s, desired));
    PlannedItemFor(s, desired, p);
    ForwardFileAt(files, ItemsOf(s, desired), ItemFor(s, desired, p));
  }

  function EntryFor(desired: Tree, p: Path): ManagedEntry
    requires p in desired
  {
    ManagedEntry(p, OfBytes(desired[p].content), desired[p].mode)
  }

  lemma WrittenIsDesired(s: Store, desired: Tree, item: FilePlan)
    requires item == ItemFor(s, desired, item.path) && ValidItem(item) && item.action == Write
    ensures item.path in desired && EntryOf(item) == EntryFor(desired, item.path)
  {
  }

  lemma DesiredIsWritten(s: Store, desired: Tree, p: Path)
    requires p in desired
    ensures var item := ItemFor(s, desired, p);
            ValidItem(item) && item.action == Write && EntryOf(item) == EntryFor(desired, p)
  {
  }

  /** The manifest of a generated plan lists exactly the desired files. */
  lemma PlannedEntries(s: Store, desired: Tree)
    ensures var es := ManagedEntries(ItemsOf(s, desired));
            && (forall e :: e in es ==> e.path in desired && e == EntryFor(desired, e.path))
            && (forall p :: p in desired ==> EntryFor(desired, p) in es)
  {
    var items := ItemsOf(s, desired);
    PlannedAreValid(s, desired, Listing(PlannedPaths(s, desired)));
    ItemsAreExact(s, desired);
    EntriesAreWrites(items);
    hide ItemsOf, PlannedItems, ManagedEntries, ItemFor, ValidItem, EntryFor, Listing;
    forall e | e in ManagedEntries(items) ensures e.path in desired && e == EntryFor(desired, e.path) {
      var item :| item in items && ValidItem(item) && item.action == Write && e == EntryOf(item);
      WrittenIsDesired(s, desired, item);
    }
    forall p | p in desired ensures EntryFor(desired, p) in ManagedEntries(items) {
      DesiredIsWritten(s, desired, p);
      assert ItemFor(s, desired, p) in items;
    }
  }

  lemma ItemsDistinct(s: Store, desired: Tree)
    ensures DistinctPaths(ManagedEntries(ItemsOf(s, desired)))
  {
    ListingDistinct(PlannedPaths(s, desired));
    PlannedEntriesDistinct(s, desired, Listing(PlannedPaths(s, desired)));
  }

  lemma AppliedManifest(s: Store, desired: Tree, request: Request, receiptAt: Path, t: Store)
    requires receiptAt != MANAGED_PATH
    ensures var u := Committed(t, PlanOf(s, desired, request), receiptAt);
            && Bytes(u.files, MANAGED_PATH) == Some(ManifestText(BuildManaged(PlanOf(s, desired, request))))
            && (forall e :: e in Entries(u) ==> e.path in desired && e == EntryFor(desired, e.path))
            && (forall p :: p in desired ==> EntryFor(desired, p) in Entries(u))
            && DistinctPaths(Entries(u))
  {
    hide ItemsOf, Forward, EntryFor, ManagedEntries, DistinctPaths;
    PlannedEntries(s, desired);
    ItemsDistinct(s, desired);
  }

  lemma {:induction false} ForwardFileAt(files: Tree, items: seq<FilePlan>, item: FilePlan)
    requires item in items && ValidItem(item)
    requires forall i :: i in items && i.path == item.path ==> i == item
    ensures FileAt(Forward(files, items), item.path) ==
            if item.action == Write then Some(File(item.after.value, item.mode.value)) else None
  {
    var init, last := items[..|items| - 1], items[|items| - 1];
    assert items == init + [last];
    if last.path != item.path {
      assert item in init;
      ForwardFileAt(files, init, item);
    }
  }

  lemma VerifiesListed(t: Store, desired: Tree, m: Manifest)
    requires Bytes(t.files, MANAGED_PATH) == Some(ManifestText(m)) && m.contentSha == OfManifest(m.body)
    requires forall e :: e in m.body.paths ==> e.path in desired && e == EntryFor(desired, e.path)
    requires forall p :: p in desired ==> EntryFor(desired, p) in m.body.paths
    ensures Verifies(t) <==>
            && (forall p :: p in desired ==> FileAt(t.files, p) == Some(desired[p]))
            && (m.body.embedded.Some? ==> t.vendor == CleanClone(m.body.embedded.value))
  {
    if Verifies(t) {
      forall p | p in desired ensures FileAt(t.files, p) == Some(desired[p]) {
        assert EntryFor(desired, p) in m.body.paths;
      }
    }
  }

  /** As long as the manifest of a generated plan stays, the project verifies exactly
      when every desired file has its bytes and mode and the clone is clean at its commit. */
  lemma VerifiesIff(s: Store, desired: Tree, request: Request, later: Store)
    requires Bytes(later.files, MANAGED_PATH) == Some(ManifestText(BuildManaged(PlanOf(s, desired, request))))
    ensures Verifies(later) <==>
            && (forall p :: p in desired ==> FileAt(later.files, p) == Some(desired[p]))
            && (request.consumerMode == EmbeddedCore ==> later.vendor == CleanClone(request.release.commit))
  {
    hide Verifies, ItemsOf, ManagedEntries;
    PlannedEntries(s, desired);
    VerifiesListed(later, desired, BuildManaged(PlanOf(s, desired, request)));
  }

  /** A desired file is no manifest or receipt made from its own plan. */
  lemma DesiredIsOther(s: Store, desired: Tree, request: Request, p: Path)
    requires p in desired
    ensures desired[p].content != ManifestText(BuildManaged(PlanOf(s, desired, request)))
    ensures desired[p].content != ReceiptText(BuildReceipt(PlanOf(s, desired, request)))
  {
    var plan := PlanOf(s, desired, request);
    PlannedCanBeUndoneIff(s, desired, request, p);
    ItemsAreExact(s, desired);
    hide ItemsOf, PlannedItems, BuildManaged, BuildReceipt, ValidPlan, Rollbackable;
    var item := ItemFor(s, desired, p);
    assert item in plan.body.files && item.after == Some(desired[p].content);
    var i :| 0 <= i < |plan.body.files| && plan.body.files[i] == item;
    NoSelfReference(plan, i);
  }

  /** After the apply every desired file has its bytes exactly when neither the
      manifest nor the receipt was written over one of them. */
  lemma DesiredStandsIff(s: Store, desired: Tree, request: Request, receiptAt: Path, t: Store)
    requires receiptAt != MANAGED_PATH
    ensures var u := Committed(t, PlanOf(s, desired, request), receiptAt);
            && (Clear(desired, receiptAt) ==> forall p :: p in desired ==> FileAt(u.files, p) == Some(desired[p]))
            && ((forall p :: p in desired ==> Bytes(u.files, p) == Some(desired[p].content)) ==>
                  Clear(desired, receiptAt))
  {
    hide ItemsOf, Forward, BuildManaged, BuildReceipt;
    var u := Committed(t, PlanOf(s, desired, request), receiptAt);
    if Clear(desired, receiptAt) {
      forall p | p in desired ensures FileAt(u.files, p) == Some(desired[p]) {
        AppliedTree(s, desired, request, receiptAt, t, p);
      }
    }
    if receiptAt in desired {
      DesiredIsOther(s, desired, request, receiptAt);
    }
    if MANAGED_PATH in desired {
      DesiredIsOther(s, desired, request, MANAGED_PATH);
    }
  }

  /** After an apply of a generated plan, on whatever tree it was accepted, the project
      verifies exactly when neither the manifest nor the receipt was written over a
      desired file; nothing keeps a receipt path given by the caller off them. */
  lemma AppliedVerifiesIff(s: Store, desired: Tree, request: Request, receiptAt: Path, t: Store)
    ensures Verifies(Committed(t, PlanOf(s, desired, request), receiptAt)) <==> Clear(desired, receiptAt)
  {
    hide ItemsOf, Forward, BuildManaged, BuildReceipt;
    var u := Committed(t, PlanOf(s, desired, request), receiptAt);
    if receiptAt != MANAGED_PATH {
      DesiredStandsIff(s, desired, request, receiptAt, t);
      VerifiesIff(s, desired, request, u);
      hide Verifies;
    }
  }

  lemma UsableListedIff(t: Store, desired: Tree, m: Manifest, project: string)
    requires Bytes(t.files, MANAGED_PATH) == Some(ManifestText(m)) && m.contentSha == OfManifest(m.body)
    requires DistinctPaths(m.body.paths)
    requires forall e :: e in m.body.paths ==> e.path in desired && e == EntryFor(desired, e.path)
    requires forall p :: p in desired ==> EntryFor(desired, p) in m.body.paths
    ensures ManifestUsable(t, project) <==>
            project == m.body.project && forall p :: p in desired ==> Bytes(t.files, p) == Some(desired[p].content)
  {
    hide DistinctPaths;
    if ManifestUsable(t, project) {
      forall p | p in desired ensures Bytes(t.files, p) == Some(desired[p].content) {
        assert EntryFor(desired, p) in m.body.paths;
      }
    }
  }

  /** As long as the manifest of a generated plan stays, it can be planned from exactly
      for its own project and while every desired file has its bytes. */
  lemma UsableIff(s: Store, desired: Tree, request: Request, later: Store, project: string)
    requires Bytes(later.files, MANAGED_PATH) == Some(ManifestText(BuildManaged(PlanOf(s, desired, request))))
    ensures ManifestUsable(later, project) <==>
            && project == request.project
            && forall p :: p in desired ==> Bytes(later.files, p) == Some(desired[p].content)
  {
    hide ManifestUsable, ItemsOf, ManagedEntries;
    PlannedEntries(s, desired);
    ItemsDistinct(s, desired);
    UsableListedIff(later, desired, BuildManaged(PlanOf(s, desired, request)), project);
  }

  /** After the apply the manifest lists exactly the desired files; it is usable, and
      they have their bytes and modes, exactly when no other write lies over one of
      them, and for no other project. */
  lemma AppliedIsManagedIff(s: Store, desired: Tree, request: Request, receiptAt: Path, t: Store, project: string)
    ensures var u := Committed(t, PlanOf(s, desired, request), receiptAt);
            && (ManifestUsable(u, project) <==> Clear(desired, receiptAt) && project == request.project)
            && (receiptAt != MANAGED_PATH ==> ListedPaths(Entries(u)) == desired.Keys)
            && (Clear(desired, receiptAt) ==> forall p :: p in desired ==> FileAt(u.files, p) == Some(desired[p]))
  {
    hide Committed, ManagedEntries, ManifestUsable, DistinctPaths, ListedPaths, ItemsOf, BuildManaged, Entries;
    hide EntryFor;
    var u := Committed(t, PlanOf(s, desired, request), receiptAt);
    if receiptAt == MANAGED_PATH {
      ReceiptOverManifest(s, desired, request, t, project);
    } else {
      AppliedManifest(s, desired, request, receiptAt, t);
      ListedExactly(Entries(u), desired);
      DesiredStandsIff(s, desired, request, receiptAt, t);
      UsableIff(s, desired, request, u, project);
    }
  }

  lemma ReceiptOverManifest(s: Store, desired: Tree, request: Request, t: Store, project: string)
    ensures !ManifestUsable(Committed(t, PlanOf(s, desired, request), MANAGED_PATH), project)
  {
    hide ItemsOf, Forward, BuildManaged, BuildReceipt;
  }

  lemma ListedExactly(entries: seq<ManagedEntry>, desired: Tree)
    requires forall e :: e in entries ==> e.path in desired
    requires forall p :: p in desired ==> EntryFor(desired, p) in entries
    ensures ListedPaths(entries) == desired.Keys
  {
    forall p | p in desired ensures p in ListedPaths(entries) {
      assert EntryFor(desired, p).path == p;
    }
  }

  /** The digest of a generated plan binds the whole request, and the manifest that its
      apply leaves names the request's project, mode and release. */
  lemma RequestIsBound(s: Store, desired: Tree, request: Request, other: Request, receiptAt: Path, t: Store)
    ensures PlanOf(s, desired, request).contentSha == PlanOf(s, desired, other).contentSha <==> request == other
    ensures receiptAt != MANAGED_PATH ==>
              match Bytes(Committed(t, PlanOf(s, desired, request), receiptAt).files, MANAGED_PATH)
              case Some(ManifestText(m)) =>
                && m.body.project == request.project && m.body.consumerMode == request.consumerMode
                && m.body.source == request.release
              case _ => false
  {
    hide ItemsOf, Forward, ManagedEntries, BuildReceipt;
  }

  lemma ListedSnoc(entries: seq<ManagedEntry>, last: ManagedEntry)
    ensures ListedPaths(entries + [last]) == ListedPaths(entries) + {last.path}
  {
  }

  lemma {:induction false} ListedCount(entries: seq<ManagedEntry>)
    requires DistinctPaths(entries)
    ensures |ListedPaths(entries)| == |entries|
    decreases |entries|
  {
    if entries != [] {
      var init, last := entries[..|entries| - 1], entries[|entries| - 1];
      assert entries == init + [last];
      ListedCount(init);
      ListedSnoc(init, last);
      assert last.path !in ListedPaths(init);
      hide ListedPaths, DistinctPaths;
    }
  }

  /** A usable manifest names each path once. */
  lemma UsableListsOnce(s: Store, project: string)
    requires ManifestUsable(s, project)
    ensures |ListedPaths(Entries(s))| == |Entries(s)|
  {
    ListedCount(Entries(s));
  }

  /** Documents that are accepted anywhere are told apart by their digests: no two
      plans, receipts or manifests share one. */
  lemma DigestsIdentify(s: Store, t: Store, p: Plan, q: Plan, f: Receipt, g: Receipt, m: Manifest, n: Manifest)
    requires Bytes(s.files, MANAGED_PATH) == Some(ManifestText(m))
    requires Bytes(t.files, MANAGED_PATH) == Some(ManifestText(n))
    ensures ValidPlan(p) && ValidPlan(q) && p.contentSha == q.contentSha ==> p == q
    ensures RollbackAccepts(s, f) && RollbackAccepts(t, g) && f.contentSha == g.contentSha ==> f == g
    ensures Verifies(s) && Verifies(t) && m.contentSha == n.contentSha ==> m == n
    ensures ManifestUsable(s, m.body.project) && ManifestUsable(t, n.body.project) && m.contentSha == n.contentSha ==>
              m == n
  {
  }

  /** Planning the same files again, on any tree where a plan for them was applied,
      is possible exactly when no other write lies over one of them, for no other
      project, and then writes every file with the bytes it has. */
  lemma ReplanIsIdentityIff(s: Store, desired: Tree, request: Request, receiptAt: Path, t: Store, again: Request)
    ensures var u := Committed(t, PlanOf(s, desired, request), receiptAt);
            && (CanPlan(u, desired, again.project) <==> Clear(desired, receiptAt) && again.project == request.project)
            && (Clear(desired, receiptAt) ==>
                  && Paths(PlanOf(u, desired, again).body.files) == desired.Keys
                  && forall item :: item in PlanOf(u, desired, again).body.files ==> Unchanged(u, item))
  {
    hide Committed, ManifestUsable, ListedPaths, Entries, PlanOf, Unchanged;
    var u := Committed(t, PlanOf(s, desired, request), receiptAt);
    AppliedIsManagedIff(s, desired, request, receiptAt, t, again.project);
    if Clear(desired, receiptAt) {
      ReplanManaged(u, desired, again);
    }
  }

  lemma ReplanManaged(u: Store, desired: Tree, request: Request)
    requires ListedPaths(Entries(u)) == desired.Keys
    requires forall p :: p in desired ==> FileAt(u.files, p) == Some(desired[p])
    ensures CanPlan(u, desired, request.project) <==> ManifestUsable(u, request.project)
    ensures Paths(PlanOf(u, desired, request).body.files) == desired.Keys
    ensures forall item :: item in PlanOf(u, desired, request).body.files ==> Unchanged(u, item)
  {
    hide ManifestUsable, Entries, Unchanged;
    assert PlannedPaths(u, desired) == desired.Keys;
    UnchangedItems(u, desired, Listing(desired.Keys));
    assert Paths(PlannedItems(u, desired, Listing(desired.Keys))) == desired.Keys by {
      PlannedItem(u, desired, desired.Keys);
    }
  }

  lemma UnchangedItems(t: Store, desired: Tree, paths: seq<Path>)
    requires forall p :: p in paths ==> p in desired && FileAt(t.files, p) == Some(desired[p])
    ensures forall item :: item in PlannedItems(t, desired, paths) ==> Unchanged(t, item)
  {
    forall item | item in PlannedItems(t, desired, paths) ensures Unchanged(t, item) {
      var i :| 0 <= i < |paths| && PlannedItems(t, desired, paths)[i] == item;
      assert paths[i] in paths;
    }
  }

  /** Applying `item` would leave its file exactly as it is. */
  ghost predicate Unchanged(t: Store, item: FilePlan) {
    && item.path in t.files && item.action == Write
    && item.before == item.after && item.mode == Some(t.files[item.path].mode)
  }
}
