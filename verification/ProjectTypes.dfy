/** The plan, manifest and receipt documents of a project transaction, and the
    target tree they describe.

    SHA-256 is symbolic: a digest is a constructor applied to the hashed value,
    so two values with equal digests are equal and no value contains its own
    digest. A digest read from a file that hashes nothing known is `Foreign`. */
module ProjectTypes {
  import opened Wrappers
  import opened Ordering

  /** A path that `normalizeManagedPath` has accepted, relative to the target:
      the manifest's own, `.arena/managed.json`, or any other. */
  datatype Path = MANAGED_PATH | TreePath(name: Name)
  type Mode = nat

  datatype ConsumerMode = RemoteConsumer | EmbeddedCore

  /** Octal 644. */
  const PLAIN_MODE: Mode := 420

  /** The bytes of a regular file: a serialised manifest or receipt, or anything else. */
  datatype Content =
    | Text(text: string)
    | ManifestText(manifest: Manifest)
    | ReceiptText(receipt: Receipt)

  datatype Digest =
    | Foreign(hex: string)
    | OfBytes(content: Content)
    | OfPlan(plan: PlanBody)
    | OfManifest(manifest: ManifestBody)
    | OfReceipt(receipt: ReceiptBody)

  datatype Action = Write | Delete | OtherAction

  datatype FilePlan = FilePlan(
    path: Path,
    action: Action,
    mode: Option<Mode>,
    beforeSha: Option<Digest>,
    before: Option<Content>,
    afterSha: Option<Digest>,
    after: Option<Content>)

  datatype Release = Release(repository: string, commit: string, tree: string)

  datatype PlanBody = PlanBody(
    project: string,
    consumerMode: ConsumerMode,
    release: Release,
    requirementsSha: Digest,
    targetHead: Option<string>,
    previousManagedSha: Option<Digest>,
    previousManaged: Option<Content>,
    lockSha: Digest,
    files: seq<FilePlan>,
    embedded: Option<string>)

  datatype Plan = Plan(body: PlanBody, contentSha: Digest)

  datatype ManagedEntry = ManagedEntry(path: Path, sha: Digest, mode: Mode)

  datatype ManifestBody = ManifestBody(
    project: string,
    consumerMode: ConsumerMode,
    planSha: Digest,
    source: Release,
    paths: seq<ManagedEntry>,
    embedded: Option<string>)

  datatype Manifest = Manifest(body: ManifestBody, contentSha: Digest)

  datatype ReceiptBody = ReceiptBody(
    project: string,
    consumerMode: ConsumerMode,
    planSha: Digest,
    files: seq<FilePlan>,
    managedBeforeSha: Option<Digest>,
    managedBefore: Option<Content>,
    managedAfterSha: Digest,
    managedAfter: Content,
    embeddedCreated: Option<string>)

  datatype Receipt = Receipt(body: ReceiptBody, contentSha: Digest)

  datatype File = File(content: Content, mode: Mode)
  type Tree = map<Path, File>

  /** The directory of the embedded clone. `Unusable` is one that is not a clean clone. */
  datatype Vendor = NoVendor | CleanClone(commit: string) | Unusable

  datatype Store = Store(files: Tree, vendor: Vendor, head: Option<string>)

  function FileAt(files: Tree, p: Path): Option<File> {
    if p in files then Some(files[p]) else None
  }

  function Bytes(files: Tree, p: Path): Option<Content> {
    if p in files then Some(files[p].content) else None
  }

  function ShaOrNull(content: Option<Content>): Option<Digest> {
    if content.Some? then Some(OfBytes(content.value)) else None
  }

  function Paths(items: seq<FilePlan>): set<Path> {
    set item | item in items :: item.path
  }

  function Names(paths: set<Path>): set<Name> {
    set p | p in paths && p.TreePath? :: p.name
  }

  function TreePaths(names: seq<Name>): (r: seq<Path>)
    ensures |r| == |names| && forall i :: 0 <= i < |r| ==> r[i] == TreePath(names[i])
  {
    seq(|names|, i requires 0 <= i < |names| => TreePath(names[i]))
  }

  lemma TreePathsMembers(names: seq<Name>, p: Path)
    ensures p in TreePaths(names) <==> p.TreePath? && p.name in names
  {
    if p.TreePath? && p.name in names {
      var i :| 0 <= i < |names| && names[i] == p.name;
      assert TreePaths(names)[i] == p;
    }
  }

  /** The paths of a set, each once, in a fixed order. */
  function Listing(paths: set<Path>): (r: seq<Path>)
    ensures forall p :: p in r <==> p in paths
  {
    var names := Sorted(Names(paths));
    assert forall p :: p in TreePaths(names) <==> p.TreePath? && p in paths by {
      forall p ensures p in TreePaths(names) <==> p.TreePath? && p in paths {
        TreePathsMembers(names, p);
        assert p.TreePath? ==> (p.name in Names(paths) <==> p in paths);
      }
    }
    (if MANAGED_PATH in paths then [MANAGED_PATH] else []) + TreePaths(names)
  }

  lemma ListingDistinct(paths: set<Path>)
    ensures forall i, j :: 0 <= i < j < |Listing(paths)| ==> Listing(paths)[i] != Listing(paths)[j]
  {
    SortedIncreases(Names(paths));
  }
}
