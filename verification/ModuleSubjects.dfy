/** Local proof subjects of modules, and exactly which module proofs an edit of
    one Git index entry invalidates. */
module ModuleSubjects {
  import opened Wrappers
  import opened Ordering
  import opened ModulePaths
  import opened ModuleOwnership
  import opened ModuleCatalog
  import opened ModuleClosure

  /** A staged index entry, listed under its own path. */
  datatype Entry = Entry(path: Name, mode: string, blob: string)
  type Index = map<Name, Entry>

  const RELEASE_PROJECTION_PREFIXES := [
    ".arena/compositions", ".arena/contexts.lock.json", ".arena/locks", ".arena/presets"]

  predicate ReleaseProjection(path: Name) {
    exists i :: 0 <= i < |RELEASE_PROJECTION_PREFIXES| && PathMatches(path.text, RELEASE_PROJECTION_PREFIXES[i])
  }

  /** The module whose manifest `path` is, among the selected ones. */
  function ManifestOwner(path: Name, selected: set<Name>): Option<Name> {
    var parts := Split(path.text);
    if |parts| == 4 && parts[0] == ".arena" && parts[1] == "modules" && parts[3] == "module.json"
       && Name(parts[2]) in selected
    then Some(Name(parts[2])) else None
  }

  /** Whose file list one assignment joins, if any. */
  function ProjectsTo(a: Assignment, selected: set<Name>): Option<Name> {
    var path := Name(a.path);
    if ManifestOwner(path, selected).Some? then ManifestOwner(path, selected)
    else if ReleaseProjection(path) then None
    else if a.owner.ModuleOwner? && a.owner.id in selected then Some(a.owner.id)
    else None
  }

  function ProjectedPaths(assignments: seq<Assignment>, selected: set<Name>, id: Name): set<Name> {
    set a | a in assignments && ProjectsTo(a, selected) == Some(id) :: Name(a.path)
  }

  /** `projected_module_paths`: the sorted file list of each selected module. */
  method ProjectedModulePaths(assignments: seq<Assignment>, selected: set<Name>) returns (r: map<Name, seq<Name>>)
    ensures r.Keys == selected
    ensures forall id :: id in selected ==> r[id] == Sorted(ProjectedPaths(assignments, selected, id))
  {
    var result: map<Name, set<Name>> := map id | id in selected :: {};
    for i := 0 to |assignments|
      invariant result.Keys == selected
      invariant forall id :: id in selected ==> result[id] == ProjectedPaths(assignments[..i], selected, id)
    {
      var a := assignments[i];
      assert assignments[..i + 1] == assignments[..i] + [a];
      var path := Name(a.path);
      var implicit := ManifestOwner(path, selected);
      if implicit.Some? {
        result := result[implicit.value := result[implicit.value] + {path}];
      } else if !ReleaseProjection(path) && a.owner.ModuleOwner? && a.owner.id in selected {
        result := result[a.owner.id := result[a.owner.id] + {path}];
      }
    }
    assert assignments[..|assignments|] == assignments;
    return map id | id in selected :: Sorted(result[id]);
  }

  // --------------------------------------------------------- local subjects

  /** Symbolic digests of the lists of entries and of the shared skill bindings. */
  datatype InputSha = OfEntries(entries: seq<Entry>) | Bound(sha: string)

  datatype SkillInput = SkillInput(name: Name, scope: string, sha: Option<InputSha>)

  datatype LocalSubject = LocalSubject(
    id: Name,
    interfaceVersion: string,
    ownedFiles: nat,
    files: InputSha,
    manifest: Module,
    skills: seq<SkillInput>,
    runtime: Option<InputSha>)

  function Pick(entries: Index, paths: seq<Name>): (r: seq<Entry>)
    requires forall p :: p in paths ==> p in entries
    ensures |r| == |paths|
    ensures forall i :: 0 <= i < |r| ==> r[i] == entries[paths[i]]
  {
    seq(|paths|, i requires 0 <= i < |paths| => entries[paths[i]])
  }

  function SkillPrefixes(name: Name): seq<string> {
    [".agents/skills/" + name.text, ".claude/skills/" + name.text] +
    (if name.text == "openwiki-port" then ["kb-ingest/skill"] else [])
  }

  predicate UnderAny(path: Name, prefixes: seq<string>) {
    exists i :: 0 <= i < |prefixes| && PathMatches(path.text, prefixes[i])
  }

  function Under(paths: set<Name>, prefixes: seq<string>): set<Name> {
    set p | p in paths && UnderAny(p, prefixes)
  }

  /** The digest of the entries at some paths; absent when there are none. */
  function EntriesSha(entries: Index, paths: set<Name>): Option<InputSha>
    requires paths <= entries.Keys
  {
    if paths == {} then None else Some(OfEntries(Pick(entries, Sorted(paths))))
  }

  /** The shared skills a module names, with their digests; an optional one is listed
      only if it has one, and an empty digest counts as none. */
  function SharedSkills(names: seq<Name>, scope: string, shared: map<Name, string>, optional: bool): seq<SkillInput> {
    if names == [] then []
    else
      var rest := SharedSkills(names[1..], scope, shared, optional);
      if optional && (names[0] !in shared || shared[names[0]] == "") then rest
      else [SkillInput(names[0], scope, if names[0] in shared then Some(Bound(shared[names[0]])) else None)] + rest
  }

  function RepoSkills(names: seq<Name>, entries: Index): (r: seq<SkillInput>)
    ensures |r| == |names|
    ensures forall i :: 0 <= i < |r| ==>
              r[i] == SkillInput(names[i], "repo-owned",
                                 EntriesSha(entries, Under(entries.Keys, SkillPrefixes(names[i]))))
  {
    seq(|names|, i requires 0 <= i < |names| =>
          SkillInput(names[i], "repo-owned", EntriesSha(entries, Under(entries.Keys, SkillPrefixes(names[i])))))
  }

  function SkillInputs(m: Module, shared: map<Name, string>, entries: Index): seq<SkillInput> {
    SharedSkills(Sorted(m.skills.required), "shared", shared, false)
    + SharedSkills(Sorted(m.skills.optional), "shared-optional", shared, true)
    + RepoSkills(Sorted(m.skills.repoOwned), entries)
  }

  const RUNTIME_PREFIXES := [".runtime-env"]

  function RuntimeInput(m: Module, entries: Index): Option<InputSha> {
    if m.profiles == {} then None else EntriesSha(entries, Under(entries.Keys, RUNTIME_PREFIXES))
  }

  function Local(id: Name, m: Module, shared: map<Name, string>, entries: Index, paths: set<Name>): LocalSubject
    requires paths <= entries.Keys
  {
    LocalSubject(id, m.interfaceVersion, |Sorted(paths)|, OfEntries(Pick(entries, Sorted(paths))), m,
                 SkillInputs(m, shared, entries), RuntimeInput(m, entries))
  }

  /** The index paths whose entries a module's local subject digests. */
  function InputPaths(m: Module, tracked: set<Name>, paths: set<Name>): set<Name> {
    paths
    + (set s, p | s in m.skills.repoOwned && p in Under(tracked, SkillPrefixes(s)) :: p)
    + (if m.profiles == {} then {} else Under(tracked, RUNTIME_PREFIXES))
  }

  // ----------------------------------------------------- changing one entry

  /** Two indexes over the same paths that differ at `q` and nowhere else. */
  ghost predicate DifferAt(e: Index, f: Index, q: Name) {
    && e.Keys == f.Keys && q in e && e[q] != f[q]
    && forall p :: p in e && p != q ==> e[p] == f[p]
  }

  lemma PickChanges(e: Index, f: Index, q: Name, paths: set<Name>)
    requires DifferAt(e, f, q) && paths <= e.Keys
    ensures Pick(e, Sorted(paths)) == Pick(f, Sorted(paths)) <==> q !in paths
  {
    var order := Sorted(paths);
    if q in paths {
      var i :| 0 <= i < |order| && order[i] == q;
      assert Pick(e, order)[i] != Pick(f, order)[i];
    }
  }

  lemma ShaChanges(e: Index, f: Index, q: Name, paths: set<Name>)
    requires DifferAt(e, f, q) && paths <= e.Keys
    ensures EntriesSha(e, paths) == EntriesSha(f, paths) <==> q !in paths
  {
    PickChanges(e, f, q, paths);
  }

  lemma RepoSkillsChange(e: Index, f: Index, q: Name, names: seq<Name>)
    requires DifferAt(e, f, q)
    ensures RepoSkills(names, e) == RepoSkills(names, f) <==>
            forall s :: s in names ==> q !in Under(e.Keys, SkillPrefixes(s))
  {
    forall s | s in names
      ensures EntriesSha(e, Under(e.Keys, SkillPrefixes(s))) == EntriesSha(f, Under(e.Keys, SkillPrefixes(s))) <==>
              q !in Under(e.Keys, SkillPrefixes(s))
    {
      ShaChanges(e, f, q, Under(e.Keys, SkillPrefixes(s)));
    }
    if RepoSkills(names, e) == RepoSkills(names, f) {
      forall s | s in names ensures q !in Under(e.Keys, SkillPrefixes(s)) {
        var i :| 0 <= i < |names| && names[i] == s;
        assert RepoSkills(names, e)[i] == RepoSkills(names, f)[i];
      }
    }
  }

  lemma SkillsChange(e: Index, f: Index, q: Name, m: Module, shared: map<Name, string>)
    requires DifferAt(e, f, q)
    ensures SkillInputs(m, shared, e) == SkillInputs(m, shared, f) <==>
            forall s :: s in m.skills.repoOwned ==> q !in Under(e.Keys, SkillPrefixes(s))
  {
    var names := Sorted(m.skills.repoOwned);
    var prefix := SharedSkills(Sorted(m.skills.required), "shared", shared, false)
                  + SharedSkills(Sorted(m.skills.optional), "shared-optional", shared, true);
    RepoSkillsChange(e, f, q, names);
    assert SkillInputs(m, shared, e)[|prefix|..] == RepoSkills(names, e);
    assert SkillInputs(m, shared, f)[|prefix|..] == RepoSkills(names, f);
  }

  /** A local subject changes exactly when the edited path is one of its inputs. */
  lemma LocalChangesIff(e: Index, f: Index, q: Name, id: Name, m: Module, shared: map<Name, string>, paths: set<Name>)
    requires DifferAt(e, f, q) && paths <= e.Keys
    ensures Local(id, m, shared, e, paths) == Local(id, m, shared, f, paths) <==> q !in InputPaths(m, e.Keys, paths)
  {
    PickChanges(e, f, q, paths);
    SkillsChange(e, f, q, m, shared);
    ShaChanges(e, f, q, Under(e.Keys, RUNTIME_PREFIXES));
  }

  // ----------------------------------------------------------- end to end

  /** Everything but the index: manifests, bindings, the selection, its
      dependency map and the classification of the tracked paths. */
  datatype World = World(
    modules: Catalog,
    shared: map<Name, string>,
    selected: set<Name>,
    deps: map<Name, seq<Dependency>>,
    assignments: seq<Assignment>)

  ghost predicate WorldFits(w: World, e: Index) {
    && w.selected <= w.modules.Keys && w.deps.Keys == w.selected
    && (forall id, i :: id in w.deps && 0 <= i < |w.deps[id]| && w.deps[id][i].provider.ModuleProvider? ==>
          w.deps[id][i].provider.id in w.selected)
    && (forall a :: a in w.assignments ==> Name(a.path) in e)
  }

  function GraphOf(w: World, e: Index): Graph<LocalSubject>
    requires WorldFits(w, e)
  {
    Graph(map id | id in w.selected ::
            Local(id, w.modules[id], w.shared, e, ProjectedPaths(w.assignments, w.selected, id)),
          w.deps)
  }

  /** The index paths a module's own subject depends on. */
  function Inputs(w: World, e: Index, id: Name): set<Name>
    requires id in w.modules
  {
    InputPaths(w.modules[id], e.Keys, ProjectedPaths(w.assignments, w.selected, id))
  }

  /** Editing one index entry changes the closure of exactly the modules that reach
      a module with that path among its inputs. */
  lemma EditInvalidatesExactly(w: World, e: Index, f: Index, q: Name, id: Name)
    requires WorldFits(w, e) && WorldFits(w, f) && DifferAt(e, f, q) && id in w.selected
    requires !CyclicFrom(GraphOf(w, e), id)
    ensures Closure(GraphOf(w, e), id) != Closure(GraphOf(w, f), id) <==>
            exists x :: Reaches(GraphOf(w, e), id, x) && x in w.selected && q in Inputs(w, e, x)
  {
    var g, h := GraphOf(w, e), GraphOf(w, f);
    SameWalks(g, h, id);
    ExactInvalidation(g, h, id);
    forall x | Reaches(g, id, x) ensures x in w.selected && (SameAt(g, h, x) <==> q !in Inputs(w, e, x)) {
      ReachesSelected(g, id, x);
      LocalChangesIff(e, f, q, x, w.modules[x], w.shared, ProjectedPaths(w.assignments, w.selected, x));
    }
  }

  lemma ReachesSelected<L>(g: Graph<L>, id: Name, x: Name)
    requires WellFormed(g) && id in g.local && Reaches(g, id, x)
    ensures x in g.local
  {
    var p :| WalkFrom(g, p, id) && p[|p| - 1] == x;
    if |p| > 1 {
      assert Edge(g, p[|p| - 2], p[|p| - 1]);
    }
  }

  /** Walks depend on the dependency lists only. */
  lemma SameWalks<L>(g: Graph<L>, h: Graph<L>, id: Name)
    requires g.deps == h.deps
    ensures CyclicFrom(g, id) ==> CyclicFrom(h, id)
    ensures CyclicFrom(h, id) ==> CyclicFrom(g, id)
  {
    forall p | IsWalk(g, p) ensures IsWalk(h, p) {
      forall k | 0 <= k < |p| - 1 ensures Edge(h, p[k], p[k + 1]) {
        assert Edge(g, p[k], p[k + 1]);
      }
    }
    forall p | IsWalk(h, p) ensures IsWalk(g, p) {
      forall k | 0 <= k < |p| - 1 ensures Edge(g, p[k], p[k + 1]) {
        assert Edge(h, p[k], p[k + 1]);
      }
    }
    if CyclicFrom(g, id) {
      var p :| WalkFrom(g, p, id) && Repeats(p);
      assert WalkFrom(h, p, id);
    }
    if CyclicFrom(h, id) {
      var p :| WalkFrom(h, p, id) && Repeats(p);
      assert WalkFrom(g, p, id);
    }
  }

  // ----------------------------------------------------- who lists a path

  /** Where a module's own manifest lies: `.arena/modules/`, its name, `/module.json`. */
  function ManifestPath(id: Name): string {
    Join([".arena", "modules", id.text, "module.json"])
  }

  /** The path is the manifest of a selected module exactly when it is `.arena/modules/`,
      the module's name and `/module.json`. */
  lemma ManifestOwnerIff(path: Name, selected: set<Name>, id: Name)
    ensures ManifestOwner(path, selected) == Some(id) <==>
            id in selected && '/' !in id.text && path.text == ManifestPath(id)
  {
    hide Split, Join;
    var parts := [".arena", "modules", id.text, "module.json"];
    SplitHasNoSlash(path.text);
    JoinSplit(path.text);
    if ManifestOwner(path, selected) == Some(id) {
      assert Split(path.text)[2] in Split(path.text);
      assert Split(path.text) == parts;
    }
    if id in selected && '/' !in id.text && path.text == ManifestPath(id) {
      SplitJoin(parts);
    }
  }

  /** A file is listed by a selected module when it is that module's own manifest, or when
      the module owns it and it is neither another one's manifest nor a release projection. */
  ghost predicate Lists(assignments: seq<Assignment>, selected: set<Name>, id: Name, path: Name) {
    exists a :: a in assignments && Name(a.path) == path
      && id in selected
      && if exists m :: m in selected && '/' !in m.text && path.text == ManifestPath(m)
         then '/' !in id.text && path.text == ManifestPath(id)
         else a.owner == ModuleOwner(id)
              && forall k :: 0 <= k < |RELEASE_PROJECTION_PREFIXES| ==>
                   !(path.text == RELEASE_PROJECTION_PREFIXES[k] || RELEASE_PROJECTION_PREFIXES[k] + "/" <= path.text)
  }

  lemma FileListIff(assignments: seq<Assignment>, selected: set<Name>, id: Name, path: Name)
    ensures path in ProjectedPaths(assignments, selected, id) <==> Lists(assignments, selected, id, path)
  {
    forall a | a in assignments && Name(a.path) == path
      ensures ProjectsTo(a, selected) == Some(id) <==>
                && id in selected
                && if exists m :: m in selected && '/' !in m.text && path.text == ManifestPath(m)
                   then '/' !in id.text && path.text == ManifestPath(id)
                   else a.owner == ModuleOwner(id) && !ReleaseProjection(path)
    {
      ListsOne(a, selected, id);
    }
    hide ProjectsTo, ManifestPath;
  }

  lemma ListsOne(a: Assignment, selected: set<Name>, id: Name)
    ensures ProjectsTo(a, selected) == Some(id) <==>
              && id in selected
              && if exists m :: m in selected && '/' !in m.text && a.path == ManifestPath(m)
                 then '/' !in id.text && a.path == ManifestPath(id)
                 else a.owner == ModuleOwner(id) && !ReleaseProjection(Name(a.path))
  {
    hide ManifestOwner, ManifestPath, ReleaseProjection;
    forall m ensures ManifestOwner(Name(a.path), selected) == Some(m) <==>
                     m in selected && '/' !in m.text && a.path == ManifestPath(m) {
      ManifestOwnerIff(Name(a.path), selected, m);
    }
  }

  // ------------------------------------------------- on an accepted snapshot

  /** Assignments that give each path one owner, as those of an accepted snapshot do. */
  ghost predicate OneOwner(assignments: seq<Assignment>) {
    forall a, b :: a in assignments && b in assignments && a.path == b.path ==> a == b
  }

  lemma SnapshotHasOneOwner(claims: Claims, classes: seq<OwnershipClass>, implementation: string -> bool,
                            paths: seq<Name>, done: seq<Assignment>)
    requires AssignsEach(claims, classes, implementation, paths, done)
    ensures OneOwner(done)
  {
    hide OwnerOf, NormalizePrefix;
    forall a, b | a in done && b in done && a.path == b.path ensures a == b {
      var i :| 0 <= i < |done| && done[i] == a;
      var j :| 0 <= j < |done| && done[j] == b;
      OwnerOfPath(claims, classes, implementation, paths[i]);
      OwnerOfPath(claims, classes, implementation, paths[j]);
    }
  }

  lemma OwnerOfPath(claims: Claims, classes: seq<OwnershipClass>, implementation: string -> bool, tracked: Name)
    requires AssignmentOf(claims, classes, implementation, tracked).Some?
    ensures var a := AssignmentOf(claims, classes, implementation, tracked).value;
            OwnerOf(claims, classes, implementation, a.path) == Ok(a.owner)
  {
    hide OwnerOf;
  }

  /** The file lists of two modules share no path: an accepted snapshot is split among them. */
  lemma FileListsAreDisjoint(assignments: seq<Assignment>, selected: set<Name>, a: Name, b: Name)
    requires OneOwner(assignments) && a != b
    ensures ProjectedPaths(assignments, selected, a) !! ProjectedPaths(assignments, selected, b)
  {
    hide ProjectsTo;
    forall p | p in ProjectedPaths(assignments, selected, a) ensures p !in ProjectedPaths(assignments, selected, b) {
      var x :| x in assignments && ProjectsTo(x, selected) == Some(a) && Name(x.path) == p;
    }
  }

  /** The path is in no repo-owned skill of a selected module and in no runtime it uses. */
  ghost predicate PlainFile(w: World, e: Index, q: Name)
    requires w.selected <= w.modules.Keys
  {
    forall x :: x in w.selected ==> q !in InputPaths(w.modules[x], e.Keys, {})
  }

  /** On an accepted snapshot the edit of a file that one module owns, and that is no
      skill or runtime entry, changes exactly the closures of the modules that reach
      its owner; if no module owns it, it changes none. */
  lemma OwnedEditInvalidatesExactly(w: World, e: Index, f: Index, q: Name, id: Name)
    requires WorldFits(w, e) && WorldFits(w, f) && DifferAt(e, f, q) && id in w.selected
    requires !CyclicFrom(GraphOf(w, e), id) && OneOwner(w.assignments) && PlainFile(w, e, q)
    ensures forall owner :: owner in w.selected && q in ProjectedPaths(w.assignments, w.selected, owner) ==>
              (Closure(GraphOf(w, e), id) != Closure(GraphOf(w, f), id) <==> Reaches(GraphOf(w, e), id, owner))
    ensures (forall x :: x in w.selected ==> q !in ProjectedPaths(w.assignments, w.selected, x)) ==>
              Closure(GraphOf(w, e), id) == Closure(GraphOf(w, f), id)
  {
    EditInvalidatesExactly(w, e, f, q, id);
    hide GraphOf, CyclicFrom, Closure, Reaches, WorldFits, ProjectedPaths, OneOwner;
    forall x | x in w.selected
      ensures q in Inputs(w, e, x) <==> q in ProjectedPaths(w.assignments, w.selected, x)
    {
      assert q !in InputPaths(w.modules[x], e.Keys, {});
    }
    forall owner, x | owner in w.selected && q in ProjectedPaths(w.assignments, w.selected, owner)
                      && x in w.selected && q in ProjectedPaths(w.assignments, w.selected, x)
      ensures x == owner
    {
      if x != owner {
        FileListsAreDisjoint(w.assignments, w.selected, owner, x);
      }
    }
  }
}
