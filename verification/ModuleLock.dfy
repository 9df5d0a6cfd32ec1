/** Closing the proof subjects of a resolved lock. */
module ModuleLock {
  import opened Wrappers
  import opened Ordering
  import opened ModuleCatalog
  import opened ModuleClosure
  import opened ModuleResolver

  datatype LockError = MissingProvider(error: CatalogError) | Cycle(id: Name)

  /** Each module of the walk is fed by the next, inside the selection. */
  ghost predicate FeedWalk(modules: Catalog, selected: set<Name>, p: seq<Name>) {
    && p != [] && (forall k :: 0 <= k < |p| ==> p[k] in selected)
    && forall k :: 0 <= k < |p| - 1 ==> Feeds(modules, p[k + 1], p[k])
  }

  ghost predicate FeedsAcyclic(modules: Catalog, selected: set<Name>) {
    forall p :: FeedWalk(modules, selected, p) ==> !Repeats(p)
  }

  /** `g` is the proof graph of the selection. */
  ghost predicate ProofGraph<L>(modules: Catalog, selected: set<Name>, g: Graph<L>) {
    && selected <= modules.Keys && g.local.Keys == selected && WellFormed(g)
    && forall id :: id in selected ==> RecordsAll(modules, id, g.deps[id])
  }

  lemma WalksAreFeeds<L>(modules: Catalog, selected: set<Name>, g: Graph<L>, p: seq<Name>)
    requires ProofGraph(modules, selected, g) && UniqueProviders(modules) && p != [] && p[0] in selected
    ensures IsWalk(g, p) <==> FeedWalk(modules, selected, p)
  {
    hide RecordsAll, UniqueProviders, Feeds;
    forall a, b | a in selected ensures Edge(g, a, b) <==> Feeds(modules, b, a) {
      EdgesAreProviders(modules, selected, g, a, b);
    }
    if IsWalk(g, p) {
      forall k | 0 <= k < |p| ensures p[k] in selected {
        if k > 0 {
          assert Edge(g, p[k - 1], p[k]);
        }
      }
    }
    if FeedWalk(modules, selected, p) {
      forall k | 0 <= k < |p| - 1 ensures Edge(g, p[k], p[k + 1]) {
        assert p[k] in selected;
      }
    }
  }

  /** The proof graph is acyclic exactly when the provider relation on the selection is. */
  lemma AcyclicIffFeeds<L>(modules: Catalog, selected: set<Name>, g: Graph<L>)
    requires ProofGraph(modules, selected, g) && UniqueProviders(modules)
    ensures Acyclic(g) <==> FeedsAcyclic(modules, selected)
  {
    hide ProofGraph, UniqueProviders, IsWalk, FeedWalk;
    if Acyclic(g) {
      forall p | FeedWalk(modules, selected, p) ensures !Repeats(p) {
        FeedWalkStarts(modules, selected, p);
        WalksAreFeeds(modules, selected, g, p);
        assert g.local.Keys == selected by { GraphKeys(modules, selected, g); }
        assert WalkFrom(g, p, p[0]) && !CyclicFrom(g, p[0]);
      }
    }
    if FeedsAcyclic(modules, selected) {
      forall id | id in g.local ensures !CyclicFrom(g, id) {
        GraphKeys(modules, selected, g);
        forall p | WalkFrom(g, p, id) ensures !Repeats(p) {
          WalkIsNonEmpty(g, p);
          WalksAreFeeds(modules, selected, g, p);
        }
      }
    }
  }

  lemma FeedWalkStarts(modules: Catalog, selected: set<Name>, p: seq<Name>)
    requires FeedWalk(modules, selected, p)
    ensures p != [] && p[0] in selected
  {
  }

  lemma WalkIsNonEmpty<L>(g: Graph<L>, p: seq<Name>)
    requires IsWalk(g, p)
    ensures p != []
  {
  }

  lemma GraphKeys<L>(modules: Catalog, selected: set<Name>, g: Graph<L>)
    requires ProofGraph(modules, selected, g)
    ensures g.local.Keys == selected
  {
  }

  /** The dependency map and the closures of a selection: they exist exactly when no
      need is left unmet inside it and no chain of providers comes back. */
  method CloseLock<L>(modules: Catalog, selected: set<Name>, local: map<Name, L>)
    returns (r: Result<map<Name, Subject<L>>, LockError>)
    requires local.Keys == selected <= modules.Keys
    ensures r.Ok? <==> UniqueProviders(modules) && SelfContained(modules, selected) && FeedsAcyclic(modules, selected)
    ensures r.Ok? ==> r.value.Keys == selected
    ensures r.Ok? ==> exists g: Graph<L> :: g.local == local && ProofGraph(modules, selected, g)
                        && forall id :: id in selected ==> Closure(g, id) == Some(r.value[id])
  {
    hide UniqueProviders, SelfContained, FeedsAcyclic, RecordsAll;
    var deps := DependencyMap(modules, selected);
    if deps.Err? {
      return Err(MissingProvider(deps.error));
    }
    var g := Graph(local, deps.value);
    assert WellFormed(g) by {
      forall id, i | id in g.deps && 0 <= i < |g.deps[id]| && g.deps[id][i].provider.ModuleProvider?
        ensures g.deps[id][i].provider.id in g.local
      {
        assert g.deps[id][i] in g.deps[id];
      }
    }
    AcyclicIffFeeds(modules, selected, g);
    var closer := new Closer(g);
    var closed := closer.CloseSubjects();
    if closed.Err? {
      return Err(Cycle(closed.error));
    }
    return Ok(closed.value);
  }

  /** On a resolved lock nothing is missing, and all its subjects close exactly when
      its provider relation is acyclic: the one thing the resolver leaves open. */
  lemma ResolvedClosesIffAcyclic<L>(modules: Catalog, request: set<Name>, selected: set<Name>, g: Graph<L>)
    requires Solvable(modules, request) && LeastClosed(modules, request, selected) && selected <= modules.Keys
    requires ProofGraph(modules, selected, g)
    ensures SelfContained(modules, selected)
    ensures (forall id :: id in selected ==> Closure(g, id).Some?) <==> FeedsAcyclic(modules, selected)
  {
    ResolvedIsSelfContained(modules, request, selected);
    AcyclicIffFeeds(modules, selected, g);
    hide RecordsAll, Closure, CyclicFrom, FeedsAcyclic, LeastClosed, SelfContained;
    forall id | id in g.local ensures Closure(g, id).Some? <==> !CyclicFrom(g, id) {
      ClosureIffAcyclic(g, id);
    }
  }

  const SKILL_FREE := Skills({}, {}, {})

  function Needing(provided: Name, needed: Name): Module {
    Module("1", {provided}, {needed}, {}, SKILL_FREE, {}, "")
  }

  /** Two modules that need each other resolve without a conflict, and never close. */
  lemma CyclicCatalogResolves() returns (modules: Catalog, selected: set<Name>)
    ensures Solvable(modules, {Name("a")}) && LeastClosed(modules, {Name("a")}, selected)
    ensures selected <= modules.Keys && ConflictFree(modules, selected)
    ensures !FeedsAcyclic(modules, selected)
  {
    var a, b, x, y := Name("a"), Name("b"), Name("x"), Name("y");
    assert a.text[0] != b.text[0] && x.text[0] != y.text[0];
    assert !IsExternal(x) && !IsExternal(y);
    modules, selected := map[a := Needing(x, y), b := Needing(y, x)], {a, b};
    assert y in modules[a].needs && y in modules[b].provided && x in modules[b].needs && x in modules[a].provided;
    assert Feeds(modules, b, a) && Feeds(modules, a, b);
    assert UniqueProviders(modules);
    forall s: set<Name> | {a} <= s && ClosedUnderProviders(modules, s) ensures a in s && b in s {
    }
    assert Demanded(modules, {a}, a) && Demanded(modules, {a}, b);
    assert ClosedUnderProviders(modules, selected);
    forall c | Demanded(modules, {a}, c) ensures Supplied(modules, c) {
      assert c in selected;
    }
    var p := [a, b, a];
    assert FeedWalk(modules, selected, p) && p[0] == p[2];
  }
}
