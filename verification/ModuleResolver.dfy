/** Resolving a request to a set of modules, and reading a resolved lock back. */
module ModuleResolver {
  import opened Wrappers
  import opened Ordering
  import opened ModuleCatalog
  import opened ModuleClosure

  /** `b` provides something `a` needs. */
  ghost predicate Feeds(modules: Catalog, b: ModuleCatalog.Id, a: ModuleCatalog.Id) {
    && a in modules && b in modules
    && exists c :: c in modules[a].needs && !IsExternal(c) && c in modules[b].provided
  }

  ghost predicate ClosedUnderProviders(modules: Catalog, s: set<Name>) {
    forall a, b :: a in s && Feeds(modules, b, a) ==> b in s
  }

  /** `a` lies in every provider-closed set containing the request. */
  ghost predicate Demanded(modules: Catalog, request: set<Name>, a: Name) {
    forall s: set<Name> :: request <= s && ClosedUnderProviders(modules, s) ==> a in s
  }

  /** `s` is the least provider-closed set containing the request. */
  ghost predicate LeastClosed(modules: Catalog, request: set<Name>, s: set<Name>) {
    && request <= s && ClosedUnderProviders(modules, s)
    && forall a :: a in s ==> Demanded(modules, request, a)
  }

  /** `a` is known and every capability it needs is external or provided. */
  ghost predicate Supplied(modules: Catalog, a: Name) {
    && a in modules
    && forall c :: c in modules[a].needs && !IsExternal(c) ==> exists b :: b in modules && c in modules[b].provided
  }

  ghost predicate Solvable(modules: Catalog, request: set<Name>) {
    && UniqueProviders(modules)
    && forall a :: Demanded(modules, request, a) ==> Supplied(modules, a)
  }

  function QueueSet(queue: seq<Name>): set<Name> {
    set q | q in queue
  }

  /** The worklist shared by the Python and TypeScript resolvers and by
      `moduleClosure`: pop, skip if selected, else select and enqueue the providers. */
  method Worklist(modules: Catalog, providers: map<Capability, Name>, request: seq<Name>)
    returns (r: Result<set<Name>, CatalogError>)
    requires ProvidersOf(modules, providers) && UniqueProviders(modules)
    ensures r.Ok? <==> Solvable(modules, QueueSet(request))
    ensures r.Ok? ==> LeastClosed(modules, QueueSet(request), r.value) && r.value <= modules.Keys
    ensures r.Err? ==> !r.error.Conflict?
  {
    var queue, selected := request, {};
    ghost var start := QueueSet(request);
    while queue != []
      invariant selected <= modules.Keys && start <= selected + QueueSet(queue)
      invariant forall a :: a in selected || a in queue ==> Demanded(modules, start, a)
      invariant forall a :: a in selected ==> Supplied(modules, a)
      invariant forall a, b :: a in selected && Feeds(modules, b, a) ==> b in selected || b in queue
      decreases modules.Keys - selected, |queue|
    {
      var id := queue[0];
      assert queue == [id] + queue[1..];
      if id in selected {
        queue := queue[1..];
      } else if id !in modules {
        return Err(UnknownModule(id));
      } else {
        var more := Providers(modules, providers, id);
        if more.Err? {
          return Err(more.error);
        }
        forall a | a in more.value ensures Demanded(modules, start, a) {
          DemandedProvider(modules, start, id, a);
        }
        queue := queue[1..] + more.value;
        selected := selected + {id};
      }
    }
    forall a | Demanded(modules, start, a) ensures a in selected {
    }
    return Ok(selected);
  }

  lemma DemandedProvider(modules: Catalog, request: set<Name>, a: Name, b: Name)
    requires Demanded(modules, request, a) && Feeds(modules, b, a)
    ensures Demanded(modules, request, b)
  {
  }

  /** The providers of what `id` needs, in the order its capabilities are listed. */
  method Providers(modules: Catalog, providers: map<Capability, Name>, id: Name)
    returns (r: Result<seq<Name>, CatalogError>)
    requires ProvidersOf(modules, providers) && UniqueProviders(modules) && id in modules
    ensures r.Ok? <==> Supplied(modules, id)
    ensures r.Ok? ==> forall b :: b in r.value <==> Feeds(modules, b, id)
    ensures r.Err? ==> r.error.Unprovided?
  {
    var found: seq<Name> := [];
    var todo := modules[id].needs;
    while todo != {}
      invariant todo <= modules[id].needs
      invariant forall b :: b in found ==> Feeds(modules, b, id)
      invariant forall c :: c in modules[id].needs - todo && !IsExternal(c) ==> c in providers && providers[c] in found
      decreases todo
    {
      var c := Least(todo);
      if !IsExternal(c) {
        if c !in providers {
          return Err(Unprovided(id, c));
        }
        found := found + [providers[c]];
      }
      todo := todo - {c};
    }
    forall b | Feeds(modules, b, id) ensures b in found {
      var c :| c in modules[id].needs && !IsExternal(c) && c in modules[b].provided;
      assert c in modules[providers[c]].provided;
    }
    return Ok(found);
  }

  ghost predicate ConflictFree(modules: Catalog, s: set<Name>)
    requires s <= modules.Keys
  {
    forall a, b :: a in s && b in s ==> b !in modules[a].conflicts
  }

  /** `resolve` and `resolveComposition`: the least closed selection, if it is conflict-free. */
  method Resolve(modules: Catalog, request: seq<Name>) returns (r: Result<set<Name>, CatalogError>)
    ensures r.Ok? ==> LeastClosed(modules, QueueSet(request), r.value) && r.value <= modules.Keys
                      && ConflictFree(modules, r.value)
    ensures r.Ok? ==> Solvable(modules, QueueSet(request))
    ensures r.Err? && !r.error.Conflict? ==> !Solvable(modules, QueueSet(request))
    ensures r.Err? && r.error.Conflict? ==>
              exists s :: LeastClosed(modules, QueueSet(request), s) && s <= modules.Keys && !ConflictFree(modules, s)
  {
    var providers := ValidateCapabilities(modules);
    if providers.Err? {
      return Err(providers.error);
    }
    var selected := Worklist(modules, providers.value, request);
    if selected.Err? {
      return Err(selected.error);
    }
    var todo := selected.value;
    while todo != {}
      invariant todo <= selected.value
      invariant forall a, b :: a in selected.value - todo && b in selected.value ==> b !in modules[a].conflicts
      decreases todo
    {
      var id := Least(todo);
      if selected.value * modules[id].conflicts != {} {
        var b :| b in selected.value * modules[id].conflicts;
        return Err(Conflict(id));
      }
      assert forall b :: b in selected.value ==> b !in selected.value * modules[id].conflicts;
      todo := todo - {id};
    }
    return Ok(selected.value);
  }

  /** The outcome depends on the requested set only: neither order nor repetition matters. */
  lemma LeastClosedUnique(modules: Catalog, request: set<Name>, s: set<Name>, t: set<Name>)
    requires LeastClosed(modules, request, s) && LeastClosed(modules, request, t)
    ensures s == t
  {
    forall a ensures a in s <==> a in t {
      assert a in s ==> Demanded(modules, request, a);
      assert a in t ==> Demanded(modules, request, a);
    }
  }

  // ------------------------------------------------------- reading the lock

  /** The manifests of the selected modules alone. */
  function Restricted(modules: Catalog, selected: set<Name>): Catalog {
    map id | id in modules && id in selected :: modules[id]
  }

  /** `moduleClosure`: the providers one module needs, among the modules given. */
  method ModuleClosureOf(id: Name, modules: Catalog) returns (r: Result<seq<Name>, CatalogError>)
    ensures r.Ok? <==> Solvable(modules, {id})
    ensures r.Ok? ==> exists s :: LeastClosed(modules, {id}, s) && s <= modules.Keys && r.value == Sorted(s)
  {
    var providers := ValidateCapabilities(modules);
    if providers.Err? {
      return Err(providers.error);
    }
    assert QueueSet([id]) == {id};
    var selected := Worklist(modules, providers.value, [id]);
    if selected.Err? {
      return Err(selected.error);
    }
    return Ok(Sorted(selected.value));
  }

  /** `d` records who provides `c`. */
  ghost predicate Records(modules: Catalog, d: Dependency, c: Capability) {
    && d.capability == c
    && if IsExternal(c) then d.provider.ExternalProvider?
       else d.provider.ModuleProvider? && d.provider.id in modules && c in modules[d.provider.id].provided
  }

  /** The dependency list of `id`: its capabilities in order, each with its provider. */
  ghost predicate RecordsAll(modules: Catalog, id: Name, deps: seq<Dependency>)
    requires id in modules
  {
    var needs := Sorted(modules[id].needs);
    |deps| == |needs| && forall i :: 0 <= i < |needs| ==> Records(modules, deps[i], needs[i])
  }

  /** Every need of a selected module is external or provided inside the selection. */
  ghost predicate SelfContained(modules: Catalog, selected: set<Name>)
    requires selected <= modules.Keys
  {
    forall a :: a in selected ==> ContainedAt(modules, selected, a)
  }

  ghost predicate ContainedAt(modules: Catalog, selected: set<Name>, a: Name)
    requires selected <= modules.Keys && a in modules
  {
    forall c :: c in modules[a].needs && !IsExternal(c) ==> exists b :: b in selected && c in modules[b].provided
  }

  method DependenciesOf(modules: Catalog, selected: set<Name>, providers: map<Capability, Name>, id: Name)
    returns (r: Result<seq<Dependency>, CatalogError>)
    requires selected <= modules.Keys && id in modules && UniqueProviders(modules) && ProvidersOf(modules, providers)
    ensures r.Ok? <==> ContainedAt(modules, selected, id)
    ensures r.Ok? ==> RecordsAll(modules, id, r.value)
    ensures r.Ok? ==> forall d :: d in r.value && d.provider.ModuleProvider? ==> d.provider.id in selected
  {
    var needs := Sorted(modules[id].needs);
    var deps: seq<Dependency> := [];
    for i := 0 to |needs|
      invariant |deps| == i
      invariant forall k :: 0 <= k < i ==> Records(modules, deps[k], needs[k])
      invariant forall k :: 0 <= k < i && deps[k].provider.ModuleProvider? ==> deps[k].provider.id in selected
    {
      var c := needs[i];
      assert c in needs;
      if IsExternal(c) {
        deps := deps + [Dependency(c, ExternalProvider)];
      } else {
        if c !in providers || providers[c] !in selected {
          return Err(Unprovided(id, c));
        }
        deps := deps + [Dependency(c, ModuleProvider(providers[c]))];
      }
    }
    forall c | c in modules[id].needs && !IsExternal(c) ensures exists b :: b in selected && c in modules[b].provided {
      var k :| 0 <= k < |needs| && needs[k] == c;
      assert Records(modules, deps[k], c);
    }
    return Ok(deps);
  }

  /** `dependency_map`: each selected module's capabilities with their providers. */
  method DependencyMap(modules: Catalog, selected: set<Name>)
    returns (r: Result<map<Name, seq<Dependency>>, CatalogError>)
    requires selected <= modules.Keys
    ensures r.Ok? <==> UniqueProviders(modules) && SelfContained(modules, selected)
    ensures r.Ok? ==> r.value.Keys == selected && forall id :: id in selected ==> RecordsAll(modules, id, r.value[id])
    ensures r.Ok? ==> forall id, d :: id in selected && d in r.value[id] && d.provider.ModuleProvider? ==>
              d.provider.id in selected
  {
    var providers := ValidateCapabilities(modules);
    if providers.Err? {
      return Err(providers.error);
    }
    var deps: map<Name, seq<Dependency>> := map[];
    var todo := selected;
    while todo != {}
      invariant todo <= selected && deps.Keys == selected - todo
      invariant forall a :: a in selected - todo ==> ContainedAt(modules, selected, a)
      invariant forall id :: id in deps ==> RecordsAll(modules, id, deps[id])
      invariant forall id, d :: id in deps && d in deps[id] && d.provider.ModuleProvider? ==> d.provider.id in selected
      decreases todo
    {
      var id := Least(todo);
      var found := DependenciesOf(modules, selected, providers.value, id);
      if found.Err? {
        return Err(found.error);
      }
      deps := deps[id := found.value];
      todo := todo - {id};
    }
    return Ok(deps);
  }

  /** On a resolved selection nothing is missing: its dependency map exists, and
      so does the closure of each of its modules among its own manifests, which
      never leaves the selection. */
  lemma ResolvedIsSelfContained(modules: Catalog, request: set<Name>, selected: set<Name>)
    requires Solvable(modules, request) && LeastClosed(modules, request, selected) && selected <= modules.Keys
    ensures SelfContained(modules, selected)
    ensures forall id :: id in selected ==> Solvable(Restricted(modules, selected), {id})
    ensures forall id, a :: id in selected && Demanded(Restricted(modules, selected), {id}, a) ==> a in selected
  {
    var sub := Restricted(modules, selected);
    forall a, c | a in selected && c in modules[a].needs && !IsExternal(c)
      ensures exists b :: b in selected && c in modules[b].provided
    {
      assert Supplied(modules, a);
      var b :| b in modules && c in modules[b].provided;
      assert Feeds(modules, b, a);
    }
    forall a, b | a in selected && Feeds(sub, b, a) ensures b in selected {
    }
    assert ClosedUnderProviders(sub, selected);
    forall id, a | id in selected && Demanded(sub, {id}, a) ensures a in selected && Supplied(sub, a) {
      assert {id} <= selected;
      forall c | c in sub[a].needs && !IsExternal(c) ensures exists b :: b in sub && c in sub[b].provided {
        var b :| b in selected && c in modules[b].provided;
        assert b in sub;
      }
    }
  }

  /** Read back from the selected manifests alone, every selected module resolves exactly
      when no need of theirs is left unmet inside the selection. */
  lemma RestrictedSolvableIff(modules: Catalog, selected: set<Name>)
    requires selected <= modules.Keys && UniqueProviders(modules)
    ensures (forall id :: id in selected ==> Solvable(Restricted(modules, selected), {id})) <==>
            SelfContained(modules, selected)
  {
    var sub := Restricted(modules, selected);
    assert sub.Keys == selected;
    assert UniqueProviders(sub);
    forall id | id in selected ensures Supplied(sub, id) <==> ContainedAt(modules, selected, id) {
      SuppliedInside(modules, selected, id);
    }
    hide Supplied, ContainedAt, UniqueProviders;
    if forall id :: id in selected ==> Solvable(sub, {id}) {
      forall id | id in selected ensures ContainedAt(modules, selected, id) {
        assert Demanded(sub, {id}, id);
      }
    }
    if SelfContained(modules, selected) {
      forall id, a | id in selected && Demanded(sub, {id}, a) ensures Supplied(sub, a) {
        assert ClosedUnderProviders(sub, selected) && {id} <= selected;
      }
    }
  }

  lemma SuppliedInside(modules: Catalog, selected: set<Name>, id: Name)
    requires selected <= modules.Keys && id in selected
    ensures Supplied(Restricted(modules, selected), id) <==> ContainedAt(modules, selected, id)
  {
    var sub := Restricted(modules, selected);
    forall c | c in modules[id].needs
      ensures (exists b :: b in sub && c in sub[b].provided) <==> exists b :: b in selected && c in modules[b].provided
    {
      if b :| b in selected && c in modules[b].provided {
        assert b in sub && c in sub[b].provided;
      }
    }
  }

  /** The edges of the proof graph are exactly the provider relation. The resolver
      never looks for cycles in it, so a resolved selection closes only if that
      relation is acyclic. */
  lemma EdgesAreProviders<L>(modules: Catalog, selected: set<Name>, g: Graph<L>, a: Name, b: Name)
    requires selected <= modules.Keys && UniqueProviders(modules) && g.deps.Keys == selected && a in selected
    requires RecordsAll(modules, a, g.deps[a])
    ensures Edge(g, a, b) <==> Feeds(modules, b, a)
  {
    var needs := Sorted(modules[a].needs);
    if Edge(g, a, b) {
      var i :| 0 <= i < |g.deps[a]| && g.deps[a][i].provider == ModuleProvider(b);
      assert Records(modules, g.deps[a][i], needs[i]) && needs[i] in needs;
    }
    if Feeds(modules, b, a) {
      var c :| c in modules[a].needs && !IsExternal(c) && c in modules[b].provided;
      var i :| 0 <= i < |needs| && needs[i] == c;
      assert Records(modules, g.deps[a][i], c);
    }
  }
}
