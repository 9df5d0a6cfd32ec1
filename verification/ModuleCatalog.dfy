/** Module manifests and the providers of their capabilities. */
module ModuleCatalog {
  import opened Wrappers
  import opened Ordering

  type Id = Name
  type Capability = Name

  datatype Skills = Skills(required: set<Name>, optional: set<Name>, repoOwned: set<Name>)

  /** The fields of a validated manifest that resolution and proof subjects read.
      Its string lists have no duplicates, so those whose order is never used are sets. */
  datatype Module = Module(
    interfaceVersion: string,
    provided: set<Capability>,
    needs: set<Capability>,
    conflicts: set<Id>,
    skills: Skills,
    profiles: set<Name>,
    proof: string)

  type Catalog = map<Id, Module>

  predicate IsExternal(c: Capability) {
    "external:" <= c.text
  }

  datatype CatalogError =
    | MultipleProviders(capability: Capability)
    | UnknownModule(id: Id)
    | Unprovided(id: Id, capability: Capability)
    | Conflict(id: Id)

  /** No capability is provided twice. */
  ghost predicate UniqueProviders(modules: Catalog) {
    forall a, b, c :: a in modules && b in modules && c in modules[a].provided && c in modules[b].provided ==> a == b
  }

  /** `providers` maps each provided capability to its provider. */
  ghost predicate ProvidersOf(modules: Catalog, providers: map<Capability, Id>) {
    && (forall c :: c in providers ==> providers[c] in modules && c in modules[providers[c]].provided)
    && (forall id, c :: id in modules && c in modules[id].provided ==> c in providers)
  }

  /** `providers` covers the modules in `done` and nothing else. */
  ghost predicate Registered(modules: Catalog, done: set<Id>, providers: map<Capability, Id>)
    requires done <= modules.Keys
  {
    && (forall c :: c in providers ==> providers[c] in done && c in modules[providers[c]].provided)
    && (forall id, c :: id in done && c in modules[id].provided ==> c in providers && providers[c] == id)
  }

  method ValidateCapabilities(modules: Catalog) returns (r: Result<map<Capability, Id>, CatalogError>)
    ensures r.Ok? <==> UniqueProviders(modules)
    ensures r.Ok? ==> ProvidersOf(modules, r.value)
    ensures r.Err? ==> r.error.MultipleProviders?
  {
    var providers: map<Capability, Id> := map[];
    var todo := modules.Keys;
    ghost var done: set<Id> := {};
    while todo != {}
      invariant done + todo == modules.Keys && done !! todo
      invariant Registered(modules, done, providers)
      decreases todo
    {
      var id := Least(todo);
      var added := AddProvided(modules, id, providers, done);
      if added.Err? {
        return Err(added.error);
      }
      providers := added.value;
      todo, done := todo - {id}, done + {id};
    }
    assert done == modules.Keys;
    forall a, b, c | a in modules && b in modules && c in modules[a].provided && c in modules[b].provided
      ensures a == b
    {
      assert providers[c] == a && providers[c] == b;
    }
    return Ok(providers);
  }

  method AddProvided(modules: Catalog, id: Id, providers: map<Capability, Id>, ghost done: set<Id>)
    returns (r: Result<map<Capability, Id>, CatalogError>)
    requires id in modules && done <= modules.Keys && id !in done && Registered(modules, done, providers)
    ensures r.Ok? ==> Registered(modules, done + {id}, r.value)
    ensures r.Err? ==> !UniqueProviders(modules) && r.error.MultipleProviders?
  {
    var result := providers;
    var todo := modules[id].provided;
    while todo != {}
      invariant todo <= modules[id].provided
      invariant forall c :: c in result <==> c in providers || c in modules[id].provided - todo
      invariant forall c :: c in providers ==> result[c] == providers[c]
      invariant forall c :: c in modules[id].provided - todo ==> result[c] == id && c !in providers
      decreases todo
    {
      var c := Least(todo);
      if c in result {
        assert c in modules[providers[c]].provided;
        return Err(MultipleProviders(c));
      }
      result := result[c := id];
      todo := todo - {c};
    }
    return Ok(result);
  }
}
