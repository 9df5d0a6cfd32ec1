/** Composing a project: which requests are accepted, and with what, by the Python
    and by the TypeScript resolver. */
module ModuleComposition {
  import opened Wrappers
  import opened Ordering
  import opened ModuleCatalog
  import opened ModuleComponents
  import opened ModuleResolver

  datatype CompositionError =
    | NoModules
    | RepeatedModule(id: Name)
    | Unresolved(error: CatalogError)
    | BadComponents(why: ComponentError)

  /** `chosen` gives each module of the least conflict-free selection acceptable components. */
  ghost predicate Composes(modules: Catalog, catalog: map<Name, Components>, inherited: set<Name>,
                           requested: map<Name, set<Name>>, chosen: map<Name, set<Name>>)
    requires modules.Keys <= catalog.Keys
  {
    && LeastClosed(modules, requested.Keys, chosen.Keys) && chosen.Keys <= modules.Keys
    && ConflictFree(modules, chosen.Keys)
    && forall id :: id in chosen ==>
         chosen[id] == Chosen(catalog[id], requested, id) && Acceptable(catalog[id], inherited, chosen[id])
  }

  ghost predicate Composable(modules: Catalog, catalog: map<Name, Components>, inherited: set<Name>,
                             requested: map<Name, set<Name>>)
    requires modules.Keys <= catalog.Keys
  {
    Solvable(modules, requested.Keys) && exists chosen :: Composes(modules, catalog, inherited, requested, chosen)
  }

  /** What each module is asked for, by all entries together. */
  function Request(entries: seq<Selection>): map<Name, set<Name>> {
    map id | id in Ids(entries) :: Wanted(entries, id)
  }

  /** A request has at most one composition, whichever names are inherited. */
  lemma ComposedUnique(modules: Catalog, catalog: map<Name, Components>, inherited: set<Name>, others: set<Name>,
                       requested: map<Name, set<Name>>, c: map<Name, set<Name>>, d: map<Name, set<Name>>)
    requires modules.Keys <= catalog.Keys
    requires Composes(modules, catalog, inherited, requested, c) && Composes(modules, catalog, others, requested, d)
    ensures c == d
  {
    LeastClosedUnique(modules, requested.Keys, c.Keys, d.Keys);
    assert forall id :: id in c ==> c[id] == d[id];
  }

  /** What both resolvers do once the request is known: select, check conflicts, choose components. */
  method Compose(modules: Catalog, catalog: map<Name, Components>, inherited: set<Name>,
                 requested: map<Name, set<Name>>, order: seq<Name>)
    returns (r: Result<map<Name, set<Name>>, CompositionError>)
    requires modules.Keys <= catalog.Keys && QueueSet(order) == requested.Keys
    ensures r.Ok? ==> Composes(modules, catalog, inherited, requested, r.value)
    ensures r.Ok? <==> Composable(modules, catalog, inherited, requested)
  {
    hide Solvable, LeastClosed, ConflictFree, Acceptable, Chosen;
    var resolved := Resolve(modules, order);
    if resolved.Err? {
      forall chosen | Composes(modules, catalog, inherited, requested, chosen)
        ensures !Solvable(modules, requested.Keys)
      {
        if resolved.error.Conflict? {
          var s :| LeastClosed(modules, requested.Keys, s) && s <= modules.Keys && !ConflictFree(modules, s);
          LeastClosedUnique(modules, requested.Keys, s, chosen.Keys);
        }
      }
      return Err(Unresolved(resolved.error));
    }
    var chosen := ChooseComponents(catalog, inherited, resolved.value, requested);
    if chosen.Err? {
      forall other | Composes(modules, catalog, inherited, requested, other) ensures false {
        LeastClosedUnique(modules, requested.Keys, other.Keys, resolved.value);
      }
      return Err(BadComponents(chosen.error));
    }
    return Ok(chosen.value);
  }

  /** The Python resolver: one entry for each module, taken in the order given; a
      component it does not declare is unknown. */
  method ResolveEntries(modules: Catalog, catalog: map<Name, Components>, entries: seq<Selection>)
    returns (r: Result<map<Name, set<Name>>, CompositionError>)
    requires modules.Keys <= catalog.Keys
    ensures r.Ok? <==> entries != [] && DistinctIds(entries) && Composable(modules, catalog, {}, Request(entries))
    ensures r.Ok? ==> Composes(modules, catalog, {}, Request(entries), r.value)
  {
    if entries == [] {
      return Err(NoModules);
    }
    var request := ReadEntries(entries);
    if request.Err? {
      return Err(request.error);
    }
    r := Compose(modules, catalog, {}, request.value.0, request.value.1);
  }

  /** The components asked of each module and the modules in order, unless one is named twice. */
  method ReadEntries(entries: seq<Selection>) returns (r: Result<(map<Name, set<Name>>, seq<Name>), CompositionError>)
    ensures r.Ok? <==> DistinctIds(entries)
    ensures r.Ok? ==> r.value.0 == Request(entries) && QueueSet(r.value.1) == Ids(entries)
  {
    var requested: map<Name, set<Name>> := map[];
    var order: seq<Name> := [];
    for i := 0 to |entries|
      invariant DistinctIds(entries[..i]) && requested == Request(entries[..i])
      invariant QueueSet(order) == requested.Keys
    {
      var e := entries[i];
      if e.id in requested {
        RepeatedId(entries, i);
        return Err(RepeatedModule(e.id));
      }
      RequestSnoc(entries[..i], e);
      assert entries[..i + 1] == entries[..i] + [e];
      requested := requested[e.id := e.components];
      order := order + [e.id];
    }
    assert entries[..|entries|] == entries;
    return Ok((requested, order));
  }

  lemma RepeatedId(entries: seq<Selection>, i: nat)
    requires i < |entries| && entries[i].id in Ids(entries[..i])
    ensures !DistinctIds(entries)
  {
    var e :| e in entries[..i] && e.id == entries[i].id;
    var j :| 0 <= j < i && entries[j] == e;
  }

  lemma RequestSnoc(entries: seq<Selection>, e: Selection)
    requires DistinctIds(entries) && e.id !in Ids(entries)
    ensures DistinctIds(entries + [e]) && Request(entries + [e]) == Request(entries)[e.id := e.components]
  {
    OneMoreEntry(entries, e);
    forall id | id in Ids(entries) + {e.id}
      ensures Wanted(entries + [e], id) == if id == e.id then e.components else Wanted(entries, id)
    {
    }
    forall k | 0 <= k < |entries| ensures entries[k].id != e.id {
      assert entries[k] in entries;
    }
  }

  lemma NoIds(entries: seq<Selection>)
    ensures Ids(entries) == {} <==> entries == []
  {
    if entries != [] {
      assert entries[0] in entries;
      assert entries[0].id in Ids(entries);
    }
  }

  /** The TypeScript resolver: a preset merged with the project's entries, which name
      each module once, taken in sorted order; a component passes as known if it is
      declared or inherited by every object. */
  method ResolveMerged(modules: Catalog, catalog: map<Name, Components>, inherited: set<Name>,
                       preset: seq<Selection>, own: seq<Selection>)
    returns (r: Result<map<Name, set<Name>>, CompositionError>)
    requires modules.Keys <= catalog.Keys
    ensures r.Ok? <==> preset + own != [] && DistinctIds(own)
                       && Composable(modules, catalog, inherited, Request(preset + own))
    ensures r.Ok? ==> Composes(modules, catalog, inherited, Request(preset + own), r.value)
  {
    var read := ReadEntries(own);
    if read.Err? {
      return Err(read.error);
    }
    var merged := MergeSelections(preset, own);
    BothParts(preset, own);
    NoIds(preset + own);
    assert merged == Request(preset + own);
    if merged.Keys == {} {
      return Err(NoModules);
    }
    r := Compose(modules, catalog, inherited, merged, Sorted(merged.Keys));
  }

  /** No module is asked for a name it does not declare and every object has. */
  ghost predicate NoneInherited(catalog: map<Name, Components>, inherited: set<Name>, requested: map<Name, set<Name>>) {
    forall id :: id in requested && id in catalog ==> (requested[id] - catalog[id].Keys) * inherited == {}
  }

  lemma StrictComposes(modules: Catalog, catalog: map<Name, Components>, inherited: set<Name>,
                       requested: map<Name, set<Name>>, chosen: map<Name, set<Name>>)
    requires modules.Keys <= catalog.Keys
    ensures Composes(modules, catalog, {}, requested, chosen) <==>
            Composes(modules, catalog, inherited, requested, chosen) && NoneInherited(catalog, inherited, requested)
  {
    hide ConflictFree, Acceptable, Required, ClosedUnderProviders, Demanded;
    forall id | id in chosen && id in catalog
      ensures Acceptable(catalog[id], {}, chosen[id]) <==>
              Acceptable(catalog[id], inherited, chosen[id]) && (chosen[id] - catalog[id].Keys) * inherited == {}
      ensures (Required(catalog[id]) - catalog[id].Keys) * inherited == {}
    {
      StrictIffNoneInherited(catalog[id], inherited, chosen[id]);
      RequiredIsDeclared(catalog[id]);
    }
  }

  lemma RequiredIsDeclared(declared: Components)
    ensures Required(declared) <= declared.Keys
  {
  }

  /** Where the resolvers agree. On a request that both read, however its entries are
      ordered, repeated or split between preset and project, Python accepts exactly
      what TypeScript accepts without an undeclared inherited name; and what both
      accept gets the same modules and components. */
  lemma ResolversAgreeIff(modules: Catalog, catalog: map<Name, Components>, inherited: set<Name>,
                          entries: seq<Selection>, preset: seq<Selection>, own: seq<Selection>)
    requires modules.Keys <= catalog.Keys && Request(entries) == Request(preset + own)
    ensures var requested := Request(entries);
            var python := Composable(modules, catalog, {}, requested);
            var typescript := Composable(modules, catalog, inherited, Request(preset + own));
            && (python <==> typescript && NoneInherited(catalog, inherited, requested))
            && ((python <==> typescript) <==> (typescript ==> NoneInherited(catalog, inherited, requested)))
    ensures forall c, d ::
              (Composes(modules, catalog, {}, Request(entries), c)
               && Composes(modules, catalog, inherited, Request(preset + own), d))
              ==> c == d
  {
    hide Composes, NoneInherited, Solvable;
    var requested := Request(entries);
    forall c ensures Composes(modules, catalog, {}, requested, c) <==>
                     Composes(modules, catalog, inherited, requested, c) && NoneInherited(catalog, inherited, requested)
    {
      StrictComposes(modules, catalog, inherited, requested, c);
    }
    forall c, d | Composes(modules, catalog, {}, requested, c) && Composes(modules, catalog, inherited, requested, d)
      ensures c == d
    {
      ComposedUnique(modules, catalog, {}, inherited, requested, c, d);
    }
  }

  /** What a composition is: the least conflict-free selection in which every module
      asked for takes exactly what it was asked, which holds its required components and
      only known ones, and every module pulled in takes its required components. */
  lemma ComposesIff(modules: Catalog, catalog: map<Name, Components>, inherited: set<Name>,
                    requested: map<Name, set<Name>>, chosen: map<Name, set<Name>>)
    requires modules.Keys <= catalog.Keys
    ensures Composes(modules, catalog, inherited, requested, chosen) <==>
            && LeastClosed(modules, requested.Keys, chosen.Keys) && chosen.Keys <= modules.Keys
            && (forall a, b :: a in chosen && b in chosen ==> b !in modules[a].conflicts)
            && (forall id :: id in requested ==>
                  && id in chosen && chosen[id] == requested[id]
                  && (forall c :: c in catalog[id] && catalog[id][c] ==> c in requested[id])
                  && (forall c :: c in requested[id] ==> c in catalog[id] || c in inherited))
            && (forall id :: id in chosen && id !in requested ==>
                  chosen[id] == set c | c in catalog[id] && catalog[id][c])
  {
    hide ClosedUnderProviders, Demanded;
    if LeastClosed(modules, requested.Keys, chosen.Keys) && chosen.Keys <= modules.Keys {
      forall id | id in chosen
        ensures chosen[id] == Chosen(catalog[id], requested, id) && Acceptable(catalog[id], inherited, chosen[id]) <==>
                if id in requested
                then chosen[id] == requested[id]
                     && (forall c :: c in catalog[id] && catalog[id][c] ==> c in requested[id])
                     && (forall c :: c in requested[id] ==> c in catalog[id] || c in inherited)
                else chosen[id] == set c | c in catalog[id] && catalog[id][c]
      {
      }
      hide Chosen, Acceptable;
    }
  }

  /** Such a request: the required component of a module and `constructor`. */
  lemma InheritedNameSplitsResolvers(inherited: set<Name>)
    returns (modules: Catalog, catalog: map<Name, Components>, entries: seq<Selection>)
    requires Name("constructor") in inherited
    ensures modules.Keys <= catalog.Keys && DistinctIds(entries) && entries != []
    ensures Composable(modules, catalog, inherited, Request([] + entries))
    ensures !Composable(modules, catalog, {}, Request(entries))
  {
    var m, core, odd := Name("m"), Name("core"), Name("constructor");
    assert |core.text| != |odd.text|;
    modules := map[m := Module("1", {}, {}, {}, Skills({}, {}, {}), {}, "")];
    catalog := map[m := map[core := true]];
    entries := [Selection(m, {core, odd})];
    assert [] + entries == entries && entries[0] in entries;
    OneEntry(entries[0]);
    var requested := Request(entries);
    LoneModule(modules, m);
    var chosen := map[m := {core, odd}];
    assert chosen.Keys == {m} == modules.Keys && requested == chosen;
    assert Required(catalog[m]) == {core};
    assert Acceptable(catalog[m], inherited, {core, odd});
    assert Composes(modules, catalog, inherited, requested, chosen);
    assert odd in (requested[m] - catalog[m].Keys) * inherited;
    ResolversAgreeIff(modules, catalog, inherited, entries, [], entries);
  }

  lemma OneEntry(e: Selection)
    ensures Request([e]) == map[e.id := e.components]
  {
    assert e in [e];
    assert Ids([e]) == {e.id} && Wanted([e], e.id) == e.components;
  }

  /** A need that nothing provides is met exactly when its name starts with `external:`. */
  lemma UnprovidedNeedIff(m: Name, need: Name)
    ensures Solvable(map[m := Module("1", {}, {need}, {}, Skills({}, {}, {}), {}, "")], {m}) <==>
            exists rest :: need.text == "external:" + rest
  {
    var modules := map[m := Module("1", {}, {need}, {}, Skills({}, {}, {}), {}, "")];
    assert UniqueProviders(modules);
    assert Demanded(modules, {m}, m);
    assert Supplied(modules, m) <==> IsExternal(need) by {
      assert need in modules[m].needs;
    }
    if IsExternal(need) {
      assert need.text == "external:" + need.text[|"external:"|..];
      forall a | Demanded(modules, {m}, a) ensures Supplied(modules, a) {
        assert ClosedUnderProviders(modules, {m});
        assert a in {m};
      }
    }
  }

  /** A module alone in its catalog that needs nothing resolves to itself. */
  lemma LoneModule(modules: Catalog, m: Name)
    requires modules.Keys == {m} && modules[m].needs == {} && modules[m].conflicts == {}
    ensures Solvable(modules, {m}) && LeastClosed(modules, {m}, {m}) && ConflictFree(modules, {m})
  {
    assert UniqueProviders(modules);
    assert ClosedUnderProviders(modules, {m});
    forall s: set<Name> | {m} <= s ensures m in s {
    }
    forall a | Demanded(modules, {m}, a) ensures Supplied(modules, a) {
      assert a in {m};
    }
  }
}
