/** Which components of the selected modules a composition takes. */
module ModuleComponents {
  import opened Wrappers
  import opened Ordering

  /** One module of a request, with the components asked of it. */
  datatype Selection = Selection(id: Name, components: set<Name>)

  /** The declared components of a module; true marks a required one. */
  type Components = map<Name, bool>

  datatype ComponentError = Unknown(id: Name) | Omitted(id: Name)

  function Ids(entries: seq<Selection>): set<Name> {
    set e | e in entries :: e.id
  }

  /** Everything asked of `id`, by any entry. */
  function Wanted(entries: seq<Selection>, id: Name): set<Name> {
    set e, c | e in entries && e.id == id && c in e.components :: c
  }

  /** `mergeSelections`: the preset's entries and the project's own, as one set a module. */
  method MergeSelections(base: seq<Selection>, extra: seq<Selection>) returns (merged: map<Name, set<Name>>)
    ensures merged.Keys == Ids(base) + Ids(extra)
    ensures forall id :: id in merged ==> merged[id] == Wanted(base, id) + Wanted(extra, id)
  {
    var entries := base + extra;
    merged := map[];
    for i := 0 to |entries|
      invariant merged.Keys == Ids(entries[..i])
      invariant forall id :: id in merged ==> merged[id] == Wanted(entries[..i], id)
    {
      var e := entries[i];
      OneMoreEntry(entries[..i], e);
      assert entries[..i + 1] == entries[..i] + [e];
      merged := merged[e.id := (if e.id in merged then merged[e.id] else {}) + e.components];
    }
    assert entries[..|entries|] == entries;
    BothParts(base, extra);
  }

  lemma OneMoreEntry(entries: seq<Selection>, e: Selection)
    ensures Ids(entries + [e]) == Ids(entries) + {e.id}
    ensures forall id :: Wanted(entries + [e], id) == Wanted(entries, id) + if id == e.id then e.components else {}
    ensures e.id !in Ids(entries) ==> Wanted(entries, e.id) == {}
  {
  }

  lemma BothParts(base: seq<Selection>, extra: seq<Selection>)
    ensures Ids(base + extra) == Ids(base) + Ids(extra)
    ensures forall id :: Wanted(base + extra, id) == Wanted(base, id) + Wanted(extra, id)
  {
  }

  ghost predicate DistinctIds(entries: seq<Selection>) {
    forall i, j :: 0 <= i < j < |entries| ==> entries[i].id != entries[j].id
  }

  /** Without a preset, and with each module named once, a module gets just what
      its entry asks: there the merged request is the one the Python resolver reads. */
  lemma UnmergedRequest(entries: seq<Selection>, k: nat)
    requires DistinctIds(entries) && k < |entries|
    ensures Wanted(entries, entries[k].id) == entries[k].components
  {
    assert entries[k] in entries;
    forall e | e in entries && e.id == entries[k].id ensures e == entries[k] {
      var j :| 0 <= j < |entries| && entries[j] == e;
    }
  }

  function Required(declared: Components): set<Name> {
    set c | c in declared && declared[c]
  }

  /** What a module contributes: what was asked, or its required components if it
      was only pulled in as a provider. */
  function Chosen(declared: Components, requested: map<Name, set<Name>>, id: Name): set<Name> {
    if id in requested then requested[id] else Required(declared)
  }

  /** Required components are taken and nothing unknown is: a name passes as known if
      it is declared or in `inherited`. The Python check inherits nothing; JavaScript's
      `in` also finds the names that every object has. */
  predicate Acceptable(declared: Components, inherited: set<Name>, chosen: set<Name>) {
    Required(declared) <= chosen <= declared.Keys + inherited
  }

  method ChooseComponents(catalog: map<Name, Components>, inherited: set<Name>, selected: set<Name>,
                          requested: map<Name, set<Name>>)
    returns (r: Result<map<Name, set<Name>>, ComponentError>)
    requires selected <= catalog.Keys
    ensures r.Ok? <==>
            forall id :: id in selected ==> Acceptable(catalog[id], inherited, Chosen(catalog[id], requested, id))
    ensures r.Ok? ==> r.value.Keys == selected
                      && forall id :: id in selected ==> r.value[id] == Chosen(catalog[id], requested, id)
    ensures r.Err? ==> r.error.id in selected && r.error.id in requested
  {
    var chosen: map<Name, set<Name>> := map[];
    var todo := selected;
    while todo != {}
      invariant todo <= selected && chosen.Keys == selected - todo
      invariant forall id :: id in chosen ==> chosen[id] == Chosen(catalog[id], requested, id)
      invariant forall id :: id in chosen ==> Acceptable(catalog[id], inherited, chosen[id])
      decreases todo
    {
      var id := Least(todo);
      var mine := Chosen(catalog[id], requested, id);
      if !(mine <= catalog[id].Keys + inherited) {
        return Err(Unknown(id));
      }
      if !(Required(catalog[id]) <= mine) {
        return Err(Omitted(id));
      }
      chosen := chosen[id := mine];
      todo := todo - {id};
    }
    return Ok(chosen);
  }

  /** A preset and a project that are each acceptable stay acceptable merged, and
      only an unknown name that the project adds can break an acceptable preset. */
  lemma MergingKeepsAcceptable(declared: Components, inherited: set<Name>, base: set<Name>, extra: set<Name>)
    requires Acceptable(declared, inherited, base)
    ensures Acceptable(declared, inherited, base + extra) <==> extra <= declared.Keys + inherited
  {
    if Acceptable(declared, inherited, base + extra) {
      assert extra <= base + extra;
    }
  }

  /** The two checks differ exactly on undeclared names that are inherited. */
  lemma StrictIffNoneInherited(declared: Components, inherited: set<Name>, chosen: set<Name>)
    ensures Acceptable(declared, {}, chosen) <==>
            Acceptable(declared, inherited, chosen) && (chosen - declared.Keys) * inherited == {}
  {
    if Acceptable(declared, inherited, chosen) && (chosen - declared.Keys) * inherited == {} {
      forall c | c in chosen ensures c in declared.Keys {
        assert c !in declared.Keys ==> c in (chosen - declared.Keys) * inherited;
      }
    }
  }
}
