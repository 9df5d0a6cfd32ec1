/** The skills a module's subject takes in, and exactly which module proofs a change of
    the shared skill digests invalidates. */
module ModuleBindings {
  import opened Wrappers
  import opened Ordering
  import opened ModulePaths
  import opened ModuleCatalog
  import opened ModuleClosure
  import opened ModuleSubjects

  // ------------------------------------------------------- what is listed

  function Get(shared: map<Name, string>, name: Name): Option<string> {
    if name in shared then Some(shared[name]) else None
  }

  /** The digest of a shared skill, an empty one counting as none. */
  function Digest(shared: map<Name, string>, name: Name): Option<string> {
    if Get(shared, name) == Some("") then None else Get(shared, name)
  }

  function Sha(digest: Option<string>): Option<InputSha> {
    if digest.Some? then Some(Bound(digest.value)) else None
  }

  lemma {:induction false} SharedListed(names: seq<Name>, scope: string, shared: map<Name, string>, optional: bool,
                                        x: SkillInput)
    ensures x in SharedSkills(names, scope, shared, optional) <==>
            && x.name in names && x.scope == scope
            && (if optional then Digest(shared, x.name).Some? && x.sha == Sha(Digest(shared, x.name))
                else x.sha == Sha(Get(shared, x.name)))
  {
    if names != [] {
      SharedListed(names[1..], scope, shared, optional, x);
      assert names == [names[0]] + names[1..];
    }
  }

  /** The entries of a repo-owned skill: those under its two directories, and for
      `openwiki-port` those under `kb-ingest/skill`. */
  function SkillFiles(entries: Index, name: Name): set<Name> {
    set p | p in entries &&
      (|| PathMatches(p.text, ".agents/skills/" + name.text) || PathMatches(p.text, ".claude/skills/" + name.text)
       || (name.text == "openwiki-port" && PathMatches(p.text, "kb-ingest/skill")))
  }

  lemma SkillFilesAre(entries: Index, name: Name)
    ensures Under(entries.Keys, SkillPrefixes(name)) == SkillFiles(entries, name)
  {
    hide PathMatches;
    forall p ensures UnderAny(p, SkillPrefixes(name)) <==>
                     || PathMatches(p.text, ".agents/skills/" + name.text)
                     || PathMatches(p.text, ".claude/skills/" + name.text)
                     || (name.text == "openwiki-port" && PathMatches(p.text, "kb-ingest/skill")) {
      PrefixesAre(p, name);
    }
    hide UnderAny, SkillPrefixes;
  }

  lemma PrefixesAre(p: Name, name: Name)
    ensures UnderAny(p, SkillPrefixes(name)) <==>
            || PathMatches(p.text, ".agents/skills/" + name.text)
            || PathMatches(p.text, ".claude/skills/" + name.text)
            || (name.text == "openwiki-port" && PathMatches(p.text, "kb-ingest/skill"))
  {
    hide PathMatches;
    var prefixes := SkillPrefixes(name);
    assert prefixes[0] == ".agents/skills/" + name.text && prefixes[1] == ".claude/skills/" + name.text;
    assert name.text == "openwiki-port" ==> prefixes[2] == "kb-ingest/skill";
  }

  lemma {:induction false} RepoListed(names: seq<Name>, entries: Index, x: SkillInput)
    ensures x in RepoSkills(names, entries) <==>
            && x.name in names && x.scope == "repo-owned" && x.sha == EntriesSha(entries, SkillFiles(entries, x.name))
  {
    hide SkillPrefixes, SkillFiles, Under;
    forall n ensures Under(entries.Keys, SkillPrefixes(n)) == SkillFiles(entries, n) {
      SkillFilesAre(entries, n);
    }
    if x.name in names {
      var i :| 0 <= i < |names| && names[i] == x.name;
      assert RepoSkills(names, entries)[i] in RepoSkills(names, entries);
    }
  }

  /** Exactly the inputs listed: every required skill with its digest or none, an optional
      one if it has a digest, and every repo-owned skill with its files. */
  lemma SkillListed(m: Module, shared: map<Name, string>, entries: Index, x: SkillInput)
    ensures x in SkillInputs(m, shared, entries) <==>
            || (x.scope == "shared" && x.name in m.skills.required && x.sha == Sha(Get(shared, x.name)))
            || (x.scope == "shared-optional" && x.name in m.skills.optional
                && Digest(shared, x.name).Some? && x.sha == Sha(Digest(shared, x.name)))
            || (x.scope == "repo-owned" && x.name in m.skills.repoOwned
                && x.sha == EntriesSha(entries, SkillFiles(entries, x.name)))
  {
    hide SharedSkills, RepoSkills, EntriesSha, SkillFiles;
    SharedListed(Sorted(m.skills.required), "shared", shared, false, x);
    SharedListed(Sorted(m.skills.optional), "shared-optional", shared, true, x);
    RepoListed(Sorted(m.skills.repoOwned), entries, x);
  }

  /** An absent input is one without entries, and the count is that of the digested files. */
  lemma LocalCounts(id: Name, m: Module, shared: map<Name, string>, entries: Index, paths: set<Name>)
    requires paths <= entries.Keys
    ensures var local := Local(id, m, shared, entries, paths);
            && local.ownedFiles == |paths|
            && (local.runtime.None? <==>
                  m.profiles == {} || forall p :: p in entries ==> !PathMatches(p.text, ".runtime-env"))
            && local.interfaceVersion == local.manifest.interfaceVersion == m.interfaceVersion
  {
    hide PathMatches, SkillInputs;
    SortedCount(paths);
    assert RUNTIME_PREFIXES[0] == ".runtime-env";
    forall p | p in entries ensures UnderAny(p, RUNTIME_PREFIXES) <==> PathMatches(p.text, ".runtime-env") {
    }
    if exists p :: p in entries && PathMatches(p.text, ".runtime-env") {
      var p :| p in entries && PathMatches(p.text, ".runtime-env");
      assert p in Under(entries.Keys, RUNTIME_PREFIXES);
    }
  }

  // ----------------------------------------------- changing the shared skills

  /** The module sees the same digests: of its required skills as they are, of its
      optional ones with an empty digest counting as none. */
  ghost predicate SameBindings(m: Module, a: map<Name, string>, b: map<Name, string>) {
    && (forall n :: n in m.skills.required ==> Get(a, n) == Get(b, n))
    && (forall n :: n in m.skills.optional ==> Digest(a, n) == Digest(b, n))
  }

  lemma {:induction false} SharedSame(names: seq<Name>, scope: string, a: map<Name, string>, b: map<Name, string>,
                                      optional: bool)
    requires forall n :: n in names ==> if optional then Digest(a, n) == Digest(b, n) else Get(a, n) == Get(b, n)
    ensures SharedSkills(names, scope, a, optional) == SharedSkills(names, scope, b, optional)
  {
    if names != [] {
      assert names[0] in names && forall n :: n in names[1..] ==> n in names;
      SharedSame(names[1..], scope, a, b, optional);
    }
  }

  lemma InputsBind(m: Module, a: map<Name, string>, b: map<Name, string>, entries: Index)
    requires SkillInputs(m, a, entries) == SkillInputs(m, b, entries)
    ensures SameBindings(m, a, b)
  {
    hide SkillInputs;
    forall n | n in m.skills.required ensures Get(a, n) == Get(b, n) {
      var x := SkillInput(n, "shared", Sha(Get(a, n)));
      SkillListed(m, a, entries, x);
      SkillListed(m, b, entries, x);
    }
    forall n | n in m.skills.optional ensures Digest(a, n) == Digest(b, n) {
      var x := SkillInput(n, "shared-optional", Sha(Digest(a, n)));
      SkillListed(m, a, entries, x);
      SkillListed(m, b, entries, x);
      var y := SkillInput(n, "shared-optional", Sha(Digest(b, n)));
      SkillListed(m, a, entries, y);
      SkillListed(m, b, entries, y);
    }
  }

  lemma InputsSameIff(m: Module, a: map<Name, string>, b: map<Name, string>, entries: Index)
    ensures SkillInputs(m, a, entries) == SkillInputs(m, b, entries) <==> SameBindings(m, a, b)
  {
    hide SharedSkills, RepoSkills, Get, Digest;
    if SameBindings(m, a, b) {
      SharedSame(Sorted(m.skills.required), "shared", a, b, false);
      SharedSame(Sorted(m.skills.optional), "shared-optional", a, b, true);
    }
    if SkillInputs(m, a, entries) == SkillInputs(m, b, entries) {
      InputsBind(m, a, b, entries);
    }
  }

  /** A change of the shared skill digests changes the closure of exactly the modules that
      reach one whose skills it touches. */
  lemma BindingInvalidatesExactly(w: World, shared: map<Name, string>, e: Index, id: Name)
    requires WorldFits(w, e) && WorldFits(w.(shared := shared), e) && id in w.selected
    requires !CyclicFrom(GraphOf(w, e), id)
    ensures Closure(GraphOf(w, e), id) != Closure(GraphOf(w.(shared := shared), e), id) <==>
            exists x :: Reaches(GraphOf(w, e), id, x) && x in w.selected
                        && !SameBindings(w.modules[x], w.shared, shared)
  {
    var g, h := GraphOf(w, e), GraphOf(w.(shared := shared), e);
    SameWalks(g, h, id);
    ExactInvalidation(g, h, id);
    hide SameBindings, SkillInputs, RuntimeInput;
    forall x | Reaches(g, id, x)
      ensures x in w.selected && (SameAt(g, h, x) <==> SameBindings(w.modules[x], w.shared, shared))
    {
      ReachesSelected(g, id, x);
      InputsSameIff(w.modules[x], w.shared, shared, e);
    }
  }
}
