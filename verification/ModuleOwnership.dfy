/** Exclusive ownership: every tracked path belongs to one module or one fallback class. */
module ModuleOwnership {
  import opened Wrappers
  import opened Ordering
  import opened ModulePaths

  datatype Kind = Generated | Evidence | Documentation | Metadata

  /** A fallback class and its path prefixes. */
  datatype OwnershipClass = OwnershipClass(id: Name, kind: Kind, paths: seq<string>)

  datatype Owner = ModuleOwner(id: Name) | ClassOwner(id: Name, kind: Kind)

  datatype OwnershipError =
    | MalformedPrefix
    | EmptyTree
    | MultiplyOwned(path: string)
    | Unowned(path: string)
    | AmbiguousClass(path: string)
    | ImplementationIn(path: string, kind: Kind)
    | StaleClassPath(id: Name, prefix: string)

  datatype Assignment = Assignment(path: string, owner: Owner)

  /** A claim is a module and one of its roots. */
  datatype Claim = Claim(id: Name, root: string)

  /** The catalog's roots, module by module in listing order. */
  type Claims = seq<Claim>

  ghost predicate RootsDisjoint(claims: Claims) {
    forall i, j :: 0 <= i < j < |claims| && claims[i].id != claims[j].id ==>
      !OwnsOverlap(claims[i].root, claims[j].root)
  }

  /** Pairwise comparison of the claims of different modules. */
  method ValidateOwnership(claims: Claims) returns (ok: bool)
    ensures ok <==> RootsDisjoint(claims)
  {
    ok := true;
    for i := 0 to |claims|
      invariant ok <==> forall k, j :: 0 <= k < i && k < j < |claims| && claims[k].id != claims[j].id ==>
        !OwnsOverlap(claims[k].root, claims[j].root)
    {
      for j := i + 1 to |claims|
        invariant ok <==>
          && (forall k, l :: 0 <= k < i && k < l < |claims| && claims[k].id != claims[l].id ==>
                !OwnsOverlap(claims[k].root, claims[l].root))
          && (forall l :: i < l < j && claims[i].id != claims[l].id ==> !OwnsOverlap(claims[i].root, claims[l].root))
      {
        if claims[i].id != claims[j].id && OwnsOverlap(claims[i].root, claims[j].root) {
          ok := false;
        }
      }
    }
  }

  predicate Claimed(path: string, claim: Claim) {
    NormalizePrefix(claim.root).Some? && PathMatches(path, NormalizePrefix(claim.root).value)
  }

  function Owners(claims: Claims, path: string): set<Name> {
    set c | c in claims && Claimed(path, c) :: c.id
  }

  predicate InClass(path: string, c: OwnershipClass) {
    exists p :: p in c.paths && PathMatches(path, p)
  }

  function Matching(classes: seq<OwnershipClass>, path: string): (r: seq<OwnershipClass>)
    ensures forall c :: c in r <==> c in classes && InClass(path, c)
  {
    if classes == [] then []
    else if InClass(path, classes[0]) then [classes[0]] + Matching(classes[1..], path)
    else Matching(classes[1..], path)
  }

  function ClassIds(matching: seq<OwnershipClass>): set<Name> {
    set c | c in matching :: c.id
  }

  /** Who owns a normal path; `implementation` tells source files by suffix. */
  function OwnerOf(claims: Claims, classes: seq<OwnershipClass>, implementation: string -> bool, path: string)
    : Result<Owner, OwnershipError>
  {
    var owners := Owners(claims, path);
    var matching := Matching(classes, path);
    if |owners| > 1 then Err(MultiplyOwned(path))
    else if |owners| == 1 then Ok(ModuleOwner(Least(owners)))
    else if matching == [] then Err(Unowned(path))
    else if |ClassIds(matching)| > 1 then Err(AmbiguousClass(path))
    else if matching[0].kind in {Generated, Evidence} && implementation(path) then
      Err(ImplementationIn(path, matching[0].kind))
    else Ok(ClassOwner(matching[0].id, matching[0].kind))
  }

  lemma ClaimsExclude(claims: Claims, raw: string, c: Claim, d: Claim)
    requires RootsDisjoint(claims) && NormalizePrefix(raw).Some?
    requires c in claims && d in claims && c.id != d.id && Claimed(NormalizePrefix(raw).value, c)
    ensures !Claimed(NormalizePrefix(raw).value, d)
  {
    var i :| 0 <= i < |claims| && claims[i] == c;
    var j :| 0 <= j < |claims| && claims[j] == d;
    assert !OwnsOverlap(c.root, d.root);
    if Claimed(NormalizePrefix(raw).value, d) {
      CommonPathOverlaps(raw, c.root, d.root);
    }
  }

  /** Disjoint roots leave no path with two owners: component-wise overlap of the
      roots is at least as strict as the string test made on each path. */
  lemma DisjointRootsOwnOnce(
      claims: Claims, classes: seq<OwnershipClass>, implementation: string -> bool, raw: string)
    requires RootsDisjoint(claims) && NormalizePrefix(raw).Some?
    ensures |Owners(claims, NormalizePrefix(raw).value)| <= 1
    ensures OwnerOf(claims, classes, implementation, NormalizePrefix(raw).value)
            != Err(MultiplyOwned(NormalizePrefix(raw).value))
  {
    var path := NormalizePrefix(raw).value;
    var owners := Owners(claims, path);
    if owners != {} {
      var a := Least(owners);
      var c :| c in claims && c.id == a && Claimed(path, c);
      forall b | b in owners ensures b == a {
        var d :| d in claims && d.id == b && Claimed(path, d);
        if b != a {
          ClaimsExclude(claims, raw, c, d);
        }
      }
      assert owners == {a};
    }
  }

  /** Different modules' roots are disjoint exactly when no path lies under two of them. */
  lemma DisjointIffOwnedOnce(claims: Claims)
    requires forall c :: c in claims ==> NormalizePrefix(c.root).Some?
    ensures RootsDisjoint(claims) <==>
            forall raw, a, b ::
              (&& NormalizePrefix(raw).Some?
               && a in Owners(claims, NormalizePrefix(raw).value) && b in Owners(claims, NormalizePrefix(raw).value))
              ==> a == b
  {
    hide NormalizePrefix, OwnsOverlap, Claimed;
    if RootsDisjoint(claims) {
      forall raw, a, b | NormalizePrefix(raw).Some? && a in Owners(claims, NormalizePrefix(raw).value)
                         && b in Owners(claims, NormalizePrefix(raw).value)
        ensures a == b
      {
        var path := NormalizePrefix(raw).value;
        var c :| c in claims && c.id == a && Claimed(path, c);
        var d :| d in claims && d.id == b && Claimed(path, d);
        if a != b {
          ClaimsExclude(claims, raw, c, d);
        }
      }
    } else {
      var i, j :| 0 <= i < j < |claims| && claims[i].id != claims[j].id
                  && OwnsOverlap(claims[i].root, claims[j].root);
      var c, d := claims[i], claims[j];
      assert c in claims && d in claims;
      OverlapIsClaimed(c, d);
      var raw :| NormalizePrefix(raw).Some? && Claimed(NormalizePrefix(raw).value, c)
                 && Claimed(NormalizePrefix(raw).value, d);
      assert c.id in Owners(claims, NormalizePrefix(raw).value) && d.id in Owners(claims, NormalizePrefix(raw).value);
    }
  }

  /** Of two overlapping roots the longer one lies under both. */
  lemma OverlapIsClaimed(c: Claim, d: Claim)
    requires NormalizePrefix(c.root).Some? && NormalizePrefix(d.root).Some? && OwnsOverlap(c.root, d.root)
    ensures exists raw :: NormalizePrefix(raw).Some? && Claimed(NormalizePrefix(raw).value, c)
                          && Claimed(NormalizePrefix(raw).value, d)
  {
    hide NormalizePrefix, Claimed, Parts;
    var raw := if Parts(c.root) <= Parts(d.root) then d.root else c.root;
    ClaimedIffPrefix(c, raw);
    ClaimedIffPrefix(d, raw);
  }

  // ------------------------------------------------------------ the snapshot

  datatype Snapshot = Snapshot(assignments: seq<Assignment>, counts: map<Owner, nat>)

  /** The normal form of a tracked path and its owner, when it has exactly one. */
  function AssignmentOf(claims: Claims, classes: seq<OwnershipClass>, implementation: string -> bool, tracked: Name)
    : Option<Assignment>
  {
    match NormalizePrefix(tracked.text)
    case None => None
    case Some(path) =>
      match OwnerOf(claims, classes, implementation, path)
      case Err(_) => None
      case Ok(owner) => Some(Assignment(path, owner))
  }

  /** Some path assigned to the class lies under its prefix. */
  ghost predicate Used(done: seq<Assignment>, id: Name, prefix: string) {
    exists a :: a in done && UsedBy(a, id, prefix)
  }

  ghost predicate AllUsed(done: seq<Assignment>, classes: seq<OwnershipClass>) {
    forall c, p :: c in classes && p in c.paths ==> Used(done, c.id, p)
  }

  function OwnersOf(done: seq<Assignment>): (r: seq<Owner>)
    ensures |r| == |done|
    ensures forall i :: 0 <= i < |r| ==> r[i] == done[i].owner
  {
    if done == [] then [] else OwnersOf(done[..|done| - 1]) + [done[|done| - 1].owner]
  }

  /** The counts are the multiplicities of the owners, so they sum to the assignments. */
  ghost predicate CountsOf(counts: map<Owner, nat>, done: seq<Assignment>) {
    && (forall o :: o in counts <==> o in OwnersOf(done))
    && (forall o :: o in counts ==> counts[o] == multiset(OwnersOf(done))[o])
  }

  ghost predicate UsedByTracked(claims: Claims, classes: seq<OwnershipClass>, implementation: string -> bool,
                                tracked: set<Name>, id: Name, prefix: string)
  {
    exists q :: q in tracked && AssignmentOf(claims, classes, implementation, q).Some?
                && UsedBy(AssignmentOf(claims, classes, implementation, q).value, id, prefix)
  }

  /** Every tracked path has exactly one owner and no fallback prefix is stale. */
  ghost predicate FullyCovered(claims: Claims, classes: seq<OwnershipClass>, implementation: string -> bool,
                               tracked: set<Name>)
  {
    && tracked != {}
    && (forall c :: c in claims ==> NormalizePrefix(c.root).Some?)
    && (forall q :: q in tracked ==> AssignmentOf(claims, classes, implementation, q).Some?)
    && (forall c, p :: c in classes && p in c.paths ==>
          UsedByTracked(claims, classes, implementation, tracked, c.id, p))
  }

  // --------------------------------------------------- who owns what, by components

  /** The module has a root whose components start the path's. */
  ghost predicate Leads(claims: Claims, id: Name, path: string) {
    exists c :: c in claims && c.id == id && NormalizePrefix(c.root).Some? && Parts(c.root) <= Parts(path)
  }

  /** The first class with a prefix of the path is of this kind. */
  ghost predicate FirstOfKind(classes: seq<OwnershipClass>, path: string, kind: Kind) {
    exists i :: 0 <= i < |classes| && InClass(path, classes[i]) && classes[i].kind == kind
                && forall j :: 0 <= j < i ==> !InClass(path, classes[j])
  }

  /** The normal form of the tracked path belongs to the one module that leads to it or,
      if none does, to the one class with a prefix of it, unless an implementation file
      lies in generated or evidence files. */
  ghost predicate Belongs(claims: Claims, classes: seq<OwnershipClass>, implementation: string -> bool,
                          tracked: Name, a: Assignment)
  {
    && NormalizePrefix(tracked.text) == Some(a.path)
    && match a.owner
       case ModuleOwner(id) => forall m :: Leads(claims, m, tracked.text) <==> m == id
       case ClassOwner(id, kind) =>
         && (forall m :: !Leads(claims, m, tracked.text))
         && (forall c :: c in classes && InClass(a.path, c) ==> c.id == id)
         && (exists c :: c in classes && c.id == id && InClass(a.path, c))
         && FirstOfKind(classes, a.path, kind)
         && !(kind in {Generated, Evidence} && implementation(a.path))
  }

  /** The tree is not empty, every root is a path, every tracked path belongs somewhere
      and every prefix of a class leads to a path that belongs to it. */
  ghost predicate Covered(claims: Claims, classes: seq<OwnershipClass>, implementation: string -> bool,
                          tracked: set<Name>)
  {
    && tracked != {}
    && (forall c :: c in claims ==> NormalizePrefix(c.root).Some?)
    && (forall q :: q in tracked ==> exists a :: Belongs(claims, classes, implementation, q, a))
    && (forall c, p :: c in classes && p in c.paths ==>
          exists q, a :: q in tracked && Belongs(claims, classes, implementation, q, a)
                         && a.owner.ClassOwner? && a.owner.id == c.id && PathMatches(a.path, p))
  }

  lemma ClaimedIffPrefix(claim: Claim, tracked: string)
    requires NormalizePrefix(tracked).Some?
    ensures Claimed(NormalizePrefix(tracked).value, claim) <==>
            NormalizePrefix(claim.root).Some? && Parts(claim.root) <= Parts(tracked)
  {
    hide Join, Parts, IsBlank, PathMatches;
    PartsAreClean(tracked);
    PartsAreClean(claim.root);
    if NormalizePrefix(claim.root).Some? {
      MatchesIffPrefix(Parts(tracked), Parts(claim.root));
    }
  }

  lemma OwnersLead(claims: Claims, tracked: string, id: Name)
    requires NormalizePrefix(tracked).Some?
    ensures id in Owners(claims, NormalizePrefix(tracked).value) <==> Leads(claims, id, tracked)
  {
    hide NormalizePrefix, Claimed;
    forall c | c in claims
      ensures Claimed(NormalizePrefix(tracked).value, c) <==>
              NormalizePrefix(c.root).Some? && Parts(c.root) <= Parts(tracked)
    {
      ClaimedIffPrefix(c, tracked);
    }
  }

  lemma {:induction false} FirstMatches(classes: seq<OwnershipClass>, path: string)
    requires Matching(classes, path) != []
    ensures exists i :: 0 <= i < |classes| && Matching(classes, path)[0] == classes[i] && InClass(path, classes[i])
                        && forall j :: 0 <= j < i ==> !InClass(path, classes[j])
  {
    if InClass(path, classes[0]) {
      assert Matching(classes, path)[0] == classes[0];
    } else {
      FirstMatches(classes[1..], path);
      var i :| 0 <= i < |classes[1..]| && Matching(classes, path)[0] == classes[1..][i]
               && InClass(path, classes[1..][i]) && forall j :: 0 <= j < i ==> !InClass(path, classes[1..][j]);
      assert classes[i + 1] == classes[1..][i];
      forall j | 0 <= j < i + 1 ensures !InClass(path, classes[j]) {
        assert j > 0 ==> classes[j] == classes[1..][j - 1];
      }
    }
  }

  lemma KindOfFirst(classes: seq<OwnershipClass>, path: string, kind: Kind)
    ensures FirstOfKind(classes, path, kind) <==>
            Matching(classes, path) != [] && Matching(classes, path)[0].kind == kind
  {
    hide InClass;
    if Matching(classes, path) != [] {
      FirstMatches(classes, path);
      var i :| 0 <= i < |classes| && Matching(classes, path)[0] == classes[i] && InClass(path, classes[i])
               && forall j :: 0 <= j < i ==> !InClass(path, classes[j]);
      if FirstOfKind(classes, path, kind) {
        var k :| 0 <= k < |classes| && InClass(path, classes[k]) && classes[k].kind == kind
                 && forall j :: 0 <= j < k ==> !InClass(path, classes[j]);
        assert k == i;
      }
    }
    if FirstOfKind(classes, path, kind) {
      var k :| 0 <= k < |classes| && InClass(path, classes[k]) && classes[k].kind == kind;
      assert classes[k] in Matching(classes, path);
    }
  }

  lemma OneElement(s: set<Name>, id: Name)
    ensures |s| == 1 && id in s <==> forall x :: x in s <==> x == id
    ensures |s| > 1 ==> exists x :: x in s && x != id
  {
    if id in s {
      assert s == {id} + (s - {id});
      if s - {id} != {} {
        var x :| x in s - {id};
        assert x in s && x != id;
      }
    } else if |s| > 1 {
      var x :| x in s;
    }
    if forall x :: x in s <==> x == id {
      assert s == {id};
    }
  }

  lemma ClassIdIff(classes: seq<OwnershipClass>, path: string, id: Name)
    ensures id in ClassIds(Matching(classes, path)) <==> exists c :: c in classes && c.id == id && InClass(path, c)
  {
    hide InClass, Matching;
    if exists c :: c in classes && c.id == id && InClass(path, c) {
      var c :| c in classes && c.id == id && InClass(path, c);
      assert c in Matching(classes, path);
    }
  }

  lemma ClassIdsAre(classes: seq<OwnershipClass>, path: string, id: Name)
    ensures (|ClassIds(Matching(classes, path))| == 1 && id in ClassIds(Matching(classes, path))) <==>
            && (forall c :: c in classes && InClass(path, c) ==> c.id == id)
            && (exists c :: c in classes && c.id == id && InClass(path, c))
  {
    hide InClass, Matching, ClassIds;
    var ids := ClassIds(Matching(classes, path));
    forall x ensures x in ids <==> exists c :: c in classes && c.id == x && InClass(path, c) {
      ClassIdIff(classes, path, x);
    }
    OneElement(ids, id);
    if |ids| == 1 && id in ids {
      forall c | c in classes && InClass(path, c) ensures c.id == id {
        assert c.id in ids;
      }
    }
    if (forall c :: c in classes && InClass(path, c) ==> c.id == id) && id in ids {
      forall x ensures x in ids <==> x == id {
        ClassIdIff(classes, path, x);
      }
    }
  }

  lemma HeadInClassIds(matching: seq<OwnershipClass>)
    requires matching != []
    ensures matching[0].id in ClassIds(matching)
  {
    assert matching[0] in matching;
  }

  lemma OwnerIsModuleIff(claims: Claims, classes: seq<OwnershipClass>, implementation: string -> bool,
                         tracked: string, id: Name)
    requires NormalizePrefix(tracked).Some?
    ensures OwnerOf(claims, classes, implementation, NormalizePrefix(tracked).value) == Ok(ModuleOwner(id)) <==>
            forall m :: Leads(claims, m, tracked) <==> m == id
  {
    hide NormalizePrefix, Owners, Matching, ClassIds;
    var owners := Owners(claims, NormalizePrefix(tracked).value);
    forall m ensures m in owners <==> Leads(claims, m, tracked) {
      OwnersLead(claims, tracked, m);
    }
    OneElement(owners, id);
    hide Leads;
    if |owners| == 1 {
      OneElement(owners, Least(owners));
    }
  }

  lemma OwnerIsClassIff(claims: Claims, classes: seq<OwnershipClass>, implementation: string -> bool,
                        tracked: string, id: Name, kind: Kind)
    requires NormalizePrefix(tracked).Some?
    ensures var path := NormalizePrefix(tracked).value;
            OwnerOf(claims, classes, implementation, path) == Ok(ClassOwner(id, kind)) <==>
            && (forall m :: !Leads(claims, m, tracked))
            && (forall c :: c in classes && InClass(path, c) ==> c.id == id)
            && (exists c :: c in classes && c.id == id && InClass(path, c))
            && FirstOfKind(classes, path, kind)
            && !(kind in {Generated, Evidence} && implementation(path))
  {
    hide NormalizePrefix, Owners, InClass;
    var path := NormalizePrefix(tracked).value;
    var owners, matching := Owners(claims, path), Matching(classes, path);
    forall m ensures m in owners <==> Leads(claims, m, tracked) {
      OwnersLead(claims, tracked, m);
    }
    ClassIdsAre(classes, path, id);
    KindOfFirst(classes, path, kind);
    hide Leads, FirstOfKind, Matching, ClassIds;
    assert owners == {} <==> forall m :: !Leads(claims, m, tracked);
    if matching != [] {
      HeadInClassIds(matching);
      OneElement(ClassIds(matching), matching[0].id);
    }
  }

  /** A tracked path is assigned exactly where it belongs. */
  lemma AssignedIffBelongs(claims: Claims, classes: seq<OwnershipClass>, implementation: string -> bool,
                           tracked: Name, a: Assignment)
    ensures AssignmentOf(claims, classes, implementation, tracked) == Some(a) <==>
            Belongs(claims, classes, implementation, tracked, a)
  {
    hide OwnerOf, NormalizePrefix, Leads, InClass, FirstOfKind;
    if NormalizePrefix(tracked.text).Some? {
      match a.owner
      case ModuleOwner(id) => OwnerIsModuleIff(claims, classes, implementation, tracked.text, id);
      case ClassOwner(id, kind) => OwnerIsClassIff(claims, classes, implementation, tracked.text, id, kind);
    }
  }

  /** The refusal says why no single owner was found. */
  ghost predicate Explains(claims: Claims, classes: seq<OwnershipClass>, implementation: string -> bool,
                           tracked: string, e: OwnershipError)
  {
    && NormalizePrefix(tracked).Some?
    && var path := NormalizePrefix(tracked).value;
       match e
       case MultiplyOwned(p) =>
         p == path && exists a, b :: a != b && Leads(claims, a, tracked) && Leads(claims, b, tracked)
       case Unowned(p) =>
         p == path && (forall m :: !Leads(claims, m, tracked)) && forall c :: c in classes ==> !InClass(path, c)
       case AmbiguousClass(p) =>
         && p == path && (forall m :: !Leads(claims, m, tracked))
         && exists c, d :: c in classes && d in classes && c.id != d.id && InClass(path, c) && InClass(path, d)
       case ImplementationIn(p, kind) =>
         && p == path && (forall m :: !Leads(claims, m, tracked)) && FirstOfKind(classes, path, kind)
         && kind in {Generated, Evidence} && implementation(path)
       case _ => false
  }

  lemma RefusalExplains(claims: Claims, classes: seq<OwnershipClass>, implementation: string -> bool, tracked: string)
    requires NormalizePrefix(tracked).Some?
    requires OwnerOf(claims, classes, implementation, NormalizePrefix(tracked).value).Err?
    ensures Explains(claims, classes, implementation, tracked,
                     OwnerOf(claims, classes, implementation, NormalizePrefix(tracked).value).error)
  {
    hide NormalizePrefix, Owners, InClass, ClassIds, Leads;
    var path := NormalizePrefix(tracked).value;
    var owners, matching := Owners(claims, path), Matching(classes, path);
    forall m ensures m in owners <==> Leads(claims, m, tracked) {
      OwnersLead(claims, tracked, m);
    }
    if |owners| > 1 {
      var a :| a in owners;
      OneElement(owners, a);
    } else if matching != [] {
      KindOfFirst(classes, path, matching[0].kind);
      HeadInClassIds(matching);
      OneElement(ClassIds(matching), matching[0].id);
      if |ClassIds(matching)| > 1 {
        var x :| x in ClassIds(matching) && x != matching[0].id;
        ClassIdIff(classes, path, x);
        assert matching[0] in matching;
      }
    }
  }

  lemma FullyCoveredIff(claims: Claims, classes: seq<OwnershipClass>, implementation: string -> bool,
                        tracked: set<Name>)
    ensures FullyCovered(claims, classes, implementation, tracked) <==>
            Covered(claims, classes, implementation, tracked)
  {
    hide AssignmentOf, Belongs, NormalizePrefix, PathMatches;
    forall q, a ensures AssignmentOf(claims, classes, implementation, q) == Some(a) <==>
                        Belongs(claims, classes, implementation, q, a) {
      AssignedIffBelongs(claims, classes, implementation, q, a);
    }
    forall q
      ensures AssignmentOf(claims, classes, implementation, q).Some? <==>
              exists a :: Belongs(claims, classes, implementation, q, a)
    {
      if AssignmentOf(claims, classes, implementation, q).Some? {
        assert Belongs(claims, classes, implementation, q, AssignmentOf(claims, classes, implementation, q).value);
      }
    }
    forall id, p
      ensures UsedByTracked(claims, classes, implementation, tracked, id, p) <==>
              exists q, a :: q in tracked && Belongs(claims, classes, implementation, q, a)
                             && a.owner.ClassOwner? && a.owner.id == id && PathMatches(a.path, p)
    {
      if UsedByTracked(claims, classes, implementation, tracked, id, p) {
        var q :| q in tracked && AssignmentOf(claims, classes, implementation, q).Some?
                 && UsedBy(AssignmentOf(claims, classes, implementation, q).value, id, p);
        assert Belongs(claims, classes, implementation, q, AssignmentOf(claims, classes, implementation, q).value);
      }
    }
  }

  method CheckClaims(claims: Claims) returns (ok: bool)
    ensures ok <==> forall c :: c in claims ==> NormalizePrefix(c.root).Some?
  {
    for i := 0 to |claims|
      invariant forall k :: 0 <= k < i ==> NormalizePrefix(claims[k].root).Some?
    {
      if NormalizePrefix(claims[i].root).None? {
        assert claims[i] in claims;
        return false;
      }
    }
    return true;
  }

  /** Assign each path in turn, collecting an error where there is no single owner. */
  method AssignAll(claims: Claims, classes: seq<OwnershipClass>, implementation: string -> bool, paths: seq<Name>)
    returns (done: seq<Assignment>, errors: seq<OwnershipError>)
    ensures errors == [] <==> forall p :: p in paths ==> AssignmentOf(claims, classes, implementation, p).Some?
    ensures errors == [] ==> AssignsEach(claims, classes, implementation, paths, done)
    ensures forall e :: e in errors ==>
              e == MalformedPrefix || exists p :: p in paths && Explains(claims, classes, implementation, p.text, e)
  {
    hide OwnerOf, Explains;
    done, errors := [], [];
    for i := 0 to |paths|
      invariant errors == [] ==> |done| == i && forall k :: 0 <= k < i ==>
        AssignmentOf(claims, classes, implementation, paths[k]) == Some(done[k])
      invariant errors != [] ==> exists k :: 0 <= k < i && AssignmentOf(claims, classes, implementation, paths[k]).None?
      invariant forall e :: e in errors ==>
        exists p :: p in paths && Explains(claims, classes, implementation, p.text, e)
    {
      var path := NormalizePrefix(paths[i].text);
      assert paths[i] in paths;
      if path.None? {
        return [], [MalformedPrefix];
      }
      match OwnerOf(claims, classes, implementation, path.value) {
        case Err(e) =>
          RefusalExplains(claims, classes, implementation, paths[i].text);
          errors := errors + [e];
        case Ok(o) => done := done + [Assignment(path.value, o)];
      }
    }
  }

  /** `done` assigns each path, in order. */
  ghost predicate AssignsEach(claims: Claims, classes: seq<OwnershipClass>, implementation: string -> bool,
                              paths: seq<Name>, done: seq<Assignment>)
  {
    && |done| == |paths|
    && forall k :: 0 <= k < |paths| ==> AssignmentOf(claims, classes, implementation, paths[k]) == Some(done[k])
  }

  lemma UsageMatches(claims: Claims, classes: seq<OwnershipClass>, implementation: string -> bool, tracked: set<Name>,
                     done: seq<Assignment>, id: Name, prefix: string)
    requires AssignsEach(claims, classes, implementation, Sorted(tracked), done)
    ensures Used(done, id, prefix) <==> UsedByTracked(claims, classes, implementation, tracked, id, prefix)
  {
    hide AssignmentOf, UsedBy;
    var paths := Sorted(tracked);
    if Used(done, id, prefix) {
      var k :| 0 <= k < |done| && UsedBy(done[k], id, prefix);
      assert paths[k] in paths;
    }
    if UsedByTracked(claims, classes, implementation, tracked, id, prefix) {
      var q :| q in tracked && AssignmentOf(claims, classes, implementation, q).Some?
               && UsedBy(AssignmentOf(claims, classes, implementation, q).value, id, prefix);
      var k :| 0 <= k < |paths| && paths[k] == q;
      assert done[k] in done;
    }
  }

  /** Assign every tracked path or report why not. The accepted snapshot is a
      partition: one assignment a path, in path order, to its only owner. */
  method Classify(claims: Claims, classes: seq<OwnershipClass>, implementation: string -> bool, tracked: set<Name>)
    returns (r: Result<Snapshot, seq<OwnershipError>>)
    ensures r.Ok? ==> AssignsEach(claims, classes, implementation, Sorted(tracked), r.value.assignments)
    ensures r.Ok? ==> AllUsed(r.value.assignments, classes) && CountsOf(r.value.counts, r.value.assignments)
    ensures r.Ok? <==> FullyCovered(claims, classes, implementation, tracked)
    ensures r.Ok? <==> Covered(claims, classes, implementation, tracked)
    ensures r.Ok? ==> forall k :: 0 <= k < |r.value.assignments| ==>
              Belongs(claims, classes, implementation, Sorted(tracked)[k], r.value.assignments[k])
  {
    hide Belongs, Covered;
    FullyCoveredIff(claims, classes, implementation, tracked);
    var paths := Sorted(tracked);
    if paths == [] {
      return Err([EmptyTree]);
    }
    var normal := CheckClaims(claims);
    if !normal {
      return Err([MalformedPrefix]);
    }
    var done, errors := AssignAll(claims, classes, implementation, paths);
    if errors == [MalformedPrefix] {
      return Err(errors);
    }
    var stale := StalePrefixes(done, classes);
    if errors == [] {
      forall c, p | c in classes && p in c.paths
        ensures Used(done, c.id, p) <==> UsedByTracked(claims, classes, implementation, tracked, c.id, p)
      {
        UsageMatches(claims, classes, implementation, tracked, done, c.id, p);
      }
    }
    if errors + stale != [] {
      return Err(errors + stale);
    }
    var counts := CountOwners(done);
    forall k | 0 <= k < |done| ensures Belongs(claims, classes, implementation, paths[k], done[k]) {
      AssignedIffBelongs(claims, classes, implementation, paths[k], done[k]);
    }
    return Ok(Snapshot(done, counts));
  }

  predicate UsedBy(a: Assignment, id: Name, prefix: string) {
    a.owner.ClassOwner? && a.owner.id == id && PathMatches(a.path, prefix)
  }

  /** The fallback prefixes that no assigned path uses. */
  method StalePrefixes(done: seq<Assignment>, classes: seq<OwnershipClass>) returns (stale: seq<OwnershipError>)
    ensures stale == [] <==> AllUsed(done, classes)
    ensures forall e :: e in stale ==>
              e.StaleClassPath? && (exists c :: c in classes && c.id == e.id && e.prefix in c.paths)
              && !Used(done, e.id, e.prefix)
  {
    stale := [];
    for i := 0 to |classes|
      invariant stale == [] <==> AllUsed(done, classes[..i])
      invariant forall e :: e in stale ==>
        e.StaleClassPath? && (exists c :: c in classes && c.id == e.id && e.prefix in c.paths)
        && !Used(done, e.id, e.prefix)
    {
      var c := classes[i];
      assert classes[..i + 1] == classes[..i] + [c];
      for j := 0 to |c.paths|
        invariant stale == [] <==>
          AllUsed(done, classes[..i]) && forall k :: 0 <= k < j ==> Used(done, c.id, c.paths[k])
        invariant forall e :: e in stale ==>
          e.StaleClassPath? && (exists c :: c in classes && c.id == e.id && e.prefix in c.paths)
          && !Used(done, e.id, e.prefix)
      {
        var used := 0;
        for m := 0 to |done|
          invariant used > 0 <==> exists k :: 0 <= k < m && UsedBy(done[k], c.id, c.paths[j])
        {
          if UsedBy(done[m], c.id, c.paths[j]) {
            used := used + 1;
          }
        }
        assert used > 0 <==> Used(done, c.id, c.paths[j]);
        if used == 0 {
          stale := stale + [StaleClassPath(c.id, c.paths[j])];
        }
      }
    }
    assert classes[..|classes|] == classes;
  }

  lemma OwnersOneMore(done: seq<Assignment>, a: Assignment)
    ensures OwnersOf(done + [a]) == OwnersOf(done) + [a.owner]
  {
    assert (done + [a])[..|done|] == done;
  }

  lemma CountOneMore(counts: map<Owner, nat>, done: seq<Assignment>, a: Assignment)
    requires CountsOf(counts, done)
    ensures CountsOf(counts[a.owner := (if a.owner in counts then counts[a.owner] else 0) + 1], done + [a])
  {
    hide OwnersOf;
    OwnersOneMore(done, a);
    var before := OwnersOf(done);
    assert multiset(before + [a.owner]) == multiset(before) + multiset{a.owner};
    assert a.owner in before <==> a.owner in multiset(before);
  }

  method CountOwners(done: seq<Assignment>) returns (counts: map<Owner, nat>)
    ensures CountsOf(counts, done)
  {
    counts := map[];
    for i := 0 to |done|
      invariant CountsOf(counts, done[..i])
    {
      var o := done[i].owner;
      CountOneMore(counts, done[..i], done[i]);
      assert done[..i + 1] == done[..i] + [done[i]];
      counts := counts[o := (if o in counts then counts[o] else 0) + 1];
    }
    assert done[..|done|] == done;
  }
}
