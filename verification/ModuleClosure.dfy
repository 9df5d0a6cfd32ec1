/** Closing module subjects over their capability providers: a memoised
    depth-first walk that digests each module together with the closures of the
    modules it depends on. */
module ModuleClosure {
  import opened Wrappers
  import opened Ordering

  type Id = Name

  datatype Provider = ExternalProvider | ModuleProvider(id: Id)
  datatype Dependency = Dependency(capability: Name, provider: Provider)

  /** A closed subject. Digests are symbolic, so a subject stands for its own
      `closure_sha256`. */
  datatype Subject<+L> = Subject(local: L, dependencies: seq<ClosedDependency<L>>)
  datatype ClosedDependency<+L> = ClosedDependency(capability: Name, provider: Provider, closureSha: ClosureSha<L>)
  datatype ClosureSha<+L> = OfDependency(dependency: Dependency) | OfSubject(subject: Subject<L>)

  /** The local subjects of the selected modules and their dependency lists. */
  datatype Graph<+L> = Graph(local: map<Id, L>, deps: map<Id, seq<Dependency>>)

  /** What `dependency_map` guarantees: a list for each module, every provider selected. */
  ghost predicate WellFormed<L>(g: Graph<L>) {
    && g.deps.Keys == g.local.Keys
    && forall id, i :: id in g.deps && 0 <= i < |g.deps[id]| && g.deps[id][i].provider.ModuleProvider? ==>
         g.deps[id][i].provider.id in g.local
  }

  // ------------------------------------------------------------------ walks

  ghost predicate Edge<L>(g: Graph<L>, a: Id, b: Id) {
    a in g.deps && exists i :: 0 <= i < |g.deps[a]| && g.deps[a][i].provider == ModuleProvider(b)
  }

  ghost predicate IsWalk<L>(g: Graph<L>, p: seq<Id>) {
    p != [] && forall k :: 0 <= k < |p| - 1 ==> Edge(g, p[k], p[k + 1])
  }

  ghost predicate WalkFrom<L>(g: Graph<L>, p: seq<Id>, a: Id) {
    IsWalk(g, p) && p[0] == a
  }

  ghost predicate Repeats(p: seq<Id>) {
    exists i, j :: 0 <= i < j < |p| && p[i] == p[j]
  }

  /** Some walk from `id` meets a module twice: a cycle, or a self-loop, is within reach. */
  ghost predicate CyclicFrom<L>(g: Graph<L>, id: Id) {
    exists p :: WalkFrom(g, p, id) && Repeats(p)
  }

  ghost predicate Acyclic<L>(g: Graph<L>) {
    forall id :: id in g.local ==> !CyclicFrom(g, id)
  }

  ghost predicate Reaches<L>(g: Graph<L>, a: Id, b: Id) {
    exists p :: WalkFrom(g, p, a) && p[|p| - 1] == b
  }

  // ---------------------------------------------- the closure, by recursion

  ghost function CloseDependency<L>(g: Graph<L>, d: Dependency, fuel: nat): Option<ClosedDependency<L>>
    decreases fuel, 1
  {
    match d.provider
    case ExternalProvider => Some(ClosedDependency(d.capability, d.provider, OfDependency(d)))
    case ModuleProvider(id) =>
      match Close(g, id, fuel) {
        case None => None
        case Some(subject) => Some(ClosedDependency(d.capability, d.provider, OfSubject(subject)))
      }
  }

  /** The closure of `id`, looking at most `fuel` modules deep. */
  ghost function Close<L>(g: Graph<L>, id: Id, fuel: nat): Option<Subject<L>>
    decreases fuel, 0
  {
    if fuel == 0 || id !in g.local || id !in g.deps then None
    else if forall i :: 0 <= i < |g.deps[id]| ==> CloseDependency(g, g.deps[id][i], fuel - 1).Some? then
      Some(Subject(
        g.local[id],
        seq(|g.deps[id]|, i requires 0 <= i < |g.deps[id]| && CloseDependency(g, g.deps[id][i], fuel - 1).Some? =>
              CloseDependency(g, g.deps[id][i], fuel - 1).value)))
    else None
  }

  /** The closure of `id`, looking deep enough for any acyclic graph. */
  ghost function Closure<L>(g: Graph<L>, id: Id): Option<Subject<L>> {
    Close(g, id, |g.local| + 1)
  }

  /** `Close` at `id` depends only on the local subject, the list and the closed dependencies. */
  lemma CloseSame<L>(g: Graph<L>, h: Graph<L>, id: Id, f: nat, e: nat)
    requires f > 0 && e > 0 && SameAt(g, h, id)
    requires forall i :: 0 <= i < |g.deps[id]| ==>
               CloseDependency(g, g.deps[id][i], f - 1) == CloseDependency(h, g.deps[id][i], e - 1)
    ensures Close(g, id, f) == Close(h, id, e)
  {
    if forall i :: 0 <= i < |g.deps[id]| ==> CloseDependency(g, g.deps[id][i], f - 1).Some? {
      assert Close(g, id, f).value.dependencies == Close(h, id, e).value.dependencies;
    }
  }

  lemma {:induction false} CloseMonotone<L>(g: Graph<L>, id: Id, fuel: nat, more: nat)
    requires Close(g, id, fuel).Some? && fuel <= more
    ensures Close(g, id, more) == Close(g, id, fuel)
    decreases fuel
  {
    forall i | 0 <= i < |g.deps[id]|
      ensures CloseDependency(g, g.deps[id][i], more - 1) == CloseDependency(g, g.deps[id][i], fuel - 1)
    {
      var d := g.deps[id][i];
      assert CloseDependency(g, d, fuel - 1).Some?;
      if d.provider.ModuleProvider? {
        CloseMonotone(g, d.provider.id, fuel - 1, more - 1);
      }
    }
    CloseSame(g, g, id, more, fuel);
  }

  /** A closure exists only if no walk repeats: rotate the cycle while the fuel runs down. */
  lemma {:induction false} ClosedIsAcyclic<L>(g: Graph<L>, id: Id, fuel: nat, p: seq<Id>, i: nat, j: nat)
    requires Close(g, id, fuel).Some?
    requires WalkFrom(g, p, id) && i < j < |p| && p[i] == p[j]
    ensures false
    decreases fuel
  {
    assert Edge(g, p[0], p[1]);
    var k :| 0 <= k < |g.deps[id]| && g.deps[id][k].provider == ModuleProvider(p[1]);
    assert CloseDependency(g, g.deps[id][k], fuel - 1).Some?;
    assert Close(g, p[1], fuel - 1).Some?;
    if i > 0 {
      var q := p[1..];
      assert IsWalk(g, q) by {
        forall m | 0 <= m < |q| - 1 ensures Edge(g, q[m], q[m + 1]) {
          assert Edge(g, p[m + 1], p[m + 2]);
        }
      }
      ClosedIsAcyclic(g, p[1], fuel - 1, q, i - 1, j - 1);
    } else {
      var q := p[1..j + 1] + [p[1]];
      assert IsWalk(g, q) by {
        forall m | 0 <= m < |q| - 1 ensures Edge(g, q[m], q[m + 1]) {
          if m < j - 1 {
            assert Edge(g, p[m + 1], p[m + 2]);
          }
        }
      }
      ClosedIsAcyclic(g, p[1], fuel - 1, q, 0, j);
    }
  }

  /** Without a closure at this depth there is a walk longer than the depth. */
  lemma {:induction false} OpenHasLongWalk<L>(g: Graph<L>, id: Id, fuel: nat) returns (p: seq<Id>)
    requires WellFormed(g) && id in g.local
    requires Close(g, id, fuel).None?
    ensures WalkFrom(g, p, id) && |p| == fuel + 1
    ensures forall x :: x in p ==> x in g.local
    decreases fuel
  {
    if fuel == 0 {
      p := [id];
    } else {
      var i :| 0 <= i < |g.deps[id]| && CloseDependency(g, g.deps[id][i], fuel - 1).None?;
      var next := g.deps[id][i].provider.id;
      var rest := OpenHasLongWalk(g, next, fuel - 1);
      p := [id] + rest;
      forall k | 0 <= k < |p| - 1 ensures Edge(g, p[k], p[k + 1]) {
        if k > 0 {
          assert Edge(g, rest[k - 1], rest[k]);
        }
      }
    }
  }

  lemma {:induction false} Pigeonhole(p: seq<Id>, s: set<Id>)
    requires forall x :: x in p ==> x in s
    requires |p| > |s|
    ensures Repeats(p)
  {
    assert p[0] in p;
    if p[0] in p[1..] {
      var j :| 0 <= j < |p[1..]| && p[1..][j] == p[0];
      assert p[0] == p[j + 1];
    } else {
      var q := p[1..];
      forall x | x in q ensures x in s - {p[0]} {
        assert x in p;
      }
      Pigeonhole(q, s - {p[0]});
      var i, j :| 0 <= i < j < |q| && q[i] == q[j];
      assert p[i + 1] == p[j + 1];
    }
  }

  /** The closure exists exactly when no cycle is within reach. */
  lemma ClosureIffAcyclic<L>(g: Graph<L>, id: Id)
    requires WellFormed(g) && id in g.local
    ensures Closure(g, id).Some? <==> !CyclicFrom(g, id)
  {
    if Closure(g, id).Some? {
      if CyclicFrom(g, id) {
        var p :| WalkFrom(g, p, id) && Repeats(p);
        var i, j :| 0 <= i < j < |p| && p[i] == p[j];
        ClosedIsAcyclic(g, id, |g.local| + 1, p, i, j);
      }
    } else {
      var p := OpenHasLongWalk(g, id, |g.local| + 1);
      Pigeonhole(p, g.local.Keys);
    }
  }

  lemma AllClosed<L>(g: Graph<L>, resolved: map<Id, Subject<L>>)
    requires WellFormed(g)
    requires forall id :: id in g.local ==> id in resolved && Closure(g, id) == Some(resolved[id])
    ensures Acyclic(g)
  {
    forall id | id in g.local ensures !CyclicFrom(g, id) {
      ClosureIffAcyclic(g, id);
    }
  }

  /** Once every dependency is closed the module closes over exactly those closures. */
  lemma ClosureStep<L>(g: Graph<L>, id: Id)
    requires WellFormed(g) && id in g.local
    requires forall i :: 0 <= i < |g.deps[id]| ==> CloseDependency(g, g.deps[id][i], |g.local| + 1).Some?
    ensures Closure(g, id) == Close(g, id, |g.local| + 2) && Closure(g, id).Some?
  {
    if CyclicFrom(g, id) {
      var p :| WalkFrom(g, p, id) && Repeats(p);
      var i, j :| 0 <= i < j < |p| && p[i] == p[j];
      ClosedIsAcyclic(g, id, |g.local| + 2, p, i, j);
    }
    ClosureIffAcyclic(g, id);
    CloseMonotone(g, id, |g.local| + 1, |g.local| + 2);
  }

  // ----------------------------------------------------- exact invalidation

  /** The two graphs agree on `x`. */
  ghost predicate SameAt<L>(g: Graph<L>, h: Graph<L>, x: Id) {
    x in g.local && x in h.local && x in g.deps && x in h.deps && g.local[x] == h.local[x] && g.deps[x] == h.deps[x]
  }

  lemma {:induction false} EqualClosuresAgree<L>(g: Graph<L>, h: Graph<L>, p: seq<Id>, f: nat, e: nat)
    requires IsWalk(g, p)
    requires Close(g, p[0], f).Some? && Close(g, p[0], f) == Close(h, p[0], e)
    ensures SameAt(g, h, p[|p| - 1])
    decreases |p|
  {
    var id := p[0];
    var ds, cs := g.deps[id], Close(g, id, f).value.dependencies;
    assert |h.deps[id]| == |ds|;
    forall i | 0 <= i < |ds| ensures h.deps[id][i] == ds[i] {
      assert cs[i] == CloseDependency(g, ds[i], f - 1).value;
      assert cs[i] == CloseDependency(h, h.deps[id][i], e - 1).value;
    }
    if |p| > 1 {
      assert Edge(g, p[0], p[1]);
      var k :| 0 <= k < |ds| && ds[k].provider == ModuleProvider(p[1]);
      assert cs[k] == CloseDependency(g, ds[k], f - 1).value;
      assert cs[k] == CloseDependency(h, ds[k], e - 1).value;
      var q := p[1..];
      forall m | 0 <= m < |q| - 1 ensures Edge(g, q[m], q[m + 1]) {
        assert Edge(g, p[m + 1], p[m + 2]);
      }
      EqualClosuresAgree(g, h, q, f - 1, e - 1);
    }
  }

  lemma {:induction false} AgreeingGraphsClose<L>(g: Graph<L>, h: Graph<L>, id: Id, fuel: nat)
    requires forall x :: Reaches(g, id, x) ==> SameAt(g, h, x)
    ensures Close(g, id, fuel) == Close(h, id, fuel)
    decreases fuel
  {
    assert WalkFrom(g, [id], id);
    assert Reaches(g, id, id);
    if fuel > 0 {
      forall i | 0 <= i < |g.deps[id]|
        ensures CloseDependency(g, g.deps[id][i], fuel - 1) == CloseDependency(h, h.deps[id][i], fuel - 1)
      {
        var d := g.deps[id][i];
        if d.provider.ModuleProvider? {
          forall x | Reaches(g, d.provider.id, x) ensures SameAt(g, h, x) {
            ReachesPrepend(g, id, d.provider.id, x);
          }
          AgreeingGraphsClose(g, h, d.provider.id, fuel - 1);
        }
      }
      CloseSame(g, h, id, fuel, fuel);
    }
  }

  lemma ReachesPrepend<L>(g: Graph<L>, a: Id, b: Id, c: Id)
    requires Edge(g, a, b) && Reaches(g, b, c)
    ensures Reaches(g, a, c)
  {
    var p :| WalkFrom(g, p, b) && p[|p| - 1] == c;
    var q := [a] + p;
    forall k | 0 <= k < |q| - 1 ensures Edge(g, q[k], q[k + 1]) {
      if k > 0 {
        assert Edge(g, p[k - 1], p[k]);
      }
    }
    assert WalkFrom(g, q, a);
  }

  /** Exact invalidation: a module's closure is the same in two acyclic worlds if
      and only if they agree on every module it reaches. */
  lemma ExactInvalidation<L>(g: Graph<L>, h: Graph<L>, id: Id)
    requires WellFormed(g) && WellFormed(h) && id in g.local && id in h.local
    requires !CyclicFrom(g, id) && !CyclicFrom(h, id)
    ensures Closure(g, id) == Closure(h, id) <==> forall x :: Reaches(g, id, x) ==> SameAt(g, h, x)
  {
    ClosureIffAcyclic(g, id);
    ClosureIffAcyclic(h, id);
    if Closure(g, id) == Closure(h, id) {
      forall x | Reaches(g, id, x) ensures SameAt(g, h, x) {
        var p :| WalkFrom(g, p, id) && p[|p| - 1] == x;
        EqualClosuresAgree(g, h, p, |g.local| + 1, |h.local| + 1);
      }
    }
    if forall x :: Reaches(g, id, x) ==> SameAt(g, h, x) {
      var fuel := |g.local| + |h.local| + 1;
      AgreeingGraphsClose(g, h, id, fuel);
      CloseMonotone(g, id, |g.local| + 1, fuel);
      CloseMonotone(h, id, |h.local| + 1, fuel);
    }
  }

  // ------------------------------------------------------- the memoised walk

  class Closer<L> {
    const graph: Graph<L>
    var resolved: map<Id, Subject<L>>
    var visiting: set<Id>

    constructor (g: Graph<L>)
      ensures graph == g && resolved == map[] && visiting == {}
    {
      graph, resolved, visiting := g, map[], {};
    }

    ghost predicate MemoCorrect()
      reads this
    {
      forall id :: id in resolved ==> id in graph.local && Closure(graph, id) == Some(resolved[id])
    }

    /** Visit `id`; `path` is the chain of callers, which `visiting` holds as a set. */
    method Visit(id: Id, ghost path: seq<Id>) returns (r: Result<Subject<L>, Id>)
      requires WellFormed(graph) && id in graph.local && MemoCorrect()
      requires IsWalk(graph, path + [id])
      requires forall x :: x in visiting <==> x in path
      requires visiting <= graph.local.Keys
      modifies this
      ensures r.Ok? ==> Closure(graph, id) == Some(r.value)
      ensures r.Ok? ==> MemoCorrect() && visiting == old(visiting)
      ensures r.Ok? ==> resolved.Keys >= old(resolved).Keys + {id} && resolved[id] == r.value
      ensures r.Err? ==> CyclicFrom(graph, id)
      decreases graph.local.Keys - visiting
    {
      if id in resolved {
        return Ok(resolved[id]);
      }
      if id in visiting {
        RepeatedCaller(graph, path, id);
        return Err(id);
      }
      visiting := visiting + {id};
      var closed: seq<ClosedDependency<L>> := [];
      var deps := graph.deps[id];
      for i := 0 to |deps|
        invariant MemoCorrect() && visiting == old(visiting) + {id} && resolved.Keys >= old(resolved).Keys
        invariant |closed| == i
        invariant forall k :: 0 <= k < i ==> CloseDependency(graph, deps[k], |graph.local| + 1) == Some(closed[k])
      {
        match deps[i].provider {
          case ExternalProvider =>
            closed := closed + [ClosedDependency(deps[i].capability, deps[i].provider, OfDependency(deps[i]))];
          case ModuleProvider(provider) =>
            assert Edge(graph, id, provider);
            ExtendWalk(graph, path, id, provider);
            var subject := Visit(provider, path + [id]);
            if subject.Err? {
              CyclicPrepend(graph, id, provider);
              return Err(subject.error);
            }
            closed := closed + [ClosedDependency(deps[i].capability, deps[i].provider, OfSubject(subject.value))];
        }
      }
      var subject := Subject(graph.local[id], closed);
      ClosureStep(graph, id);
      assert Closure(graph, id).value.dependencies == closed;
      resolved := resolved[id := subject];
      visiting := visiting - {id};
      return Ok(subject);
    }

    /** `close_subjects`: visit every module. It raises if and only if the graph has a cycle. */
    method CloseSubjects() returns (r: Result<map<Id, Subject<L>>, Id>)
      requires WellFormed(graph) && resolved == map[] && visiting == {}
      modifies this
      ensures r.Ok? <==> Acyclic(graph)
      ensures r.Ok? ==> r.value.Keys == graph.local.Keys
                        && forall id :: id in graph.local ==> Closure(graph, id) == Some(r.value[id])
    {
      var todo := graph.local.Keys;
      while todo != {}
        invariant todo <= graph.local.Keys
        invariant MemoCorrect() && visiting == {}
        invariant graph.local.Keys - todo <= resolved.Keys
        decreases todo
      {
        var id := Least(todo);
        assert [] + [id] == [id];
        var subject := Visit(id, []);
        if subject.Err? {
          return Err(subject.error);
        }
        todo := todo - {id};
      }
      assert graph.local.Keys - {} <= resolved.Keys;
      AllClosed(graph, resolved);
      return Ok(resolved);
    }
  }

  lemma RepeatedCaller<L>(g: Graph<L>, path: seq<Id>, id: Id)
    requires IsWalk(g, path + [id]) && id in path
    ensures CyclicFrom(g, id)
  {
    var k :| 0 <= k < |path| && path[k] == id;
    var walk := path + [id];
    var q := walk[k..];
    forall m | 0 <= m < |q| - 1 ensures Edge(g, q[m], q[m + 1]) {
      assert Edge(g, walk[k + m], walk[k + m + 1]);
    }
    assert WalkFrom(g, q, id) && q[0] == q[|q| - 1];
  }

  lemma ExtendWalk<L>(g: Graph<L>, path: seq<Id>, id: Id, next: Id)
    requires IsWalk(g, path + [id]) && Edge(g, id, next)
    ensures IsWalk(g, (path + [id]) + [next])
  {
    var q := (path + [id]) + [next];
    forall k | 0 <= k < |q| - 1 ensures Edge(g, q[k], q[k + 1]) {
      if k < |path| {
        assert Edge(g, (path + [id])[k], (path + [id])[k + 1]);
      }
    }
  }

  lemma CyclicPrepend<L>(g: Graph<L>, a: Id, b: Id)
    requires Edge(g, a, b) && CyclicFrom(g, b)
    ensures CyclicFrom(g, a)
  {
    var p :| WalkFrom(g, p, b) && Repeats(p);
    var i, j :| 0 <= i < j < |p| && p[i] == p[j];
    var q := [a] + p;
    forall k | 0 <= k < |q| - 1 ensures Edge(g, q[k], q[k + 1]) {
      if k > 0 {
        assert Edge(g, p[k - 1], p[k]);
      }
    }
    assert q[i + 1] == q[j + 1];
    assert WalkFrom(g, q, a);
  }
}
