/**
 Which render roots own which deployment sources: the depth-first `visit` of `validate_sources` over the
 edges between kustomizations, the standalone owners, and the comparison with the declared owners.
 */
module RenderOwnership {
  type Path = string
  type Owner = string

  /** For each kustomization, its targets in sorted order. */
  type Edges = map<Path, seq<Path>>

  function Targets(edges: Edges, path: Path): seq<Path> {
    if path in edges then edges[path] else []
  }

  /** Every target is itself in the inventory. */
  ghost predicate Closed(edges: Edges, paths: set<Path>) {
    forall p :: p in edges ==> p in paths && forall k :: 0 <= k < |edges[p]| ==> edges[p][k] in paths
  }

  /** A walk along edges, from its first path to its last. */
  ghost predicate Walk(edges: Edges, w: seq<Path>) {
    |w| > 0 && forall i :: 0 <= i < |w| - 1 ==> w[i + 1] in Targets(edges, w[i])
  }

  ghost predicate Reaches(edges: Edges, a: Path, b: Path) {
    exists w :: Walk(edges, w) && w[0] == a && w[|w| - 1] == b
  }

  /** At least one edge is taken. */
  ghost predicate ReachesByEdge(edges: Edges, a: Path, b: Path) {
    exists w :: Walk(edges, w) && |w| > 1 && w[0] == a && w[|w| - 1] == b
  }

  ghost predicate OnCycle(edges: Edges, p: Path) {
    ReachesByEdge(edges, p, p)
  }

  /** Some path reachable from `root` is on a cycle. */
  ghost predicate CycleBelow(edges: Edges, root: Path) {
    exists p :: Reaches(edges, root, p) && OnCycle(edges, p)
  }

  lemma ReachesSelf(edges: Edges, a: Path)
    ensures Reaches(edges, a, a)
  {
    assert Walk(edges, [a]);
  }

  lemma ReachesThenEdge(edges: Edges, a: Path, b: Path, c: Path)
    requires Reaches(edges, a, b) && c in Targets(edges, b)
    ensures ReachesByEdge(edges, a, c) && Reaches(edges, a, c)
  {
    var w :| Walk(edges, w) && w[0] == a && w[|w| - 1] == b;
    var v := w + [c];
    forall i | 0 <= i < |v| - 1 ensures v[i + 1] in Targets(edges, v[i]) {
      if i < |w| - 1 {
        assert v[i + 1] == w[i + 1] && v[i] == w[i];
      }
    }
    assert Walk(edges, v) && v[|v| - 1] == c;
  }

  /** The finished paths, each ranked above everything its edges lead to. */
  ghost predicate Ranked(edges: Edges, rank: map<Path, nat>) {
    forall p, q :: p in rank && q in Targets(edges, p) ==> q in rank && rank[q] < rank[p]
  }

  lemma {:induction false} RankFalls(edges: Edges, rank: map<Path, nat>, w: seq<Path>)
    requires Ranked(edges, rank) && Walk(edges, w) && w[0] in rank
    ensures w[|w| - 1] in rank && rank[w[|w| - 1]] <= rank[w[0]]
    ensures |w| > 1 ==> rank[w[|w| - 1]] < rank[w[0]]
    decreases |w|
  {
    if |w| > 1 {
      assert w[1] in Targets(edges, w[0]);
      var v := w[1..];
      forall i | 0 <= i < |v| - 1 ensures v[i + 1] in Targets(edges, v[i]) {
        assert w[(i + 1) + 1] in Targets(edges, w[i + 1]);
      }
      RankFalls(edges, rank, v);
    }
  }

  /** A ranking that contains `root` rules out every cycle below it, and contains all that it reaches. */
  lemma RankedHasNoCycle(edges: Edges, rank: map<Path, nat>, root: Path)
    requires Ranked(edges, rank) && root in rank
    ensures !CycleBelow(edges, root)
    ensures forall p :: Reaches(edges, root, p) ==> p in rank
  {
    forall p | Reaches(edges, root, p) ensures p in rank && !OnCycle(edges, p) {
      var w :| Walk(edges, w) && w[0] == root && w[|w| - 1] == p;
      RankFalls(edges, rank, w);
      if OnCycle(edges, p) {
        var c :| Walk(edges, c) && |c| > 1 && c[0] == p && c[|c| - 1] == p;
        RankFalls(edges, rank, c);
      }
    }
  }

  /** A rank above all given ones. */
  ghost function Above(rank: map<Path, nat>): (n: nat)
    ensures forall p :: p in rank ==> rank[p] < n
  {
    AboveAll(rank, rank.Keys)
  }

  ghost function AboveAll(rank: map<Path, nat>, keys: set<Path>): (n: nat)
    requires keys <= rank.Keys
    ensures forall p :: p in keys ==> rank[p] < n
  {
    if keys == {} then 0
    else
      var p :| p in keys;
      var rest := AboveAll(rank, keys - {p});
      if rank[p] < rest then rest else rank[p] + 1
  }

  /** What one owner's visits have done: `marked` paths are its own, the finished ones are ranked. */
  ghost predicate Progress(edges: Edges, root: Path, marked: set<Path>, active: set<Path>, finished: map<Path, nat>) {
    && Ranked(edges, finished)
    && marked == active + finished.Keys
    && active !! finished.Keys
    && forall p :: p in finished ==> Reaches(edges, root, p)
  }

  /** Leaving `path` after all its targets are finished: it gets a rank above them all. */
  lemma FinishPath(edges: Edges, root: Path, marked: set<Path>, active: set<Path>, finished: map<Path, nat>, path: Path)
    requires Progress(edges, root, marked, active + {path}, finished) && path !in active
    requires Reaches(edges, root, path)
    requires forall k :: 0 <= k < |Targets(edges, path)| ==> Targets(edges, path)[k] in finished
    ensures Progress(edges, root, marked, active, finished[path := Above(finished)])
  {
    var after := finished[path := Above(finished)];
    forall p, q | p in after && q in Targets(edges, p) ensures q in after && after[q] < after[p] {
      if p == path {
        assert q in finished;
      }
    }
    assert marked == active + after.Keys;
  }

  /** The paths that lead to `path` by an edge, and `path` itself, lead to each of its targets by an edge. */
  lemma LeadsOn(edges: Edges, root: Path, path: Path, target: Path, active: set<Path>)
    requires Reaches(edges, root, path) && target in Targets(edges, path)
    requires forall p :: p in active ==> ReachesByEdge(edges, p, path)
    ensures Reaches(edges, root, target)
    ensures forall p :: p in active + {path} ==> ReachesByEdge(edges, p, target)
  {
    ReachesThenEdge(edges, root, path, target);
    forall p | p in active + {path} ensures ReachesByEdge(edges, p, target) {
      if p == path {
        ReachesSelf(edges, path);
      }
      ReachesThenEdge(edges, p, path, target);
    }
  }

  ghost function Marked(owners: map<Path, set<Owner>>, owner: Owner): set<Path> {
    set p | p in owners && owner in owners[p]
  }

  /** Nobody else's ownership differs. */
  ghost predicate SameButFor(owner: Owner, before: map<Path, set<Owner>>, after: map<Path, set<Owner>>) {
    after.Keys == before.Keys && forall p :: p in before ==> after[p] - {owner} == before[p] - {owner}
  }

  class Ownership {
    const edges: Edges
    const paths: set<Path>
    var owners: map<Path, set<Owner>>

    ghost predicate Valid()
      reads this
    {
      Closed(edges, paths) && owners.Keys == paths
    }

    constructor (edges: Edges, paths: set<Path>)
      requires Closed(edges, paths)
      ensures Valid() && this.edges == edges && this.paths == paths
      ensures forall p :: p in paths ==> owners[p] == {}
    {
      this.edges, this.paths := edges, paths;
      owners := map p | p in paths :: {};
    }

    method Mark(path: Path, owner: Owner)
      requires Valid() && path in paths
      modifies this
      ensures Valid() && SameButFor(owner, old(owners), owners)
      ensures Marked(owners, owner) == Marked(old(owners), owner) + {path}
    {
      owners := owners[path := owners[path] + {owner}];
    }

    /**
     One visit.  Every path this owner has is either active, meaning that it leads to `path` by an edge,
     or finished.  A refusal means that a cycle lies below the root.
     */
    method Visit(path: Path, owner: Owner, active: set<Path>, ghost root: Path, ghost finished: map<Path, nat>)
      returns (ok: bool, ghost finished': map<Path, nat>)
      requires Valid() && path in paths && active <= paths
      requires Progress(edges, root, Marked(owners, owner), active, finished)
      requires Reaches(edges, root, path)
      requires forall p :: p in active ==> ReachesByEdge(edges, p, path)
      modifies this
      ensures Valid() && SameButFor(owner, old(owners), owners)
      ensures !ok ==> CycleBelow(edges, root)
      ensures ok ==> Progress(edges, root, Marked(owners, owner), active, finished')
      ensures ok ==> path in finished' && finished.Keys <= finished'.Keys
      decreases paths - active, 0
    {
      finished' := finished;
      if path in active {
        assert OnCycle(edges, path);
        return false, finished;
      }
      if owner in owners[path] {
        assert path in Marked(owners, owner);
        return true, finished;
      }
      assert path !in Marked(owners, owner);
      Mark(path, owner);
      assert Progress(edges, root, Marked(owners, owner), active + {path}, finished);
      ok, finished' := VisitTargets(path, owner, active, root, finished);
      if ok {
        FinishPath(edges, root, Marked(owners, owner), active, finished', path);
        finished' := finished'[path := Above(finished')];
      }
    }

    /** The targets of an active path, in order. */
    method VisitTargets(path: Path, owner: Owner, active: set<Path>, ghost root: Path, ghost finished: map<Path, nat>)
      returns (ok: bool, ghost finished': map<Path, nat>)
      requires Valid() && path in paths && active <= paths
      requires Progress(edges, root, Marked(owners, owner), active + {path}, finished)
      requires Reaches(edges, root, path)
      requires forall p :: p in active ==> ReachesByEdge(edges, p, path)
      modifies this
      ensures Valid() && SameButFor(owner, old(owners), owners)
      ensures !ok ==> CycleBelow(edges, root)
      ensures ok ==> Progress(edges, root, Marked(owners, owner), active + {path}, finished')
      ensures ok ==> finished.Keys <= finished'.Keys
      ensures ok ==> forall k :: 0 <= k < |Targets(edges, path)| ==> Targets(edges, path)[k] in finished'
      decreases paths - (active + {path}), 1
    {
      finished' := finished;
      var targets := Targets(edges, path);
      for i := 0 to |targets|
        invariant Valid() && SameButFor(owner, old(owners), owners)
        invariant Progress(edges, root, Marked(owners, owner), active + {path}, finished')
        invariant finished.Keys <= finished'.Keys
        invariant forall k :: 0 <= k < i ==> targets[k] in finished'
      {
        LeadsOn(edges, root, path, targets[i], active);
        var visited;
        visited, finished' := Visit(targets[i], owner, active + {path}, root, finished');
        if !visited {
          return false, finished;
        }
      }
      ok := true;
    }

    /** One render root: refused exactly when a cycle is reachable; else it owns exactly what it reaches. */
    method VisitRoot(root: Path, owner: Owner) returns (ok: bool)
      requires Valid() && root in paths
      requires Marked(owners, owner) == {}
      modifies this
      ensures Valid() && SameButFor(owner, old(owners), owners)
      ensures ok <==> !CycleBelow(edges, root)
      ensures ok ==> forall p :: p in Marked(owners, owner) <==> Reaches(edges, root, p)
    {
      ReachesSelf(edges, root);
      ghost var finished: map<Path, nat> := map[];
      ok, finished := Visit(root, owner, {}, root, finished);
      if ok {
        RankedHasNoCycle(edges, finished, root);
      }
    }
  }

  // ---------- the whole validation ----------

  /** The owners whose root reaches `p`. */
  ghost function RenderOwners(edges: Edges, roots: seq<(Owner, Path)>, p: Path): (r: set<Owner>)
    ensures forall o :: o in r <==> exists k :: 0 <= k < |roots| && roots[k].0 == o && Reaches(edges, roots[k].1, p)
  {
    set k | 0 <= k < |roots| && Reaches(edges, roots[k].1, p) :: roots[k].0
  }

  function StandaloneOwners(standalone: map<Path, Owner>, p: Path): set<Owner> {
    if p in standalone then {standalone[p]} else {}
  }

  lemma RootAdded(edges: Edges, roots: seq<(Owner, Path)>, i: nat, p: Path)
    requires i < |roots|
    ensures RenderOwners(edges, roots[..i + 1], p)
         == RenderOwners(edges, roots[..i], p) + (if Reaches(edges, roots[i].1, p) then {roots[i].0} else {})
  {
    var a, b := roots[..i + 1], roots[..i];
    forall o | o in RenderOwners(edges, a, p)
      ensures o in RenderOwners(edges, b, p) || (Reaches(edges, roots[i].1, p) && o == roots[i].0)
    {
      var k :| 0 <= k < |a| && a[k].0 == o && Reaches(edges, a[k].1, p);
      if k < i {
        assert b[k] == a[k];
      }
    }
    forall o | o in RenderOwners(edges, b, p) ensures o in RenderOwners(edges, a, p) {
      var k :| 0 <= k < |b| && b[k].0 == o && Reaches(edges, b[k].1, p);
      assert a[k] == b[k];
    }
    assert a[i] == roots[i];
  }

  /** What each path's owners are after the first `i` roots. */
  ghost predicate RootsDone(edges: Edges, roots: seq<(Owner, Path)>, i: nat, owners: map<Path, set<Owner>>)
    requires i <= |roots|
  {
    forall p :: p in owners ==> owners[p] == RenderOwners(edges, roots[..i], p)
  }

  ghost predicate DistinctOwners(roots: seq<(Owner, Path)>) {
    forall j, k :: 0 <= j < k < |roots| ==> roots[j].0 != roots[k].0
  }

  lemma FreshOwner(edges: Edges, roots: seq<(Owner, Path)>, i: nat, owners: map<Path, set<Owner>>)
    requires i < |roots| && DistinctOwners(roots) && RootsDone(edges, roots, i, owners)
    ensures Marked(owners, roots[i].0) == {}
  {
    forall p | p in owners ensures roots[i].0 !in owners[p] {
      assert owners[p] == RenderOwners(edges, roots[..i], p);
    }
  }

  lemma NextRootDone(edges: Edges, roots: seq<(Owner, Path)>, i: nat, before: map<Path, set<Owner>>,
                     after: map<Path, set<Owner>>)
    requires i < |roots| && DistinctOwners(roots) && RootsDone(edges, roots, i, before)
    requires SameButFor(roots[i].0, before, after)
    requires forall p :: p in Marked(after, roots[i].0) <==> Reaches(edges, roots[i].1, p)
    ensures RootsDone(edges, roots, i + 1, after)
  {
    FreshOwner(edges, roots, i, before);
    var owner := roots[i].0;
    forall p | p in after ensures after[p] == RenderOwners(edges, roots[..i + 1], p) {
      RootAdded(edges, roots, i, p);
      assert owner !in before[p] by {
        assert p !in Marked(before, owner);
      }
      assert owner in after[p] <==> Reaches(edges, roots[i].1, p) by {
        assert p in Marked(after, owner) <==> Reaches(edges, roots[i].1, p);
      }
      assert after[p] - {owner} == before[p];
      assert after[p] == before[p] + (if owner in after[p] then {owner} else {});
    }
  }

  /** The loop over the render roots. */
  method RenderAll(pass: Ownership, roots: seq<(Owner, Path)>) returns (ok: bool)
    requires pass.Valid() && DistinctOwners(roots)
    requires forall p :: p in pass.paths ==> pass.owners[p] == {}
    modifies pass
    ensures pass.Valid()
    ensures ok <==> forall k :: 0 <= k < |roots| ==> roots[k].1 in pass.edges && !CycleBelow(pass.edges, roots[k].1)
    ensures ok ==> RootsDone(pass.edges, roots, |roots|, pass.owners)
  {
    for i := 0 to |roots|
      invariant pass.Valid() && RootsDone(pass.edges, roots, i, pass.owners)
      invariant forall k :: 0 <= k < i ==> roots[k].1 in pass.edges && !CycleBelow(pass.edges, roots[k].1)
    {
      if roots[i].1 !in pass.edges {
        return false;
      }
      FreshOwner(pass.edges, roots, i, pass.owners);
      ghost var before := pass.owners;
      var visited := pass.VisitRoot(roots[i].1, roots[i].0);
      if !visited {
        return false;
      }
      NextRootDone(pass.edges, roots, i, before, pass.owners);
    }
    ok := true;
  }

  /** What `validate_sources` demands of a source: its declared owners are the actual ones, and it has one. */
  ghost predicate OwnersDeclared(edges: Edges, roots: seq<(Owner, Path)>, standalone: map<Path, Owner>,
                                 declared: map<Path, set<Owner>>, p: Path)
    requires p in declared
  {
    declared[p] == RenderOwners(edges, roots, p) + StandaloneOwners(standalone, p) && declared[p] != {}
  }

  /**
   The end of `validate_sources`.  It accepts exactly when every render root is a kustomization, no root
   reaches a cycle, and every source's declared owners are its actual ones and not empty.
   */
  method ValidateOwners(edges: Edges, paths: set<Path>, roots: seq<(Owner, Path)>, standalone: map<Path, Owner>,
                        declared: map<Path, set<Owner>>) returns (ok: bool)
    requires Closed(edges, paths) && declared.Keys == paths && standalone.Keys <= paths && DistinctOwners(roots)
    ensures ok <==>
            && (forall k :: 0 <= k < |roots| ==> roots[k].1 in edges && !CycleBelow(edges, roots[k].1))
            && (forall p :: p in paths ==> OwnersDeclared(edges, roots, standalone, declared, p))
  {
    var pass := new Ownership(edges, paths);
    ok := RenderAll(pass, roots);
    if !ok {
      return;
    }
    assert roots[..|roots|] == roots;
    var todo := paths;
    while todo != {}
      invariant todo <= paths
      invariant forall p :: p in paths - todo ==> OwnersDeclared(edges, roots, standalone, declared, p)
      decreases |todo|
    {
      var p :| p in todo;
      todo := todo - {p};
      var owners := pass.owners[p] + StandaloneOwners(standalone, p);
      assert owners == RenderOwners(edges, roots, p) + StandaloneOwners(standalone, p);
      if owners == {} || owners != declared[p] {
        assert !OwnersDeclared(edges, roots, standalone, declared, p);
        return false;
      }
    }
  }
}
