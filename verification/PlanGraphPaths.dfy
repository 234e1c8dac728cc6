/** The plan graph told by paths: which operator each node shows, and which nodes it lists. */
module PlanGraphPaths {
  import opened Common
  import opened Paths
  import opened PlanGraph
  import opened PlanGraphProofs

  /** The operator that a path of input indices leads to. */
  function At(p: PlanTree, path: Path): Option<PlanTree> {
    if path == [] then Some(p)
    else if path[0] < |p.inputs| then At(p.inputs[path[0]], path[1..])
    else None
  }

  /** The path one step up. */
  function Front(path: Path): Path
    requires path != []
  {
    path[..|path| - 1]
  }

  /** The paths to all operators of a plan, as the traversal meets them. */
  function PathsOf(p: PlanTree): (paths: seq<Path>)
    ensures |paths| == Size(p)
    decreases p, 0
  {
    [[]] + PathsFirst(p.inputs, |p.inputs|)
  }

  function PathsFirst(ps: seq<PlanTree>, k: nat): (paths: seq<Path>)
    requires k <= |ps|
    ensures |paths| == SizeFirst(ps, k)
    decreases ps, k
  {
    if k == 0 then [] else PathsFirst(ps, k - 1) + Under(k - 1, PathsOf(ps[k - 1]))
  }

  /** All paths of a plan, in order, each leading to its operator. */
  ghost predicate AllPaths(p: PlanTree, paths: seq<Path>, titles: seq<string>) {
    && |paths| == |titles| && Ascending(paths)
    && (forall i :: 0 <= i < |paths| ==> At(p, paths[i]).Some? && At(p, paths[i]).value.title == titles[i])
    && forall path :: At(p, path).Some? ==> path in paths
  }

  /** The same of those that go through the first `k` inputs. */
  ghost predicate AllPathsBelow(ps: seq<PlanTree>, k: nat, paths: seq<Path>, titles: seq<string>)
    requires k <= |ps|
  {
    && |paths| == |titles| && Ascending(paths)
    && (forall i :: 0 <= i < |paths| ==> LeadsBelow(ps, k, paths[i], titles[i]))
    && forall path :: path != [] && path[0] < k && At(ps[path[0]], path[1..]).Some? ==> path in paths
  }

  ghost predicate LeadsBelow(ps: seq<PlanTree>, k: nat, path: Path, title: string)
    requires k <= |ps|
  {
    && path != [] && path[0] < k
    && At(ps[path[0]], path[1..]).Some? && At(ps[path[0]], path[1..]).value.title == title
  }

  lemma {:induction false} PreOrderByPaths(p: PlanTree)
    ensures AllPaths(p, PathsOf(p), PreOrder(p))
    decreases p, 0
  {
    var n := |p.inputs|;
    var below := PathsFirst(p.inputs, n);
    PreOrderFirstByPaths(p.inputs, n);
    RootAndBelow(p, below, PreOrderFirst(p.inputs, n));
  }

  lemma RootAndBelow(p: PlanTree, below: seq<Path>, titles: seq<string>)
    requires AllPathsBelow(p.inputs, |p.inputs|, below, titles)
    ensures AllPaths(p, [[]] + below, [p.title] + titles)
  {
    var paths := [[]] + below;
    forall i | 0 <= i < |paths|
      ensures At(p, paths[i]).Some? && At(p, paths[i]).value.title == ([p.title] + titles)[i]
    {
      if i > 0 {
        assert LeadsBelow(p.inputs, |p.inputs|, below[i - 1], titles[i - 1]);
      }
    }
    forall path | At(p, path).Some? ensures path in paths {
      if path != [] {
        assert path in below;
      }
    }
  }

  lemma {:induction false} PreOrderFirstByPaths(ps: seq<PlanTree>, k: nat)
    requires k <= |ps|
    ensures AllPathsBelow(ps, k, PathsFirst(ps, k), PreOrderFirst(ps, k))
    decreases ps, k
  {
    if k > 0 {
      PreOrderFirstByPaths(ps, k - 1);
      PreOrderByPaths(ps[k - 1]);
      NextPaths(ps, k - 1, PathsFirst(ps, k - 1), PreOrderFirst(ps, k - 1), PathsOf(ps[k - 1]), PreOrder(ps[k - 1]),
                PathsFirst(ps, k), PreOrderFirst(ps, k));
    }
  }

  lemma NextPaths(ps: seq<PlanTree>, k: nat, paths: seq<Path>, titles: seq<string>, more: seq<Path>,
                  next: seq<string>, all: seq<Path>, allTitles: seq<string>)
    requires k < |ps| && AllPathsBelow(ps, k, paths, titles) && AllPaths(ps[k], more, next)
    requires all == paths + Under(k, more) && allTitles == titles + next
    ensures AllPathsBelow(ps, k + 1, all, allTitles)
  {
    UnderAscends(k, more);
    AscendOn(k, paths, Under(k, more));
    forall i | 0 <= i < |all| ensures LeadsBelow(ps, k + 1, all[i], allTitles[i]) {
      if i < |paths| {
        assert LeadsBelow(ps, k, paths[i], titles[i]);
      } else {
        assert ([k] + more[i - |paths|])[1..] == more[i - |paths|];
      }
    }
    forall path | path != [] && path[0] < k + 1 && At(ps[path[0]], path[1..]).Some? ensures path in all {
      if path[0] == k {
        var i :| 0 <= i < |more| && more[i] == path[1..];
        assert Under(k, more)[i] == [k] + path[1..] == path;
      }
    }
  }

  lemma {:induction false} ParentIsAbove(p: PlanTree, base: nat, j: nat)
    requires base < j < base + Size(p)
    ensures PathsOf(p)[j - base] != []
    ensures PathsOf(p)[Parent(p, base, j).value - base] == Front(PathsOf(p)[j - base])
    decreases p, 0
  {
    ParentAmongIsAbove(p.inputs, |p.inputs|, base + 1, j);
  }

  /** The id is one step below the siblings' parent, or its own parent's path is one step shorter. */
  ghost predicate IsAbove(paths: seq<Path>, base: nat, i: Option<nat>, j: nat) {
    && base <= j < base + |paths| && paths[j - base] != []
    && match i
       case None => |paths[j - base]| == 1
       case Some(above) => base <= above < base + |paths| && paths[above - base] == Front(paths[j - base])
  }

  lemma {:induction false} ParentAmongIsAbove(ps: seq<PlanTree>, k: nat, base: nat, j: nat)
    requires k <= |ps| && base <= j < base + SizeFirst(ps, k)
    ensures IsAbove(PathsFirst(ps, k), base, ParentAmong(ps, k, base, j), j)
    decreases ps, k
  {
    var next := base + SizeFirst(ps, k - 1);
    if j < next {
      ParentAmongIsAbove(ps, k - 1, base, j);
      AboveBefore(PathsFirst(ps, k - 1), Under(k - 1, PathsOf(ps[k - 1])), base, ParentAmong(ps, k - 1, base, j), j);
    } else {
      if j > next {
        ParentIsAbove(ps[k - 1], next, j);
      }
      LastIsAbove(ps, k, base, j);
    }
  }

  lemma LastIsAbove(ps: seq<PlanTree>, k: nat, base: nat, j: nat)
    requires 0 < k <= |ps| && base + SizeFirst(ps, k - 1) <= j < base + SizeFirst(ps, k)
    requires var next := base + SizeFirst(ps, k - 1);
             j > next ==>
               && PathsOf(ps[k - 1])[j - next] != []
               && PathsOf(ps[k - 1])[Parent(ps[k - 1], next, j).value - next] == Front(PathsOf(ps[k - 1])[j - next])
    ensures IsAbove(PathsFirst(ps, k), base, ParentAmong(ps, k, base, j), j)
  {
    AboveUnder(PathsFirst(ps, k - 1), k - 1, PathsOf(ps[k - 1]), base, ParentAmong(ps, k, base, j), j);
  }

  lemma AboveBefore(before: seq<Path>, under: seq<Path>, base: nat, i: Option<nat>, j: nat)
    requires IsAbove(before, base, i, j)
    ensures IsAbove(before + under, base, i, j)
  {}

  lemma AboveUnder(before: seq<Path>, n: nat, own: seq<Path>, base: nat, i: Option<nat>, j: nat)
    requires var next := base + |before|;
             && next <= j < next + |own|
             && (i.None? ==> own[j - next] == [])
             && (i.Some? ==> next <= i.value < next + |own| && own[j - next] != []
                             && own[i.value - next] == Front(own[j - next]))
    ensures IsAbove(before + Under(n, own), base, i, j)
  {
    var path := own[j - (base + |before|)];
    assert path != [] ==> Front([n] + path) == [n] + Front(path);
  }

  lemma AscendingOnce(paths: seq<Path>, i: nat, j: nat)
    requires Ascending(paths) && i < |paths| && j < |paths| && paths[i] == paths[j]
    ensures i == j
  {
    BeforeIsStrict(paths[i]);
  }

  /**
   * Node `i` of the graph shows the operator at the `i`-th path of the plan, as far as the limit goes, and lists
   * the present nodes whose paths go one step on from its own, in their order.
   */
  lemma GraphByPaths(p: PlanTree, limit: nat, i: nat, j: nat)
    requires i < |GraphOf(p, limit)|
    ensures AllPaths(p, PathsOf(p), PreOrder(p)) && |GraphOf(p, limit)| == Min(|PathsOf(p)|, limit)
    ensures At(p, PathsOf(p)[i]).Some? && GraphOf(p, limit)[i].title == At(p, PathsOf(p)[i]).value.title
    ensures j in GraphOf(p, limit)[i].children <==>
            j < |GraphOf(p, limit)| && PathsOf(p)[j] != [] && Front(PathsOf(p)[j]) == PathsOf(p)[i]
    ensures Ascends(GraphOf(p, limit)[i].children)
  {
    PreOrderByPaths(p);
    GraphIsTree(p, limit, i, j);
    if 0 < j < |GraphOf(p, limit)| {
      ParentIsAbove(p, 0, j);
      if Front(PathsOf(p)[j]) == PathsOf(p)[i] {
        AscendingOnce(PathsOf(p), i, Parent(p, 0, j).value);
      }
    }
  }
}
