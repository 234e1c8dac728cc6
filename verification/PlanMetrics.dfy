/** The metrics of an analyzed run, stamped on the plan graph by walking it in pre-order. */
module PlanMetrics {
  import opened Common
  import opened PlanGraph
  import opened PlanGraphProofs

  ghost predicate AllAbove(ids: seq<nat>, k: nat, above: nat)
    requires k <= |ids|
  {
    k == 0 || (above < ids[k - 1] && AllAbove(ids, k - 1, above))
  }

  lemma {:induction false} AllAboveAt(ids: seq<nat>, k: nat, above: nat, i: nat)
    requires i < k <= |ids| && AllAbove(ids, k, above)
    ensures above < ids[i]
    decreases k
  {
    if i < k - 1 {
      AllAboveAt(ids, k - 1, above, i);
    }
  }

  /** The edges from the first `k` nodes lead to larger ids, so that a walk along them ends. */
  ghost predicate Ascending(g: seq<PlanNode>, k: nat)
    requires k <= |g|
  {
    k == 0 || (AllAbove(g[k - 1].children, |g[k - 1].children|, k - 1) && Ascending(g, k - 1))
  }

  ghost predicate Acyclic(g: seq<PlanNode>) { Ascending(g, |g|) }

  lemma {:induction false} AscendingAt(g: seq<PlanNode>, k: nat, i: nat)
    requires i < k <= |g| && Ascending(g, k)
    ensures AllAbove(g[i].children, |g[i].children|, i)
    decreases k
  {
    if i < k - 1 {
      AscendingAt(g, k - 1, i);
    }
  }

  /** The walk from `id`: appended to `out` are its id and, if the graph holds it, the walks from its children. */
  function Walk(g: seq<PlanNode>, id: nat, out: seq<nat>): seq<nat>
    requires Acyclic(g)
    decreases SatSub(|g|, id), 1, 0
  {
    if id < |g| then
      AscendingAt(g, |g|, id);
      WalkFirst(g, id, g[id].children, |g[id].children|, out + [id])
    else out + [id]
  }

  function WalkFirst(g: seq<PlanNode>, above: nat, ids: seq<nat>, k: nat, out: seq<nat>): seq<nat>
    requires Acyclic(g) && above < |g| && k <= |ids| && AllAbove(ids, |ids|, above)
    decreases SatSub(|g|, above), 0, k
  {
    if k == 0 then out
    else
      AllAboveAt(ids, |ids|, above, k - 1);
      Walk(g, ids[k - 1], WalkFirst(g, above, ids, k - 1, out))
  }

  function WalkRoots(g: seq<PlanNode>, roots: seq<nat>, k: nat): seq<nat>
    requires Acyclic(g) && k <= |roots|
  {
    if k == 0 then [] else Walk(g, roots[k - 1], WalkRoots(g, roots, k - 1))
  }

  /** The ids `df_0` to `df_(n - 1)`. */
  function FirstIds(n: nat): (ids: seq<nat>)
    ensures |ids| == n
  {
    if n == 0 then [] else FirstIds(n - 1) + [n - 1]
  }

  lemma {:induction false} FirstIdsAt(n: nat, k: nat)
    requires k < n
    ensures FirstIds(n)[k] == k
  {
    if k < n - 1 {
      FirstIdsAt(n - 1, k);
    }
  }

  // ---------- the walk meets the ids in the order they were given out ----------

  /** The first `k` nodes of `part` are what the graph holds from id `base` on. */
  ghost predicate HoldsAt(g: seq<PlanNode>, base: nat, part: seq<PlanNode>, k: nat)
    requires k <= |part|
  {
    k == 0 || (base + k <= |g| && g[base + k - 1] == part[k - 1] && HoldsAt(g, base, part, k - 1))
  }

  ghost predicate Holds(g: seq<PlanNode>, base: nat, part: seq<PlanNode>) { HoldsAt(g, base, part, |part|) }

  lemma {:induction false} HoldsFormer(g: seq<PlanNode>, base: nat, a: seq<PlanNode>, b: seq<PlanNode>, k: nat)
    requires k <= |a| && HoldsAt(g, base, a + b, k)
    ensures HoldsAt(g, base, a, k)
    decreases k
  {
    if k > 0 {
      HoldsFormer(g, base, a, b, k - 1);
    }
  }

  lemma {:induction false} HoldsLatter(g: seq<PlanNode>, base: nat, a: seq<PlanNode>, b: seq<PlanNode>, k: nat)
    requires k <= |b| && HoldsAt(g, base, a + b, |a| + k)
    ensures HoldsAt(g, base + |a|, b, k) && HoldsAt(g, base, a + b, |a|)
    decreases k
  {
    if k > 0 {
      HoldsLatter(g, base, a, b, k - 1);
    }
  }

  lemma HoldsBoth(g: seq<PlanNode>, base: nat, a: seq<PlanNode>, b: seq<PlanNode>)
    requires Holds(g, base, a + b)
    ensures Holds(g, base, a) && Holds(g, base + |a|, b)
  {
    HoldsLatter(g, base, a, b, |b|);
    HoldsFormer(g, base, a, b, |a|);
  }

  lemma {:induction false} HoldsItself(g: seq<PlanNode>, k: nat)
    requires k <= |g|
    ensures HoldsAt(g, 0, g, k)
    decreases k
  {
    if k > 0 {
      HoldsItself(g, k - 1);
    }
  }

  lemma {:induction false} ChildIdsAbove(ps: seq<PlanTree>, k: nat, base: nat, limit: nat, above: nat)
    requires above < base && k <= |ps|
    ensures var ids := ChildIds(ps, k, base, limit); AllAbove(ids, |ids|, above)
    decreases k
  {
    if k > 0 {
      ChildIdsAbove(ps, k - 1, base, limit, above);
      var ids := ChildIds(ps, k - 1, base, limit);
      AllAboveExtended(ids, [base + SizeFirst(ps, k - 1)], |ids|, above);
      assert ids + [] == ids;
    }
  }

  lemma {:induction false} AllAboveExtended(ids: seq<nat>, more: seq<nat>, k: nat, above: nat)
    requires k <= |ids| && AllAbove(ids, k, above)
    ensures AllAbove(ids + more, k, above)
    decreases k
  {
    if k > 0 {
      AllAboveExtended(ids, more, k - 1, above);
    }
  }

  lemma {:induction false} SizesGrow(ps: seq<PlanTree>, j: nat, k: nat)
    requires j <= k <= |ps|
    ensures SizeFirst(ps, j) <= SizeFirst(ps, k)
    decreases k
  {
    if j < k {
      SizesGrow(ps, j, k - 1);
    }
  }

  /** The siblings listed are the first ones, each under its own id, and the rest are beyond the limit. */
  lemma {:induction false} FirstOnesListed(ps: seq<PlanTree>, k: nat, base: nat, limit: nat)
    requires k <= |ps|
    ensures var n := |ChildIds(ps, k, base, limit)|; n <= k && (n < k ==> base + SizeFirst(ps, n) >= limit)
    decreases k
  {
    if k > 0 {
      FirstOnesListed(ps, k - 1, base, limit);
      SizesGrow(ps, |ChildIds(ps, k - 1, base, limit)|, k - 1);
    }
  }

  lemma {:induction false} ListedUnderItsId(ps: seq<PlanTree>, k: nat, base: nat, limit: nat, m: nat)
    requires k <= |ps| && m < |ChildIds(ps, k, base, limit)|
    ensures m < k && ChildIds(ps, k, base, limit)[m] == base + SizeFirst(ps, m) < limit
    decreases k
  {
    FirstOnesListed(ps, k - 1, base, limit);
    if m < |ChildIds(ps, k - 1, base, limit)| {
      ListedUnderItsId(ps, k - 1, base, limit, m);
    } else {
      SizesGrow(ps, m, k - 1);
    }
  }

  /** The graph lists a plan's children under their ids, at every node below the limit. */
  ghost predicate Shows(g: seq<PlanNode>, p: PlanTree, base: nat, limit: nat)
    decreases p, 0
  {
    base < limit ==>
      && base < |g| && g[base].children == ChildIds(p.inputs, |p.inputs|, base + 1, limit)
      && ShowsFirst(g, p.inputs, |p.inputs|, base + 1, limit)
  }

  ghost predicate ShowsFirst(g: seq<PlanNode>, ps: seq<PlanTree>, k: nat, base: nat, limit: nat)
    requires k <= |ps|
    decreases ps, k
  {
    k == 0 ||
    (ShowsFirst(g, ps, k - 1, base, limit) && Shows(g, ps[k - 1], base + SizeFirst(ps, k - 1), limit))
  }

  lemma {:induction false} HoldsShows(g: seq<PlanNode>, p: PlanTree, base: nat, limit: nat)
    requires base < limit ==> Holds(g, base, Number(p, base, limit))
    ensures Shows(g, p, base, limit)
    decreases p, 0
  {
    if base < limit {
      HoldsRoot(g, p, base, limit);
      HoldsShowsFirst(g, p.inputs, |p.inputs|, base + 1, limit);
    }
  }

  lemma {:induction false} HoldsShowsFirst(g: seq<PlanNode>, ps: seq<PlanTree>, k: nat, base: nat, limit: nat)
    requires k <= |ps| && Holds(g, base, NumberFirst(ps, k, base, limit))
    ensures ShowsFirst(g, ps, k, base, limit)
    decreases ps, k
  {
    if k > 0 {
      HoldsSiblings(g, ps, k, base, limit);
      HoldsShowsFirst(g, ps, k - 1, base, limit);
      HoldsShows(g, ps[k - 1], base + SizeFirst(ps, k - 1), limit);
    }
  }

  lemma {:induction false} ShowsAt(g: seq<PlanNode>, ps: seq<PlanTree>, k: nat, base: nat, limit: nat, m: nat)
    requires m < k <= |ps| && ShowsFirst(g, ps, k, base, limit)
    ensures Shows(g, ps[m], base + SizeFirst(ps, m), limit)
    decreases k
  {
    if m < k - 1 {
      ShowsAt(g, ps, k - 1, base, limit, m);
    }
  }

  /** Having met exactly the ids before a plan's own, the walk goes on to meet exactly the plan's. */
  lemma {:induction false} WalkInOrder(g: seq<PlanNode>, p: PlanTree, base: nat, limit: nat)
    requires Acyclic(g) && base < limit && Shows(g, p, base, limit)
    ensures Walk(g, base, FirstIds(base)) == FirstIds(Min(base + Size(p), limit))
    decreases p, 0
  {
    var ps := p.inputs;
    var ids := ChildIds(ps, |ps|, base + 1, limit);
    ChildIdsAbove(ps, |ps|, base + 1, limit, base);
    FirstOnesListed(ps, |ps|, base + 1, limit);
    SizesGrow(ps, |ids|, |ps|);
    WalkInOrderFirst(g, ps, |ids|, base, ids, base + 1, limit);
  }

  lemma {:induction false} WalkInOrderFirst(
      g: seq<PlanNode>, ps: seq<PlanTree>, k: nat, above: nat, ids: seq<nat>, base: nat, limit: nat)
    requires Acyclic(g) && above < |g| && base <= limit && k <= |ids| <= |ps| && ShowsFirst(g, ps, |ps|, base, limit)
    requires ids == ChildIds(ps, |ps|, base, limit) && AllAbove(ids, |ids|, above)
    ensures WalkFirst(g, above, ids, k, FirstIds(base)) == FirstIds(Min(base + SizeFirst(ps, k), limit))
    decreases ps, k
  {
    if k > 0 {
      WalkInOrderFirst(g, ps, k - 1, above, ids, base, limit);
      ListedUnderItsId(ps, |ps|, base, limit, k - 1);
      ShowsAt(g, ps, |ps|, base, limit, k - 1);
      WalkInOrder(g, ps[k - 1], base + SizeFirst(ps, k - 1), limit);
    }
  }

  lemma HoldsRoot(g: seq<PlanNode>, p: PlanTree, base: nat, limit: nat)
    requires base < limit && Holds(g, base, Number(p, base, limit))
    ensures base < |g| && g[base].children == ChildIds(p.inputs, |p.inputs|, base + 1, limit)
    ensures Holds(g, base + 1, NumberFirst(p.inputs, |p.inputs|, base + 1, limit))
  {
    var node := PlanNode(p.title, ChildIds(p.inputs, |p.inputs|, base + 1, limit), NO_METRICS);
    HoldsBoth(g, base, [node], NumberFirst(p.inputs, |p.inputs|, base + 1, limit));
    assert HoldsAt(g, base, [node], 1);
  }

  lemma HoldsSiblings(g: seq<PlanNode>, ps: seq<PlanTree>, k: nat, base: nat, limit: nat)
    requires 0 < k <= |ps| && Holds(g, base, NumberFirst(ps, k, base, limit))
    ensures Holds(g, base, NumberFirst(ps, k - 1, base, limit))
    ensures var next := base + SizeFirst(ps, k - 1);
            next < limit ==> Holds(g, next, Number(ps[k - 1], next, limit))
  {
    HoldsBoth(g, base, NumberFirst(ps, k - 1, base, limit), Number(ps[k - 1], base + SizeFirst(ps, k - 1), limit));
  }

  lemma {:induction false} NumberAscends(p: PlanTree, base: nat, limit: nat, i: nat)
    requires i < |Number(p, base, limit)|
    ensures var ids := Number(p, base, limit)[i].children; AllAbove(ids, |ids|, base + i)
    decreases p, 0
  {
    if i == 0 {
      ChildIdsAbove(p.inputs, |p.inputs|, base + 1, limit, base);
    } else {
      NumberFirstAscends(p.inputs, |p.inputs|, base + 1, limit, i - 1);
    }
  }

  lemma {:induction false} NumberFirstAscends(ps: seq<PlanTree>, k: nat, base: nat, limit: nat, i: nat)
    requires k <= |ps| && i < |NumberFirst(ps, k, base, limit)|
    ensures var ids := NumberFirst(ps, k, base, limit)[i].children; AllAbove(ids, |ids|, base + i)
    decreases ps, k
  {
    var earlier := SizeFirst(ps, k - 1);
    if i < earlier {
      NumberFirstAscends(ps, k - 1, base, limit, i);
    } else {
      NumberAscends(ps[k - 1], base + earlier, limit, i - earlier);
    }
  }

  lemma {:induction false} GraphAscends(p: PlanTree, limit: nat, k: nat)
    requires k <= |GraphOf(p, limit)|
    ensures Ascending(GraphOf(p, limit), k)
    decreases k
  {
    if k > 0 {
      GraphAscends(p, limit, k - 1);
      NumberAscends(p, 0, limit, k - 1);
    }
  }

  /** Walking a graph meets its nodes in the order of their ids; an empty graph still offers its root's id. */
  lemma WalkMeetsIdsInOrder(p: PlanTree, limit: nat)
    ensures Acyclic(GraphOf(p, limit))
    ensures WalkRoots(GraphOf(p, limit), [0], 1) == FirstIds(Max(1, |GraphOf(p, limit)|))
  {
    var g := GraphOf(p, limit);
    GraphAscends(p, limit, |g|);
    assert WalkRoots(g, [0], 1) == Walk(g, 0, FirstIds(0));
    if limit > 0 {
      HoldsItself(g, |g|);
      HoldsShows(g, p, 0, limit);
      WalkInOrder(g, p, 0, limit);
    } else {
      assert FirstIds(1) == [0];
    }
  }

  // ---------- stamping ----------

  /** The nodes after the first `k` ids of the walk took the metrics of the same position. */
  function Stamped(g: seq<PlanNode>, order: seq<nat>, metrics: seq<RuntimeMetrics>, k: nat): (r: seq<PlanNode>)
    requires k <= Min(|order|, |metrics|)
    ensures |r| == |g|
  {
    if k == 0 then g
    else
      var before := Stamped(g, order, metrics, k - 1);
      var id := order[k - 1];
      if id < |g| then before[id := before[id].(metrics := metrics[k - 1])] else before
  }

  lemma {:induction false} StampedInOrder(
      g: seq<PlanNode>, order: seq<nat>, metrics: seq<RuntimeMetrics>, k: nat, i: nat)
    requires k <= Min(|order|, |metrics|) && i < |g| && order == FirstIds(|order|)
    ensures Stamped(g, order, metrics, k)[i] == if i < k then g[i].(metrics := metrics[i]) else g[i]
    decreases k
  {
    if k > 0 {
      StampedInOrder(g, order, metrics, k - 1, i);
      FirstIdsAt(|order|, k - 1);
    }
  }

  method PreOrderWalk(b: GraphBuilder, id: nat, sofar: seq<nat>) returns (out: seq<nat>)
    requires b.nodes == ById(b.list) && Acyclic(b.list)
    ensures out == Walk(b.list, id, sofar)
    decreases SatSub(|b.list|, id), 1
  {
    out := sofar + [id];
    ByIdAt(b.list, id);
    if id in b.nodes {
      AscendingAt(b.list, |b.list|, id);
      out := WalkChildren(b, id, b.nodes[id].children, out);
    }
  }

  method WalkChildren(b: GraphBuilder, above: nat, children: seq<nat>, sofar: seq<nat>) returns (out: seq<nat>)
    requires b.nodes == ById(b.list) && Acyclic(b.list)
    requires above < |b.list| && AllAbove(children, |children|, above)
    ensures out == WalkFirst(b.list, above, children, |children|, sofar)
    decreases SatSub(|b.list|, above), 0
  {
    out := sofar;
    for k := 0 to |children|
      invariant out == WalkFirst(b.list, above, children, k, sofar)
    {
      AllAboveAt(children, |children|, above, k);
      out := PreOrderWalk(b, children[k], out);
    }
  }

  method WalkFromRoots(b: GraphBuilder, rootIds: seq<nat>) returns (preOrder: seq<nat>)
    requires b.nodes == ById(b.list) && Acyclic(b.list)
    ensures preOrder == WalkRoots(b.list, rootIds, |rootIds|)
  {
    preOrder := [];
    for r := 0 to |rootIds|
      invariant preOrder == WalkRoots(b.list, rootIds, r)
    {
      preOrder := PreOrderWalk(b, rootIds[r], preOrder);
    }
  }

  method ApplyRuntimeMetrics(b: GraphBuilder, rootIds: seq<nat>, metrics: seq<RuntimeMetrics>)
    requires b.nodes == ById(b.list) && Acyclic(b.list)
    modifies b`nodes, b`list
    ensures b.nodes == ById(b.list)
    ensures var order := WalkRoots(old(b.list), rootIds, |rootIds|);
            b.list == Stamped(old(b.list), order, metrics, Min(|order|, |metrics|))
  {
    var preOrder := WalkFromRoots(b, rootIds);
    StampNodes(b, preOrder, metrics);
  }

  method StampNodes(b: GraphBuilder, preOrder: seq<nat>, metrics: seq<RuntimeMetrics>)
    requires b.nodes == ById(b.list)
    modifies b`nodes, b`list
    ensures b.nodes == ById(b.list)
    ensures b.list == Stamped(old(b.list), preOrder, metrics, Min(|preOrder|, |metrics|))
  {
    var idx := 0;
    while idx < |preOrder|
      invariant idx <= Min(|preOrder|, |metrics|) && b.nodes == ById(b.list)
      invariant b.list == Stamped(old(b.list), preOrder, metrics, idx)
    {
      if idx >= |metrics| {
        break;
      }
      var id := preOrder[idx];
      ByIdAt(b.list, id);
      if id in b.nodes {
        ByIdUpdate(b.list, id, b.list[id].(metrics := metrics[idx]));
        b.nodes := b.nodes[id := b.nodes[id].(metrics := metrics[idx])];
        b.list := b.list[id := b.list[id].(metrics := metrics[idx])];
      }
      idx := idx + 1;
    }
  }

  /**
   * The metrics at position `i` land on node `df_i` and nowhere else, for every `i` both lists reach;
   * the other nodes, and all nodes when there are no metrics, stay as they were.
   */
  lemma MetricsLandOnTheirNodes(p: PlanTree, limit: nat, metrics: seq<RuntimeMetrics>, i: nat)
    requires i < |GraphOf(p, limit)|
    ensures Acyclic(GraphOf(p, limit))
    ensures var g, order := GraphOf(p, limit), WalkRoots(GraphOf(p, limit), [0], 1);
            Stamped(g, order, metrics, Min(|order|, |metrics|))[i] ==
              if i < |metrics| then g[i].(metrics := metrics[i]) else g[i]
  {
    WalkMeetsIdsInOrder(p, limit);
    var g, order := GraphOf(p, limit), WalkRoots(GraphOf(p, limit), [0], 1);
    StampedInOrder(g, order, metrics, Min(|order|, |metrics|), i);
  }

  /** An analyzed plan: its graph is built, and every node takes the metrics of its own operator. */
  method BuildAnalyzedGraph(plan: PlanTree, maxNodes: nat, metrics: seq<RuntimeMetrics>)
    returns (b: GraphBuilder, rootId: nat)
    ensures rootId == 0 && |b.nodes| == Min(Size(plan), maxNodes) && (b.truncated <==> Size(plan) > maxNodes)
    ensures forall i :: 0 <= i < |b.nodes| ==>
              && i in b.nodes
              && var node := GraphOf(plan, maxNodes)[i];
                 b.nodes[i] == if i < |metrics| then node.(metrics := metrics[i]) else node
  {
    b, rootId := BuildPlanGraph(plan, maxNodes);
    ghost var g := b.list;
    WalkMeetsIdsInOrder(plan, maxNodes);
    ApplyRuntimeMetrics(b, [rootId], metrics);
    ByIdSize(b.list);
    forall i | 0 <= i < |g|
      ensures i in b.nodes && b.nodes[i] == if i < |metrics| then g[i].(metrics := metrics[i]) else g[i]
    {
      ByIdAt(b.list, i);
      MetricsLandOnTheirNodes(plan, maxNodes, metrics, i);
    }
  }
}
