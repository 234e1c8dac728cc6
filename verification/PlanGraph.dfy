/** The explain plan graph: a truncating pre-order numbering, and the runtime metrics stamped on it. */
module PlanGraph {
  import opened Common

  /** A plan operator, by the text it is displayed with, and the operators it reads from. */
  datatype PlanTree = PlanTree(title: string, inputs: seq<PlanTree>)

  datatype RuntimeMetrics = RuntimeMetrics(
    actualRows: Option<nat>,
    elapsedComputeMs: Option<nat>,
    memUsedBytes: Option<nat>)

  const NO_METRICS := RuntimeMetrics(None, None, None)

  /** Node `df_i` of the graph is keyed by `i`. */
  datatype PlanNode = PlanNode(title: string, children: seq<nat>, metrics: RuntimeMetrics)

  function Init<T>(s: seq<T>): seq<T>
    requires s != []
  {
    s[..|s| - 1]
  }

  function Last<T>(s: seq<T>): T
    requires s != []
  {
    s[|s| - 1]
  }

  // ---------- the numbering a complete graph would have ----------

  function Size(p: PlanTree): nat
    decreases p, 0
  {
    1 + SizeFirst(p.inputs, |p.inputs|)
  }

  /** The nodes in the first `k` of some sibling plans; the functions below count siblings the same way. */
  function SizeFirst(ps: seq<PlanTree>, k: nat): nat
    requires k <= |ps|
    decreases ps, k
  {
    if k == 0 then 0 else SizeFirst(ps, k - 1) + Size(ps[k - 1])
  }

  /** The plan's titles, parents before children, siblings from left to right. */
  function PreOrder(p: PlanTree): (r: seq<string>)
    ensures |r| == Size(p)
    decreases p, 0
  {
    [p.title] + PreOrderFirst(p.inputs, |p.inputs|)
  }

  function PreOrderFirst(ps: seq<PlanTree>, k: nat): (r: seq<string>)
    requires k <= |ps|
    ensures |r| == SizeFirst(ps, k)
    decreases ps, k
  {
    if k == 0 then [] else PreOrderFirst(ps, k - 1) + PreOrder(ps[k - 1])
  }

  /** The ids of siblings numbered from `base` on, as far as they are below the node limit. */
  function ChildIds(ps: seq<PlanTree>, k: nat, base: nat, limit: nat): seq<nat>
    requires k <= |ps|
  {
    if k == 0 then []
    else
      var next := base + SizeFirst(ps, k - 1);
      ChildIds(ps, k - 1, base, limit) + (if next < limit then [next] else [])
  }

  /** A plan's nodes in pre-order, numbered from `base` on, as far as their ids are below the limit. */
  function Number(p: PlanTree, base: nat, limit: nat): (ns: seq<PlanNode>)
    ensures |ns| == Min(Size(p), SatSub(limit, base))
    decreases p, 0
  {
    if base >= limit then []
    else [PlanNode(p.title, ChildIds(p.inputs, |p.inputs|, base + 1, limit), NO_METRICS)]
         + NumberFirst(p.inputs, |p.inputs|, base + 1, limit)
  }

  function NumberFirst(ps: seq<PlanTree>, k: nat, base: nat, limit: nat): (ns: seq<PlanNode>)
    requires k <= |ps|
    ensures |ns| == Min(SizeFirst(ps, k), SatSub(limit, base))
    decreases ps, k
  {
    if k == 0 then []
    else NumberFirst(ps, k - 1, base, limit) + Number(ps[k - 1], base + SizeFirst(ps, k - 1), limit)
  }

  /** The graph of a plan under a node limit, in the order of its ids. */
  function GraphOf(p: PlanTree, limit: nat): seq<PlanNode> { Number(p, 0, limit) }

  // ---------- the traversal ----------

  /** The nodes of a list, each under its position. */
  function ById(list: seq<PlanNode>): map<nat, PlanNode> {
    if list == [] then map[] else ById(Init(list))[|list| - 1 := Last(list)]
  }

  lemma {:induction false} ByIdAt(list: seq<PlanNode>, i: nat)
    ensures i in ById(list) <==> i < |list|
    ensures i < |list| ==> ById(list)[i] == list[i]
    decreases list
  {
    if list != [] {
      ByIdAt(Init(list), i);
    }
  }

  lemma {:induction false} ByIdSize(list: seq<PlanNode>)
    ensures |ById(list)| == |list|
    decreases list
  {
    if list != [] {
      ByIdSize(Init(list));
      ByIdAt(Init(list), |list| - 1);
    }
  }

  lemma ByIdInsert(list: seq<PlanNode>, node: PlanNode)
    ensures ById(list + [node]) == ById(list)[|list| := node]
  {
    assert Init(list + [node]) == list;
  }

  lemma {:induction false} ByIdUpdate(list: seq<PlanNode>, i: nat, node: PlanNode)
    requires i < |list|
    ensures ById(list[i := node]) == ById(list)[i := node]
    decreases list
  {
    if i == |list| - 1 {
      assert Init(list[i := node]) == Init(list);
    } else {
      assert Init(list[i := node]) == Init(list)[i := node];
      ByIdUpdate(Init(list), i, node);
    }
  }

  /** What a traversal leaves: the nodes so far, the ids of the inputs just visited, and truncation. */
  datatype Progress = Progress(list: seq<PlanNode>, ids: seq<nat>, truncated: bool)

  /** The traversal as a function of the nodes inserted before it; there is room for at least one more. */
  function Traversed(p: PlanTree, list: seq<PlanNode>, limit: nat): (r: Progress)
    requires |list| < limit
    ensures |list| < |r.list| <= limit
    decreases p, 0
  {
    var below := TraversedFirst(p.inputs, |p.inputs|, list + [PlanNode(p.title, [], NO_METRICS)], limit);
    Progress(below.list[|list| := PlanNode(p.title, below.ids, NO_METRICS)], [|list|], below.truncated)
  }

  function TraversedFirst(ps: seq<PlanTree>, k: nat, list: seq<PlanNode>, limit: nat): (r: Progress)
    requires k <= |ps| && |list| <= limit
    ensures |list| <= |r.list| <= limit
    decreases ps, k
  {
    if k == 0 then Progress(list, [], false)
    else
      var before := TraversedFirst(ps, k - 1, list, limit);
      if |before.list| >= limit then before.(truncated := true)
      else
        var child := Traversed(ps[k - 1], before.list, limit);
        Progress(child.list, before.ids + child.ids, before.truncated || child.truncated)
  }

  /** A traversal leaves the nodes inserted before it alone. */
  lemma {:induction false} TraversalExtends(ps: seq<PlanTree>, k: nat, list: seq<PlanNode>, limit: nat, i: nat)
    requires k <= |ps| && |list| <= limit && i < |list|
    ensures TraversedFirst(ps, k, list, limit).list[i] == list[i]
    decreases ps, k
  {
    if k > 0 {
      var before := TraversedFirst(ps, k - 1, list, limit);
      TraversalExtends(ps, k - 1, list, limit, i);
      if |before.list| < limit {
        var p := ps[k - 1];
        TraversalExtends(p.inputs, |p.inputs|, before.list + [PlanNode(p.title, [], NO_METRICS)], limit, i);
      }
    }
  }

  class GraphBuilder {
    const maxNodes: nat
    var nodes: map<nat, PlanNode>
    var idCounter: nat
    var truncated: bool
    /** The nodes inserted so far, in the order of their ids. */
    ghost var list: seq<PlanNode>

    constructor (maxNodes: nat)
      ensures this.maxNodes == maxNodes && list == [] && !truncated && Valid()
    {
      this.maxNodes := maxNodes;
      nodes, idCounter, truncated, list := map[], 0, false, [];
    }

    ghost predicate Valid()
      reads this
    {
      nodes == ById(list) && |list| == idCounter <= maxNodes
    }

    method InsertNode(id: nat, node: PlanNode)
      requires nodes == ById(list) && id == |list|
      modifies this`nodes, this`list
      ensures nodes == ById(list) && list == old(list) + [node]
    {
      ByIdInsert(list, node);
      nodes := nodes[id := node];
      list := list + [node];
    }

    method SetChildren(id: nat, children: seq<nat>)
      requires nodes == ById(list) && id < |list|
      modifies this`nodes, this`list
      ensures nodes == ById(list) && list == old(list)[id := old(list)[id].(children := children)]
    {
      ByIdUpdate(list, id, list[id].(children := children));
      ByIdAt(list, id);
      nodes := nodes[id := nodes[id].(children := children)];
      list := list[id := list[id].(children := children)];
    }

    method TraversePlan(plan: PlanTree) returns (id: nat)
      requires Valid()
      modifies this
      ensures id == old(idCounter) && nodes == ById(list)
      ensures id == maxNodes ==> list == old(list) && truncated && idCounter == id + 1
      ensures id < maxNodes ==>
                && Valid()
                && list == Traversed(plan, old(list), maxNodes).list
                && truncated == (old(truncated) || Traversed(plan, old(list), maxNodes).truncated)
      decreases plan
    {
      id := idCounter;
      idCounter := idCounter + 1;
      ByIdSize(list);
      if |nodes| >= maxNodes {
        truncated := true;
        return;
      }
      InsertNode(id, PlanNode(plan.title, [], NO_METRICS));
      TraversalExtends(plan.inputs, |plan.inputs|, list, maxNodes, id);
      var children := TraverseInputs(plan.inputs);
      SetChildren(id, children);
    }

    /** The loop over a node's inputs, which collects the ids of those that made it into the graph. */
    method TraverseInputs(inputs: seq<PlanTree>) returns (children: seq<nat>)
      requires Valid()
      modifies this
      ensures Valid()
      ensures var r := TraversedFirst(inputs, |inputs|, old(list), maxNodes);
              list == r.list && children == r.ids && truncated == (old(truncated) || r.truncated)
      decreases inputs
    {
      children := [];
      var k := 0;
      while k < |inputs|
        invariant k <= |inputs| && Valid()
        invariant var r := TraversedFirst(inputs, k, old(list), maxNodes);
                  list == r.list && children == r.ids && truncated == (old(truncated) || r.truncated)
      {
        ByIdSize(list);
        if |nodes| >= maxNodes {
          truncated := true;
          break;
        }
        var childId := TraversePlan(inputs[k]);
        ByIdAt(list, childId);
        if childId in nodes {
          children := children + [childId];
        }
        k := k + 1;
      }
      FullStaysFull(inputs, k, old(list), maxNodes, |inputs|);
    }
  }

  /** Once the graph is full, the remaining inputs only confirm the truncation. */
  lemma {:induction false} FullStaysFull(ps: seq<PlanTree>, k: nat, list: seq<PlanNode>, limit: nat, n: nat)
    requires k <= n <= |ps| && |list| <= limit
    requires k < |ps| ==> |TraversedFirst(ps, k, list, limit).list| >= limit
    ensures var r := TraversedFirst(ps, k, list, limit);
            TraversedFirst(ps, n, list, limit) == if k < n then r.(truncated := true) else r
    decreases n
  {
    if k < n {
      FullStaysFull(ps, k, list, limit, n - 1);
    }
  }
}
