/** The traversal builds the truncated pre-order numbering, and that numbering is a tree. */
module PlanGraphProofs {
  import opened Common
  import opened PlanGraph

  // ---------- the traversal is the numbering ----------

  /** The nodes inserted for a plan are its numbering as far as the limit lets it in. */
  lemma TraversalNumbers(p: PlanTree, list: seq<PlanNode>, limit: nat)
    requires |list| < limit
    ensures var r := Traversed(p, list, limit);
            && r.list == list + Number(p, |list|, limit)
            && r.truncated == (|list| + Size(p) > limit)
  {
    TreeIsNumbered(p, list, limit);
  }

  ghost predicate TreeNumbered(p: PlanTree, list: seq<PlanNode>, limit: nat)
    requires |list| < limit
  {
    var r := Traversed(p, list, limit);
    r.list == list + Number(p, |list|, limit) && r.truncated == (|list| + Size(p) > limit)
  }

  lemma {:induction false} TreeIsNumbered(p: PlanTree, list: seq<PlanNode>, limit: nat)
    requires |list| < limit
    ensures TreeNumbered(p, list, limit)
    decreases p, 0
  {
    var n, node := |p.inputs|, PlanNode(p.title, [], NO_METRICS);
    TraversalNumbersFirst(p.inputs, n, list + [node], limit);
    var below := TraversedFirst(p.inputs, n, list + [node], limit);
    var shown := NumberFirst(p.inputs, n, |list| + 1, limit);
    assert below.list == list + [node] + shown;
    assert Traversed(p, list, limit).list == list + ([PlanNode(p.title, below.ids, NO_METRICS)] + shown);
  }

  lemma {:induction false} TraversalNumbersFirst(ps: seq<PlanTree>, k: nat, list: seq<PlanNode>, limit: nat)
    requires k <= |ps| && |list| <= limit
    ensures Numbered(ps, k, list, limit)
    decreases ps, k
  {
    if k > 0 {
      var before := TraversedFirst(ps, k - 1, list, limit).list;
      TraversalNumbersFirst(ps, k - 1, list, limit);
      if |before| < limit {
        TreeIsNumbered(ps[k - 1], before, limit);
        OneMoreNumbered(ps, k, list, before, limit);
      } else {
        NoMoreNumbered(ps, k, list, before, limit);
      }
    }
  }

  /** What the traversal of the first `k` siblings leaves is their numbering. */
  ghost predicate Numbered(ps: seq<PlanTree>, k: nat, list: seq<PlanNode>, limit: nat)
    requires k <= |ps| && |list| <= limit
  {
    var r := TraversedFirst(ps, k, list, limit);
    && r.list == list + NumberFirst(ps, k, |list|, limit)
    && r.ids == ChildIds(ps, k, |list|, limit)
    && r.truncated == (|list| + SizeFirst(ps, k) > limit)
  }

  lemma OneMoreNumbered(ps: seq<PlanTree>, k: nat, list: seq<PlanNode>, before: seq<PlanNode>, limit: nat)
    requires 0 < k <= |ps| && |list| <= limit && before == TraversedFirst(ps, k - 1, list, limit).list
    requires Numbered(ps, k - 1, list, limit) && |before| < limit && TreeNumbered(ps[k - 1], before, limit)
    ensures Numbered(ps, k, list, limit)
  {
    assert |before| == |list| + SizeFirst(ps, k - 1);
    Regroup(list, NumberFirst(ps, k - 1, |list|, limit), Number(ps[k - 1], |before|, limit));
  }

  lemma NoMoreNumbered(ps: seq<PlanTree>, k: nat, list: seq<PlanNode>, before: seq<PlanNode>, limit: nat)
    requires 0 < k <= |ps| && |list| <= limit && before == TraversedFirst(ps, k - 1, list, limit).list
    requires Numbered(ps, k - 1, list, limit) && |before| >= limit
    ensures Numbered(ps, k, list, limit)
  {
    var shown := NumberFirst(ps, k - 1, |list|, limit);
    assert Number(ps[k - 1], |list| + SizeFirst(ps, k - 1), limit) == [];
    assert shown + [] == shown;
    assert ChildIds(ps, k - 1, |list|, limit) + [] == ChildIds(ps, k - 1, |list|, limit);
  }

  /** The graph holds the first `limit` operators in pre-order, and says so exactly if there are more. */
  method BuildPlanGraph(plan: PlanTree, maxNodes: nat) returns (b: GraphBuilder, rootId: nat)
    ensures fresh(b) && rootId == 0
    ensures b.list == GraphOf(plan, maxNodes) && b.nodes == ById(b.list)
    ensures |b.nodes| == Min(Size(plan), maxNodes)
    ensures b.truncated <==> Size(plan) > maxNodes
  {
    b := new GraphBuilder(maxNodes);
    if maxNodes > 0 {
      TraversalNumbers(plan, [], maxNodes);
      assert [] + GraphOf(plan, maxNodes) == GraphOf(plan, maxNodes);
    }
    rootId := b.TraversePlan(plan);
    ByIdSize(b.list);
  }

  // ---------- operators in pre-order ----------

  lemma {:induction false} NumberedInPreOrder(p: PlanTree, base: nat, limit: nat, i: nat)
    requires i < |Number(p, base, limit)|
    ensures Number(p, base, limit)[i].title == PreOrder(p)[i]
    decreases p, 0
  {
    if i > 0 {
      NumberedInPreOrderFirst(p.inputs, |p.inputs|, base + 1, limit, i - 1);
    }
  }

  lemma {:induction false} NumberedInPreOrderFirst(ps: seq<PlanTree>, k: nat, base: nat, limit: nat, i: nat)
    requires k <= |ps| && i < |NumberFirst(ps, k, base, limit)|
    ensures NumberFirst(ps, k, base, limit)[i].title == PreOrderFirst(ps, k)[i]
    decreases ps, k
  {
    if i < SizeFirst(ps, k - 1) {
      NumberedInPreOrderFirst(ps, k - 1, base, limit, i);
    } else {
      NumberedInPreOrder(ps[k - 1], base + SizeFirst(ps, k - 1), limit, i - SizeFirst(ps, k - 1));
    }
  }

  // ---------- edges ----------

  /** The parent of id `j` in a plan numbered from `base`; its root has none. */
  function Parent(p: PlanTree, base: nat, j: nat): (i: Option<nat>)
    requires base <= j < base + Size(p)
    ensures i.Some? <==> j != base
    ensures i.Some? ==> base <= i.value < j
    decreases p, 0
  {
    if j == base then None
    else match ParentAmong(p.inputs, |p.inputs|, base + 1, j)
         case None => Some(base)
         case Some(i) => Some(i)
  }

  function ParentAmong(ps: seq<PlanTree>, k: nat, base: nat, j: nat): (i: Option<nat>)
    requires k <= |ps| && base <= j < base + SizeFirst(ps, k)
    ensures i.Some? ==> base <= i.value < j
    decreases ps, k
  {
    var next := base + SizeFirst(ps, k - 1);
    if j < next then ParentAmong(ps, k - 1, base, j) else Parent(ps[k - 1], next, j)
  }

  /** `j` is listed among the children of exactly its parent. */
  lemma {:induction false} ListedByParent(p: PlanTree, base: nat, limit: nat, i: nat, j: nat)
    requires base <= i < Min(base + Size(p), limit)
    ensures j in Number(p, base, limit)[i - base].children <==>
            (base <= j < Min(base + Size(p), limit) && Parent(p, base, j) == Some(i))
    decreases p, 0
  {
    if i == base {
      RootsHaveNoParent(p.inputs, |p.inputs|, base + 1, limit, j);
    } else {
      ListedByParentAmong(p.inputs, |p.inputs|, base + 1, limit, i, j);
    }
  }

  lemma {:induction false} ListedByParentAmong(ps: seq<PlanTree>, k: nat, base: nat, limit: nat, i: nat, j: nat)
    requires k <= |ps| && base <= i < Min(base + SizeFirst(ps, k), limit)
    ensures j in NumberFirst(ps, k, base, limit)[i - base].children <==>
            (base <= j < Min(base + SizeFirst(ps, k), limit) && ParentAmong(ps, k, base, j) == Some(i))
    decreases ps, k
  {
    var next := base + SizeFirst(ps, k - 1);
    if i < next {
      ListedByParentAmong(ps, k - 1, base, limit, i, j);
    } else {
      ListedByParent(ps[k - 1], next, limit, i, j);
    }
  }

  lemma {:induction false} RootsHaveNoParent(ps: seq<PlanTree>, k: nat, base: nat, limit: nat, j: nat)
    requires k <= |ps|
    ensures j in ChildIds(ps, k, base, limit) <==>
            (base <= j < Min(base + SizeFirst(ps, k), limit) && ParentAmong(ps, k, base, j) == None)
    decreases k
  {
    if k > 0 {
      RootsHaveNoParent(ps, k - 1, base, limit, j);
    }
  }

  /** In ascending order, and so each of them once. */
  ghost predicate Ascends(ids: seq<nat>) {
    forall a, b :: 0 <= a < b < |ids| ==> ids[a] < ids[b]
  }

  lemma {:induction false} SiblingsAscend(ps: seq<PlanTree>, k: nat, base: nat, limit: nat)
    requires k <= |ps|
    ensures Ascends(ChildIds(ps, k, base, limit))
    ensures forall a :: 0 <= a < |ChildIds(ps, k, base, limit)| ==>
              ChildIds(ps, k, base, limit)[a] < base + SizeFirst(ps, k)
    decreases k
  {
    if k > 0 {
      SiblingsAscend(ps, k - 1, base, limit);
    }
  }

  lemma {:induction false} ChildrenAscend(p: PlanTree, base: nat, limit: nat, i: nat)
    requires i < |Number(p, base, limit)|
    ensures Ascends(Number(p, base, limit)[i].children)
    decreases p, 0
  {
    if i == 0 {
      SiblingsAscend(p.inputs, |p.inputs|, base + 1, limit);
    } else {
      ChildrenAscendFirst(p.inputs, |p.inputs|, base + 1, limit, i - 1);
    }
  }

  lemma {:induction false} ChildrenAscendFirst(ps: seq<PlanTree>, k: nat, base: nat, limit: nat, i: nat)
    requires k <= |ps| && i < |NumberFirst(ps, k, base, limit)|
    ensures Ascends(NumberFirst(ps, k, base, limit)[i].children)
    decreases ps, k
  {
    if i < SizeFirst(ps, k - 1) {
      ChildrenAscendFirst(ps, k - 1, base, limit, i);
    } else {
      ChildrenAscend(ps[k - 1], base + SizeFirst(ps, k - 1), limit, i - SizeFirst(ps, k - 1));
    }
  }

  /**
   * Nodes are the first operators in pre-order; every present node but the root is listed as a child of
   * exactly one node, once, and that node has a smaller id; and every listed child is present.
   */
  lemma GraphIsTree(p: PlanTree, limit: nat, i: nat, j: nat)
    requires i < |GraphOf(p, limit)|
    ensures GraphOf(p, limit)[i].title == PreOrder(p)[i]
    ensures j in GraphOf(p, limit)[i].children <==> j < |GraphOf(p, limit)| && Parent(p, 0, j) == Some(i)
    ensures Ascends(GraphOf(p, limit)[i].children)
    ensures j < |GraphOf(p, limit)| ==> (Parent(p, 0, j).Some? <==> j != 0)
    ensures 0 < j < |GraphOf(p, limit)| ==> Parent(p, 0, j).value < j
  {
    ListedByParent(p, 0, limit, i, j);
    NumberedInPreOrder(p, 0, limit, i);
    ChildrenAscend(p, 0, limit, i);
  }
}
