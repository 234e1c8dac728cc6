/** No two boxes of a drawing touch, subtrees keep to their intervals, and all is inside the canvas. */
module PlanLayoutProofs {
  import opened Common
  import opened Paths
  import opened PlanLayout

  /** A box inside the interval from `lo` to `hi`, on a level from `top` to `bottom`, at that level's height. */
  ghost predicate Within(l: Layout, lo: int, hi: int, top: int, bottom: int) {
    lo <= l.x && l.x + NODE_WIDTH <= hi && top <= l.level <= bottom && l.y == Y(l.level)
  }

  ghost predicate AllWithin(m: Layouts, lo: int, hi: int, top: int, bottom: int) {
    forall id :: id in m ==> Within(m[id], lo, hi, top, bottom)
  }

  /** On different levels, or with the full spacing between them. */
  ghost predicate Apart(a: Layout, b: Layout) {
    || a.level != b.level
    || a.x + NODE_WIDTH + SIBLING_SPACING <= b.x
    || b.x + NODE_WIDTH + SIBLING_SPACING <= a.x
  }

  /** The boxes as sets of points. */
  ghost predicate Covers(l: Layout, px: int, py: int) {
    l.x <= px <= l.x + NODE_WIDTH && l.y <= py <= l.y + NODE_HEIGHT
  }

  // ---------- widths ----------

  /** Halving the space left of a node is exact. */
  lemma {:induction false} WidthIsEven(s: Shape)
    ensures Width(s) % 2 == 0 && Width(s) >= NODE_WIDTH
    decreases s, 1
  {
    RowWidthIsEven(s.children, |s.children|);
  }

  lemma {:induction false} RowWidthIsEven(ss: seq<Shape>, k: nat)
    requires k <= |ss|
    ensures RowWidth(ss, k) % 2 == 0
    decreases ss, 0, k
  {
    if k > 0 {
      RowWidthIsEven(ss, k - 1);
      WidthIsEven(ss[k - 1]);
    }
  }

  lemma {:induction false} RowWidthGrows(ss: seq<Shape>, j: nat, k: nat)
    requires j <= k <= |ss|
    ensures RowWidth(ss, j) <= RowWidth(ss, k)
    decreases k
  {
    if j < k {
      RowWidthGrows(ss, j, k - 1);
    }
  }

  // ---------- subtrees ----------

  /** The right end of the first `k` siblings, without the spacing to the next one. */
  function RowEnd(ss: seq<Shape>, k: nat): int
    requires k <= |ss|
  {
    RowWidth(ss, k) - (if 0 < k < |ss| then SIBLING_SPACING else 0)
  }

  /** A subtree's boxes are inside its interval, and none is above its root or below its depth. */
  lemma {:induction false} SubtreeWithin(s: Shape, level: nat, left: int)
    ensures AllWithin(Placed(s, level, left), left, left + Width(s), level, Depth(s, level))
    ensures forall id :: id in Placed(s, level, left) && id != s.id ==> Placed(s, level, left)[id].level > level
    decreases s, 1
  {
    RowWithin(s.children, |s.children|, level + 1, left);
    WidthIsEven(s);
  }

  lemma {:induction false} RowWithin(ss: seq<Shape>, k: nat, level: nat, left: int)
    requires k <= |ss|
    ensures AllWithin(PlacedRow(ss, k, level, left), left, left + RowEnd(ss, k), level, DeepestOf(ss, k, level))
    decreases ss, 0, k
  {
    if k > 0 {
      RowWithin(ss, k - 1, level, left);
      SubtreeWithin(ss[k - 1], level, left + RowWidth(ss, k - 1));
      WidthIsEven(ss[k - 1]);
    }
  }

  lemma {:induction false} SubtreeApart(s: Shape, level: nat, left: int, i: nat, j: nat)
    requires i in Placed(s, level, left) && j in Placed(s, level, left) && i != j
    ensures Apart(Placed(s, level, left)[i], Placed(s, level, left)[j])
    decreases s, 1
  {
    if i == s.id || j == s.id {
      SubtreeWithin(s, level, left);
    } else {
      RowApart(s.children, |s.children|, level + 1, left, i, j);
    }
  }

  lemma {:induction false} RowApart(ss: seq<Shape>, k: nat, level: nat, left: int, i: nat, j: nat)
    requires k <= |ss|
    requires i in PlacedRow(ss, k, level, left) && j in PlacedRow(ss, k, level, left) && i != j
    ensures Apart(PlacedRow(ss, k, level, left)[i], PlacedRow(ss, k, level, left)[j])
    decreases ss, 0, k
  {
    var edge := left + RowWidth(ss, k - 1);
    var tree := Placed(ss[k - 1], level, edge);
    if i in tree && j in tree {
      SubtreeApart(ss[k - 1], level, edge, i, j);
    } else if i !in tree && j !in tree {
      RowApart(ss, k - 1, level, left, i, j);
    } else {
      RowWithin(ss, k - 1, level, left);
      SubtreeWithin(ss[k - 1], level, edge);
    }
  }

  // ---------- forests ----------

  lemma {:induction false} ForestWithin(roots: seq<Shape>, k: nat)
    requires k <= |roots|
    ensures Cursor(roots, k) >= MARGIN
    ensures AllWithin(PlacedForest(roots, k), MARGIN, Cursor(roots, k) - SIBLING_SPACING, 0, ForestDepth(roots, k))
    decreases k
  {
    if k > 0 {
      ForestWithin(roots, k - 1);
      SubtreeWithin(roots[k - 1], 0, Cursor(roots, k - 1));
    }
  }

  lemma {:induction false} ForestApart(roots: seq<Shape>, k: nat, i: nat, j: nat)
    requires k <= |roots| && i in PlacedForest(roots, k) && j in PlacedForest(roots, k) && i != j
    ensures Apart(PlacedForest(roots, k)[i], PlacedForest(roots, k)[j])
    decreases k
  {
    var edge := Cursor(roots, k - 1);
    var tree := Placed(roots[k - 1], 0, edge);
    if i in tree && j in tree {
      SubtreeApart(roots[k - 1], 0, edge, i, j);
    } else if i !in tree && j !in tree {
      ForestApart(roots, k - 1, i, j);
    } else {
      ForestWithin(roots, k - 1);
      SubtreeWithin(roots[k - 1], 0, edge);
    }
  }

  /** No point belongs to two boxes of a drawing. */
  lemma BoxesAreDisjoint(roots: seq<Shape>, drawn: Layouts, i: nat, j: nat, px: int, py: int)
    requires drawn == PlacedForest(roots, |roots|) && i in drawn && j in drawn && i != j
    ensures !(Covers(drawn[i], px, py) && Covers(drawn[j], px, py))
  {
    ForestApart(roots, |roots|, i, j);
    ForestWithin(roots, |roots|);
    assert drawn[i].y == Y(drawn[i].level) && drawn[j].y == Y(drawn[j].level);
  }

  /** Every point of every box is on the canvas. */
  lemma BoxesAreOnTheCanvas(roots: seq<Shape>, drawn: Layouts, i: nat, px: int, py: int)
    requires drawn == PlacedForest(roots, |roots|) && i in drawn && Covers(drawn[i], px, py)
    ensures 0 <= px <= CanvasWidth(roots) && 0 <= py <= CanvasHeight(roots)
  {
    var end, depth := Cursor(roots, |roots|), ForestDepth(roots, |roots|);
    ForestWithin(roots, |roots|);
    WithinIsOnTheCanvas(drawn, i, end, depth, px, py);
  }

  lemma WithinIsOnTheCanvas(m: Layouts, i: nat, end: nat, depth: nat, px: int, py: int)
    requires AllWithin(m, MARGIN, end - SIBLING_SPACING, 0, depth) && i in m && Covers(m[i], px, py)
    ensures 0 <= px <= Max(1, end + MARGIN)
    ensures 0 <= py <= Max(1, (depth + 1) * LEVEL_HEIGHT + NODE_HEIGHT + 48)
  {
    var l := m[i];
    assert Within(l, MARGIN, end - SIBLING_SPACING, 0, depth);
    assert l.level * LEVEL_HEIGHT <= depth * LEVEL_HEIGHT;
  }

  /** Every node of the forest gets a box. */
  lemma {:induction false} EveryNodeIsDrawn(roots: seq<Shape>, k: nat, r: nat)
    requires r < k <= |roots|
    ensures Ids(roots[r]) <= PlacedForest(roots, k).Keys
    decreases k
  {
    PlacedKeys(roots[k - 1], 0, Cursor(roots, k - 1));
    if r < k - 1 {
      EveryNodeIsDrawn(roots, k - 1, r);
    }
  }

  // ---------- where each node stands ----------

  /** The node that a path of child indices leads to. */
  function At(s: Shape, path: Path): Option<Shape> {
    if path == [] then Some(s)
    else if path[0] < |s.children| then At(s.children[path[0]], path[1..])
    else None
  }

  /** Twice the middle of a box. */
  function Middle(l: Layout): int { 2 * l.x + NODE_WIDTH }

  function WidthsOf(drawn: Layouts, ss: seq<Shape>): seq<nat>
    requires forall i :: 0 <= i < |ss| ==> ss[i].id in drawn
  {
    seq(|ss|, i requires 0 <= i < |ss| => drawn[ss[i].id].width)
  }

  /** Where the interval behind the first `k` begins, with spacing behind each. */
  function Offset(widths: seq<nat>, k: nat): nat
    requires k <= |widths|
  {
    if k == 0 then 0 else Offset(widths, k - 1) + widths[k - 1] + 36
  }

  /** Intervals side by side, without the spacing behind the last. */
  function Span(widths: seq<nat>): nat { if widths == [] then 0 else SatSub(Offset(widths, |widths|), 36) }

  /**
   * A node is as wide as the intervals of its children side by side, though not narrower than its box, and each
   * child's box is in the middle of its own interval, as the node's is over all of them.
   */
  ghost predicate StandsOver(drawn: Layouts, s: Shape, level: nat) {
    && s.id in drawn && (forall i :: 0 <= i < |s.children| ==> s.children[i].id in drawn)
    && var l, widths := drawn[s.id], WidthsOf(drawn, s.children);
    && l.width == Max(280, Span(widths)) && l.level == level && l.y == 152 * level + 24
    && forall j :: 0 <= j < |s.children| ==>
         Middle(drawn[s.children[j].id]) - Middle(l) == 2 * Offset(widths, j) + widths[j] - l.width
  }

  /** In a subtree drawn from `left` on, the nodes below it are drawn as they are by themselves. */
  ghost predicate DrawnAs(drawn: Layouts, s: Shape, level: nat, left: int) {
    forall id :: id in Ids(s) ==> id in drawn && id in Placed(s, level, left) && drawn[id] == Placed(s, level, left)[id]
  }

  lemma {:induction false} RowAt(ss: seq<Shape>, k: nat, level: nat, left: int, j: nat)
    requires j < k <= |ss| && DistinctRow(ss, k)
    ensures DrawnAs(PlacedRow(ss, k, level, left), ss[j], level, left + RowWidth(ss, j))
    decreases k
  {
    PlacedKeys(ss[j], level, left + RowWidth(ss, j));
    if j < k - 1 {
      RowAt(ss, k - 1, level, left, j);
      IdsOfIncludes(ss, k - 1, j);
      PlacedKeys(ss[k - 1], level, left + RowWidth(ss, k - 1));
    }
  }

  lemma ChildDrawn(drawn: Layouts, s: Shape, level: nat, left: int, j: nat, child: Shape, edge: int)
    requires Distinct(s) && DrawnAs(drawn, s, level, left)
    requires j < |s.children| && child == s.children[j] && edge == left + RowWidth(s.children, j)
    ensures Distinct(child) && DrawnAs(drawn, child, level + 1, edge)
  {
    DistinctAt(s.children, |s.children|, j);
    RowAt(s.children, |s.children|, level + 1, left, j);
    IdsOfIncludes(s.children, |s.children|, j);
    var row := PlacedRow(s.children, |s.children|, level + 1, left);
    PlacedBelow(s, level, left, row);
    DrawnBelow(drawn, row, s, level, left, child, edge);
  }

  lemma PlacedBelow(s: Shape, level: nat, left: int, row: Layouts)
    requires Distinct(s) && row == PlacedRow(s.children, |s.children|, level + 1, left)
    ensures forall id :: id in IdsOf(s.children, |s.children|) ==>
              id in Ids(s) && id in row && id in Placed(s, level, left) && Placed(s, level, left)[id] == row[id]
  {
    PlacedRowKeys(s.children, |s.children|, level + 1, left);
  }

  lemma DrawnBelow(drawn: Layouts, row: Layouts, s: Shape, level: nat, left: int, child: Shape, edge: int)
    requires DrawnAs(drawn, s, level, left) && DrawnAs(row, child, level + 1, edge)
    requires forall id :: id in Ids(child) ==>
               id in Ids(s) && id in row && id in Placed(s, level, left) && Placed(s, level, left)[id] == row[id]
    ensures DrawnAs(drawn, child, level + 1, edge)
  {}

  lemma {:induction false} WidthsAreRow(drawn: Layouts, ss: seq<Shape>, k: nat)
    requires k <= |ss| && forall i :: 0 <= i < |ss| ==> ss[i].id in drawn && drawn[ss[i].id].width == Width(ss[i])
    ensures RowWidth(ss, k) == Offset(WidthsOf(drawn, ss), k) - (if 0 < k == |ss| then 36 else 0)
    decreases k
  {
    if k > 0 {
      WidthsAreRow(drawn, ss, k - 1);
    }
  }

  lemma RootDrawn(drawn: Layouts, s: Shape, level: nat, left: int)
    requires DrawnAs(drawn, s, level, left)
    ensures s.id in drawn && drawn[s.id] == Layout(level, Width(s), left + (Width(s) - NODE_WIDTH) / 2, Y(level))
    ensures Middle(drawn[s.id]) == 2 * left + Width(s)
  {
    assert s.id in Ids(s);
    WidthIsEven(s);
  }

  lemma NodeStandsOver(drawn: Layouts, s: Shape, level: nat, left: int)
    requires Distinct(s) && DrawnAs(drawn, s, level, left)
    ensures StandsOver(drawn, s, level)
  {
    var ss := s.children;
    RootDrawn(drawn, s, level, left);
    forall j | 0 <= j < |ss|
      ensures ss[j].id in drawn && drawn[ss[j].id].width == Width(ss[j])
      ensures Middle(drawn[ss[j].id]) == 2 * (left + RowWidth(ss, j)) + Width(ss[j])
    {
      ChildDrawn(drawn, s, level, left, j, ss[j], left + RowWidth(ss, j));
      RootDrawn(drawn, ss[j], level + 1, left + RowWidth(ss, j));
    }
    forall k | 0 <= k <= |ss|
      ensures RowWidth(ss, k) == Offset(WidthsOf(drawn, ss), k) - (if 0 < k == |ss| then 36 else 0)
    {
      WidthsAreRow(drawn, ss, k);
    }
  }

  lemma {:induction false} PathIsDrawn(drawn: Layouts, s: Shape, level: nat, left: int, path: Path)
    requires Distinct(s) && DrawnAs(drawn, s, level, left) && At(s, path).Some?
    ensures StandsOver(drawn, At(s, path).value, level + |path|)
    decreases |path|
  {
    if path == [] {
      NodeStandsOver(drawn, s, level, left);
    } else {
      var child, edge := s.children[path[0]], left + RowWidth(s.children, path[0]);
      ChildDrawn(drawn, s, level, left, path[0], child, edge);
      PathIsDrawn(drawn, child, level + 1, edge, path[1..]);
    }
  }

  lemma {:induction false} TreeIsDrawn(roots: seq<Shape>, k: nat, r: nat)
    requires r < k <= |roots| && DistinctRow(roots, |roots|)
    ensures DrawnAs(PlacedForest(roots, k), roots[r], 0, Cursor(roots, r))
    decreases k
  {
    PlacedKeys(roots[r], 0, Cursor(roots, r));
    if r < k - 1 {
      TreeIsDrawn(roots, k - 1, r);
      DistinctSiblings(roots, |roots|, r, k - 1);
      PlacedKeys(roots[k - 1], 0, Cursor(roots, k - 1));
    }
  }

  /** Every node of every tree stands in the middle of its interval, on the level of its path. */
  lemma NodesAreCentred(roots: seq<Shape>, drawn: Layouts, r: nat, path: Path)
    requires drawn == PlacedForest(roots, |roots|) && DistinctRow(roots, |roots|)
    requires r < |roots| && At(roots[r], path).Some?
    ensures StandsOver(drawn, At(roots[r], path).value, |path|)
  {
    TreeIsDrawn(roots, |roots|, r);
    DistinctAt(roots, |roots|, r);
    PathIsDrawn(drawn, roots[r], 0, Cursor(roots, r), path);
  }

  lemma {:induction false} WidthsAreCursor(drawn: Layouts, roots: seq<Shape>, k: nat)
    requires k <= |roots|
    requires forall i :: 0 <= i < |roots| ==> roots[i].id in drawn && drawn[roots[i].id].width == Width(roots[i])
    ensures Cursor(roots, k) == 32 + Offset(WidthsOf(drawn, roots), k)
    decreases k
  {
    if k > 0 {
      WidthsAreCursor(drawn, roots, k - 1);
    }
  }

  /** The trees stand side by side, behind the margin, with spacing between their intervals. */
  lemma RootsAreCentred(roots: seq<Shape>, drawn: Layouts, r: nat)
    requires drawn == PlacedForest(roots, |roots|) && DistinctRow(roots, |roots|) && r < |roots|
    ensures forall i :: 0 <= i < |roots| ==> roots[i].id in drawn
    ensures Middle(drawn[roots[r].id]) ==
            2 * (32 + Offset(WidthsOf(drawn, roots), r)) + drawn[roots[r].id].width
  {
    forall i | 0 <= i < |roots|
      ensures roots[i].id in drawn && drawn[roots[i].id].width == Width(roots[i])
      ensures Middle(drawn[roots[i].id]) == 2 * Cursor(roots, i) + Width(roots[i])
    {
      TreeIsDrawn(roots, |roots|, i);
      RootDrawn(drawn, roots[i], 0, Cursor(roots, i));
    }
    WidthsAreCursor(drawn, roots, r);
  }

  // ---------- the canvas ----------

  /** The level is reached by some node and passed by none. */
  ghost predicate IsDeepest(m: Layouts, level: nat) {
    && (exists id :: id in m && m[id].level == level)
    && forall id :: id in m ==> m[id].level <= level
  }

  lemma {:induction false} DepthIsReached(s: Shape, level: nat, left: int)
    requires Distinct(s)
    ensures IsDeepest(Placed(s, level, left), Depth(s, level))
    decreases s, 1
  {
    var ss := s.children;
    var m, row := Placed(s, level, left), PlacedRow(ss, |ss|, level + 1, left);
    SubtreeWithin(s, level, left);
    PlacedRowKeys(ss, |ss|, level + 1, left);
    if Depth(s, level) == level {
      assert m[s.id].level == level;
    } else {
      var id := RowDepthIsReached(ss, |ss|, level + 1, left);
      assert m[id] == row[id];
    }
  }

  lemma {:induction false} RowDepthIsReached(ss: seq<Shape>, k: nat, level: nat, left: int) returns (id: nat)
    requires 0 < k <= |ss| && DistinctRow(ss, k)
    ensures id in PlacedRow(ss, k, level, left) && PlacedRow(ss, k, level, left)[id].level == DeepestOf(ss, k, level)
    decreases ss, 0, k
  {
    var edge := left + RowWidth(ss, k - 1);
    DepthIsReached(ss[k - 1], level, edge);
    var last := Placed(ss[k - 1], level, edge);
    if k == 1 || DeepestOf(ss, k, level) == Depth(ss[k - 1], level) {
      id :| id in last && last[id].level == Depth(ss[k - 1], level);
    } else {
      id := RowDepthIsReached(ss, k - 1, level, left);
      PlacedRowKeys(ss, k - 1, level, left);
      PlacedKeys(ss[k - 1], level, edge);
    }
  }

  lemma {:induction false} ForestDepthIsReached(roots: seq<Shape>, k: nat)
    requires 0 < k <= |roots| && DistinctRow(roots, |roots|)
    ensures IsDeepest(PlacedForest(roots, k), ForestDepth(roots, k))
    decreases k
  {
    var all, before := PlacedForest(roots, k), PlacedForest(roots, k - 1);
    var last := Placed(roots[k - 1], 0, Cursor(roots, k - 1));
    ForestWithin(roots, k);
    DistinctAt(roots, |roots|, k - 1);
    DepthIsReached(roots[k - 1], 0, Cursor(roots, k - 1));
    if k > 1 && ForestDepth(roots, k) != Depth(roots[k - 1], 0) {
      ForestDepthIsReached(roots, k - 1);
      var id :| id in before && before[id].level == ForestDepth(roots, k - 1);
      OtherTree(roots, k, id);
      assert id in all && all[id] == before[id] && all[id].level == ForestDepth(roots, k);
    } else {
      var id :| id in last && last[id].level == Depth(roots[k - 1], 0);
      assert id in all && all[id] == last[id] && all[id].level == ForestDepth(roots, k);
    }
  }

  lemma {:induction false} OtherTree(roots: seq<Shape>, k: nat, id: nat)
    requires 0 < k <= |roots| && DistinctRow(roots, |roots|) && id in PlacedForest(roots, k - 1)
    ensures id !in Placed(roots[k - 1], 0, Cursor(roots, k - 1))
  {
    var r := TreeOf(roots, k - 1, id);
    DistinctSiblings(roots, |roots|, r, k - 1);
    PlacedKeys(roots[k - 1], 0, Cursor(roots, k - 1));
  }

  lemma {:induction false} TreeOf(roots: seq<Shape>, k: nat, id: nat) returns (r: nat)
    requires k <= |roots| && id in PlacedForest(roots, k)
    ensures r < k && id in Ids(roots[r])
    decreases k
  {
    PlacedKeys(roots[k - 1], 0, Cursor(roots, k - 1));
    if id in Placed(roots[k - 1], 0, Cursor(roots, k - 1)) {
      r := k - 1;
    } else {
      r := TreeOf(roots, k - 1, id);
    }
  }

  /** The canvas is as wide as the trees with their spacing and margins, and as high as the deepest node asks for. */
  lemma CanvasFits(roots: seq<Shape>, drawn: Layouts)
    requires drawn == PlacedForest(roots, |roots|) && DistinctRow(roots, |roots|) && roots != []
    ensures forall i :: 0 <= i < |roots| ==> roots[i].id in drawn
    ensures CanvasWidth(roots) == 32 + Offset(WidthsOf(drawn, roots), |roots|) + 32
    ensures exists deepest: nat :: IsDeepest(drawn, deepest) && CanvasHeight(roots) == 152 * (deepest + 1) + 112 + 48
  {
    forall i | 0 <= i < |roots| ensures roots[i].id in drawn && drawn[roots[i].id].width == Width(roots[i]) {
      TreeIsDrawn(roots, |roots|, i);
      RootDrawn(drawn, roots[i], 0, Cursor(roots, i));
    }
    WidthsAreCursor(drawn, roots, |roots|);
    ForestDepthIsReached(roots, |roots|);
    assert IsDeepest(drawn, ForestDepth(roots, |roots|));
  }
}
