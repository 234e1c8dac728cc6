/** The drawing of a plan forest: measured bottom-up, positioned top-down. */
module PlanLayout {
  import opened Common

  const NODE_WIDTH := 280
  const NODE_HEIGHT := 112
  const LEVEL_HEIGHT := 152
  const SIBLING_SPACING := 36
  const MARGIN := 32
  const TOP := 24

  /** A node of the graph, by its id, with its children. */
  datatype Shape = Shape(id: nat, children: seq<Shape>)

  /** A node's place in the drawing; `width` is that of the interval its subtree gets. */
  datatype Layout = Layout(level: nat, width: nat, x: int, y: int)

  type Layouts = map<nat, Layout>

  function Y(level: nat): int { level * LEVEL_HEIGHT + TOP }

  // ---------- the specification ----------

  function Width(s: Shape): nat
    decreases s, 1
  {
    Max(NODE_WIDTH, RowWidth(s.children, |s.children|))
  }

  /** The first `k` siblings side by side, with spacing between them. */
  function RowWidth(ss: seq<Shape>, k: nat): nat
    requires k <= |ss|
    decreases ss, 0, k
  {
    if k == 0 then 0 else RowWidth(ss, k - 1) + Width(ss[k - 1]) + (if k < |ss| then SIBLING_SPACING else 0)
  }

  function Depth(s: Shape, level: nat): nat
    decreases s, 1
  {
    Max(level, DeepestOf(s.children, |s.children|, level + 1))
  }

  function DeepestOf(ss: seq<Shape>, k: nat, level: nat): nat
    requires k <= |ss|
    decreases ss, 0, k
  {
    if k == 0 then 0 else Max(DeepestOf(ss, k - 1, level), Depth(ss[k - 1], level))
  }

  /** The layouts of a subtree that starts at `left`; before positioning every `x` is zero. */
  function Placed(s: Shape, level: nat, left: int): Layouts
    decreases s, 1
  {
    PlacedRow(s.children, |s.children|, level + 1, left)
      [s.id := Layout(level, Width(s), left + (Width(s) - NODE_WIDTH) / 2, Y(level))]
  }

  function PlacedRow(ss: seq<Shape>, k: nat, level: nat, left: int): Layouts
    requires k <= |ss|
    decreases ss, 0, k
  {
    if k == 0 then map[]
    else PlacedRow(ss, k - 1, level, left) + Placed(ss[k - 1], level, left + RowWidth(ss, k - 1))
  }

  function Measured(s: Shape, level: nat): Layouts
    decreases s, 1
  {
    MeasuredRow(s.children, |s.children|, level + 1)[s.id := Layout(level, Width(s), 0, Y(level))]
  }

  function MeasuredRow(ss: seq<Shape>, k: nat, level: nat): Layouts
    requires k <= |ss|
    decreases ss, 0, k
  {
    if k == 0 then map[] else MeasuredRow(ss, k - 1, level) + Measured(ss[k - 1], level)
  }

  function Ids(s: Shape): set<nat>
    decreases s, 1
  {
    {s.id} + IdsOf(s.children, |s.children|)
  }

  function IdsOf(ss: seq<Shape>, k: nat): set<nat>
    requires k <= |ss|
    decreases ss, 0, k
  {
    if k == 0 then {} else IdsOf(ss, k - 1) + Ids(ss[k - 1])
  }

  /** No id occurs twice. */
  ghost predicate Distinct(s: Shape)
    decreases s, 1
  {
    s.id !in IdsOf(s.children, |s.children|) && DistinctRow(s.children, |s.children|)
  }

  ghost predicate DistinctRow(ss: seq<Shape>, k: nat)
    requires k <= |ss|
    decreases ss, 0, k
  {
    k == 0 || (DistinctRow(ss, k - 1) && Distinct(ss[k - 1]) && IdsOf(ss, k - 1) !! Ids(ss[k - 1]))
  }

  /** The left edge of the `k`-th tree. */
  function Cursor(roots: seq<Shape>, k: nat): nat
    requires k <= |roots|
  {
    if k == 0 then MARGIN else Cursor(roots, k - 1) + Width(roots[k - 1]) + SIBLING_SPACING
  }

  function PlacedForest(roots: seq<Shape>, k: nat): Layouts
    requires k <= |roots|
  {
    if k == 0 then map[] else PlacedForest(roots, k - 1) + Placed(roots[k - 1], 0, Cursor(roots, k - 1))
  }

  function ForestDepth(roots: seq<Shape>, k: nat): nat
    requires k <= |roots|
  {
    if k == 0 then 0 else Max(ForestDepth(roots, k - 1), Depth(roots[k - 1], 0))
  }

  function CanvasWidth(roots: seq<Shape>): int { Max(1, Cursor(roots, |roots|) + MARGIN) }

  function CanvasHeight(roots: seq<Shape>): int {
    Max(1, (ForestDepth(roots, |roots|) + 1) * LEVEL_HEIGHT + NODE_HEIGHT + 48)
  }

  // ---------- merging ----------

  lemma {:induction false} PlacedKeys(s: Shape, level: nat, left: int)
    ensures Placed(s, level, left).Keys == Ids(s)
    decreases s, 1
  {
    PlacedRowKeys(s.children, |s.children|, level + 1, left);
  }

  lemma {:induction false} PlacedRowKeys(ss: seq<Shape>, k: nat, level: nat, left: int)
    requires k <= |ss|
    ensures PlacedRow(ss, k, level, left).Keys == IdsOf(ss, k)
    decreases ss, 0, k
  {
    if k > 0 {
      PlacedRowKeys(ss, k - 1, level, left);
      PlacedKeys(ss[k - 1], level, left + RowWidth(ss, k - 1));
    }
  }

  lemma {:induction false} MeasuredKeys(s: Shape, level: nat)
    ensures Measured(s, level).Keys == Ids(s)
    decreases s, 1
  {
    MeasuredRowKeys(s.children, |s.children|, level + 1);
  }

  lemma {:induction false} MeasuredRowKeys(ss: seq<Shape>, k: nat, level: nat)
    requires k <= |ss|
    ensures MeasuredRow(ss, k, level).Keys == IdsOf(ss, k)
    decreases ss, 0, k
  {
    if k > 0 {
      MeasuredRowKeys(ss, k - 1, level);
      MeasuredKeys(ss[k - 1], level);
    }
  }

  /** All nodes of a subtree have been measured. */
  ghost predicate Agrees(m: Layouts, s: Shape, level: nat)
    decreases s, 1
  {
    && s.id in m && m[s.id].level == level && m[s.id].width == Width(s) && m[s.id].y == Y(level)
    && AgreesRow(m, s.children, |s.children|, level + 1)
  }

  ghost predicate AgreesRow(m: Layouts, ss: seq<Shape>, k: nat, level: nat)
    requires k <= |ss|
    decreases ss, 0, k
  {
    k == 0 || (AgreesRow(m, ss, k - 1, level) && Agrees(m, ss[k - 1], level))
  }

  /** Layouts of other nodes do not matter. */
  lemma {:induction false} AgreesKept(m: Layouts, more: Layouts, s: Shape, level: nat)
    requires Agrees(m, s, level) && more.Keys !! Ids(s)
    ensures Agrees(m + more, s, level)
    decreases s, 1
  {
    AgreesRowKept(m, more, s.children, |s.children|, level + 1);
  }

  lemma {:induction false} AgreesRowKept(m: Layouts, more: Layouts, ss: seq<Shape>, k: nat, level: nat)
    requires k <= |ss| && AgreesRow(m, ss, k, level) && more.Keys !! IdsOf(ss, k)
    ensures AgreesRow(m + more, ss, k, level)
    decreases ss, 0, k
  {
    if k > 0 {
      AgreesRowKept(m, more, ss, k - 1, level);
      AgreesKept(m, more, ss[k - 1], level);
    }
  }

  lemma {:induction false} AgreesAt(m: Layouts, ss: seq<Shape>, k: nat, level: nat, j: nat)
    requires j < k <= |ss| && AgreesRow(m, ss, k, level)
    ensures Agrees(m, ss[j], level)
    decreases k
  {
    if j < k - 1 {
      AgreesAt(m, ss, k - 1, level, j);
    }
  }

  lemma {:induction false} MeasuredAgrees(m: Layouts, s: Shape, level: nat)
    requires Distinct(s)
    ensures Agrees(m + Measured(s, level), s, level)
    decreases s, 1
  {
    var row := MeasuredRow(s.children, |s.children|, level + 1);
    var own: Layouts := map[s.id := Layout(level, Width(s), 0, Y(level))];
    MeasuredRowAgrees(m, s.children, |s.children|, level + 1);
    AgreesRowKept(m + row, own, s.children, |s.children|, level + 1);
    assert m + Measured(s, level) == (m + row) + own;
  }

  lemma {:induction false} MeasuredRowAgrees(m: Layouts, ss: seq<Shape>, k: nat, level: nat)
    requires k <= |ss| && DistinctRow(ss, k)
    ensures AgreesRow(m + MeasuredRow(ss, k, level), ss, k, level)
    decreases ss, 0, k
  {
    if k > 0 {
      var before, last := m + MeasuredRow(ss, k - 1, level), Measured(ss[k - 1], level);
      MeasuredRowAgrees(m, ss, k - 1, level);
      MeasuredKeys(ss[k - 1], level);
      AgreesRowKept(before, last, ss, k - 1, level);
      MeasuredAgrees(before, ss[k - 1], level);
      MergeAssociative(m, MeasuredRow(ss, k - 1, level), last);
    }
  }

  lemma {:induction false} DistinctSiblings(ss: seq<Shape>, k: nat, i: nat, j: nat)
    requires i < j < k <= |ss| && DistinctRow(ss, k)
    ensures Ids(ss[i]) !! Ids(ss[j]) && Distinct(ss[i]) && Distinct(ss[j])
    decreases k
  {
    if j < k - 1 {
      DistinctSiblings(ss, k - 1, i, j);
    } else {
      IdsOfIncludes(ss, k - 1, i);
      DistinctAt(ss, k - 1, i);
    }
  }

  lemma {:induction false} DistinctAt(ss: seq<Shape>, k: nat, i: nat)
    requires i < k <= |ss| && DistinctRow(ss, k)
    ensures Distinct(ss[i])
    decreases k
  {
    if i < k - 1 {
      DistinctAt(ss, k - 1, i);
    }
  }

  lemma {:induction false} IdsOfIncludes(ss: seq<Shape>, k: nat, i: nat)
    requires i < k <= |ss|
    ensures Ids(ss[i]) <= IdsOf(ss, k)
    decreases k
  {
    if i < k - 1 {
      IdsOfIncludes(ss, k - 1, i);
    }
  }

  lemma MergeAssociative(a: Layouts, b: Layouts, c: Layouts)
    ensures (a + b) + c == a + (b + c)
  {}

  lemma Overwritten(a: Layouts, b: Layouts, c: Layouts)
    requires b.Keys == c.Keys
    ensures a + b + c == a + c
  {}

  // ---------- the code ----------

  class TreeLayout {
    var layouts: Layouts
    var maxLevel: nat
    var width: int
    var height: int

    constructor ()
      ensures layouts == map[] && maxLevel == 0
    {
      layouts, maxLevel, width, height := map[], 0, 0, 0;
    }

    method Measure(s: Shape, level: nat) returns (width: nat)
      modifies this`layouts, this`maxLevel
      ensures width == Width(s)
      ensures layouts == old(layouts) + Measured(s, level)
      ensures maxLevel == Max(old(maxLevel), Depth(s, level))
      decreases s
    {
      maxLevel := Max(maxLevel, level);
      var childWidth := MeasureRow(s.children, level + 1);
      width := Max(NODE_WIDTH, childWidth);
      layouts := layouts[s.id := Layout(level, width, 0, Y(level))];
    }

    /** The loop over a node's children. */
    method MeasureRow(children: seq<Shape>, level: nat) returns (width: nat)
      modifies this`layouts, this`maxLevel
      ensures width == RowWidth(children, |children|)
      ensures layouts == old(layouts) + MeasuredRow(children, |children|, level)
      ensures maxLevel == Max(old(maxLevel), DeepestOf(children, |children|, level))
      decreases children
    {
      width := 0;
      for index := 0 to |children|
        invariant width == RowWidth(children, index)
        invariant layouts == old(layouts) + MeasuredRow(children, index, level)
        invariant maxLevel == Max(old(maxLevel), DeepestOf(children, index, level))
      {
        var w := Measure(children[index], level);
        MergeAssociative(old(layouts), MeasuredRow(children, index, level), Measured(children[index], level));
        width := width + w;
        if index < |children| - 1 {
          width := width + SIBLING_SPACING;
        }
      }
    }

    method Position(s: Shape, ghost level: nat, left: int)
      requires Agrees(layouts, s, level) && Distinct(s)
      modifies this`layouts
      ensures layouts == old(layouts) + Placed(s, level, left)
      decreases s
    {
      var children := s.children;
      var layout := layouts[s.id];
      layouts := layouts[s.id := layout.(x := left + (layout.width - NODE_WIDTH) / 2)];
      RootApart(old(layouts), s, level, layouts[s.id]);
      PositionRow(children, level + 1, left);
      PlacedRowKeys(children, |children|, level + 1, left);
    }

    /** The loop over a node's children. */
    method PositionRow(children: seq<Shape>, ghost level: nat, left: int)
      requires DistinctRow(children, |children|)
      requires forall j :: 0 <= j < |children| ==> Agrees(layouts, children[j], level)
      modifies this`layouts
      ensures layouts == old(layouts) + PlacedRow(children, |children|, level, left)
      decreases children
    {
      var childLeft := left;
      for index := 0 to |children|
        invariant childLeft == left + RowWidth(children, index)
        invariant layouts == old(layouts) + PlacedRow(children, index, level, left)
        invariant forall j :: index <= j < |children| ==> Agrees(layouts, children[j], level)
      {
        ghost var before, last := layouts, Placed(children[index], level, childLeft);
        DistinctAt(children, |children|, index);
        Position(children[index], level, childLeft);
        MergeAssociative(old(layouts), PlacedRow(children, index, level, left), last);
        PlacedKeys(children[index], level, childLeft);
        LaterSiblingsAgree(before, children, index, level, last);
        childLeft := childLeft + layouts[children[index].id].width;
        if index < |children| - 1 {
          childLeft := childLeft + SIBLING_SPACING;
        }
      }
    }

    /** Lays out the trees of a forest side by side. */
    method RenderTree(roots: seq<Shape>)
      requires layouts == map[] && maxLevel == 0
      requires forall r :: 0 <= r < |roots| ==> Distinct(roots[r])
      modifies this
      ensures layouts == PlacedForest(roots, |roots|)
      ensures width == CanvasWidth(roots) && height == CanvasHeight(roots)
    {
      var cursor := MARGIN;
      for r := 0 to |roots|
        invariant cursor == Cursor(roots, r)
        invariant layouts == PlacedForest(roots, r) && maxLevel == ForestDepth(roots, r)
      {
        ghost var before, root := layouts, roots[r];
        var w := Measure(roots[r], 0);
        MeasuredAgrees(before, root, 0);
        Position(roots[r], 0, cursor);
        MeasuredKeys(root, 0);
        PlacedKeys(root, 0, cursor);
        Overwritten(before, Measured(root, 0), Placed(root, 0, cursor));
        cursor := cursor + w + SIBLING_SPACING;
      }
      width := Max(1, cursor + MARGIN);
      height := Max(1, (maxLevel + 1) * LEVEL_HEIGHT + NODE_HEIGHT + 48);
    }
  }

  /** Moving a node leaves its descendants measured. */
  lemma RootApart(m: Layouts, s: Shape, level: nat, l: Layout)
    requires Agrees(m, s, level) && Distinct(s)
    ensures forall j :: 0 <= j < |s.children| ==> Agrees(m[s.id := l], s.children[j], level + 1)
  {
    forall j | 0 <= j < |s.children| ensures Agrees(m[s.id := l], s.children[j], level + 1) {
      AgreesAt(m, s.children, |s.children|, level + 1, j);
      IdsOfIncludes(s.children, |s.children|, j);
      AgreesKept(m, map[s.id := l], s.children[j], level + 1);
      assert m[s.id := l] == m + map[s.id := l];
    }
  }

  lemma LaterSiblingsAgree(m: Layouts, ss: seq<Shape>, i: nat, level: nat, last: Layouts)
    requires i < |ss| && DistinctRow(ss, |ss|) && last.Keys == Ids(ss[i])
    requires forall j :: i <= j < |ss| ==> Agrees(m, ss[j], level)
    ensures forall j :: i < j < |ss| ==> Agrees(m + last, ss[j], level)
  {
    forall j | i < j < |ss| ensures Agrees(m + last, ss[j], level) {
      DistinctSiblings(ss, |ss|, i, j);
      AgreesKept(m, last, ss[j], level);
    }
  }
}
