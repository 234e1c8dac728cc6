/** Paths from the root of a tree: at each node the index of the child that is taken. */
module Paths {
  type Path = seq<nat>

  /** The order of paths: a node comes before what is below it, and what is below a child before the next child. */
  predicate Before(a: Path, b: Path) {
    b != [] && (a == [] || a[0] < b[0] || (a[0] == b[0] && Before(a[1..], b[1..])))
  }

  ghost predicate Ascending(paths: seq<Path>) { forall k, l :: 0 <= k < l < |paths| ==> Before(paths[k], paths[l]) }

  /** The paths that go on from child `i`. */
  function Under(i: nat, paths: seq<Path>): seq<Path> { seq(|paths|, k requires 0 <= k < |paths| => [i] + paths[k]) }

  lemma UnderAscends(i: nat, paths: seq<Path>)
    requires Ascending(paths)
    ensures Ascending(Under(i, paths))
  {
    forall k, l | 0 <= k < l < |paths| ensures Before([i] + paths[k], [i] + paths[l]) {
      assert Before(paths[k], paths[l]);
      assert ([i] + paths[k])[1..] == paths[k] && ([i] + paths[l])[1..] == paths[l];
    }
  }

  lemma {:induction false} BeforeIsStrict(a: Path)
    ensures !Before(a, a)
    decreases |a|
  {
    if a != [] {
      BeforeIsStrict(a[1..]);
    }
  }

  /** Paths through child `n` or later ones come after those through the children before it. */
  lemma AscendOn(n: nat, paths: seq<Path>, under: seq<Path>)
    requires Ascending(paths) && Ascending(under)
    requires forall k :: 0 <= k < |paths| ==> paths[k] != [] && paths[k][0] < n
    requires forall k :: 0 <= k < |under| ==> under[k] != [] && under[k][0] >= n
    ensures Ascending(paths + under)
  {
    forall k, l | 0 <= k < l < |paths + under| ensures Before((paths + under)[k], (paths + under)[l]) {
      if k < |paths| <= l {
        assert Before(paths[k], under[l - |paths|]);
      } else if l < |paths| {
        assert Before(paths[k], paths[l]);
      }
    }
  }
}
