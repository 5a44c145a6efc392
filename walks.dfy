/** The inductive step of each recursive walk of the level over a block's children, stated on values:
    after the walk has visited children 0 .. i - 1 of a block, visiting child i (the child itself,
    then recursively the blocks above it) extends what the walk has done by that child's subtree. */
module Walks {
  import opened Winning
  import opened Forest
  import opened Layers
  import opened Board

  /** The carry of a stack (`MoveStack`) starts with its bottom block. */
  lemma MoveWalkStart(kids: seq<seq<nat>>, height: seq<nat>, cells: seq<Position>, f: Position -> Position, x: nat)
    requires Ranked(kids, height) && x < |kids| && |cells| == |kids|
    ensures cells[x := f(cells[x])] == Apply(cells, {x} + Cover(kids, height, kids[x][..0]), f)
  {
    assert Cover(kids, height, kids[x][..0]) == {};
  }

  /** Carrying child i's stack after the bottom block and children 0 .. i - 1 carries the bottom
      block and children 0 .. i. */
  lemma MoveWalk(kids: seq<seq<nat>>, height: seq<nat>, cells: seq<Position>, f: Position -> Position, x: nat, i: nat)
    requires Tree(kids, height) && x < |kids| && i < |kids[x]|
    ensures Apply(Apply(cells, {x} + Cover(kids, height, kids[x][..i]), f), Sub(kids, height, kids[x][i]), f) ==
            Apply(cells, {x} + Cover(kids, height, kids[x][..i + 1]), f)
  {
    var c := kids[x][i];
    CoverStep(kids, height, x, i);
    assert x !in Sub(kids, height, c);
    ApplyUnion(cells, {x} + Cover(kids, height, kids[x][..i]), Sub(kids, height, c), f);
    assert {x} + Cover(kids, height, kids[x][..i]) + Sub(kids, height, c) == {x} + Cover(kids, height, kids[x][..i + 1]);
  }

  /** Having walked all of `x`'s children, the carry covers `x`'s whole stack. */
  lemma MoveWalkEnd(kids: seq<seq<nat>>, height: seq<nat>, x: nat)
    requires Ranked(kids, height) && x < |kids|
    ensures {x} + Cover(kids, height, kids[x][..|kids[x]|]) == Sub(kids, height, x)
  {
    CoverAll(kids, height, x);
    SubSplit(kids, height, x);
  }

  /** `GetBlockChildrensCount`: child i adds itself and the `n` blocks above it to the count, which
      keeps the count at the number of children not yet walked plus the blocks covered so far. */
  lemma CountWalk(kids: seq<seq<nat>>, height: seq<nat>, x: nat, i: nat, count: int, n: int)
    requires Tree(kids, height) && x < |kids| && i < |kids[x]|
    requires count == |kids[x]| - i + |Cover(kids, height, kids[x][..i])|
    requires n == |Strict(kids, height, kids[x][i])|
    ensures count + n == |kids[x]| - (i + 1) + |Cover(kids, height, kids[x][..i + 1])|
  {
    var c := kids[x][i];
    CoverStep(kids, height, x, i);
    SubSplit(kids, height, c);
  }

  /** `SetBlockChildrenLayerAfterFold`: when the walk has turned over the blocks above children
      0 .. i - 1 (`now`), turning child i over (`mid`) and then the blocks above it (`after`)
      extends the turned-over group by child i's subtree. */
  lemma FlipWalk(kids: seq<seq<nat>>, height: seq<nat>, layer: seq<int>, x: nat, i: nat, c: nat, d: int,
                 now: seq<int>, mid: seq<int>, after: seq<int>)
    requires Tree(kids, height) && x < |kids| && i < |kids[x]| && |layer| == |kids| && c == kids[x][i]
    requires now == Flip(layer, Cover(kids, height, kids[x][..i]), d)
    requires mid == Turn(now, c, d)
    requires after == Flip(mid, Strict(kids, height, c), d)
    ensures after == Flip(layer, Cover(kids, height, kids[x][..i + 1]), d)
  {
    var a, s := Cover(kids, height, kids[x][..i]), Strict(kids, height, c);
    var a2 := Cover(kids, height, kids[x][..i + 1]);
    assert a + ({c} + s) == a2 && c !in a && c !in s && a !! s by {
      CoverStep(kids, height, x, i);
      SubSplit(kids, height, c);
    }
    assert mid == now[c := d - layer[c]];
    FlipStep(layer, a, c, s, d);
  }

  /** `SetParentChildrenLayerAfterFold`, child i being the folded block `b`: it is skipped, and so
      is everything above it. */
  lemma ShiftWalkSkip(kids: seq<seq<nat>>, height: seq<nat>, b: nat, x: nat, i: nat)
    requires Tree(kids, height) && x < |kids| && i < |kids[x]| && kids[x][i] == b
    ensures Cover(kids, height, kids[x][..i + 1]) - Sub(kids, height, b) ==
            Cover(kids, height, kids[x][..i]) - Sub(kids, height, b)
  {
    CoverStep(kids, height, x, i);
  }

  /** `SetParentChildrenLayerAfterFold`, child i being another block: child i is not on `b`, and
      raising the walked part, child i and the part of child i's subtree that is not on `b` raises
      the part of children 0 .. i's subtrees that is not on `b`. */
  lemma ShiftSets(kids: seq<seq<nat>>, height: seq<nat>, layer: seq<int>, b: nat, x: nat, i: nat, k: int)
    requires Tree(kids, height) && b < |kids| && x < |kids| && i < |kids[x]|
    requires x !in Sub(kids, height, b) && kids[x][i] != b
    ensures var sb, a, c := Sub(kids, height, b), Cover(kids, height, kids[x][..i]), kids[x][i];
      var s := Strict(kids, height, c) - sb;
      c !in sb && c !in a - sb && c !in s && (a - sb) !! s &&
      Shift(layer, (a - sb) + ({c} + s), k) == Shift(layer, Cover(kids, height, kids[x][..i + 1]) - sb, k)
  {
    var sb, a, c := Sub(kids, height, b), Cover(kids, height, kids[x][..i]), kids[x][i];
    var s := Strict(kids, height, c) - sb;
    var a2 := Cover(kids, height, kids[x][..i + 1]) - sb;
    ShiftParts(kids, height, b, x, i);
    assert (a - sb) + ({c} + s) == a2;
  }

  /** The sets behind `ShiftSets`. */
  lemma ShiftParts(kids: seq<seq<nat>>, height: seq<nat>, b: nat, x: nat, i: nat)
    requires Tree(kids, height) && b < |kids| && x < |kids| && i < |kids[x]|
    requires x !in Sub(kids, height, b) && kids[x][i] != b
    ensures var sb, a, c := Sub(kids, height, b), Cover(kids, height, kids[x][..i]), kids[x][i];
      var s := Strict(kids, height, c) - sb;
      c !in sb && c !in a - sb && c !in s && (a - sb) !! s &&
      (a - sb) + ({c} + s) == Cover(kids, height, kids[x][..i + 1]) - sb
  {
    var c := kids[x][i];
    ChildOutside(kids, height, b, x, i);
    CoverStep(kids, height, x, i);
    SubSplit(kids, height, c);
  }

  /** What `SetParentChildrenLayerAfterFold` has done to `layer` after walking children 0 .. i - 1
      of `x`: each child other than `b` rises by k, then the blocks above it that are not on `b`. */
  ghost function Raised(kids: seq<seq<nat>>, height: seq<nat>, layer: seq<int>, b: nat, x: nat, i: nat, k: int): (r: seq<int>)
    requires Ranked(kids, height) && b < |kids| && x < |kids| && i <= |kids[x]| && |layer| == |kids|
    ensures |r| == |layer|
  {
    if i == 0 then layer
    else
      var prev, c := Raised(kids, height, layer, b, x, i - 1, k), kids[x][i - 1];
      if c == b then prev
      else Shift(Lift(prev, c, k), Strict(kids, height, c) - Sub(kids, height, b), k)
  }

  /** One more child walked. */
  lemma RaisedNext(kids: seq<seq<nat>>, height: seq<nat>, layer: seq<int>, b: nat, x: nat, i: nat, k: int)
    requires Ranked(kids, height) && b < |kids| && x < |kids| && i < |kids[x]| && |layer| == |kids|
    ensures var now, c := Raised(kids, height, layer, b, x, i, k), kids[x][i];
      Raised(kids, height, layer, b, x, i + 1, k) ==
      if c == b then now else Shift(Lift(now, c, k), Strict(kids, height, c) - Sub(kids, height, b), k)
  {
  }

  /** `SetParentChildrenLayerAfterFold`, child i not being `b`: raising it (`mid`) and then the blocks
      above it that are not on `b` (`after`) walks one more child. */
  lemma RaisedChild(kids: seq<seq<nat>>, height: seq<nat>, layer: seq<int>, b: nat, x: nat, i: nat, n: nat, c: nat, k: int,
                    now: seq<int>, mid: seq<int>, after: seq<int>)
    requires Ranked(kids, height) && b < |kids| && x < |kids| && i < |kids[x]| && |layer| == |kids| && n == i + 1
    requires c == kids[x][i] && c != b && now == Raised(kids, height, layer, b, x, i, k)
    requires mid == Lift(now, c, k)
    requires after == Shift(mid, Strict(kids, height, c) - Sub(kids, height, b), k)
    ensures after == Raised(kids, height, layer, b, x, n, k)
  {
  }

  /** The walk raises exactly the blocks above the walked children that are not on `b`. */
  lemma {:induction false} RaisedIsShift(kids: seq<seq<nat>>, height: seq<nat>, layer: seq<int>, b: nat, x: nat, i: nat, k: int)
    requires Tree(kids, height) && b < |kids| && x < |kids| && i <= |kids[x]| && |layer| == |kids|
    requires x !in Sub(kids, height, b)
    ensures Raised(kids, height, layer, b, x, i, k) == Shift(layer, Cover(kids, height, kids[x][..i]) - Sub(kids, height, b), k)
  {
    if i == 0 {
      RaisedZero(kids, height, layer, b, x, k);
    } else {
      RaisedIsShift(kids, height, layer, b, x, i - 1, k);
      RaisedStep(kids, height, layer, b, x, i - 1, i, k);
    }
  }

  /** Before the walk, nothing is raised. */
  lemma RaisedZero(kids: seq<seq<nat>>, height: seq<nat>, layer: seq<int>, b: nat, x: nat, k: int)
    requires Ranked(kids, height) && b < |kids| && x < |kids| && |layer| == |kids|
    ensures Raised(kids, height, layer, b, x, 0, k) == Shift(layer, Cover(kids, height, kids[x][..0]) - Sub(kids, height, b), k)
  {
    assert Cover(kids, height, kids[x][..0]) == {};
  }

  /** Child j of `x` walked: skipped when it is `b`; otherwise raised with the blocks above it that
      are not on `b`, which extends the raised group by child j's subtree minus `b`'s. */
  lemma RaisedStep(kids: seq<seq<nat>>, height: seq<nat>, layer: seq<int>, b: nat, x: nat, j: nat, n: nat, k: int)
    requires Tree(kids, height) && b < |kids| && x < |kids| && j < |kids[x]| && |layer| == |kids| && n == j + 1
    requires x !in Sub(kids, height, b)
    requires Raised(kids, height, layer, b, x, j, k) == Shift(layer, Cover(kids, height, kids[x][..j]) - Sub(kids, height, b), k)
    ensures Raised(kids, height, layer, b, x, n, k) == Shift(layer, Cover(kids, height, kids[x][..n]) - Sub(kids, height, b), k)
  {
    var sb, a, c := Sub(kids, height, b), Cover(kids, height, kids[x][..j]), kids[x][j];
    var now := Raised(kids, height, layer, b, x, j, k);
    RaisedNext(kids, height, layer, b, x, j, k);
    if c == b {
      ShiftWalkSkip(kids, height, b, x, j);
    } else {
      var s := Strict(kids, height, c) - sb;
      ShiftSets(kids, height, layer, b, x, j, k);
      ShiftAt(layer, a - sb, c, s, (a - sb) + ({c} + s), k, now, Lift(now, c, k), Raised(kids, height, layer, b, x, j + 1, k));
    }
  }

  /** `SetBlockParentChildrenLayerAfterUnfold`, child i being the unfolded block `c`: it is skipped. */
  lemma SinkWalkSkip(kids: seq<seq<nat>>, height: seq<nat>, p: nat, i: nat, c: nat)
    requires Tree(kids, height) && p < |kids| && i < |kids[p]| && kids[p][i] == c
    ensures Others(kids[p][..i + 1], c) == Others(kids[p][..i], c)
    ensures Below(kids, height, kids[p][..i + 1], c) == Below(kids, height, kids[p][..i], c)
  {
    OthersStep(kids, height, p, i, c);
  }

  /** `SetBlockParentChildrenLayerAfterUnfold`, child i being another block: when the walk has sunk
      children 0 .. i - 1 other than `c` and turned the blocks above them over (`now`), sinking
      child i (`mid`) and then turning the blocks above it over (`after`) adds it to the sunk group
      and its stack to the turned one; the two groups stay apart. */
  lemma SinkWalk(kids: seq<seq<nat>>, height: seq<nat>, layer: seq<int>, p: nat, i: nat, c: nat, x: nat, d: int, sink: int,
                 now: seq<int>, mid: seq<int>, after: seq<int>)
    requires Tree(kids, height) && p < |kids| && i < |kids[p]| && |layer| == |kids| && x == kids[p][i] && x != c
    requires sink == -d - 1 && Others(kids[p][..i], c) !! Below(kids, height, kids[p][..i], c)
    requires now == Sink(layer, Others(kids[p][..i], c), Below(kids, height, kids[p][..i], c), d)
    requires mid == Lift(now, x, sink)
    requires after == Flip(mid, Strict(kids, height, x), d)
    ensures Others(kids[p][..i + 1], c) !! Below(kids, height, kids[p][..i + 1], c)
    ensures after == Sink(layer, Others(kids[p][..i + 1], c), Below(kids, height, kids[p][..i + 1], c), d)
  {
    var o, w, s := Others(kids[p][..i], c), Below(kids, height, kids[p][..i], c), Strict(kids, height, x);
    assert Others(kids[p][..i + 1], c) == o + {x} && Below(kids, height, kids[p][..i + 1], c) == w + s &&
           x !in o && x !in w && x !in s && s !! o && s !! w by {
      OthersStep(kids, height, p, i, c);
    }
    assert mid == now[x := layer[x] - d - 1];
    SinkStep(layer, o, w, x, s, d);
  }
}
