/** What the level's layer rewrites do, stated over the whole hierarchy at once.

    A block's layer numbers its place in its stack from the top: the block folded last is at 0,
    and the stack's bottom block, the one on nobody, holds the highest layer. A block that "rises" or
    "sinks" below gets a larger or smaller layer number. `SetLayersAfterFold` and
    `SetLayersAfterUnfold` (LevelController.cs:277-371) rewrite the layers of several blocks by
    recursive walks; `FoldLayers` and `UnfoldLayers` give their combined effect block by block. */
module Layers {
  import opened Forest

  /** Raise `t` and the `raised` blocks by d + 1, put `b` at 0, turn the `flipped` blocks over. */
  function Restack(layer: seq<int>, t: nat, b: nat, d: int, raised: set<nat>, flipped: set<nat>): (r: seq<int>)
    ensures |r| == |layer|
    ensures forall x :: 0 <= x < |layer| && x != t && x != b && x !in raised && x !in flipped ==> r[x] == layer[x]
  {
    seq(|layer|, x requires 0 <= x < |layer| =>
      if x == t then layer[x] + d + 1
      else if x == b then 0
      else if x in raised then layer[x] + d + 1
      else if x in flipped then d - layer[x]
      else layer[x])
  }

  /** Lower `p` and the `lowered` blocks by d + 1, put `c` at d, turn the `flipped` blocks over. */
  function Unstack(layer: seq<int>, p: nat, c: nat, d: int, flipped: set<nat>, lowered: set<nat>): (r: seq<int>)
    ensures |r| == |layer|
    ensures forall x :: 0 <= x < |layer| && x != p && x != c && x !in flipped && x !in lowered ==> r[x] == layer[x]
  {
    seq(|layer|, x requires 0 <= x < |layer| =>
      if x == p then layer[x] - d - 1
      else if x == c then d
      else if x in flipped then d - layer[x]
      else if x in lowered then layer[x] - d - 1
      else layer[x])
  }

  /** The layers after folding `b` onto `t`, given the hierarchy after the link (`b` is then the last
      child of `t`) and d, the number of blocks folded onto `b`: the target rises by d + 1, `b` goes
      to layer 0, the rest of the target's stack rises by d + 1, the blocks on `b` are turned
      over (d - layer), and nothing else changes. */
  ghost function FoldLayers(layer: seq<int>, kids: seq<seq<nat>>, height: seq<nat>, b: nat, t: nat): seq<int>
    requires Ranked(kids, height) && b < |kids| && t < |kids|
  {
    Restack(layer, t, b, |Strict(kids, height, b)|,
            Strict(kids, height, t) - Sub(kids, height, b), Strict(kids, height, b))
  }

  /** The layers after unfolding `c` from `p`, given the hierarchy after `c` left `p`'s children and
      d, the number of blocks folded onto `c`: the parent sinks by d + 1, `c` goes to layer d, the
      parent's remaining children sink by d + 1, and both the blocks on `c` and the blocks below the
      parent's remaining children are turned over (d - layer); nothing else changes. */
  ghost function UnfoldLayers(layer: seq<int>, kids: seq<seq<nat>>, height: seq<nat>, c: nat, p: nat): seq<int>
    requires Ranked(kids, height) && c < |kids| && p < |kids|
  {
    Unstack(layer, p, c, |Strict(kids, height, c)|,
            Strict(kids, height, c) + Grand(kids, height, p), Direct(kids, p))
  }

  /** The layers of the blocks of `s` are a permutation of 0 .. |s| - 1 (pairwise different and in
      range), with `root` holding the highest. */
  ghost predicate Ranks(layer: seq<int>, s: set<nat>, root: nat)
  {
    root in s && (forall x :: x in s ==> x < |layer|) &&
    layer[root] == |s| - 1 &&
    (forall x :: x in s ==> 0 <= layer[x] < |s|) &&
    (forall x, y :: x in s && y in s && layer[x] == layer[y] ==> x == y)
  }

  /** The layers of the tree rooted at `r` are a permutation of 0 .. size - 1, with the root holding
      the highest, its descendant count. */
  ghost predicate Stacked(layer: seq<int>, kids: seq<seq<nat>>, height: seq<nat>, r: nat)
    requires Ranked(kids, height) && r < |kids|
  {
    Ranks(layer, Sub(kids, height, r), r)
  }

  /** How the subtrees change when root `b` is folded onto `t` outside its tree: `b`'s tree is kept,
      the target's tree gains it, and the two were disjoint. */
  lemma FoldSets(kids: seq<seq<nat>>, height: seq<nat>, k2: seq<seq<nat>>, h2: seq<nat>, b: nat, t: nat)
    requires Tree(kids, height) && b < |kids| && t < |kids| && b != t
    requires IsRoot(kids, b) && t !in Sub(kids, height, b)
    requires k2 == kids[t := kids[t] + [b]] && Ranked(k2, h2)
    ensures Sub(kids, height, b) !! Sub(kids, height, t)
    ensures Sub(kids, height, b) == {b} + Strict(kids, height, b) && b !in Strict(kids, height, b)
    ensures Sub(kids, height, t) == {t} + Strict(kids, height, t) && t !in Strict(kids, height, t)
    ensures Sub(k2, h2, b) == Sub(kids, height, b) && Strict(k2, h2, b) == Strict(kids, height, b)
    ensures Sub(k2, h2, t) == Sub(kids, height, t) + Sub(kids, height, b)
    ensures Strict(k2, h2, t) - Sub(k2, h2, b) == Strict(kids, height, t)
  {
    if y :| y in Sub(kids, height, b) && y in Sub(kids, height, t) {
      Comparable(kids, height, b, t, y);
      RootOnlyInOwnSub(kids, height, t, b);
    }
    SubUnaffected(kids, height, k2, h2, t, kids[t] + [b], b);
    FoldSubTarget(kids, height, k2, h2, b, t);
    SubSplit(kids, height, b);
    SubSplit(kids, height, t);
    SubSplit(k2, h2, b);
    SubSplit(k2, h2, t);
  }

  /** The fold's layer rewrite in terms of the hierarchy before the link: the target and its old
      descendants rise by d + 1, `b` goes to 0, `b`'s descendants are turned over, and nothing else
      changes. */
  lemma FoldLayersBefore(layer: seq<int>, kids: seq<seq<nat>>, height: seq<nat>, k2: seq<seq<nat>>, h2: seq<nat>, b: nat, t: nat)
    requires Tree(kids, height) && b < |kids| && t < |kids| && b != t
    requires IsRoot(kids, b) && t !in Sub(kids, height, b)
    requires k2 == kids[t := kids[t] + [b]] && Ranked(k2, h2)
    ensures FoldLayers(layer, k2, h2, b, t) ==
      Restack(layer, t, b, |Strict(kids, height, b)|, Strict(kids, height, t), Strict(kids, height, b))
  {
    FoldSets(kids, height, k2, h2, b, t);
  }

  /** Folding one root onto another keeps the joined tree stacked: if both trees had their layers
      as a permutation with the root holding the highest, so does the tree they form. */
  lemma FoldKeepsStacked(layer: seq<int>, kids: seq<seq<nat>>, height: seq<nat>, k2: seq<seq<nat>>, h2: seq<nat>, b: nat, t: nat)
    requires Tree(kids, height) && |layer| == |kids| && b < |kids| && t < |kids| && b != t
    requires IsRoot(kids, b) && IsRoot(kids, t)
    requires k2 == kids[t := kids[t] + [b]] && Ranked(k2, h2)
    requires Stacked(layer, kids, height, b) && Stacked(layer, kids, height, t)
    ensures Stacked(FoldLayers(layer, k2, h2, b, t), k2, h2, t)
  {
    if t in Sub(kids, height, b) {
      RootOnlyInOwnSub(kids, height, b, t);
    }
    FoldSets(kids, height, k2, h2, b, t);
    FoldLayersBefore(layer, kids, height, k2, h2, b, t);
    var sb, st := Sub(kids, height, b), Sub(kids, height, t);
    RestackStacked(layer, t, b, |Strict(kids, height, b)|, st, sb, Strict(kids, height, t), Strict(kids, height, b));
  }

  /** The counting core of `FoldKeepsStacked`, over plain sets. */
  lemma RestackStacked(layer: seq<int>, t: nat, b: nat, d: int, st: set<nat>, sb: set<nat>, raised: set<nat>, flipped: set<nat>)
    requires st == {t} + raised && t !in raised && sb == {b} + flipped && b !in flipped && st !! sb
    requires d == |flipped| && Ranks(layer, st, t) && Ranks(layer, sb, b)
    ensures Ranks(Restack(layer, t, b, d, raised, flipped), st + sb, t)
  {
    RestackRange(layer, t, b, d, st, sb, raised, flipped);
    RestackInjective(layer, t, b, d, st, sb, raised, flipped);
  }

  /** `Restack` gives the target the highest layer of the joined tree and puts every block of it within range. */
  lemma RestackRange(layer: seq<int>, t: nat, b: nat, d: int, st: set<nat>, sb: set<nat>, raised: set<nat>, flipped: set<nat>)
    requires st == {t} + raised && t !in raised && sb == {b} + flipped && b !in flipped && st !! sb
    requires d == |flipped| && Ranks(layer, st, t) && Ranks(layer, sb, b)
    ensures var r := Restack(layer, t, b, d, raised, flipped);
      r[t] == |st + sb| - 1 && forall x :: x in st + sb ==> 0 <= r[x] < |st + sb|
  {
    assert |sb| == d + 1;
    assert |st + sb| == |st| + |sb|;
    RestackRaised(layer, t, b, d, st, sb, raised, flipped);
    RestackTurned(layer, t, b, d, st, sb, raised, flipped);
  }

  /** `Restack` gives the blocks of the joined tree pairwise different layers. */
  lemma RestackInjective(layer: seq<int>, t: nat, b: nat, d: int, st: set<nat>, sb: set<nat>, raised: set<nat>, flipped: set<nat>)
    requires st == {t} + raised && t !in raised && sb == {b} + flipped && b !in flipped && st !! sb
    requires d == |flipped| && Ranks(layer, st, t) && Ranks(layer, sb, b)
    ensures var r := Restack(layer, t, b, d, raised, flipped);
      forall x, y :: x in st + sb && y in st + sb && r[x] == r[y] ==> x == y
  {
    var r := Restack(layer, t, b, d, raised, flipped);
    forall x, y | x in st + sb && y in st + sb && r[x] == r[y] ensures x == y {
      RestackApart(layer, t, b, d, st, sb, raised, flipped, x, y);
    }
  }

  /** `RestackInjective` for one pair of blocks. */
  lemma RestackApart(layer: seq<int>, t: nat, b: nat, d: int, st: set<nat>, sb: set<nat>, raised: set<nat>, flipped: set<nat>,
                     x: nat, y: nat)
    requires st == {t} + raised && t !in raised && sb == {b} + flipped && b !in flipped && st !! sb
    requires d == |flipped| && Ranks(layer, st, t) && Ranks(layer, sb, b)
    requires x in st + sb && y in st + sb
    ensures var r := Restack(layer, t, b, d, raised, flipped); r[x] == r[y] ==> x == y
  {
    RestackRaised(layer, t, b, d, st, sb, raised, flipped);
    RestackTurned(layer, t, b, d, st, sb, raised, flipped);
    if x != y && x in st && y in st {
      assert layer[x] != layer[y];
    } else if x != y && x in sb && y in sb && x != b && y != b {
      assert layer[x] != layer[y];
    }
  }

  /** `Restack` lifts the target's tree by d + 1. */
  lemma RestackRaised(layer: seq<int>, t: nat, b: nat, d: int, st: set<nat>, sb: set<nat>, raised: set<nat>, flipped: set<nat>)
    requires st == {t} + raised && sb == {b} + flipped && st !! sb && (forall x :: x in st ==> x < |layer|)
    ensures forall x :: x in st ==> Restack(layer, t, b, d, raised, flipped)[x] == layer[x] + d + 1
  {
  }

  /** `Restack` puts `b` at 0 and turns the rest of `b`'s tree over within 0 .. d. */
  lemma RestackTurned(layer: seq<int>, t: nat, b: nat, d: int, st: set<nat>, sb: set<nat>, raised: set<nat>, flipped: set<nat>)
    requires st == {t} + raised && t !in raised && sb == {b} + flipped && b !in flipped && st !! sb
    requires d == |flipped| && (forall x :: x in sb ==> x < |layer|)
    requires layer[b] == |sb| - 1
    requires forall x :: x in sb ==> 0 <= layer[x] < |sb|
    requires forall x, y :: x in sb && y in sb && layer[x] == layer[y] ==> x == y
    ensures forall x :: x in sb ==> var r := Restack(layer, t, b, d, raised, flipped);
      0 <= r[x] <= d && (x == b <==> r[x] == 0) && (x != b ==> r[x] == d - layer[x])
  {
    assert |sb| == d + 1;
    forall x | x in sb
      ensures var r := Restack(layer, t, b, d, raised, flipped);
        0 <= r[x] <= d && (x == b <==> r[x] == 0) && (x != b ==> r[x] == d - layer[x])
    {
      if x != b {
        assert layer[x] != layer[b];
      }
    }
  }

  /** A fold rewrites only layers in the target's new tree: every other block keeps its layer. */
  lemma FoldLocality(layer: seq<int>, kids: seq<seq<nat>>, height: seq<nat>, k2: seq<seq<nat>>, h2: seq<nat>, b: nat, t: nat)
    requires Tree(kids, height) && b < |kids| && t < |kids| && b != t
    requires IsRoot(kids, b) && t !in Sub(kids, height, b)
    requires k2 == kids[t := kids[t] + [b]] && Ranked(k2, h2)
    ensures forall x :: 0 <= x < |layer| && x !in Sub(k2, h2, t) ==> FoldLayers(layer, k2, h2, b, t)[x] == layer[x]
  {
    FoldSets(kids, height, k2, h2, b, t);
    FoldLayersBefore(layer, kids, height, k2, h2, b, t);
    RestackLocal(layer, t, b, |Strict(kids, height, b)|, Strict(kids, height, t), Strict(kids, height, b), Sub(k2, h2, t));
  }

  /** In particular a fold leaves the layer of every block the target is itself folded onto,
      directly or not. */
  lemma FoldKeepsAncestors(layer: seq<int>, kids: seq<seq<nat>>, height: seq<nat>, k2: seq<seq<nat>>, h2: seq<nat>, b: nat, t: nat, a: nat)
    requires Tree(kids, height) && b < |kids| && t < |kids| && b != t
    requires IsRoot(kids, b) && t !in Sub(kids, height, b)
    requires k2 == kids[t := kids[t] + [b]] && Ranked(k2, h2)
    requires a < |layer| && a < |kids| && a != t && t in Sub(kids, height, a)
    ensures FoldLayers(layer, k2, h2, b, t)[a] == layer[a]
  {
    FoldSets(kids, height, k2, h2, b, t);
    AncestorOutside(kids, height, b, t, a);
    FoldLocality(layer, kids, height, k2, h2, b, t);
  }

  /** `Restack` changes nothing outside a set holding every block it names. */
  lemma RestackLocal(layer: seq<int>, t: nat, b: nat, d: int, raised: set<nat>, flipped: set<nat>, s: set<nat>)
    requires t in s && b in s && raised <= s && flipped <= s
    ensures forall x :: 0 <= x < |layer| && x !in s ==> Restack(layer, t, b, d, raised, flipped)[x] == layer[x]
  {
  }

  /** A block the target is folded onto lies neither in the target's tree nor in `b`'s. */
  lemma AncestorOutside(kids: seq<seq<nat>>, height: seq<nat>, b: nat, t: nat, a: nat)
    requires Ranked(kids, height) && b < |kids| && t < |kids| && a < |kids| && a != t
    requires t !in Sub(kids, height, b) && t in Sub(kids, height, a)
    ensures a !in Sub(kids, height, t) + Sub(kids, height, b)
  {
    if a in Sub(kids, height, b) {
      SubTrans(kids, height, b, a);
    }
  }

  /** Folding `b` onto `t` and unfolding it straight back restores every layer exactly when `b` sat
      at layer d (its descendant count) and every other child of `t` is a leaf: the unfold turns
      the blocks below `t`'s other children over instead of lowering them back, taking layer l to
      -l - 1. */
  lemma FoldUnfoldRoundTrip(layer: seq<int>, kids: seq<seq<nat>>, height: seq<nat>, k2: seq<seq<nat>>, h2: seq<nat>, b: nat, t: nat)
    requires Tree(kids, height) && |layer| == |kids| && b < |kids| && t < |kids| && b != t
    requires IsRoot(kids, b) && t !in Sub(kids, height, b)
    requires k2 == kids[t := kids[t] + [b]] && Ranked(k2, h2) && Ranked(kids, h2)
    ensures var back := UnfoldLayers(FoldLayers(layer, k2, h2, b, t), kids, h2, b, t);
      back == layer <==> layer[b] == |Strict(kids, height, b)| && Grand(kids, height, t) == {}
  {
    var d := |Strict(kids, height, b)|;
    FoldSets(kids, height, k2, h2, b, t);
    FoldLayersBefore(layer, kids, height, k2, h2, b, t);
    StrictSplit(kids, height, t);
    UnfoldSetsCongruent(kids, height, h2, b, t);
    RestackUnstack(layer, t, b, d, Strict(kids, height, t), Strict(kids, height, b),
                   Direct(kids, t), Grand(kids, height, t));
    assert forall x :: x in Grand(kids, height, t) ==> x < |layer|;
  }

  /** The sets `UnfoldLayers` consults do not depend on the rank. */
  lemma UnfoldSetsCongruent(kids: seq<seq<nat>>, h1: seq<nat>, h2: seq<nat>, c: nat, p: nat)
    requires Ranked(kids, h1) && Ranked(kids, h2) && c < |kids| && p < |kids|
    ensures Strict(kids, h2, c) == Strict(kids, h1, c)
    ensures Grand(kids, h2, p) == Grand(kids, h1, p)
  {
    CoverCongruent(kids, h1, h2, kids[c]);
    forall i | 0 <= i < |kids[p]| ensures Strict(kids, h2, kids[p][i]) == Strict(kids, h1, kids[p][i]) {
      CoverCongruent(kids, h1, h2, kids[kids[p][i]]);
    }
  }

  /** The counting core of `FoldUnfoldRoundTrip`, over plain sets. */
  lemma RestackUnstack(layer: seq<int>, t: nat, b: nat, d: int, below: set<nat>, flipped: set<nat>, direct: set<nat>, grand: set<nat>)
    requires t != b && t !in below && b !in below && t !in flipped && b !in flipped && below !! flipped
    requires below == direct + grand && direct !! grand
    ensures var back := Unstack(Restack(layer, t, b, d, below, flipped), t, b, d, flipped + grand, direct);
      back == layer <==> (b < |layer| ==> layer[b] == d) && (forall x :: x in grand ==> x >= |layer|)
  {
    var back := Unstack(Restack(layer, t, b, d, below, flipped), t, b, d, flipped + grand, direct);
    forall x | 0 <= x < |layer|
      ensures back[x] == (if x == b then d else if x in grand then -layer[x] - 1 else layer[x])
    {
    }
    if back == layer {
      forall x | x in grand ensures x >= |layer| {
      }
      if b < |layer| {
        assert back[b] == layer[b];
      }
    }
  }

  /** Every block of `s` with its layer shifted by k. */
  function Shift(layer: seq<int>, s: set<nat>, k: int): (r: seq<int>)
    ensures |r| == |layer|
    ensures forall x :: 0 <= x < |layer| ==> r[x] == if x in s then layer[x] + k else layer[x]
  {
    seq(|layer|, x requires 0 <= x < |layer| => if x in s then layer[x] + k else layer[x])
  }

  /** Every block of `s` turned over within a stack of d + 1 storeys: layer l becomes d - l. */
  function Flip(layer: seq<int>, s: set<nat>, d: int): (r: seq<int>)
    ensures |r| == |layer|
    ensures forall x :: 0 <= x < |layer| ==> r[x] == if x in s then d - layer[x] else layer[x]
  {
    seq(|layer|, x requires 0 <= x < |layer| => if x in s then d - layer[x] else layer[x])
  }

  /** The `lowered` blocks sink by d + 1 and the `flipped` blocks are turned over. */
  function Sink(layer: seq<int>, lowered: set<nat>, flipped: set<nat>, d: int): (r: seq<int>)
    ensures |r| == |layer|
    ensures forall x :: 0 <= x < |layer| && x !in lowered && x !in flipped ==> r[x] == layer[x]
  {
    seq(|layer|, x requires 0 <= x < |layer| =>
      if x in lowered then layer[x] - d - 1 else if x in flipped then d - layer[x] else layer[x])
  }

  /** `layer` with block `c`'s layer shifted by k (`Setlayer(Getlayer() + k)`). */
  function Lift(layer: seq<int>, c: nat, k: int): (r: seq<int>)
    requires c < |layer|
    ensures |r| == |layer|
  {
    layer[c := layer[c] + k]
  }

  /** `layer` with block `c` turned over within d + 1 storeys (`Setlayer(d - Getlayer())`). */
  function Turn(layer: seq<int>, c: nat, d: int): (r: seq<int>)
    requires c < |layer|
    ensures |r| == |layer|
  {
    layer[c := d - layer[c]]
  }

  /** Turning one more block and then the blocks above it over extends a turned-over group. */
  lemma FlipStep(layer: seq<int>, a: set<nat>, c: nat, b: set<nat>, d: int)
    requires c < |layer| && c !in a && c !in b && a !! b
    ensures Flip(Flip(layer, a, d)[c := d - layer[c]], b, d) == Flip(layer, a + ({c} + b), d)
  {
  }

  /** Raising one more block and then the blocks above it extends a raised group. */
  lemma ShiftStep(layer: seq<int>, a: set<nat>, c: nat, b: set<nat>, k: int)
    requires c < |layer| && c !in a && c !in b && a !! b
    ensures Shift(Shift(layer, a, k)[c := layer[c] + k], b, k) == Shift(layer, a + ({c} + b), k)
  {
  }

  /** `ShiftStep`, with the three states of the walk named. */
  lemma ShiftAt(layer: seq<int>, a: set<nat>, c: nat, b: set<nat>, a2: set<nat>, k: int, now: seq<int>, mid: seq<int>, after: seq<int>)
    requires c < |layer| && c !in a && c !in b && a !! b && a2 == a + ({c} + b)
    requires now == Shift(layer, a, k) && mid == Lift(now, c, k) && after == Shift(mid, b, k)
    ensures after == Shift(layer, a2, k)
  {
    ShiftStep(layer, a, c, b, k);
  }

  /** Lowering one more block and turning the blocks above it over extends both groups. */
  lemma SinkStep(layer: seq<int>, a: set<nat>, f: set<nat>, x: nat, s: set<nat>, d: int)
    requires x < |layer| && x !in a && x !in f && x !in s && s !! a && s !! f && a !! f
    ensures Flip(Sink(layer, a, f, d)[x := layer[x] - d - 1], s, d) == Sink(layer, a + {x}, f + s, d)
  {
  }

  /** The four steps of `SetLayersAfterFold`, composed. */
  lemma FoldSteps(layer: seq<int>, t: nat, b: nat, d: int, lift: int, raised: set<nat>, flipped: set<nat>)
    requires t < |layer| && b < |layer| && t != b && lift == d + 1
    requires t !in raised && t !in flipped && b !in raised && b !in flipped && raised !! flipped
    ensures Flip(Shift(Lift(layer, t, lift)[b := 0], raised, lift), flipped, d) ==
            Restack(layer, t, b, d, raised, flipped)
  {
  }

  /** The four steps of `SetLayersAfterUnfold`, composed. */
  lemma UnfoldSteps(layer: seq<int>, p: nat, c: nat, d: int, sink: int, lowered: set<nat>, below: set<nat>, above: set<nat>)
    requires p < |layer| && c < |layer| && p != c && sink == -d - 1
    requires p !in lowered && p !in below && p !in above && c !in lowered && c !in below && c !in above
    requires above !! lowered && above !! below && lowered !! below
    ensures Flip(Sink(Lift(layer, p, sink)[c := d], lowered, below, d), above, d) ==
            Unstack(layer, p, c, d, above + below, lowered)
  {
  }

  /** The listed blocks other than `c`. */
  ghost function Others(cs: seq<nat>, c: nat): set<nat>
  {
    set i | 0 <= i < |cs| && cs[i] != c :: cs[i]
  }

  /** The blocks folded, directly or not, onto the listed blocks other than `c`. */
  ghost function Below(kids: seq<seq<nat>>, height: seq<nat>, cs: seq<nat>, c: nat): set<nat>
    requires Ranked(kids, height) && forall i :: 0 <= i < |cs| ==> cs[i] < |kids|
  {
    set i, y | 0 <= i < |cs| && cs[i] != c && y in Strict(kids, height, cs[i]) :: y
  }

  /** Walking one more child of `p`: the child and its subtree are new to the walk, and the walk's
      two groups grow by the child and by the blocks above it, unless the child is `c`. */
  lemma OthersStep(kids: seq<seq<nat>>, height: seq<nat>, p: nat, i: nat, c: nat)
    requires Tree(kids, height) && p < |kids| && i < |kids[p]|
    ensures var x, cs := kids[p][i], kids[p][..i];
      Others(kids[p][..i + 1], c) == Others(cs, c) + (if x == c then {} else {x}) &&
      Below(kids, height, kids[p][..i + 1], c) == Below(kids, height, cs, c) + (if x == c then {} else Strict(kids, height, x)) &&
      Sub(kids, height, x) !! Others(cs, c) && Sub(kids, height, x) !! Below(kids, height, cs, c) &&
      Sub(kids, height, x) == {x} + Strict(kids, height, x) && x !in Strict(kids, height, x)
  {
    var x, cs := kids[p][i], kids[p][..i];
    assert kids[p][..i + 1] == cs + [x];
    CoverStep(kids, height, p, i);
    SubSplit(kids, height, x);
    WalkedInCover(kids, height, cs, c);
    OthersSnoc(cs, x, c);
    BelowSnoc(kids, height, cs, x, c);
  }

  /** Both groups of a walk lie within the subtrees of the walked blocks. */
  lemma WalkedInCover(kids: seq<seq<nat>>, height: seq<nat>, cs: seq<nat>, c: nat)
    requires Ranked(kids, height) && forall i :: 0 <= i < |cs| ==> cs[i] < |kids|
    ensures Others(cs, c) <= Cover(kids, height, cs)
    ensures Below(kids, height, cs, c) <= Cover(kids, height, cs)
  {
    forall y | y in Others(cs, c) ensures y in Cover(kids, height, cs) {
      var j :| 0 <= j < |cs| && cs[j] != c && cs[j] == y;
      assert y in Sub(kids, height, cs[j]);
    }
    forall y | y in Below(kids, height, cs, c) ensures y in Cover(kids, height, cs) {
      var j :| 0 <= j < |cs| && cs[j] != c && y in Strict(kids, height, cs[j]);
      SubSplit(kids, height, cs[j]);
    }
  }

  /** Listing one more block adds it to the walk's first group, unless it is `c`. */
  lemma OthersSnoc(cs: seq<nat>, x: nat, c: nat)
    ensures Others(cs + [x], c) == Others(cs, c) + (if x == c then {} else {x})
  {
    var ds := cs + [x];
    forall y | y in Others(ds, c) ensures y in Others(cs, c) + (if x == c then {} else {x}) {
      var j :| 0 <= j < |ds| && ds[j] != c && ds[j] == y;
      if j < |cs| {
        assert cs[j] == y;
      }
    }
    forall y | y in Others(cs, c) ensures y in Others(ds, c) {
      var j :| 0 <= j < |cs| && cs[j] != c && cs[j] == y;
      assert ds[j] == y;
    }
    if x != c {
      assert ds[|cs|] == x;
    }
  }

  /** Listing one more block adds the blocks above it to the walk's second group, unless it is `c`. */
  lemma BelowSnoc(kids: seq<seq<nat>>, height: seq<nat>, cs: seq<nat>, x: nat, c: nat)
    requires Ranked(kids, height) && x < |kids| && forall i :: 0 <= i < |cs| ==> cs[i] < |kids|
    ensures Below(kids, height, cs + [x], c) == Below(kids, height, cs, c) + (if x == c then {} else Strict(kids, height, x))
  {
    BelowSnocShrinks(kids, height, cs, x, c);
    BelowSnocGrows(kids, height, cs, x, c);
    Antisymmetric(Below(kids, height, cs + [x], c), Below(kids, height, cs, c) + (if x == c then {} else Strict(kids, height, x)));
  }

  /** The longer walk's second group holds nothing but the shorter one's and the blocks above `x`. */
  lemma BelowSnocShrinks(kids: seq<seq<nat>>, height: seq<nat>, cs: seq<nat>, x: nat, c: nat)
    requires Ranked(kids, height) && x < |kids| && forall i :: 0 <= i < |cs| ==> cs[i] < |kids|
    ensures Below(kids, height, cs + [x], c) <= Below(kids, height, cs, c) + (if x == c then {} else Strict(kids, height, x))
  {
    var ds := cs + [x];
    forall y | y in Below(kids, height, ds, c) ensures y in Below(kids, height, cs, c) + (if x == c then {} else Strict(kids, height, x)) {
      var j :| 0 <= j < |ds| && ds[j] != c && y in Strict(kids, height, ds[j]);
      if j < |cs| {
        assert cs[j] == ds[j];
      }
    }
  }

  /** The longer walk's second group keeps the shorter one's and gains the blocks above `x`. */
  lemma BelowSnocGrows(kids: seq<seq<nat>>, height: seq<nat>, cs: seq<nat>, x: nat, c: nat)
    requires Ranked(kids, height) && x < |kids| && forall i :: 0 <= i < |cs| ==> cs[i] < |kids|
    ensures Below(kids, height, cs, c) + (if x == c then {} else Strict(kids, height, x)) <= Below(kids, height, cs + [x], c)
  {
    var ds := cs + [x];
    forall y | y in Below(kids, height, cs, c) ensures y in Below(kids, height, ds, c) {
      var j :| 0 <= j < |cs| && cs[j] != c && y in Strict(kids, height, cs[j]);
      assert ds[j] == cs[j];
    }
    if x != c {
      forall y | y in Strict(kids, height, x) ensures y in Below(kids, height, ds, c) {
        assert ds[|cs|] == x;
      }
    }
  }

  /** A walk over all of `p`'s children that skips `c`, when `c` is not among them, covers `p`'s
      children and the blocks above them. */
  lemma OthersAll(kids: seq<seq<nat>>, height: seq<nat>, p: nat, c: nat)
    requires Ranked(kids, height) && p < |kids| && c !in kids[p]
    ensures Others(kids[p], c) == Direct(kids, p)
    ensures Below(kids, height, kids[p], c) == Grand(kids, height, p)
  {
  }

  /** The sets `SetLayersAfterUnfold` rewrites are pairwise apart and avoid both blocks, when the
      unfolded block `c` has left `p` and `p` is not above it. */
  lemma UnfoldSets(kids: seq<seq<nat>>, height: seq<nat>, c: nat, p: nat)
    requires Tree(kids, height) && c < |kids| && p < |kids| && IsRoot(kids, c) && p !in Sub(kids, height, c)
    ensures var above, lowered, below := Strict(kids, height, c), Direct(kids, p), Grand(kids, height, p);
      p != c && p !in lowered && p !in below && p !in above && c !in lowered && c !in below && c !in above &&
      above !! lowered && above !! below && lowered !! below
  {
    SubSplit(kids, height, c);
    SubSplit(kids, height, p);
    StrictSplit(kids, height, p);
    forall y | y in Sub(kids, height, c) && y in Strict(kids, height, p) ensures false {
      var i :| 0 <= i < |kids[p]| && y in Sub(kids, height, kids[p][i]);
      Comparable(kids, height, c, kids[p][i], y);
      if c in Sub(kids, height, kids[p][i]) {
        RootOnlyInOwnSub(kids, height, kids[p][i], c);
      } else {
        ParentInside(kids, height, c, kids[p][i]);
      }
    }
  }
}
