/** The grid queries of the level (LevelController.cs:7-13, 171-241, 457-500) and the geometry of a
    fold's rotation (BlockScript.cs:106-153).

    Blocks are named by their index in the level's block list, so "the first block of the list at a
    cell" is the least index whose cell matches: this is what `List<BlockScript>.Find` returns. */
module Grid {
  import opened Opt
  import opened Seqs
  import opened Winning

  /** The four swipe directions of the level. */
  datatype Direction = Right | Left | Up | Down

  /** The cell one step from `p` in direction `dir`: Right is +x, Left -x, Up +z, Down -z. */
  function Neighbour(p: Position, dir: Direction): Position
  {
    match dir
    case Right => Position(p.x + 1, p.z)
    case Left => Position(p.x - 1, p.z)
    case Up => Position(p.x, p.z + 1)
    case Down => Position(p.x, p.z - 1)
  }

  /** The direction that undoes `dir`. */
  function Opposite(dir: Direction): Direction
  {
    match dir
    case Right => Left
    case Left => Right
    case Up => Down
    case Down => Up
  }

  /** Stepping back the opposite way returns to the cell, and different directions lead to different
      cells, none of them the cell itself. */
  lemma NeighbourGeometry(p: Position, d1: Direction, d2: Direction)
    ensures Neighbour(Neighbour(p, d1), Opposite(d1)) == p
    ensures Neighbour(p, d1) != p
    ensures Neighbour(p, d1) == Neighbour(p, d2) <==> d1 == d2
  {
  }

  /** Where a 180 degree turn carries cell `p` when the block standing on `from` is turned over its
      edge on the `dir` side: the pivot lies half a cell from `from`, so a coordinate c goes to
      2 * pivot - c along the swipe axis and the other coordinate is kept (the height axis is not
      modelled). */
  function Mirror(p: Position, from: Position, dir: Direction): Position
  {
    match dir
    case Right => Position(2 * from.x + 1 - p.x, p.z)
    case Left => Position(2 * from.x - 1 - p.x, p.z)
    case Up => Position(p.x, 2 * from.z + 1 - p.z)
    case Down => Position(p.x, 2 * from.z - 1 - p.z)
  }

  /** The turn lands the block standing on `from` on the neighbouring cell in the swipe direction,
      and turning twice over the same edge brings every cell back. */
  lemma MirrorLandsOnNeighbour(p: Position, from: Position, dir: Direction)
    ensures Mirror(from, from, dir) == Neighbour(from, dir)
    ensures Mirror(Mirror(p, from, dir), from, dir) == p
  {
  }

  /** The least index whose cell is `cell`, if any (a `List.Find` over the block list). */
  function FirstAt(cells: seq<Position>, cell: Position): (r: Option<nat>)
    ensures r.Some? ==> r.value < |cells| && cells[r.value] == cell
    ensures r.Some? ==> forall j :: 0 <= j < r.value ==> cells[j] != cell
    ensures r.None? <==> cell !in cells
  {
    if |cells| == 0 then None
    else if cells[0] == cell then Some(0)
    else match FirstAt(cells[1..], cell)
      case None => None
      case Some(i) => Some(i + 1)
  }

  /** `FindBlockParentToFolddInto`: the block a fold of block `b` in direction `dir` lands on is the
      first block of the list standing on the neighbouring cell; there is none when that cell is
      empty, and it is never `b` itself. */
  function FindBlockParentToFolddInto(cells: seq<Position>, b: nat, dir: Direction): (r: Option<nat>)
    requires b < |cells|
    ensures r.Some? <==> exists j :: 0 <= j < |cells| && cells[j] == Neighbour(cells[b], dir)
    ensures r.Some? ==> r.value < |cells| && r.value != b && cells[r.value] == Neighbour(cells[b], dir)
    ensures r.Some? ==> forall j :: 0 <= j < r.value ==> cells[j] != Neighbour(cells[b], dir)
  {
    NeighbourGeometry(cells[b], dir, dir);
    FirstAt(cells, Neighbour(cells[b], dir))
  }

  /** How many of the four probes found a block. */
  function Found(probes: seq<Option<nat>>): nat
  {
    if |probes| == 0 then 0
    else (if probes[0].Some? then 1 else 0) + Found(probes[1..])
  }

  /** `CheckHasMaxOneNeighbor`: probe the four neighbouring cells (right, left, up, down), drop the
      empty probes, and answer whether at most one remains. */
  function CheckHasMaxOneNeighbor(cells: seq<Position>, b: nat): (r: bool)
    requires b < |cells|
    ensures r <==> forall d1, d2 :: Neighbour(cells[b], d1) in cells && Neighbour(cells[b], d2) in cells ==> d1 == d2
  {
    var p := cells[b];
    var probes := [FirstAt(cells, Neighbour(p, Right)), FirstAt(cells, Neighbour(p, Left)),
                   FirstAt(cells, Neighbour(p, Up)), FirstAt(cells, Neighbour(p, Down))];
    ProbesFound(cells, p, probes);
    Found(probes) <= 1
  }

  /** The probe count is at most one exactly when no two directions lead to occupied cells. */
  lemma ProbesFound(cells: seq<Position>, p: Position, probes: seq<Option<nat>>)
    requires probes == [FirstAt(cells, Neighbour(p, Right)), FirstAt(cells, Neighbour(p, Left)),
                        FirstAt(cells, Neighbour(p, Up)), FirstAt(cells, Neighbour(p, Down))]
    ensures Found(probes) <= 1 <==> forall d1, d2 :: Neighbour(p, d1) in cells && Neighbour(p, d2) in cells ==> d1 == d2
  {
    var r, l, u, d := Neighbour(p, Right) in cells, Neighbour(p, Left) in cells,
                      Neighbour(p, Up) in cells, Neighbour(p, Down) in cells;
    var p1 := probes[1..];
    var p2 := p1[1..];
    var p3 := p2[1..];
    assert p3[1..] == [];
    assert probes[0].Some? == r && p1[0].Some? == l && p2[0].Some? == u && p3[0].Some? == d;
    assert Found(p3) == if d then 1 else 0;
    assert Found(p2) == (if u then 1 else 0) + Found(p3);
    assert Found(p1) == (if l then 1 else 0) + Found(p2);
    assert Found(probes) == (if r then 1 else 0) + (if l then 1 else 0) + (if u then 1 else 0) + (if d then 1 else 0);
    if Found(probes) <= 1 {
      forall d1, d2 | Neighbour(p, d1) in cells && Neighbour(p, d2) in cells ensures d1 == d2 {
        assert d1.Right? ==> r;
        assert d1.Left? ==> l;
        assert d1.Up? ==> u;
        assert d1.Down? ==> d;
        assert d2.Right? ==> r;
        assert d2.Left? ==> l;
        assert d2.Up? ==> u;
        assert d2.Down? ==> d;
      }
    } else {
      if r && l {
        assert Right != Left;
      } else if r && u {
        assert Right != Up;
      } else if r && d {
        assert Right != Down;
      } else if l && u {
        assert Left != Up;
      } else if l && d {
        assert Left != Down;
      } else {
        assert u && d;
        assert Up != Down;
      }
    }
  }

  /** A fold only happens onto the swiped block's one and only neighbour: when the target cell is
      occupied and the neighbour check passes, the three other neighbouring cells are empty. */
  lemma FoldTargetIsOnlyNeighbour(cells: seq<Position>, b: nat, dir: Direction)
    requires b < |cells|
    requires FindBlockParentToFolddInto(cells, b, dir).Some? && CheckHasMaxOneNeighbor(cells, b)
    ensures forall d :: d != dir ==> Neighbour(cells[b], d) !in cells
  {
    var t := FindBlockParentToFolddInto(cells, b, dir).value;
    assert Neighbour(cells[b], dir) in cells by {
      assert cells[t] == Neighbour(cells[b], dir);
    }
  }

  /** The coordinate test of the unfold search: only x is compared for Right and Left, only z for Up
      and Down, so the other coordinate of the initial cell may be anything. */
  predicate OneOff(init: Position, at: Position, dir: Direction)
  {
    match dir
    case Right => init.x == at.x + 1
    case Left => init.x == at.x - 1
    case Up => init.z == at.z + 1
    case Down => init.z == at.z - 1
  }

  /** The first element of `xs` satisfying `p`, as `List.Find` returns it. */
  function Find(xs: seq<nat>, p: nat -> bool): (r: Option<nat>)
    ensures r.Some? ==> r.value in xs && p(r.value)
    ensures r.None? <==> forall i :: 0 <= i < |xs| ==> !p(xs[i])
    ensures r.Some? ==> exists i :: 0 <= i < |xs| && xs[i] == r.value && forall j :: 0 <= j < i ==> !p(xs[j])
  {
    if |xs| == 0 then None
    else if p(xs[0]) then Some(xs[0])
    else
      var r := Find(xs[1..], p);
      assert forall i :: 1 <= i < |xs| ==> xs[i] == xs[1..][i - 1];
      assert r.Some? ==> exists i :: 0 <= i < |xs| && xs[i] == r.value && forall j :: 0 <= j < i ==> !p(xs[j]) by {
        if r.Some? {
          var i :| 0 <= i < |xs[1..]| && xs[1..][i] == r.value && forall j :: 0 <= j < i ==> !p(xs[1..][j]);
          assert xs[i + 1] == r.value && forall j :: 0 <= j < i + 1 ==> !p(xs[j]);
        }
      }
      r
  }

  /** `FindBlockChildToUnfoldToDirection`: the child of the swiped block (standing on `at`, with
      children `children` and initial cells `inits`) that an unfold in direction `dir` brings back.
      It is a `Find` over the children for one whose initial cell is one off in `dir` (on the
      swipe axis only) and whose first position in the list is the last slot. The answer is the last
      child or nothing, and it is the last child exactly when that child passes both tests. */
  function FindBlockChildToUnfoldToDirection(children: seq<nat>, inits: seq<Position>, at: Position, dir: Direction): (r: Option<nat>)
    requires forall i :: 0 <= i < |children| ==> children[i] < |inits|
    ensures r.Some? ==> |children| > 0 && r.value == children[|children| - 1]
    ensures r.Some? <==> |children| > 0 && OneOff(inits[children[|children| - 1]], at, dir) &&
                         IndexOf(children, children[|children| - 1]) == |children| - 1
  {
    if |children| == 0 then None
    else
      var last := children[|children| - 1];
      var r := Find(children, (x: nat) => x < |inits| && OneOff(inits[x], at, dir) && IndexOf(children, x) == |children| - 1);
      assert r.Some? ==> children[IndexOf(children, r.value)] == r.value;
      r
  }

  /** Without repeated children the position test is void: the unfold candidate is the last child
      exactly when its initial cell is one off from `at` in the swipe direction. */
  lemma UnfoldCandidateOfDistinct(children: seq<nat>, inits: seq<Position>, at: Position, dir: Direction)
    requires forall i :: 0 <= i < |children| ==> children[i] < |inits|
    requires Distinct(children)
    ensures FindBlockChildToUnfoldToDirection(children, inits, at, dir) ==
      if |children| > 0 && OneOff(inits[children[|children| - 1]], at, dir) then Some(children[|children| - 1]) else None
  {
    if |children| > 0 {
      var n := |children| - 1;
      var i := IndexOf(children, children[n]);
      assert children[i] == children[n];
    }
  }

  /** The order in which the rewind tries the directions: right, left, up, down. */
  function Priority(dir: Direction): nat
  {
    match dir
    case Right => 0
    case Left => 1
    case Up => 2
    case Down => 3
  }

  /** `FirstBlockToRewind`, given the children, current cell and initial cells of the parent of the
      block to rewind: the unfold candidate of the first direction, in the order right, left, up,
      down, that has one, together with that direction; nothing, with direction Right, when no
      direction has one. */
  function FirstBlockToRewind(children: seq<nat>, inits: seq<Position>, at: Position): (r: (Option<nat>, Direction))
    requires forall i :: 0 <= i < |children| ==> children[i] < |inits|
    ensures r.0.Some? ==> r.0 == FindBlockChildToUnfoldToDirection(children, inits, at, r.1)
    ensures forall d :: Priority(d) < Priority(r.1) ==> FindBlockChildToUnfoldToDirection(children, inits, at, d).None?
    ensures r.0.None? <==> forall d :: FindBlockChildToUnfoldToDirection(children, inits, at, d).None?
    ensures r.0.None? ==> r.1 == Right
  {
    if |children| == 0 then (None, Right)
    else
      var right := FindBlockChildToUnfoldToDirection(children, inits, at, Right);
      var left := FindBlockChildToUnfoldToDirection(children, inits, at, Left);
      var up := FindBlockChildToUnfoldToDirection(children, inits, at, Up);
      var down := FindBlockChildToUnfoldToDirection(children, inits, at, Down);
      if right.Some? then (right, Right)
      else if left.Some? then (left, Left)
      else if up.Some? then (up, Up)
      else if down.Some? then (down, Down)
      else (None, Right)
  }
}
