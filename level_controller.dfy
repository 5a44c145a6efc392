/** The level (LevelController.cs): it turns swipes on blocks into folds and unfolds, rewrites the
    layers after each, keeps the list of folds for the full rewind, and checks for the win.

    A fold or unfold is a tween: the swipe handler starts it and marks the level busy, and the tween
    calls back when it ends. `pending` is the callback that is waiting; `FoldCompleted` and
    `UnfoldCompleted` are the tween's end together with the callback body. */
module Level {
  import opened Opt
  import opened Seqs
  import opened Winning
  import opened Forest
  import opened Layers
  import opened Board
  import opened Grid
  import opened Blocks
  import opened Walks

  /** What a swipe gesture reports: one of the four directions, or any other swipe type. */
  datatype SwipeType = Swipe(dir: Direction) | OtherSwipe

  /** What the raycast at the start of a swipe found: nothing, an object that is not a block, or a
      block. */
  datatype Ray = Miss | HitOther | HitBlock(id: nat)

  /** The per-block lists of the level, in one record: children, parents, cells, initial cells,
      layers and collider flags. */
  datatype Lists = Lists(kids: seq<seq<nat>>, parents: seq<Option<nat>>, cells: seq<Position>, inits: seq<Position>,
                         layers: seq<int>, colliders: seq<bool>)

  /** The structure of a level: the parent links, the children lists and the rewind list agree and
      form a forest, and every block stands where its stack puts it. */
  ghost predicate Sound(s: Lists, rewind: seq<nat>, height: seq<nat>)
  {
    Linked(s.kids, s.parents, rewind) && Ranked(s.kids, height) && Placed(s.parents, s.cells, s.inits)
  }

  /** A level whose blocks are all on nobody, with nothing folded onto them, at their initial cells
      and with their colliders on, is sound with nothing to rewind. */
  lemma Unfolded(s: Lists, height: seq<nat>)
    requires |s.kids| == |s.parents| == |s.cells| == |s.inits| == |s.colliders| == |height|
    requires forall x :: 0 <= x < |s.kids| ==>
      s.kids[x] == [] && s.parents[x].None? && s.cells[x] == s.inits[x] && s.colliders[x]
    ensures Sound(s, [], height) && OnExactlyRoots(s.colliders, s.parents)
  {
  }

  /** Conversely, a sound level with nothing to rewind has every block on nobody, with nothing
      folded onto it, at its initial cell. */
  lemma AllUnfolded(s: Lists, height: seq<nat>)
    requires Sound(s, [], height)
    ensures forall x :: 0 <= x < |s.kids| ==> s.kids[x] == [] && s.parents[x].None? && s.cells[x] == s.inits[x]
  {
    forall x | 0 <= x < |s.kids| ensures s.kids[x] == [] && s.parents[x].None? && s.cells[x] == s.inits[x] {
      assert s.kids[x] == ChildrenOf([], s.parents, x);
    }
  }

  /** Exactly the blocks on nobody have their collider on. */
  ghost predicate OnExactlyRoots(cols: seq<bool>, parents: seq<Option<nat>>)
  {
    |cols| == |parents| && forall i :: 0 <= i < |cols| ==> (cols[i] <==> parents[i].None?)
  }

  /** An unfold takes `c` off its parent and turns its collider on: the colliders still mark
      exactly the blocks on nobody. */
  lemma RootsAfterUnfold(cols: seq<bool>, parents: seq<Option<nat>>, c: nat)
    requires OnExactlyRoots(cols, parents) && c < |cols|
    ensures OnExactlyRoots(cols[c := true], parents[c := None])
  {
  }

  /** A fold puts `b` on `t` and turns its collider off: the colliders still mark exactly the
      blocks on nobody. */
  lemma RootsAfterFold(cols: seq<bool>, parents: seq<Option<nat>>, b: nat, t: nat)
    requires OnExactlyRoots(cols, parents) && b < |cols|
    ensures OnExactlyRoots(cols[b := false], parents[b := Some(t)])
  {
  }

  /** The level's own state, apart from the blocks. */
  datatype Bookkeeping = Bookkeeping(blockHit: Option<nat>, isSwiping: bool, isBusy: bool, enabled: bool,
                                     rewind: seq<nat>, completions: nat, pending: Option<Transaction>)

  /** The block under the finger, if any, is on nobody. */
  ghost predicate OnRoot(hit: Option<nat>, parents: seq<Option<nat>>)
  {
    hit.Some? ==> hit.value < |parents| && parents[hit.value].None?
  }

  /** An unfold leaves every block on nobody where it was. */
  lemma OnRootAfterUnfold(hit: Option<nat>, parents: seq<Option<nat>>, c: nat)
    requires OnRoot(hit, parents) && c < |parents|
    ensures OnRoot(hit, parents[c := None])
  {
  }

  /** The rewind cannot go on: the parent of the last folded block has no child to bring back in
      any direction. */
  ghost predicate Stuck(rewind: seq<nat>, s: Lists)
  {
    rewind != [] && rewind[|rewind| - 1] < |s.parents| &&
    var tail := rewind[|rewind| - 1];
    s.parents[tail].Some? && s.parents[tail].value < |s.kids| && s.parents[tail].value < |s.cells| &&
    var q := s.parents[tail].value;
    (forall i :: 0 <= i < |s.kids[q]| ==> s.kids[q][i] < |s.inits|) &&
    FirstBlockToRewind(s.kids[q], s.inits, s.cells[q]).0.None?
  }

  /** Every block of `xs` is on nobody. */
  ghost predicate OnNobody(parents: seq<Option<nat>>, xs: seq<nat>)
  {
    forall j :: 0 <= j < |xs| ==> xs[j] < |parents| && parents[xs[j]].None?
  }

  /** With `rewind` the first `j + 1` entries of `r`, unfolding its last entry `c` (entry `j` of `r`)
      puts one more entry of `r` on nobody, keeps the later ones there, and drops `c` from `rewind`. */
  lemma OnNobodyAfterUnfold(parents: seq<Option<nat>>, r: seq<nat>, j: nat, rewind: seq<nat>, c: nat)
    requires j < |r| && rewind == r[..j + 1] && c == rewind[|rewind| - 1] && c < |parents|
    requires OnNobody(parents, r[j + 1..])
    ensures OnNobody(parents[c := None], r[j..]) && rewind[..|rewind| - 1] == r[..j]
  {
    assert r[j..] == [r[j]] + r[j + 1..];
  }

  /** What a rewind step finds: the last folded block stands on a parent, whose children are
      blocks; the child `FirstBlockToRewind` picks there, if any, is that last folded block, and it
      picks none exactly when the rewind is stuck. */
  lemma RewindPicksTail(s: Lists, rewind: seq<nat>, height: seq<nat>)
    requires Sound(s, rewind, height) && rewind != []
    ensures var tail := rewind[|rewind| - 1];
      tail < |s.parents| && s.parents[tail].Some? && s.parents[tail].value < |s.kids| && s.parents[tail].value < |s.cells| &&
      var q := s.parents[tail].value;
      (forall i :: 0 <= i < |s.kids[q]| ==> s.kids[q][i] < |s.inits| && s.parents[s.kids[q][i]] == Some(q)) &&
      var r := FirstBlockToRewind(s.kids[q], s.inits, s.cells[q]);
      (r.0.None? <==> Stuck(rewind, s)) && (r.0.Some? ==> r.0.value == tail)
  {
    TailIsLastChild(s.kids, s.parents, rewind);
    LinkedParent(s.kids, s.parents, rewind);
  }

  /** The lists after unfolding `c` from its parent `p`: `c`'s stack goes back to `c`'s initial
      cell, `c` leaves `p`'s children and has no parent, the layers become `UnfoldLayers`, and `c`'s
      collider goes on. A block on nobody leaves the lists as they are. */
  ghost function UnfoldStep(s: Lists, height: seq<nat>, c: nat): Lists
  {
    if Ranked(s.kids, height) && c < |s.kids| && c < |s.parents| && s.parents[c].Some? &&
       s.parents[c].value < |s.kids| && c < |s.cells| && c < |s.inits| && c < |s.colliders| then
      var p := s.parents[c].value;
      var kids := s.kids[p := RemoveFirst(s.kids[p], c)];
      UnfoldRanked(s.kids, height, p, c);
      s.(kids := kids, parents := s.parents[c := None],
         cells := Place(s.cells, Sub(s.kids, height, c), s.inits[c]),
         layers := UnfoldLayers(s.layers, kids, height, c, p), colliders := s.colliders[c := true])
    else s
  }

  /** The lists after a full rewind that started from `s` with rewind list `r` has unfolded the
      entries of `r` from the last one down to entry `m`, each from the parent it has at that point. */
  ghost function Rewinding(s: Lists, height: seq<nat>, r: seq<nat>, m: nat): Lists
    requires m <= |r|
    decreases |r| - m
  {
    if m == |r| then s else UnfoldStep(Rewinding(s, height, r, m + 1), height, r[m])
  }

  /** `Rewinding` one entry further along: unfolding entry `j` of what is left after `j + 1`. */
  lemma RewindingStep(s0: Lists, height: seq<nat>, r0: seq<nat>, j: nat, s1: Lists, s2: Lists)
    requires j < |r0| && s1 == Rewinding(s0, height, r0, j + 1) && s2 == UnfoldStep(s1, height, r0[j])
    ensures s2 == Rewinding(s0, height, r0, j)
  {
  }

  /** The callback a running tween will call: fold `b` onto `t`, or unfold `c` from `p`. */
  datatype Transaction = FoldOnto(b: nat, dir: Direction, t: nat) | UnfoldFrom(p: nat, dir: Direction, c: nat)

  class LevelController {
    /** `blocks`: block i of the list has id i. */
    const blocks: seq<Block>
    /** The blocks of the level, as a set: what the level's steps may read and change. */
    ghost const Repr: set<Block>
    var blockHit: Option<nat>
    var isSwiping: bool
    var isBusy: bool
    /** The component's `enabled` flag; the level listens to gestures and rewinds only while it is set. */
    var enabled: bool
    /** `blocksToRewind`: the folded blocks, in fold order. */
    var rewind: seq<nat>
    /** How many times the level reported itself completed (`GameManager.LevelCompleted`). */
    var completions: nat
    var pending: Option<Transaction>
    /** A rank that falls from a block to each block folded onto it. */
    ghost var height: seq<nat>

    function Kids(): seq<seq<nat>> requires Indexed() reads Repr`children { KidsOf(blocks, Repr) }
    function Parents(): seq<Option<nat>> requires Indexed() reads Repr`parent { ParentsOf(blocks, Repr) }
    function Cells(): seq<Position> requires Indexed() reads Repr`pos { CellsOf(blocks, Repr) }
    function Inits(): seq<Position> requires Indexed() reads Repr`initPos { InitsOf(blocks, Repr) }
    function Layers(): seq<int> requires Indexed() reads Repr`layer { LayersOf(blocks, Repr) }
    function Colliders(): seq<bool> requires Indexed() reads Repr`colliderOn { CollidersOf(blocks, Repr) }

    /** All per-block lists at once; the steps below say which of them they change. */
    ghost function State(): Lists
      requires Indexed()
      reads Repr`children, Repr`parent, Repr`pos, Repr`initPos, Repr`layer, Repr`colliderOn
    {
      Lists(Kids(), Parents(), Cells(), Inits(), Layers(), Colliders())
    }

    /** The controller's own flags and lists, in one record. */
    ghost function Flags(): Bookkeeping
      reads this`blockHit, this`isSwiping, this`isBusy, this`enabled, this`rewind, this`completions, this`pending
    {
      Bookkeeping(blockHit, isSwiping, isBusy, enabled, rewind, completions, pending)
    }

    ghost predicate Indexed()
    {
      forall i :: 0 <= i < |blocks| ==> blocks[i].id == i && blocks[i] in Repr
    }

    /** Blocks with different ids are different objects, so a store into one block leaves the
        others alone. */
    lemma Apart(c: nat)
      requires Indexed() && c < |blocks|
      ensures forall j :: 0 <= j < |blocks| && j != c ==> blocks[j] != blocks[c]
    {
      forall j | 0 <= j < |blocks| && j != c ensures blocks[j] != blocks[c] {
        assert blocks[j].id != blocks[c].id;
      }
    }

    /** `blocks[c].Setlayer(l)`, as a change of the level's layer list. */
    method SetlayerOf(c: nat, l: int)
      requires Indexed() && c < |blocks|
      modifies Repr`layer
      ensures Layers() == old(Layers())[c := l]
      ensures State() == old(State()).(layers := Layers())
    {
      blocks[c].Setlayer(l);
      Apart(c);
      assert forall j :: 0 <= j < |blocks| ==> Layers()[j] == old(Layers())[c := l][j];
    }

    /** `blocks[c].Setlayer(blocks[c].layer + k)`: block `c`'s layer shifts by k. */
    method RaiselayerOf(c: nat, k: int)
      requires Indexed() && c < |blocks|
      modifies Repr`layer
      ensures Layers() == Lift(old(Layers()), c, k)
      ensures State() == old(State()).(layers := Layers())
    {
      SetlayerOf(c, blocks[c].layer + k);
    }

    /** `blocks[c].Setlayer(d - blocks[c].layer)`: block `c` is turned over within d + 1 storeys. */
    method TurnlayerOf(c: nat, d: int)
      requires Indexed() && c < |blocks|
      modifies Repr`layer
      ensures Layers() == Turn(old(Layers()), c, d)
      ensures State() == old(State()).(layers := Layers())
    {
      SetlayerOf(c, d - blocks[c].layer);
    }

    /** `blocks[c].SetPosition(q)`, as a change of the level's cell list. */
    method SetPositionOf(c: nat, q: Position)
      requires Indexed() && c < |blocks|
      modifies Repr`pos
      ensures Cells() == old(Cells())[c := q]
      ensures State() == old(State()).(cells := Cells())
    {
      blocks[c].SetPosition(q);
      Apart(c);
      assert forall j :: 0 <= j < |blocks| ==> Cells()[j] == old(Cells())[c := q][j];
    }

    /** `blocks[c].SetParent(q)`, as a change of the level's parent list. */
    method SetParentOf(c: nat, q: Option<nat>)
      requires Indexed() && c < |blocks|
      modifies Repr`parent
      ensures Parents() == old(Parents())[c := q]
      ensures State() == old(State()).(parents := Parents())
    {
      blocks[c].SetParent(q);
      Apart(c);
      assert forall j :: 0 <= j < |blocks| ==> Parents()[j] == old(Parents())[c := q][j];
    }

    /** `blocks[c].SetColliderState(on)`, as a change of the level's collider list. */
    method SetColliderStateOf(c: nat, on: bool)
      requires Indexed() && c < |blocks|
      modifies Repr`colliderOn
      ensures Colliders() == old(Colliders())[c := on]
      ensures State() == old(State()).(colliders := Colliders())
      ensures Flags() == old(Flags())
      ensures height == old(height)
    {
      blocks[c].SetColliderState(on);
      Apart(c);
      assert forall j :: 0 <= j < |blocks| ==> Colliders()[j] == old(Colliders())[c := on][j];
    }

    /** `blocks[t].AddBlockChild(b)`, as a change of the level's children lists. */
    method AddBlockChildOf(t: nat, b: nat)
      requires Indexed() && t < |blocks|
      modifies Repr`children
      ensures Kids() == old(Kids())[t := old(Kids())[t] + [b]]
      ensures State() == old(State()).(kids := Kids())
    {
      blocks[t].AddBlockChild(b);
      Apart(t);
      assert forall j :: 0 <= j < |blocks| ==> Kids()[j] == old(Kids())[t := old(Kids())[t] + [b]][j];
    }

    /** `blocks[p].RemoveBlockChild(c)`, as a change of the level's children lists. */
    method RemoveBlockChildOf(p: nat, c: nat)
      requires Indexed() && p < |blocks|
      modifies Repr`children
      ensures Kids() == old(Kids())[p := RemoveFirst(old(Kids())[p], c)]
      ensures State() == old(State()).(kids := Kids())
    {
      blocks[p].RemoveBlockChild(c);
      Apart(p);
      assert forall j :: 0 <= j < |blocks| ==> Kids()[j] == old(Kids())[p := RemoveFirst(old(Kids())[p], c)][j];
    }

    /** `b.SetParent(t)` and `t.AddBlockChild(b)`: the link a fold makes. */
    method Attach(b: nat, t: nat)
      requires Indexed() && b < |blocks| && t < |blocks|
      modifies Repr`parent, Repr`children
      ensures State() == old(State()).(kids := old(Kids())[t := old(Kids())[t] + [b]], parents := old(Parents())[b := Some(t)])
    {
      SetParentOf(b, Some(t));
      AddBlockChildOf(t, b);
    }

    /** The rank becomes `h`; no block changes. */
    ghost method SetRank(h: seq<nat>)
      modifies this`height
      ensures height == h && (Indexed() ==> State() == old(State()))
    {
      height := h;
    }

    /** `c.SetParent(null)` and `p.RemoveBlockChild(c)`: the link an unfold breaks. */
    method Detach(c: nat, p: nat)
      requires Indexed() && c < |blocks| && p < |blocks|
      modifies Repr`parent, Repr`children
      ensures State() == old(State()).(kids := old(Kids())[p := RemoveFirst(old(Kids())[p], c)], parents := old(Parents())[c := None])
    {
      SetParentOf(c, None);
      RemoveBlockChildOf(p, c);
    }

    /** A waiting callback still makes sense: the block to fold is on nobody and its target stands
        on the next cell in the swipe direction; the block to unfold is its parent's last child. */
    ghost predicate Ready(tr: Transaction)
      reads Repr`parent, Repr`pos, Repr`children
    {
      Indexed() &&
      match tr
      case FoldOnto(b, dir, t) =>
        b < |blocks| && t < |blocks| && Parents()[b].None? && Cells()[t] == Neighbour(Cells()[b], dir)
      case UnfoldFrom(p, dir, c) =>
        p < |blocks| && |Kids()[p]| > 0 && Kids()[p][|Kids()[p]| - 1] == c
    }

    /** The structure of the level: the parent links, the children lists and the rewind list agree
        and form a forest, and every block stands where its stack puts it. */
    ghost predicate Consistent()
      reads this`rewind, this`height, Repr`children, Repr`parent, Repr`pos, Repr`initPos, Repr`layer, Repr`colliderOn
    {
      Indexed() && Sound(State(), rewind, height)
    }

    /** Exactly the blocks on nobody have their collider on. */
    ghost predicate CollidersOnRoots()
      reads Repr`children, Repr`parent, Repr`pos, Repr`initPos, Repr`layer, Repr`colliderOn
    {
      Indexed() && OnExactlyRoots(State().colliders, State().parents)
    }

    /** The block under the finger is on nobody. */
    ghost predicate HitOnRoot()
      reads this`blockHit, Repr`parent
    {
      Indexed() && OnRoot(blockHit, Parents())
    }

    /** A waiting callback keeps the level busy and still makes sense. */
    ghost predicate PendingReady()
      reads this`pending, this`isBusy, Repr`parent, Repr`pos, Repr`children
    {
      pending.Some? ==> isBusy && Ready(pending.value)
    }

    /** The level's invariant. */
    ghost predicate Valid()
      reads this`blockHit, this`isBusy, this`pending, this`rewind, this`height
      reads Repr`children, Repr`parent, Repr`pos, Repr`initPos, Repr`layer, Repr`colliderOn
    {
      Consistent() && CollidersOnRoots() && HitOnRoot() && PendingReady()
    }

    /** Every block passes its `WinningParams` check. */
    ghost predicate Won()
      reads Repr`layer, Repr`pos
    {
      Indexed() && forall i :: 0 <= i < |blocks| ==> blocks[i].win.Admits(blocks[i].layer, blocks[i].pos)
    }

    /** The level as the scene starts it: every block awake and unfolded, nothing under the finger,
        nothing to rewind. */
    constructor (blocks: seq<Block>)
      requires forall i :: 0 <= i < |blocks| ==>
        blocks[i].id == i && blocks[i].parent.None? && blocks[i].children == [] &&
        blocks[i].colliderOn && blocks[i].pos == blocks[i].initPos
      ensures this.blocks == blocks && Valid()
      ensures blockHit.None? && !isSwiping && !isBusy && enabled && rewind == [] && completions == 0 && pending.None?
    {
      this.blocks := blocks;
      Repr := set i | 0 <= i < |blocks| :: blocks[i];
      blockHit := None;
      isSwiping := false;
      isBusy := false;
      enabled := true;
      rewind := [];
      completions := 0;
      pending := None;
      height := seq(|blocks|, _ => 0);
      new;
      Unfolded(State(), height);
    }

    /** `OnSwipeStart`: unless a swipe or a move is under way, the raycast decides the block under
        the finger; a raycast that hits nothing leaves the previous one. Only blocks with their
        collider on can be hit. */
    method OnSwipeStart(ray: Ray)
      requires Valid() && enabled
      requires ray.HitBlock? ==> ray.id < |blocks| && blocks[ray.id].colliderOn
      modifies this`blockHit
      ensures Valid()
      ensures old(isSwiping || isBusy) || ray.Miss? ==> blockHit == old(blockHit)
      ensures !old(isSwiping || isBusy) && ray.HitOther? ==> blockHit.None?
      ensures !old(isSwiping || isBusy) && ray.HitBlock? ==> blockHit == Some(ray.id)
    {
      if isSwiping || isBusy {
        return;
      }
      match ray
      case Miss =>
      case HitOther =>
        blockHit := None;
      case HitBlock(i) =>
        blockHit := Some(i);
    }

    /** What a swipe of block `b` in direction `dir` starts: a fold onto the first block on the
        next cell when there is one and it is `b`'s only neighbour, otherwise an unfold of `b`'s
        last child when that child came from the swiped side, otherwise nothing. */
    ghost function Decide(b: nat, dir: Direction): Option<Transaction>
      reads this`rewind, this`height, Repr`children, Repr`parent, Repr`pos, Repr`initPos, Repr`layer, Repr`colliderOn
      requires Consistent() && b < |blocks|
    {
      LinkedParent(Kids(), Parents(), rewind);
      var t := FindBlockParentToFolddInto(Cells(), b, dir);
      if t.Some? && CheckHasMaxOneNeighbor(Cells(), b) then Some(FoldOnto(b, dir, t.value))
      else
        var c := FindBlockChildToUnfoldToDirection(Kids()[b], Inits(), Cells()[b], dir);
        if c.Some? then Some(UnfoldFrom(b, dir, c.value)) else None
    }

    /** `OnSwipe`: ignored without a block under the finger or while a swipe or a move is under way.
        Otherwise the level becomes swiping and busy and starts the move `Decide` picks; when there
        is none it is no longer busy. A swipe type other than the four directions starts nothing
        and leaves the level busy. */
    method OnSwipe(swipe: SwipeType)
      requires Valid() && enabled
      modifies this`isSwiping, this`isBusy, this`pending
      ensures Valid() && State() == old(State())
      ensures old(blockHit.None? || isSwiping || isBusy) ==> Flags() == old(Flags())
      ensures old(blockHit.Some? && !isSwiping && !isBusy) ==>
        var next := if swipe.Swipe? then old(Decide(blockHit.value, swipe.dir)) else None;
        Flags() == old(Flags()).(isSwiping := true, isBusy := next.Some? || swipe.OtherSwipe?, pending := next)
    {
      if blockHit.None? {
        return;
      }
      if isSwiping || isBusy {
        return;
      }
      var b := blockHit.value;
      var next: Option<Transaction> := None;
      match swipe {
        case OtherSwipe =>
        case Swipe(dir) =>
          LinkedParent(Kids(), Parents(), rewind);
          assert blocks[b].children == Kids()[b];
          var t := FindBlockParentToFolddInto(Cells(), b, dir);
          if t.Some? && CheckHasMaxOneNeighbor(Cells(), b) {
            // FoldBlock: the tween starts and will call back
            next := Some(FoldOnto(b, dir, t.value));
          } else {
            var c := FindBlockChildToUnfoldToDirection(blocks[b].children, Inits(), blocks[b].pos, dir);
            if c.Some? {
              // UnfoldBlock: the tween starts and will call back
              next := Some(UnfoldFrom(b, dir, c.value));
            }
          }
          assert next == Decide(b, dir);
      }
      Begin(next.Some? || swipe.OtherSwipe?, next);
    }

    /** The level becomes swiping, busy or not, with `next` as the waiting callback. */
    method Begin(busy: bool, next: Option<Transaction>)
      requires Valid() && (next.Some? ==> busy && Ready(next.value))
      modifies this`isSwiping, this`isBusy, this`pending
      ensures Valid() && State() == old(State())
      ensures Flags() == old(Flags()).(isSwiping := true, isBusy := busy, pending := next)
    {
      isSwiping := true;
      isBusy := busy;
      pending := next;
    }

    /** `OnSwipeEnd`. */
    method OnSwipeEnd()
      requires enabled
      modifies this`isSwiping
      ensures !isSwiping
    {
      isSwiping := false;
    }

    /** The end of a tween that carries block `x` with everything stacked on it (the transform
        hierarchy under `x`) by the rigid motion `f`.

        This and the other recursive walks below take the children lists `k` and a rank `h` that
        falls from each block to its children as ghost parameters: the walks read the lists and do
        not change them, and the rank bounds their recursion. */
    method MoveStack(x: nat, f: Position -> Position, ghost k: seq<seq<nat>>, ghost h: seq<nat>)
      requires Indexed() && |k| == |blocks| && (forall i :: 0 <= i < |blocks| ==> blocks[i].children == k[i])
      requires Tree(k, h) && x < |blocks|
      modifies Repr`pos
      ensures Cells() == Apply(old(Cells()), Sub(k, h, x), f)
      decreases h[x]
    {
      ghost var c0 := Cells();
      SetPositionOf(x, f(blocks[x].pos));
      var children := blocks[x].children;
      assert children == k[x];
      MoveWalkStart(k, h, c0, f, x);
      for i := 0 to |children|
        invariant Cells() == Apply(c0, {x} + Cover(k, h, children[..i]), f)
      {
        MoveWalk(k, h, c0, f, x, i);
        MoveStack(children[i], f, k, h);
      }
      MoveWalkEnd(k, h, x);
    }

    /** `GetBlockChildrensCount`: the number of blocks stacked on `x`, directly or not. */
    method GetBlockChildrensCount(x: nat, ghost k: seq<seq<nat>>, ghost h: seq<nat>) returns (count: nat)
      requires |k| == |blocks| && (forall i :: 0 <= i < |blocks| ==> blocks[i].children == k[i])
      requires Tree(k, h) && x < |blocks|
      ensures count == |Strict(k, h, x)|
      decreases h[x]
    {
      var children := blocks[x].children;
      assert children == k[x];
      CoverAll(k, h, x);
      if |children| == 0 {
        return 0;
      }
      count := |children|;
      for i := 0 to |children|
        invariant count == |children| - i + |Cover(k, h, children[..i])|
      {
        var n := GetBlockChildrensCount(children[i], k, h);
        CountWalk(k, h, x, i, count, n);
        count := count + n;
      }
    }

    /** `SetParentChildrenLayerAfterFold`: every block stacked on `x`, apart from `b` and the blocks
        on `b`, rises by d + 1. */
    method SetParentChildrenLayerAfterFold(b: nat, x: nat, d: int, ghost k: seq<seq<nat>>, ghost h: seq<nat>)
      requires Indexed() && |k| == |blocks| && (forall i :: 0 <= i < |blocks| ==> blocks[i].children == k[i])
      requires Tree(k, h) && b < |blocks| && x < |blocks|
      requires x !in Sub(k, h, b)
      modifies Repr`layer
      ensures Layers() == Shift(old(Layers()), Strict(k, h, x) - Sub(k, h, b), d + 1)
      ensures State() == old(State()).(layers := Layers())
      decreases h[x], 1
    {
      ghost var l0, s0 := Layers(), State();
      var children := blocks[x].children;
      assert children == k[x];
      for i := 0 to |children|
        invariant State() == s0.(layers := Layers())
        invariant Layers() == Raised(k, h, l0, b, x, i, d + 1)
      {
        RaiseChild(b, x, i, d, k, h, l0);
      }
      RaisedIsShift(k, h, l0, b, x, |children|, d + 1);
      CoverAll(k, h, x);
    }

    /** The body of `SetParentChildrenLayerAfterFold`'s loop for child i of `x`: unless it is `b`, the
        child rises by d + 1 and the walk goes on above it. */
    method RaiseChild(b: nat, x: nat, i: nat, d: int, ghost k: seq<seq<nat>>, ghost h: seq<nat>, ghost l0: seq<int>)
      requires Indexed() && |k| == |blocks| && (forall i :: 0 <= i < |blocks| ==> blocks[i].children == k[i])
      requires Tree(k, h) && b < |blocks| && x < |blocks| && i < |k[x]|
      requires x !in Sub(k, h, b) && |l0| == |k|
      requires Layers() == Raised(k, h, l0, b, x, i, d + 1)
      modifies Repr`layer
      ensures State() == old(State()).(layers := Layers())
      ensures Layers() == Raised(k, h, l0, b, x, i + 1, d + 1)
      decreases h[x], 0
    {
      var c := blocks[x].children[i];
      assert c == k[x][i];
      if c == b {
        RaisedNext(k, h, l0, b, x, i, d + 1);
        return;
      }
      ChildOutside(k, h, b, x, i);
      var lift := d + 1;
      ghost var now := Layers();
      RaiselayerOf(c, lift);
      ghost var mid := Layers();
      SetParentChildrenLayerAfterFold(b, c, d, k, h);
      RaisedChild(k, h, l0, b, x, i, i + 1, c, lift, now, mid, Layers());
    }

    /** `SetBlockChildrenLayerAfterFold`: every block stacked on `x` is turned over, layer l going to
        d - l. `SetBlockChildChildrenLayerAfterUnfold` is the same walk. */
    method SetBlockChildrenLayerAfterFold(x: nat, d: int, ghost k: seq<seq<nat>>, ghost h: seq<nat>)
      requires Indexed() && |k| == |blocks| && (forall i :: 0 <= i < |blocks| ==> blocks[i].children == k[i])
      requires Tree(k, h) && x < |blocks|
      modifies Repr`layer
      ensures Layers() == Flip(old(Layers()), Strict(k, h, x), d)
      ensures State() == old(State()).(layers := Layers())
      decreases h[x]
    {
      ghost var l0, s0 := Layers(), State();
      var children := blocks[x].children;
      assert children == k[x];
      CoverAll(k, h, x);
      if |children| == 0 {
        assert Layers() == Flip(l0, {}, d);
        return;
      }
      for i := 0 to |children|
        invariant State() == s0.(layers := Layers())
        invariant Layers() == Flip(l0, Cover(k, h, k[x][..i]), d)
      {
        var c := children[i];
        ghost var now := Layers();
        TurnlayerOf(c, d);
        ghost var mid := Layers();
        SetBlockChildrenLayerAfterFold(c, d, k, h);
        FlipWalk(k, h, l0, x, i, c, d, now, mid, Layers());
      }
    }

    /** `SetBlockParentChildrenLayerAfterUnfold`: every child of `p` other than `c` sinks by d + 1
        and the blocks stacked on it are turned over. */
    method SetBlockParentChildrenLayerAfterUnfold(c: nat, p: nat, d: int, ghost k: seq<seq<nat>>, ghost h: seq<nat>)
      requires Indexed() && |k| == |blocks| && (forall i :: 0 <= i < |blocks| ==> blocks[i].children == k[i])
      requires Tree(k, h) && c < |blocks| && p < |blocks|
      modifies Repr`layer
      ensures Layers() == Sink(old(Layers()), Others(k[p], c), Below(k, h, k[p], c), d)
      ensures State() == old(State()).(layers := Layers())
    {
      ghost var l0, s0 := Layers(), State();
      var children := blocks[p].children;
      assert children == k[p];
      if |children| == 0 {
        assert Layers() == Sink(l0, {}, {}, d);
        return;
      }
      for i := 0 to |children|
        invariant State() == s0.(layers := Layers())
        invariant Layers() == Sink(l0, Others(k[p][..i], c), Below(k, h, k[p][..i], c), d)
        invariant Others(k[p][..i], c) !! Below(k, h, k[p][..i], c)
      {
        var x := children[i];
        if x == c {
          SinkWalkSkip(k, h, p, i, c);
          continue;
        }
        ghost var now := Layers();
        var sink := -d - 1;
        RaiselayerOf(x, sink);
        ghost var mid := Layers();
        SetBlockChildrenLayerAfterFold(x, d, k, h);
        SinkWalk(k, h, l0, p, i, c, x, d, sink, now, mid, Layers());
      }
      assert k[p][..|children|] == k[p];
    }

    /** `SetLayersAfterFold`, once `b` is `t`'s last child: `FoldLayers`. */
    method SetLayersAfterFold(b: nat, t: nat, ghost k: seq<seq<nat>>, ghost h: seq<nat>)
      requires Indexed() && |k| == |blocks| && (forall i :: 0 <= i < |blocks| ==> blocks[i].children == k[i])
      requires Tree(k, h) && b < |blocks| && t < |blocks| && t !in Sub(k, h, b)
      modifies Repr`layer
      ensures Layers() == FoldLayers(old(Layers()), k, h, b, t)
      ensures State() == old(State()).(layers := Layers())
      ensures Flags() == old(Flags())
    {
      ghost var l0, s0 := Layers(), State();
      var d := GetBlockChildrensCount(b, k, h);
      var lift := d + 1;
      RaiselayerOf(t, lift);
      SetlayerOf(b, 0);
      assert State() == s0.(layers := Layers());
      SetParentChildrenLayerAfterFold(b, t, d, k, h);
      SetBlockChildrenLayerAfterFold(b, d, k, h);
      assert State() == s0.(layers := Layers());
      SubSplit(k, h, b);
      SubSplit(k, h, t);
      FoldSteps(l0, t, b, d, lift, Strict(k, h, t) - Sub(k, h, b), Strict(k, h, b));
    }

    /** `SetLayersAfterUnfold`, once `c` has left `p`: `UnfoldLayers`. */
    method SetLayersAfterUnfold(c: nat, p: nat, ghost k: seq<seq<nat>>, ghost h: seq<nat>)
      requires Indexed() && |k| == |blocks| && (forall i :: 0 <= i < |blocks| ==> blocks[i].children == k[i])
      requires Tree(k, h) && c < |blocks| && p < |blocks| && IsRoot(k, c) && p !in Sub(k, h, c)
      modifies Repr`layer
      ensures Layers() == UnfoldLayers(old(Layers()), k, h, c, p)
      ensures State() == old(State()).(layers := Layers())
      ensures Flags() == old(Flags()) && height == old(height)
    {
      ghost var l0 := Layers();
      var d: int := GetBlockChildrensCount(c, k, h);
      var sink := -d - 1;
      RaiselayerOf(p, sink);
      SetlayerOf(c, d);
      SetBlockParentChildrenLayerAfterUnfold(c, p, d, k, h);
      SetBlockChildrenLayerAfterFold(c, d, k, h);
      UnfoldSets(k, h, c, p);
      OthersAll(k, h, p, c);
      UnfoldSteps(l0, p, c, d, sink, Direct(k, p), Grand(k, h, p), Strict(k, h, c));
    }

    /** `CheckWin`: when every block passes its `WinningParams` check, the level reports itself
        completed once and disables itself; otherwise nothing changes. */
    method CheckWin()
      requires Indexed()
      modifies this`completions, this`enabled
      ensures Won() ==> completions == old(completions) + 1 && !enabled
      ensures !Won() ==> completions == old(completions) && enabled == old(enabled)
      ensures State() == old(State()) && height == old(height)
      ensures old(Valid()) ==> Valid()
      ensures Flags() == old(Flags()).(completions := completions, enabled := enabled)
    {
      for i := 0 to |blocks|
        invariant forall j :: 0 <= j < i ==> blocks[j].win.Admits(blocks[j].layer, blocks[j].pos)
      {
        var w, l, p := blocks[i].win, blocks[i].layer, blocks[i].pos;
        if |w.winningLayers| != 0 {
          if l !in w.winningLayers {
            return;
          }
        }
        if |w.winningPositions| != 0 {
          if !exists k :: 0 <= k < |w.winningPositions| && w.winningPositions[k].x == p.x && w.winningPositions[k].z == p.z {
            return;
          }
        }
      }
      completions := completions + 1;
      enabled := false;
    }

    /** The end of `IEFold` and the callback of `FoldBlock`: the turn carries `b`'s stack onto the
        target's cell; `b` is linked as the target's last child; the layers are rewritten; the level
        is no longer busy, `b`'s collider goes off, nothing is under the finger, `b` joins the
        rewind list; and the win is checked. */
    method FoldCompleted()
      requires Valid() && pending.Some? && pending.value.FoldOnto?
      modifies this, Repr`pos, Repr`parent, Repr`children, Repr`layer, Repr`colliderOn
      ensures Valid()
      ensures var b, t := old(pending.value.b), old(pending.value.t);
        State() == old(State()).(
          kids := old(Kids())[t := old(Kids())[t] + [b]], parents := old(Parents())[b := Some(t)],
          cells := Place(old(Cells()), old(Sub(Kids(), height, b)), old(Cells())[t]),
          layers := FoldLayers(old(Layers()), Kids(), height, b, t), colliders := old(Colliders())[b := false]) &&
        rewind == old(rewind) + [b]
      ensures !isBusy && blockHit.None? && pending.None? && isSwiping == old(isSwiping)
      ensures Won() ==> completions == old(completions) + 1 && !enabled
      ensures !Won() ==> completions == old(completions) && enabled == old(enabled)
    {
      var b, dir, t := pending.value.b, pending.value.dir, pending.value.t;
      FinishFold(b, dir, t);
      Settle(rewind + [b]);
      CheckWin();
    }

    /** The block steps of a fold of `b` onto `t`: the turn, the link, the layers and `b`'s collider
        going off. The links then agree with the rewind list with `b` at its end. */
    method FinishFold(b: nat, dir: Direction, t: nat)
      requires Consistent() && CollidersOnRoots() && Ready(FoldOnto(b, dir, t))
      modifies this`height, Repr`pos, Repr`parent, Repr`children, Repr`layer, Repr`colliderOn
      ensures Sound(State(), rewind + [b], height) && CollidersOnRoots()
      ensures Flags() == old(Flags())
      ensures State() == old(State()).(
        kids := old(Kids())[t := old(Kids())[t] + [b]], parents := old(Parents())[b := Some(t)],
        cells := Place(old(Cells()), old(Sub(Kids(), height, b)), old(Cells())[t]),
        layers := FoldLayers(old(Layers()), Kids(), height, b, t), colliders := old(Colliders())[b := false])
    {
      ghost var cols0, par0 := Colliders(), Parents();
      FoldMove(b, dir, t);
      SetLayersAfterFold(b, t, Kids(), height);
      SetColliderStateOf(b, false);
      RootsAfterFold(cols0, par0, b, t);
    }

    /** The end of `IEFold` and the links of the callback: `b`'s stack is carried onto the target's
        cell and `b` becomes the target's last child, its stack intact. */
    method FoldMove(b: nat, dir: Direction, t: nat)
      requires Consistent() && Ready(FoldOnto(b, dir, t))
      modifies this`height, Repr`pos, Repr`parent, Repr`children
      ensures State() == old(State()).(
        kids := old(Kids())[t := old(Kids())[t] + [b]], parents := old(Parents())[b := Some(t)],
        cells := Place(old(Cells()), old(Sub(Kids(), height, b)), old(Cells())[t]))
      ensures Sound(State(), rewind + [b], height) && Tree(Kids(), height) && t !in Sub(Kids(), height, b)
      ensures Flags() == old(Flags())
    {
      FoldTurn(b, dir, t);
      FoldLink(b, t);
    }

    /** The bookkeeping of the callbacks of `FoldBlock` and `UnfoldBlock`, once the blocks are
        done: the level is no longer busy, nothing is under the finger, no callback waits, and the
        rewind list becomes `rest` (the folded block added, or the unfolded block removed). */
    method Settle(rest: seq<nat>)
      requires Indexed() && Sound(State(), rest, height) && CollidersOnRoots()
      modifies this`isBusy, this`blockHit, this`rewind, this`pending
      ensures Valid() && Flags() == old(Flags()).(isBusy := false, blockHit := None, rewind := rest, pending := None)
      ensures State() == old(State())
    {
      isBusy := false;
      blockHit := None;
      pending := None;
      Rewound(rest);
    }

    /** The end of `IEFold`: the turn over `b`'s edge in direction `dir` carries `b`'s stack rigidly
        onto the target's cell, where the blocks stand as the link about to be made wants them. */
    method FoldTurn(b: nat, dir: Direction, t: nat)
      requires Consistent() && Ready(FoldOnto(b, dir, t))
      modifies Repr`pos
      ensures t !in Sub(Kids(), height, b)
      ensures Cells() == Place(old(Cells()), Sub(Kids(), height, b), old(Cells())[t])
      ensures Placed(Parents()[b := Some(t)], Cells(), Inits())
      ensures State() == old(State()).(cells := Cells())
      ensures Flags() == old(Flags())
    {
      ghost var k0, par0, cells0, inits0, h0, r0 := Kids(), Parents(), Cells(), Inits(), height, rewind;
      var from := blocks[b].pos;
      var turn: Position -> Position := (q: Position) => Mirror(q, from, dir);
      // b's stack stands on b's cell and the target on the next one, so the target is not in it
      NeighbourGeometry(from, dir, dir);
      MirrorLandsOnNeighbour(from, from, dir);
      assert turn(from) == cells0[t];
      FoldLands(k0, par0, r0, h0, cells0, inits0, b, t, turn);
      MoveStack(b, turn, k0, h0);
    }

    /** The callback's links: `b` gets the target as parent and becomes the target's last child; the
        rank is raised under the target so that it still falls along the new link. */
    method FoldLink(b: nat, t: nat)
      requires Indexed() && Linked(Kids(), Parents(), rewind) && Ranked(Kids(), height)
      requires b < |blocks| && t < |blocks| && Parents()[b].None? && t !in Sub(Kids(), height, b)
      modifies this`height, Repr`parent, Repr`children
      ensures State() == old(State()).(kids := old(Kids())[t := old(Kids())[t] + [b]], parents := old(Parents())[b := Some(t)])
      ensures Flags() == old(Flags()) && Linked(Kids(), Parents(), rewind + [b]) && Tree(Kids(), height)
      ensures t !in Sub(Kids(), height, b) && Sub(Kids(), height, b) == old(Sub(Kids(), height, b))
    {
      ghost var k0, par0, h0, r0 := Kids(), Parents(), height, rewind;
      ghost var k2, par2, h2 := k0[t := k0[t] + [b]], par0[b := Some(t)], Raise(k0, h0, t, h0[b] + 1);
      FoldRelinked(k0, par0, r0, h0, b, t, k2, par2, h2);
      SetRank(h2);
      Attach(b, t);
    }

    /** The end of `IEUnfold` and the steps its callbacks in `UnfoldBlock` and `ReversBlock` share:
        the turn and the move back carry `c`'s stack to `c`'s initial cell; `c` leaves its parent
        `p`; the layers are rewritten; `c`'s collider comes back on. The rewind list is the
        caller's: the links then agree with the list without `c`. */
    method FinishUnfold(p: nat, c: nat)
      requires Consistent() && CollidersOnRoots() && c < |blocks| && Parents()[c] == Some(p)
      modifies Repr`pos, Repr`parent, Repr`children, Repr`layer, Repr`colliderOn
      ensures Sound(State(), RemoveFirst(rewind, c), height) && CollidersOnRoots() && Ranked(Kids(), height)
      ensures Flags() == old(Flags()) && height == old(height)
      ensures p < |blocks| && State() == old(State()).(
        kids := old(Kids())[p := RemoveFirst(old(Kids())[p], c)], parents := old(Parents())[c := None],
        cells := Place(old(Cells()), old(Sub(Kids(), height, c)), old(Inits())[c]),
        layers := UnfoldLayers(old(Layers()), Kids(), height, c, p), colliders := old(Colliders())[c := true])
    {
      ghost var cols0, par0 := Colliders(), Parents();
      UnfoldMove(p, c);
      SetLayersAfterUnfold(c, p, Kids(), height);
      SetColliderStateOf(c, true);
      RootsAfterUnfold(cols0, par0, c);
    }

    /** The end of `IEUnfold` and the unlinks of the callback: `c`'s stack is carried to `c`'s
        initial cell and `c` leaves its parent `p`, which leaves it a root with its stack intact. */
    method UnfoldMove(p: nat, c: nat)
      requires Consistent() && c < |blocks| && Parents()[c] == Some(p)
      modifies Repr`pos, Repr`parent, Repr`children
      ensures p < |blocks| && State() == old(State()).(
        kids := old(Kids())[p := RemoveFirst(old(Kids())[p], c)], parents := old(Parents())[c := None],
        cells := Place(old(Cells()), old(Sub(Kids(), height, c)), old(Inits())[c]))
      ensures Sound(State(), RemoveFirst(rewind, c), height) && Tree(Kids(), height)
      ensures IsRoot(Kids(), c) && p !in Sub(Kids(), height, c)
      ensures Flags() == old(Flags()) && height == old(height)
    {
      UnfoldTurn(p, c);
      UnfoldLink(p, c);
    }

    /** The end of `IEUnfold`: the turn, then the move to `c`'s initial cell, carry `c`'s stack
        rigidly there, where the blocks stand as the unlink about to be made wants them. */
    method UnfoldTurn(p: nat, c: nat)
      requires Consistent() && c < |blocks| && Parents()[c] == Some(p)
      modifies Repr`pos
      ensures Cells() == Place(old(Cells()), Sub(Kids(), height, c), Inits()[c])
      ensures Placed(Parents()[c := None], Cells(), Inits())
      ensures State() == old(State()).(cells := Cells())
      ensures Flags() == old(Flags()) && height == old(height)
    {
      ghost var k0, par0, cells0, inits0 := Kids(), Parents(), Cells(), Inits();
      var from, home := blocks[c].pos, blocks[c].initPos;
      var carry: Position -> Position := (q: Position) => Position(q.x + home.x - from.x, q.z + home.z - from.z);
      assert carry(from) == home == inits0[c];
      UnfoldLands(k0, par0, rewind, height, cells0, inits0, c, carry);
      MoveStack(c, carry, k0, height);
    }

    /** The callback's unlinks: `c` loses its parent `p` and leaves `p`'s children. */
    method UnfoldLink(p: nat, c: nat)
      requires Indexed() && Linked(Kids(), Parents(), rewind) && Ranked(Kids(), height)
      requires c < |blocks| && Parents()[c] == Some(p)
      modifies Repr`parent, Repr`children
      ensures p < |blocks| && State() == old(State()).(kids := old(Kids())[p := RemoveFirst(old(Kids())[p], c)], parents := old(Parents())[c := None])
      ensures height == old(height) && Flags() == old(Flags())
      ensures Linked(Kids(), Parents(), RemoveFirst(rewind, c)) && Tree(Kids(), height)
      ensures IsRoot(Kids(), c) && p !in Sub(Kids(), height, c) && Sub(Kids(), height, c) == old(Sub(Kids(), height, c))
    {
      ghost var k0, par0 := Kids(), Parents();
      UnfoldRelinked(k0, par0, rewind, height, c, p, k0[p := RemoveFirst(k0[p], c)], par0[c := None]);
      Detach(c, p);
    }

    /** The end of `IEUnfold` and the callback of `UnfoldBlock`: `FinishUnfold`, then the level is no
        longer busy, nothing is under the finger, `c` leaves the rewind list wherever it is in it,
        and the win is checked. */
    method UnfoldCompleted()
      requires Valid() && pending.Some? && pending.value.UnfoldFrom?
      modifies this, Repr`pos, Repr`parent, Repr`children, Repr`layer, Repr`colliderOn
      ensures Valid()
      ensures var p, c := old(pending.value.p), old(pending.value.c);
        State() == old(State()).(
          kids := old(Kids())[p := RemoveFirst(old(Kids())[p], c)], parents := old(Parents())[c := None],
          cells := Place(old(Cells()), old(Sub(Kids(), height, c)), old(Inits())[c]),
          layers := UnfoldLayers(old(Layers()), Kids(), height, c, p), colliders := old(Colliders())[c := true]) &&
        rewind == RemoveFirst(old(rewind), c)
      ensures !isBusy && blockHit.None? && pending.None? && isSwiping == old(isSwiping)
      ensures Won() ==> completions == old(completions) + 1 && !enabled
      ensures !Won() ==> completions == old(completions) && enabled == old(enabled)
    {
      var p, c := pending.value.p, pending.value.c;
      LastChildParent(Kids(), Parents(), rewind, p);
      FinishUnfold(p, c);
      Settle(RemoveFirst(rewind, c));
      CheckWin();
    }

    /** `OnFullRewind`: ignored while busy or with nothing to rewind; otherwise the rewind runs. */
    method OnFullRewind()
      requires Valid() && enabled
      modifies this`isBusy, this`rewind, Repr`pos, Repr`parent, Repr`children, Repr`layer, Repr`colliderOn
      ensures Valid() && isBusy == old(isBusy)
      ensures old(isBusy) || old(rewind) == [] ==> rewind == old(rewind) && State() == old(State())
      ensures |rewind| <= |old(rewind)| && rewind == old(rewind)[..|rewind|]
      ensures OnNobody(Parents(), old(rewind)[|rewind|..])
      ensures !old(isBusy) && old(rewind) != [] ==> rewind == [] || RewindStuck()
      ensures State() == Rewinding(old(State()), height, old(rewind), |rewind|)
      ensures rewind == [] ==> forall x :: 0 <= x < |blocks| ==>
        Kids()[x] == [] && Parents()[x].None? && Cells()[x] == Inits()[x]
    {
      if rewind == [] {
        AllUnfolded(State(), height);
      }
      if isBusy {
        return;
      }
      if |rewind| == 0 {
        return;
      }
      IEOnFullRewind();
    }

    /** The rewind cannot go on from the level's present state. */
    ghost predicate RewindStuck()
      reads this`rewind, Repr`children, Repr`parent, Repr`pos, Repr`initPos, Repr`layer, Repr`colliderOn
    {
      Indexed() && Stuck(rewind, State())
    }

    /** `IEOnFullRewind`: busy throughout; step i looks at the parent of entry n - i - 1 of the
        rewind list (its last entry at that point), and brings back that parent's child that
        `FirstBlockToRewind` picks, which is that very entry; it stops early when there is none.
        No step checks for the win. */
    method IEOnFullRewind()
      requires Valid() && !isBusy && pending.None?
      modifies this`isBusy, this`rewind, Repr`pos, Repr`parent, Repr`children, Repr`layer, Repr`colliderOn
      ensures Valid() && !isBusy
      ensures |rewind| <= |old(rewind)| && rewind == old(rewind)[..|rewind|]
      ensures OnNobody(Parents(), old(rewind)[|rewind|..])
      ensures rewind == [] || RewindStuck()
      ensures State() == Rewinding(old(State()), height, old(rewind), |rewind|)
      ensures rewind == [] ==> forall x :: 0 <= x < |blocks| ==>
        Kids()[x] == [] && Parents()[x].None? && Cells()[x] == Inits()[x]
    {
      ghost var r0, s0 := rewind, State();
      SetBusy(true);
      RewindSteps();
      ghost var s1, r1 := State(), rewind;
      SetBusy(false);
      assert State() == s1 && rewind == r1;
      if rewind == [] {
        AllUnfolded(State(), height);
      }
    }

    /** The loop of `IEOnFullRewind`, with the level busy. Step i of the source looks at the parent
        of entry `j` = n - i - 1 of the rewind list, which is its last entry at that point, so `j`
        counts down; the loop stops at the first step that finds nothing to rewind. */
    method RewindSteps()
      requires Valid() && isBusy && pending.None?
      modifies this`rewind, Repr`pos, Repr`parent, Repr`children, Repr`layer, Repr`colliderOn
      ensures Valid() && isBusy && pending.None?
      ensures |rewind| <= |old(rewind)| && rewind == old(rewind)[..|rewind|]
      ensures OnNobody(Parents(), old(rewind)[|rewind|..])
      ensures rewind == [] || RewindStuck()
      ensures State() == Rewinding(old(State()), height, old(rewind), |rewind|)
    {
      for j := |rewind| downto 0
        invariant Valid() && isBusy && pending.None?
        invariant rewind == old(rewind)[..j] && OnNobody(Parents(), old(rewind)[j..])
        invariant State() == Rewinding(old(State()), height, old(rewind), j)
      {
        var stuck := TrackedRewindStep(old(State()), old(rewind), j);
        if stuck {
          return;
        }
      }
    }

    /** `RewindStep`, with the lists before the loop, `s0`, kept in view: the level's lists are
        those of `Rewinding` from `s0` over the entries of `r0` no longer listed, before the step
        and after it. */
    method TrackedRewindStep(ghost s0: Lists, ghost r0: seq<nat>, j: nat) returns (stuck: bool)
      requires Valid() && isBusy && pending.None?
      requires j < |r0| && rewind == r0[..j + 1] && OnNobody(Parents(), r0[j + 1..])
      requires State() == Rewinding(s0, height, r0, j + 1)
      modifies this`rewind, Repr`pos, Repr`parent, Repr`children, Repr`layer, Repr`colliderOn
      ensures Valid() && isBusy && pending.None?
      ensures stuck ==> rewind == r0[..j + 1] && RewindStuck() && OnNobody(Parents(), r0[j + 1..])
      ensures !stuck ==> rewind == r0[..j] && OnNobody(Parents(), r0[j..])
      ensures stuck ==> State() == Rewinding(s0, height, r0, j + 1)
      ensures !stuck ==> State() == Rewinding(s0, height, r0, j)
    {
      ghost var s1 := State();
      stuck := RewindStep(r0, j);
      if !stuck {
        RewindingStep(s0, height, r0, j, s1, State());
      }
    }

    /** One pass of the loop in `IEOnFullRewind`, with `r0` the rewind list as it stood before the
        loop and entry `j` its last one still listed: `FirstBlockToRewind` on the parent of entry
        `j`, then `ReversBlock` on the block it picks, which is that entry, now back on the
        board; or, when it picks none, nothing at all. */
    method RewindStep(ghost r0: seq<nat>, j: nat) returns (stuck: bool)
      requires Valid() && isBusy && pending.None?
      requires j < |r0| && rewind == r0[..j + 1] && OnNobody(Parents(), r0[j + 1..])
      modifies this`rewind, Repr`pos, Repr`parent, Repr`children, Repr`layer, Repr`colliderOn
      ensures Valid() && isBusy && pending.None?
      ensures stuck <==> old(RewindStuck())
      ensures stuck ==> rewind == r0[..j + 1] && RewindStuck() && OnNobody(Parents(), r0[j + 1..])
      ensures !stuck ==> rewind == r0[..j] && OnNobody(Parents(), r0[j..])
      ensures stuck ==> State() == old(State())
      ensures !stuck ==> State() == UnfoldStep(old(State()), height, r0[j])
    {
      var next, dir := NextToRewind();
      if next.None? {
        return true;
      }
      var c := next.value;
      OnNobodyAfterUnfold(Parents(), r0, j, rewind, c);
      ReversBlock(blocks[c].parent.value, dir, c);
      return false;
    }

    /** One step of `IEOnFullRewind`: `FirstBlockToRewind` on the parent of the rewind list's last
        entry. It picks that very entry, its parent's last child, with the direction to bring it
        back in; it picks nothing exactly when the rewind is stuck. */
    method NextToRewind() returns (next: Option<nat>, dir: Direction)
      requires Valid() && rewind != []
      ensures next.None? <==> RewindStuck()
      ensures next.Some? ==> next.value == rewind[|rewind| - 1] && next.value < |blocks| && Parents()[next.value].Some?
      ensures next.Some? ==>
        var q := Parents()[next.value].value;
        q < |blocks| && (forall i :: 0 <= i < |Kids()[q]| ==> Kids()[q][i] < |blocks|) &&
        FirstBlockToRewind(Kids()[q], Inits(), Cells()[q]) == (next, dir)
    {
      var tail := rewind[|rewind| - 1];
      RewindPicksTail(State(), rewind, height);
      var q := blocks[tail].parent.value;
      assert blocks[q].children == Kids()[q];
      var r := FirstBlockToRewind(blocks[q].children, Inits(), blocks[q].pos);
      next, dir := r.0, r.1;
    }

    /** `isBusy` becomes `busy`; nothing else changes. */
    method SetBusy(busy: bool)
      requires Valid() && pending.None?
      modifies this`isBusy
      ensures Valid() && Flags() == old(Flags()).(isBusy := busy) && State() == old(State())
    {
      isBusy := busy;
    }

    /** `ReversBlock`, for the last entry `c` of the rewind list: the unfold of `c` from its
        parent `p`, with the list's last entry removed. */
    method ReversBlock(p: nat, dir: Direction, c: nat)
      requires Valid() && pending.None? && rewind != [] && c == rewind[|rewind| - 1]
      requires c < |blocks| && Parents()[c] == Some(p)
      modifies this`rewind, Repr`pos, Repr`parent, Repr`children, Repr`layer, Repr`colliderOn
      ensures Valid() && Flags() == old(Flags()).(rewind := old(rewind)[..|old(rewind)| - 1])
      ensures p < |blocks| && State() == old(State()).(
          kids := old(Kids())[p := RemoveFirst(old(Kids())[p], c)], parents := old(Parents())[c := None],
          cells := Place(old(Cells()), old(Sub(Kids(), height, c)), old(Inits())[c]),
          layers := UnfoldLayers(old(Layers()), Kids(), height, c, p), colliders := old(Colliders())[c := true])
      ensures State() == UnfoldStep(old(State()), height, c)
    {
      ghost var s0 := State();
      var front := rewind[..|rewind| - 1];
      RemoveLast(rewind);
      ghost var hit, par0 := blockHit, Parents();
      FinishUnfold(p, c);
      OnRootAfterUnfold(hit, par0, c);
      Rewound(front);
      assert State() == UnfoldStep(s0, height, c);
    }

    /** The rewind list becomes `rest`; nothing else changes. */
    method Rewound(rest: seq<nat>)
      requires Indexed() && Sound(State(), rest, height) && CollidersOnRoots() && HitOnRoot() && pending.None?
      modifies this`rewind
      ensures Valid() && Flags() == old(Flags()).(rewind := rest) && State() == old(State())
    {
      rewind := rest;
    }
  }
}
