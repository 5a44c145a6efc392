/** One block of the puzzle (BlockScript.cs): its cell, its initial cell, its layer, the block it is
    folded onto, the blocks folded onto it, and whether its collider is on. */
module Blocks {
  import opened Opt
  import opened Seqs
  import opened Winning

  /** A block. Blocks name each other by `id`, their index in the level's block list. `win` is the
      `WinningParams` component attached to the same object. */
  class Block {
    const id: nat
    const win: WinningParams
    /** The (x, z) cell of the block's transform. */
    var pos: Position
    /** `blockInitialPosition`. */
    var initPos: Position
    /** `blockLayer`. */
    var layer: int
    /** `blockParent`: the block this one is folded onto, if any. */
    var parent: Option<nat>
    /** `blockChildren`: the blocks folded directly onto this one, in fold order. */
    var children: seq<nat>
    /** Whether the box collider is enabled, so that a raycast can hit the block. */
    var colliderOn: bool

    /** The object as `Awake` leaves it: its initial cell is where it stands, its layer is 0 whatever
        was serialized, it has no parent and no children, and its collider is enabled. */
    constructor (id: nat, win: WinningParams, pos: Position, serializedLayer: int)
      ensures this.id == id && this.win == win && this.pos == pos && initPos == pos
      ensures layer == 0 && parent == None && children == [] && colliderOn
    {
      this.id := id;
      this.win := win;
      this.pos := pos;
      this.layer := serializedLayer;
      this.parent := None;
      this.children := [];
      this.colliderOn := true;
      new;
      SetInitialPosition(pos);
      Setlayer(0);
    }

    /** `AddBlockChild`: the new child goes to the end, so the list is in fold order. */
    method AddBlockChild(c: nat)
      modifies this`children
      ensures children == old(children) + [c]
    {
      children := children + [c];
    }

    /** `RemoveBlockChild` (`List.Remove`): the first occurrence of `c` is deleted and the other
        children keep their order; a block that is not a child changes nothing. */
    method RemoveBlockChild(c: nat)
      modifies this`children
      ensures children == RemoveFirst(old(children), c)
      ensures c !in old(children) ==> children == old(children)
      ensures c in old(children) ==> var i := IndexOf(old(children), c);
        0 <= i && children == old(children)[..i] + old(children)[i + 1..]
    {
      if c in children {
        RemoveFirstSlices(children, c);
      }
      children := RemoveFirst(children, c);
    }

    /** `Setlayer`: a plain store; nothing keeps the layer non-negative. */
    method Setlayer(l: int)
      modifies this`layer
      ensures layer == l
    {
      layer := l;
    }

    /** `SetParent`: a plain store. */
    method SetParent(p: Option<nat>)
      modifies this`parent
      ensures parent == p
    {
      parent := p;
    }

    /** `SetInitialPosition`: a plain store. */
    method SetInitialPosition(p: Position)
      modifies this`initPos
      ensures initPos == p
    {
      initPos := p;
    }

    /** `SetColliderState`. */
    method SetColliderState(on: bool)
      modifies this`colliderOn
      ensures colliderOn == on
    {
      colliderOn := on;
    }

    /** Where a tween leaves the block once it has run to its end. */
    method SetPosition(p: Position)
      modifies this`pos
      ensures pos == p
    {
      pos := p;
    }
  }

  /** The children lists of a sequence of blocks, all of them in the set `R`. */
  function KidsOf(s: seq<Block>, ghost R: set<Block>): (r: seq<seq<nat>>)
    requires forall i :: 0 <= i < |s| ==> s[i] in R
    reads R`children
    ensures |r| == |s| && forall i {:trigger r[i]} :: 0 <= i < |s| ==> r[i] == s[i].children
  {
    if s == [] then [] else KidsOf(s[..|s| - 1], R) + [s[|s| - 1].children]
  }

  /** The parents of a sequence of blocks. */
  function ParentsOf(s: seq<Block>, ghost R: set<Block>): (r: seq<Option<nat>>)
    requires forall i :: 0 <= i < |s| ==> s[i] in R
    reads R`parent
    ensures |r| == |s| && forall i {:trigger r[i]} :: 0 <= i < |s| ==> r[i] == s[i].parent
  {
    if s == [] then [] else ParentsOf(s[..|s| - 1], R) + [s[|s| - 1].parent]
  }

  /** The cells of a sequence of blocks. */
  function CellsOf(s: seq<Block>, ghost R: set<Block>): (r: seq<Position>)
    requires forall i :: 0 <= i < |s| ==> s[i] in R
    reads R`pos
    ensures |r| == |s| && forall i {:trigger r[i]} :: 0 <= i < |s| ==> r[i] == s[i].pos
  {
    if s == [] then [] else CellsOf(s[..|s| - 1], R) + [s[|s| - 1].pos]
  }

  /** The initial cells of a sequence of blocks. */
  function InitsOf(s: seq<Block>, ghost R: set<Block>): (r: seq<Position>)
    requires forall i :: 0 <= i < |s| ==> s[i] in R
    reads R`initPos
    ensures |r| == |s| && forall i {:trigger r[i]} :: 0 <= i < |s| ==> r[i] == s[i].initPos
  {
    if s == [] then [] else InitsOf(s[..|s| - 1], R) + [s[|s| - 1].initPos]
  }

  /** The layers of a sequence of blocks. */
  function LayersOf(s: seq<Block>, ghost R: set<Block>): (r: seq<int>)
    requires forall i :: 0 <= i < |s| ==> s[i] in R
    reads R`layer
    ensures |r| == |s| && forall i {:trigger r[i]} :: 0 <= i < |s| ==> r[i] == s[i].layer
  {
    if s == [] then [] else LayersOf(s[..|s| - 1], R) + [s[|s| - 1].layer]
  }

  /** The collider flags of a sequence of blocks. */
  function CollidersOf(s: seq<Block>, ghost R: set<Block>): (r: seq<bool>)
    requires forall i :: 0 <= i < |s| ==> s[i] in R
    reads R`colliderOn
    ensures |r| == |s| && forall i {:trigger r[i]} :: 0 <= i < |s| ==> r[i] == s[i].colliderOn
  {
    if s == [] then [] else CollidersOf(s[..|s| - 1], R) + [s[|s| - 1].colliderOn]
  }
}
