/** Where the blocks stand. A block on nobody stands on its initial cell; a block folded onto another
    stands on that block's cell, one storey up. So a whole stack shares the cell of its bottom block,
    and moving a stack moves every block of it to one cell. */
module Board {
  import opened Opt
  import opened Seqs
  import opened Forest
  import opened Winning

  /** `cells` with every block of `s` moved to `cell`. */
  function Place(cells: seq<Position>, s: set<nat>, cell: Position): (r: seq<Position>)
    ensures |r| == |cells|
    ensures forall i {:trigger r[i]} :: 0 <= i < |cells| && i !in s ==> r[i] == cells[i]
    ensures forall i {:trigger r[i]} :: 0 <= i < |cells| && i in s ==> r[i] == cell
  {
    seq(|cells|, i requires 0 <= i < |cells| => if i in s then cell else cells[i])
  }

  /** `cells` with the rigid motion `f` applied to every block of `s`. */
  function Apply(cells: seq<Position>, s: set<nat>, f: Position -> Position): (r: seq<Position>)
    ensures |r| == |cells|
    ensures forall i {:trigger r[i]} :: 0 <= i < |cells| && i !in s ==> r[i] == cells[i]
    ensures forall i {:trigger r[i]} :: 0 <= i < |cells| && i in s ==> r[i] == f(cells[i])
  {
    seq(|cells|, i requires 0 <= i < |cells| => if i in s then f(cells[i]) else cells[i])
  }

  /** Moving two groups apart, one after the other, moves their union. */
  lemma ApplyUnion(cells: seq<Position>, a: set<nat>, b: set<nat>, f: Position -> Position)
    requires a !! b
    ensures Apply(Apply(cells, a, f), b, f) == Apply(cells, a + b, f)
  {
  }

  /** Moving a group whose blocks all stand on one cell puts them all on that cell's image. */
  lemma ApplyOnOneCell(cells: seq<Position>, s: set<nat>, f: Position -> Position, cell: Position)
    requires forall y :: y in s && y < |cells| ==> cells[y] == cell
    ensures Apply(cells, s, f) == Place(cells, s, f(cell))
  {
  }

  /** Roots stand on their initial cells, folded blocks on their parent's cell. */
  ghost predicate Placed(parents: seq<Option<nat>>, cells: seq<Position>, inits: seq<Position>)
  {
    |cells| == |parents| && |inits| == |parents| &&
    (forall x :: 0 <= x < |parents| && parents[x].None? ==> cells[x] == inits[x]) &&
    (forall x :: 0 <= x < |parents| && parents[x].Some? && parents[x].value < |cells| ==>
       cells[x] == cells[parents[x].value])
  }

  /** Every block of a stack stands on the cell of the stack's bottom block. */
  lemma StackOnOneCell(kids: seq<seq<nat>>, parents: seq<Option<nat>>, rewind: seq<nat>,
                       height: seq<nat>, cells: seq<Position>, inits: seq<Position>, x: nat)
    requires Linked(kids, parents, rewind) && Ranked(kids, height) && Placed(parents, cells, inits) && x < |kids|
    ensures forall y :: y in Sub(kids, height, x) ==> cells[y] == cells[x]
  {
    forall y | y in Sub(kids, height, x) ensures cells[y] == cells[x] {
      OnStackCell(kids, parents, rewind, height, cells, inits, x, y);
    }
  }

  /** One block `y` of the stack on `x` stands on `x`'s cell. */
  lemma {:induction false} OnStackCell(kids: seq<seq<nat>>, parents: seq<Option<nat>>, rewind: seq<nat>,
                                       height: seq<nat>, cells: seq<Position>, inits: seq<Position>, x: nat, y: nat)
    requires Linked(kids, parents, rewind) && Ranked(kids, height) && Placed(parents, cells, inits) && x < |kids|
    requires y in Sub(kids, height, x)
    ensures y < |cells| && cells[y] == cells[x]
    decreases height[x]
  {
    if y != x {
      var i :| 0 <= i < |kids[x]| && y in Sub(kids, height, kids[x][i]);
      var c := kids[x][i];
      LinkedParent(kids, parents, rewind);
      assert parents[c] == Some(x);
      OnStackCell(kids, parents, rewind, height, cells, inits, c, y);
    }
  }

  /** The turn of a fold lands `b`'s stack on the target's cell: when the rigid motion `f` carries
      `b`'s cell to the target's, a different cell, the target lies outside `b`'s stack, the whole
      stack lands on the target's cell, and there every block is placed for the link to be made. */
  lemma FoldLands(kids: seq<seq<nat>>, parents: seq<Option<nat>>, rewind: seq<nat>, height: seq<nat>,
                  cells: seq<Position>, inits: seq<Position>, b: nat, t: nat, f: Position -> Position)
    requires Linked(kids, parents, rewind) && Ranked(kids, height) && Placed(parents, cells, inits)
    requires b < |kids| && t < |kids| && parents[b].None? && f(cells[b]) == cells[t] && cells[t] != cells[b]
    ensures Tree(kids, height) && t !in Sub(kids, height, b)
    ensures Apply(cells, Sub(kids, height, b), f) == Place(cells, Sub(kids, height, b), cells[t])
    ensures Placed(parents[b := Some(t)], Place(cells, Sub(kids, height, b), cells[t]), inits)
  {
    LinkedTree(kids, parents, rewind, height);
    StackOnOneCell(kids, parents, rewind, height, cells, inits, b);
    ApplyOnOneCell(cells, Sub(kids, height, b), f, cells[b]);
    FoldKeepsPlaced(kids, parents, rewind, height, cells, inits, b, t);
  }

  /** The turn and the move back of an unfold land `c`'s stack on `c`'s initial cell: when the rigid
      motion `f` carries `c`'s cell there, the whole stack lands there, and every block is placed for
      the unlink to be made. */
  lemma UnfoldLands(kids: seq<seq<nat>>, parents: seq<Option<nat>>, rewind: seq<nat>, height: seq<nat>,
                    cells: seq<Position>, inits: seq<Position>, c: nat, f: Position -> Position)
    requires Linked(kids, parents, rewind) && Ranked(kids, height) && Placed(parents, cells, inits)
    requires c < |kids| && parents[c].Some? && f(cells[c]) == inits[c]
    ensures Tree(kids, height)
    ensures Apply(cells, Sub(kids, height, c), f) == Place(cells, Sub(kids, height, c), inits[c])
    ensures Placed(parents[c := None], Place(cells, Sub(kids, height, c), inits[c]), inits)
  {
    LinkedTree(kids, parents, rewind, height);
    StackOnOneCell(kids, parents, rewind, height, cells, inits, c);
    ApplyOnOneCell(cells, Sub(kids, height, c), f, cells[c]);
    UnfoldKeepsPlaced(kids, parents, rewind, height, cells, inits, c);
  }

  /** A folded block lies in a subtree exactly when its parent does (the subtree's own root aside). */
  lemma ParentSameSide(kids: seq<seq<nat>>, parents: seq<Option<nat>>, rewind: seq<nat>, height: seq<nat>, r: nat, x: nat)
    requires Linked(kids, parents, rewind) && Ranked(kids, height) && r < |kids| && x < |kids| && x != r
    requires parents[x].Some?
    ensures x in Sub(kids, height, r) <==> parents[x].value in Sub(kids, height, r)
  {
    LinkedParent(kids, parents, rewind);
    var q := parents[x].value;
    if x in Sub(kids, height, r) {
      ParentInside(kids, height, r, x);
    }
    if q in Sub(kids, height, r) {
      ChildrenMembers(rewind, parents, q);
      assert x in ChildrenOf(rewind, parents, q);
      var i :| 0 <= i < |kids[q]| && kids[q][i] == x;
      ChildSub(kids, height, q, i);
      SubTrans(kids, height, r, q);
    }
  }

  /** Folding root `b` onto `t`, outside `b`'s stack, and carrying `b`'s stack onto `t`'s cell keeps
      every block placed. */
  lemma FoldKeepsPlaced(kids: seq<seq<nat>>, parents: seq<Option<nat>>, rewind: seq<nat>, height: seq<nat>,
                        cells: seq<Position>, inits: seq<Position>, b: nat, t: nat)
    requires Linked(kids, parents, rewind) && Ranked(kids, height) && Placed(parents, cells, inits)
    requires b < |kids| && t < |kids| && parents[b].None? && t !in Sub(kids, height, b)
    ensures Placed(parents[b := Some(t)], Place(cells, Sub(kids, height, b), cells[t]), inits)
  {
    FoldRootsPlaced(kids, parents, rewind, height, cells, inits, b, t);
    FoldFoldedPlaced(kids, parents, rewind, height, cells, inits, b, t);
  }

  /** After the fold the blocks on nobody are the old roots other than `b`, none of them moved. */
  lemma FoldRootsPlaced(kids: seq<seq<nat>>, parents: seq<Option<nat>>, rewind: seq<nat>, height: seq<nat>,
                        cells: seq<Position>, inits: seq<Position>, b: nat, t: nat)
    requires Linked(kids, parents, rewind) && Ranked(kids, height) && Placed(parents, cells, inits)
    requires b < |kids| && t < |kids| && parents[b].None? && t !in Sub(kids, height, b)
    ensures var par2, cells2 := parents[b := Some(t)], Place(cells, Sub(kids, height, b), cells[t]);
      forall x :: 0 <= x < |par2| && par2[x].None? ==> cells2[x] == inits[x]
  {
    LinkedParent(kids, parents, rewind);
    var s := Sub(kids, height, b);
    var par2, cells2 := parents[b := Some(t)], Place(cells, s, cells[t]);
    forall x | 0 <= x < |par2| && par2[x].None? ensures cells2[x] == inits[x] {
      if x in s {
        RootOnlyInOwnSub(kids, height, b, x);
      }
    }
  }

  /** After the fold every folded block stands on its parent's cell. */
  lemma FoldFoldedPlaced(kids: seq<seq<nat>>, parents: seq<Option<nat>>, rewind: seq<nat>, height: seq<nat>,
                         cells: seq<Position>, inits: seq<Position>, b: nat, t: nat)
    requires Linked(kids, parents, rewind) && Ranked(kids, height) && Placed(parents, cells, inits)
    requires b < |kids| && t < |kids| && parents[b].None? && t !in Sub(kids, height, b)
    ensures var par2, cells2 := parents[b := Some(t)], Place(cells, Sub(kids, height, b), cells[t]);
      forall x :: 0 <= x < |par2| && par2[x].Some? && par2[x].value < |cells2| ==> cells2[x] == cells2[par2[x].value]
  {
    var s := Sub(kids, height, b);
    var par2, cells2 := parents[b := Some(t)], Place(cells, s, cells[t]);
    forall x | 0 <= x < |par2| && par2[x].Some? && par2[x].value < |cells2| ensures cells2[x] == cells2[par2[x].value] {
      if x != b {
        ParentSameSide(kids, parents, rewind, height, b, x);
      }
    }
  }

  /** Unfolding `c` and carrying its stack back to `c`'s initial cell keeps every block placed. */
  lemma UnfoldKeepsPlaced(kids: seq<seq<nat>>, parents: seq<Option<nat>>, rewind: seq<nat>, height: seq<nat>,
                          cells: seq<Position>, inits: seq<Position>, c: nat)
    requires Linked(kids, parents, rewind) && Ranked(kids, height) && Placed(parents, cells, inits)
    requires c < |kids| && parents[c].Some?
    ensures Placed(parents[c := None], Place(cells, Sub(kids, height, c), inits[c]), inits)
  {
    UnfoldRootsPlaced(kids, parents, rewind, height, cells, inits, c);
    UnfoldFoldedPlaced(kids, parents, rewind, height, cells, inits, c);
  }

  /** After the unfold the blocks on nobody are the old roots, unmoved, and `c`, back on its own cell. */
  lemma UnfoldRootsPlaced(kids: seq<seq<nat>>, parents: seq<Option<nat>>, rewind: seq<nat>, height: seq<nat>,
                          cells: seq<Position>, inits: seq<Position>, c: nat)
    requires Linked(kids, parents, rewind) && Ranked(kids, height) && Placed(parents, cells, inits)
    requires c < |kids| && parents[c].Some?
    ensures var par2, cells2 := parents[c := None], Place(cells, Sub(kids, height, c), inits[c]);
      forall x :: 0 <= x < |par2| && par2[x].None? ==> cells2[x] == inits[x]
  {
    LinkedParent(kids, parents, rewind);
    var s := Sub(kids, height, c);
    var par2, cells2 := parents[c := None], Place(cells, s, inits[c]);
    forall x | 0 <= x < |par2| && par2[x].None? ensures cells2[x] == inits[x] {
      if x in s && x != c {
        RootOnlyInOwnSub(kids, height, c, x);
      }
    }
  }

  /** After the unfold every block still folded stands on its parent's cell. */
  lemma UnfoldFoldedPlaced(kids: seq<seq<nat>>, parents: seq<Option<nat>>, rewind: seq<nat>, height: seq<nat>,
                           cells: seq<Position>, inits: seq<Position>, c: nat)
    requires Linked(kids, parents, rewind) && Ranked(kids, height) && Placed(parents, cells, inits)
    requires c < |kids| && parents[c].Some?
    ensures var par2, cells2 := parents[c := None], Place(cells, Sub(kids, height, c), inits[c]);
      forall x :: 0 <= x < |par2| && par2[x].Some? && par2[x].value < |cells2| ==> cells2[x] == cells2[par2[x].value]
  {
    var s := Sub(kids, height, c);
    var par2, cells2 := parents[c := None], Place(cells, s, inits[c]);
    LinkedParent(kids, parents, rewind);
    forall x | 0 <= x < |par2| && par2[x].Some? && par2[x].value < |cells2| ensures cells2[x] == cells2[par2[x].value] {
      ParentSameSide(kids, parents, rewind, height, c, x);
    }
  }
}
