/** The fold hierarchy as a value: which blocks are folded onto which.

    `kids[p]` lists, in fold order, the ids of the blocks folded directly onto block `p`
    (BlockScript's `blockChildren`). `height` is a ghost rank that strictly decreases from a block to
    each block folded onto it; it is what makes the recursive walks over children terminate. */
module Forest {
  import opened Opt
  import opened Seqs

  ghost predicate Ranked(kids: seq<seq<nat>>, height: seq<nat>)
  {
    |kids| == |height| &&
    forall p, i :: 0 <= p < |kids| && 0 <= i < |kids[p]| ==>
      kids[p][i] < |kids| && height[kids[p][i]] < height[p]
  }

  /** Every block fills at most one child slot of the whole forest: one parent at most, listed once. */
  ghost predicate Tree(kids: seq<seq<nat>>, height: seq<nat>)
  {
    Ranked(kids, height) &&
    forall p, i, q, j ::
      (0 <= p < |kids| && 0 <= i < |kids[p]| && 0 <= q < |kids| && 0 <= j < |kids[q]| && kids[p][i] == kids[q][j])
      ==> p == q && i == j
  }

  /** `x` is folded onto no block. */
  ghost predicate IsRoot(kids: seq<seq<nat>>, x: nat)
  {
    forall p, i :: 0 <= p < |kids| && 0 <= i < |kids[p]| ==> kids[p][i] != x
  }

  /** `x` together with every block folded onto it, directly or through other blocks. */
  ghost function Sub(kids: seq<seq<nat>>, height: seq<nat>, x: nat): (s: set<nat>)
    requires Ranked(kids, height) && x < |kids|
    ensures x in s
    ensures forall y :: y in s ==> y < |kids| && (y == x || height[y] < height[x])
    decreases height[x]
  {
    {x} + set i, y | 0 <= i < |kids[x]| && y in Sub(kids, height, kids[x][i]) :: y
  }

  /** The blocks of the subtrees rooted at the listed blocks. */
  ghost function Cover(kids: seq<seq<nat>>, height: seq<nat>, cs: seq<nat>): set<nat>
    requires Ranked(kids, height) && forall i :: 0 <= i < |cs| ==> cs[i] < |kids|
  {
    set i, y | 0 <= i < |cs| && y in Sub(kids, height, cs[i]) :: y
  }

  /** Listing one more block adds its subtree. */
  lemma CoverSnoc(kids: seq<seq<nat>>, height: seq<nat>, cs: seq<nat>, c: nat)
    requires Ranked(kids, height) && c < |kids| && forall i :: 0 <= i < |cs| ==> cs[i] < |kids|
    ensures Cover(kids, height, cs + [c]) == Cover(kids, height, cs) + Sub(kids, height, c)
  {
    var ds := cs + [c];
    assert ds[|cs|] == c;
    forall y | y in Cover(kids, height, ds) ensures y in Cover(kids, height, cs) + Sub(kids, height, c) {
      var i :| 0 <= i < |ds| && y in Sub(kids, height, ds[i]);
      if i < |cs| {
        assert ds[i] == cs[i];
      }
    }
    forall y | y in Cover(kids, height, cs) ensures y in Cover(kids, height, ds) {
      var i :| 0 <= i < |cs| && y in Sub(kids, height, cs[i]);
      assert ds[i] == cs[i];
    }
  }

  /** The blocks folded onto `x`, directly or not: its descendants. */
  ghost function Strict(kids: seq<seq<nat>>, height: seq<nat>, x: nat): set<nat>
    requires Ranked(kids, height) && x < |kids|
  {
    Cover(kids, height, kids[x])
  }

  /** A subtree is its root plus the root's descendants, and no block is its own descendant. */
  lemma SubSplit(kids: seq<seq<nat>>, height: seq<nat>, x: nat)
    requires Ranked(kids, height) && x < |kids|
    ensures Sub(kids, height, x) == {x} + Strict(kids, height, x)
    ensures x !in Strict(kids, height, x)
  {
    var s := Strict(kids, height, x);
    forall y | y in s ensures height[y] < height[x] {
      var i :| 0 <= i < |kids[x]| && y in Sub(kids, height, kids[x][i]);
    }
  }

  /** Descendants of a descendant are descendants. */
  lemma {:induction false} SubTrans(kids: seq<seq<nat>>, height: seq<nat>, x: nat, y: nat)
    requires Ranked(kids, height) && x < |kids| && y in Sub(kids, height, x)
    ensures Sub(kids, height, y) <= Sub(kids, height, x)
    decreases height[x]
  {
    if y != x {
      var i :| 0 <= i < |kids[x]| && y in Sub(kids, height, kids[x][i]);
      SubTrans(kids, height, kids[x][i], y);
    }
  }

  /** A descendant of `x` is folded onto some block of `x`'s subtree. */
  lemma {:induction false} ParentInside(kids: seq<seq<nat>>, height: seq<nat>, x: nat, y: nat)
    requires Ranked(kids, height) && x < |kids| && y in Sub(kids, height, x) && y != x
    ensures exists p, i :: p in Sub(kids, height, x) && 0 <= i < |kids[p]| && kids[p][i] == y
    decreases height[x]
  {
    var i :| 0 <= i < |kids[x]| && y in Sub(kids, height, kids[x][i]);
    var c := kids[x][i];
    if y != c {
      ParentInside(kids, height, c, y);
      var p, j :| p in Sub(kids, height, c) && 0 <= j < |kids[p]| && kids[p][j] == y;
      SubTrans(kids, height, x, c);
    }
  }

  /** A root lies in no subtree but its own. */
  lemma RootOnlyInOwnSub(kids: seq<seq<nat>>, height: seq<nat>, x: nat, r: nat)
    requires Ranked(kids, height) && x < |kids| && IsRoot(kids, r) && r in Sub(kids, height, x)
    ensures r == x
  {
    if r != x {
      ParentInside(kids, height, x, r);
    }
  }

  /** In a tree, two subtrees that share a block are nested. */
  lemma {:induction false} Comparable(kids: seq<seq<nat>>, height: seq<nat>, a: nat, b: nat, y: nat)
    requires Tree(kids, height) && a < |kids| && b < |kids|
    requires y in Sub(kids, height, a) && y in Sub(kids, height, b)
    ensures a in Sub(kids, height, b) || b in Sub(kids, height, a)
    decreases height[a] + height[b] - height[y]
  {
    if y != a && y != b {
      ParentInside(kids, height, a, y);
      var p, i :| p in Sub(kids, height, a) && 0 <= i < |kids[p]| && kids[p][i] == y;
      ParentInside(kids, height, b, y);
      var q, j :| q in Sub(kids, height, b) && 0 <= j < |kids[q]| && kids[q][j] == y;
      assert p == q;
      Comparable(kids, height, a, b, p);
    }
  }

  /** The subtrees of two different children of one block are disjoint. */
  lemma SiblingsDisjoint(kids: seq<seq<nat>>, height: seq<nat>, p: nat, i: nat, j: nat)
    requires Tree(kids, height) && p < |kids| && i < |kids[p]| && j < |kids[p]| && i != j
    ensures Sub(kids, height, kids[p][i]) !! Sub(kids, height, kids[p][j])
  {
    var a, b := kids[p][i], kids[p][j];
    if y :| y in Sub(kids, height, a) && y in Sub(kids, height, b) {
      Comparable(kids, height, a, b, y);
      assert a != b;
      if a in Sub(kids, height, b) {
        NestedSiblingAbsurd(kids, height, p, i, j);
      } else {
        NestedSiblingAbsurd(kids, height, p, j, i);
      }
    }
  }

  /** No child of `p` lies in the subtree of another child of `p`. */
  lemma NestedSiblingAbsurd(kids: seq<seq<nat>>, height: seq<nat>, p: nat, i: nat, j: nat)
    requires Tree(kids, height) && p < |kids| && i < |kids[p]| && j < |kids[p]| && i != j
    ensures kids[p][i] !in Sub(kids, height, kids[p][j])
  {
    var a, b := kids[p][i], kids[p][j];
    if a in Sub(kids, height, b) {
      assert a != b;
      ParentInside(kids, height, b, a);
    }
  }

  /** A block outside `b`'s subtree only has children outside it, apart from `b` itself. */
  lemma ChildOutside(kids: seq<seq<nat>>, height: seq<nat>, b: nat, p: nat, i: nat)
    requires Tree(kids, height) && b < |kids| && p < |kids| && i < |kids[p]|
    requires p !in Sub(kids, height, b) && kids[p][i] != b
    ensures kids[p][i] !in Sub(kids, height, b)
  {
    var c := kids[p][i];
    if c in Sub(kids, height, b) {
      ParentInside(kids, height, b, c);
    }
  }

  /** Walking the children of `p` in order: the next child's subtree is new, and adds to what is covered. */
  lemma CoverStep(kids: seq<seq<nat>>, height: seq<nat>, p: nat, i: nat)
    requires Tree(kids, height) && p < |kids| && i < |kids[p]|
    ensures Cover(kids, height, kids[p][..i + 1]) == Cover(kids, height, kids[p][..i]) + Sub(kids, height, kids[p][i])
    ensures Sub(kids, height, kids[p][i]) !! Cover(kids, height, kids[p][..i])
  {
    assert kids[p][..i + 1] == kids[p][..i] + [kids[p][i]];
    CoverSnoc(kids, height, kids[p][..i], kids[p][i]);
    forall y | y in Cover(kids, height, kids[p][..i]) ensures y !in Sub(kids, height, kids[p][i]) {
      var j :| 0 <= j < i && y in Sub(kids, height, kids[p][..i][j]);
      SiblingsDisjoint(kids, height, p, j, i);
    }
  }

  /** The whole list of children of `p` covers exactly the descendants of `p`. */
  lemma CoverAll(kids: seq<seq<nat>>, height: seq<nat>, p: nat)
    requires Ranked(kids, height) && p < |kids|
    ensures Cover(kids, height, kids[p][..|kids[p]|]) == Strict(kids, height, p)
  {
    assert kids[p][..|kids[p]|] == kids[p];
  }

  /** The ids folded directly onto `x`, as a set. */
  ghost function Direct(kids: seq<seq<nat>>, x: nat): set<nat>
    requires x < |kids|
  {
    set i | 0 <= i < |kids[x]| :: kids[x][i]
  }

  /** The descendants of `x` that are not folded directly onto it: its grandchildren and below. */
  ghost function Grand(kids: seq<seq<nat>>, height: seq<nat>, x: nat): set<nat>
    requires Ranked(kids, height) && x < |kids|
  {
    set i, y | 0 <= i < |kids[x]| && y in Strict(kids, height, kids[x][i]) :: y
  }

  /** In a tree the descendants of `x` split into its direct children and the blocks below them. */
  lemma StrictSplit(kids: seq<seq<nat>>, height: seq<nat>, x: nat)
    requires Tree(kids, height) && x < |kids|
    ensures Strict(kids, height, x) == Direct(kids, x) + Grand(kids, height, x)
    ensures Direct(kids, x) !! Grand(kids, height, x)
  {
    var st, di, gr := Strict(kids, height, x), Direct(kids, x), Grand(kids, height, x);
    forall y | y in st ensures y in di || y in gr {
      var i :| 0 <= i < |kids[x]| && y in Sub(kids, height, kids[x][i]);
      SubSplit(kids, height, kids[x][i]);
      if y != kids[x][i] {
        assert y in Strict(kids, height, kids[x][i]);
      }
    }
    forall y | y in di ensures y in st {
      var i :| 0 <= i < |kids[x]| && kids[x][i] == y;
      assert y in Sub(kids, height, kids[x][i]);
    }
    forall y | y in gr ensures y in st && y !in di {
      var i :| 0 <= i < |kids[x]| && y in Strict(kids, height, kids[x][i]);
      SubSplit(kids, height, kids[x][i]);
      assert y in Sub(kids, height, kids[x][i]);
      if j :| 0 <= j < |kids[x]| && kids[x][j] == y {
        if i != j {
          NestedSiblingAbsurd(kids, height, x, j, i);
        }
      }
    }
  }

  /** The subtree of `x` computed with two different ranks is the same set: the rank only
      justifies termination. */
  lemma {:induction false} SubCongruent(kids: seq<seq<nat>>, h1: seq<nat>, h2: seq<nat>, x: nat)
    requires Ranked(kids, h1) && Ranked(kids, h2) && x < |kids|
    ensures Sub(kids, h1, x) == Sub(kids, h2, x)
    decreases h1[x]
  {
    forall i | 0 <= i < |kids[x]| ensures Sub(kids, h1, kids[x][i]) == Sub(kids, h2, kids[x][i]) {
      SubCongruent(kids, h1, h2, kids[x][i]);
    }
  }

  /** `Cover` over two ranks is the same set. */
  lemma CoverCongruent(kids: seq<seq<nat>>, h1: seq<nat>, h2: seq<nat>, cs: seq<nat>)
    requires Ranked(kids, h1) && Ranked(kids, h2) && forall i :: 0 <= i < |cs| ==> cs[i] < |kids|
    ensures Cover(kids, h1, cs) == Cover(kids, h2, cs)
  {
    forall i | 0 <= i < |cs| ensures Sub(kids, h1, cs[i]) == Sub(kids, h2, cs[i]) {
      SubCongruent(kids, h1, h2, cs[i]);
    }
  }

  /** The blocks whose parent is `p`, in the order they appear in `order` (the rewind list). */
  ghost function ChildrenOf(order: seq<nat>, parents: seq<Option<nat>>, p: nat): (r: seq<nat>)
    ensures |r| <= |order|
    decreases |order|
  {
    if order == [] then []
    else (if HasParent(parents, order[0], p) then [order[0]] else []) + ChildrenOf(order[1..], parents, p)
  }

  /** The child list of `p` holds exactly the listed blocks whose parent is `p`. */
  lemma {:induction false} ChildrenMembers(order: seq<nat>, parents: seq<Option<nat>>, p: nat)
    ensures forall x :: x in ChildrenOf(order, parents, p) <==> x in order && x < |parents| && parents[x] == Some(p)
    decreases |order|
  {
    if order != [] {
      ChildrenMembers(order[1..], parents, p);
      assert order == [order[0]] + order[1..];
    }
  }

  /** Block `x` exists and is folded onto `p`. */
  ghost predicate HasParent(parents: seq<Option<nat>>, x: nat, p: nat)
  {
    x < |parents| && parents[x] == Some(p)
  }

  /** A child list filtered from a list without repeats has no repeats. */
  lemma {:induction false} ChildrenDistinct(order: seq<nat>, parents: seq<Option<nat>>, p: nat)
    requires Distinct(order)
    ensures Distinct(ChildrenOf(order, parents, p))
    decreases |order|
  {
    if order != [] {
      var rest := order[1..];
      assert Distinct(rest) by {
        forall i, j | 0 <= i < j < |rest| ensures rest[i] != rest[j] {
          assert rest[i] == order[i + 1] && rest[j] == order[j + 1];
        }
      }
      ChildrenDistinct(rest, parents, p);
      ChildrenMembers(rest, parents, p);
      assert order[0] !in rest by {
        forall j | 0 <= j < |rest| ensures rest[j] != order[0] {
          assert rest[j] == order[j + 1];
        }
      }
      var head: seq<nat> := if HasParent(parents, order[0], p) then [order[0]] else [];
      var tail := ChildrenOf(rest, parents, p);
      var r := head + tail;
      forall i, j | 0 <= i < j < |r| ensures r[i] != r[j] {
        if i < |head| {
          assert r[j] == tail[j - |head|] && r[j] in rest;
        } else {
          assert r[i] == tail[i - |head|] && r[j] == tail[j - |head|];
        }
      }
    }
  }

  /** Appending a block to the order appends it to its parent's child list and to no other. */
  lemma {:induction false} ChildrenAppend(order: seq<nat>, parents: seq<Option<nat>>, p: nat, b: nat)
    ensures ChildrenOf(order + [b], parents, p) ==
            ChildrenOf(order, parents, p) + (if HasParent(parents, b, p) then [b] else [])
    decreases |order|
  {
    if order != [] {
      assert (order + [b])[1..] == order[1..] + [b];
      ChildrenAppend(order[1..], parents, p, b);
    }
  }

  /** Child lists only look at the parents of blocks in the order. */
  lemma {:induction false} ChildrenSameParents(order: seq<nat>, par1: seq<Option<nat>>, par2: seq<Option<nat>>, p: nat)
    requires forall i :: 0 <= i < |order| ==> HasParent(par1, order[i], p) == HasParent(par2, order[i], p)
    ensures ChildrenOf(order, par1, p) == ChildrenOf(order, par2, p)
    decreases |order|
  {
    if order != [] {
      ChildrenSameParents(order[1..], par1, par2, p);
    }
  }

  /** Removing a block from the order (and clearing its parent) removes it from its parent's child list. */
  lemma {:induction false} ChildrenRemove(order: seq<nat>, parents: seq<Option<nat>>, cleared: seq<Option<nat>>, p: nat, c: nat)
    requires Distinct(order)
    requires forall i :: 0 <= i < |order| && order[i] != c ==> HasParent(cleared, order[i], p) == HasParent(parents, order[i], p)
    ensures ChildrenOf(RemoveFirst(order, c), cleared, p) == RemoveFirst(ChildrenOf(order, parents, p), c)
    decreases |order|
  {
    RemoveFirstDistinct(order, c);
    if order != [] {
      var o, rest := order[0], order[1..];
      assert Distinct(rest) by {
        forall i, j | 0 <= i < j < |rest| ensures rest[i] != rest[j] {
          assert rest[i] == order[i + 1] && rest[j] == order[j + 1];
        }
      }
      assert o !in rest by {
        forall j | 0 <= j < |rest| ensures rest[j] != o {
          assert rest[j] == order[j + 1];
        }
      }
      if o == c {
        assert RemoveFirst(order, c) == rest;
        ChildrenSameParents(rest, parents, cleared, p);
        ChildrenMembers(rest, parents, p);
        assert c !in ChildrenOf(rest, parents, p);
      } else {
        ChildrenRemove(rest, parents, cleared, p, c);
        assert RemoveFirst(order, c) == [o] + RemoveFirst(rest, c);
        var head: seq<nat> := if HasParent(parents, o, p) then [o] else [];
        assert ChildrenOf(order, parents, p) == head + ChildrenOf(rest, parents, p);
        assert ([o] + RemoveFirst(rest, c))[1..] == RemoveFirst(rest, c);
        RemoveFirstFront(head, ChildrenOf(rest, parents, p), c);
      }
    }
  }

  /** Removal skips a prefix that does not hold the element. */
  lemma {:induction false} RemoveFirstFront(head: seq<nat>, tail: seq<nat>, c: nat)
    requires c !in head
    ensures RemoveFirst(head + tail, c) == head + RemoveFirst(tail, c)
    decreases |head|
  {
    if head == [] {
      assert head + tail == tail;
    } else {
      var rest := head[1..] + tail;
      assert head + tail == [head[0]] + rest;
      RemoveFirstCons(head[0], rest, c);
      RemoveFirstFront(head[1..], tail, c);
      assert [head[0]] + (head[1..] + RemoveFirst(tail, c)) == head + RemoveFirst(tail, c);
    }
  }

  /** Removal skips a first element that differs. */
  lemma RemoveFirstCons(h: nat, tail: seq<nat>, c: nat)
    requires h != c
    ensures RemoveFirst([h] + tail, c) == [h] + RemoveFirst(tail, c)
  {
    assert ([h] + tail)[1..] == tail;
  }

  /** The fold hierarchy agrees with the rewind list: exactly the blocks in the rewind list have a
      parent, and each block's children are the blocks whose parent it is, in the order they were
      folded onto it. */
  ghost predicate Linked(kids: seq<seq<nat>>, parents: seq<Option<nat>>, rewind: seq<nat>)
  {
    |kids| == |parents| && Distinct(rewind) &&
    (forall x :: x in rewind ==> x < |parents|) &&
    (forall x :: 0 <= x < |parents| ==> (parents[x].Some? <==> x in rewind)) &&
    (forall x :: 0 <= x < |parents| && parents[x].Some? ==> parents[x].value < |kids|) &&
    forall p :: 0 <= p < |kids| ==> kids[p] == ChildrenOf(rewind, parents, p)
  }

  /** Under `Linked`, the last child of `p` names `p` as its parent. */
  lemma LastChildParent(kids: seq<seq<nat>>, parents: seq<Option<nat>>, rewind: seq<nat>, p: nat)
    requires Linked(kids, parents, rewind) && p < |kids| && kids[p] != []
    ensures kids[p][|kids[p]| - 1] < |kids| && parents[kids[p][|kids[p]| - 1]] == Some(p)
  {
    LinkedParent(kids, parents, rewind);
  }

  /** Under `Linked`, a listed child names its parent, and roots are exactly the parentless blocks. */
  lemma LinkedParent(kids: seq<seq<nat>>, parents: seq<Option<nat>>, rewind: seq<nat>)
    requires Linked(kids, parents, rewind)
    ensures forall p, i :: 0 <= p < |kids| && 0 <= i < |kids[p]| ==>
      kids[p][i] < |kids| && parents[kids[p][i]] == Some(p)
    ensures forall x :: 0 <= x < |kids| ==> (IsRoot(kids, x) <==> parents[x].None?)
  {
    forall p, i | 0 <= p < |kids| && 0 <= i < |kids[p]|
      ensures kids[p][i] < |kids| && parents[kids[p][i]] == Some(p)
    {
      ChildrenMembers(rewind, parents, p);
      assert kids[p][i] in ChildrenOf(rewind, parents, p);
    }
    forall x | 0 <= x < |kids| && parents[x].Some? ensures !IsRoot(kids, x) {
      var p := parents[x].value;
      ChildrenMembers(rewind, parents, p);
      assert x in ChildrenOf(rewind, parents, p);
      var i :| 0 <= i < |kids[p]| && kids[p][i] == x;
    }
  }

  /** A ranked hierarchy that agrees with the rewind list is a tree. */
  lemma LinkedTree(kids: seq<seq<nat>>, parents: seq<Option<nat>>, rewind: seq<nat>, height: seq<nat>)
    requires Linked(kids, parents, rewind) && Ranked(kids, height)
    ensures Tree(kids, height)
  {
    LinkedParent(kids, parents, rewind);
    forall p | 0 <= p < |kids| ensures Distinct(kids[p]) {
      ChildrenDistinct(rewind, parents, p);
    }
  }

  /** The last block of the rewind list is the last child of its parent. */
  lemma TailIsLastChild(kids: seq<seq<nat>>, parents: seq<Option<nat>>, rewind: seq<nat>)
    requires Linked(kids, parents, rewind) && rewind != []
    ensures var y := rewind[|rewind| - 1];
      y < |parents| && parents[y].Some? && |kids[parents[y].value]| > 0 &&
      kids[parents[y].value][|kids[parents[y].value]| - 1] == y
  {
    var y := rewind[|rewind| - 1];
    assert y in rewind;
    var front := rewind[..|rewind| - 1];
    assert rewind == front + [y];
    ChildrenAppend(front, parents, parents[y].value, y);
  }

  /** Folding parentless `b` onto `t`: `b` is appended to the rewind list and to `t`'s children. */
  lemma FoldLinked(kids: seq<seq<nat>>, parents: seq<Option<nat>>, rewind: seq<nat>, b: nat, t: nat)
    requires Linked(kids, parents, rewind) && b < |kids| && t < |kids| && parents[b].None?
    ensures Linked(kids[t := kids[t] + [b]], parents[b := Some(t)], rewind + [b])
  {
    var k2, par2, r2 := kids[t := kids[t] + [b]], parents[b := Some(t)], rewind + [b];
    assert b !in rewind;
    assert Distinct(r2) by {
      forall i, j | 0 <= i < j < |r2| ensures r2[i] != r2[j] {
        if j == |rewind| {
          assert r2[i] == rewind[i];
        } else {
          assert r2[i] == rewind[i] && r2[j] == rewind[j];
        }
      }
    }
    forall p | 0 <= p < |k2| ensures k2[p] == ChildrenOf(r2, par2, p) {
      forall i | 0 <= i < |rewind| ensures HasParent(parents, rewind[i], p) == HasParent(par2, rewind[i], p) {
        assert rewind[i] != b;
      }
      ChildrenSameParents(rewind, parents, par2, p);
      ChildrenAppend(rewind, par2, p, b);
    }
    forall x | 0 <= x < |par2| ensures par2[x].Some? <==> x in r2 {
      if x != b {
        assert x in r2 <==> x in rewind;
      }
    }
  }

  /** Unfolding `c` from its parent: `c` leaves the rewind list and its parent's children. */
  lemma UnfoldLinked(kids: seq<seq<nat>>, parents: seq<Option<nat>>, rewind: seq<nat>, c: nat)
    requires Linked(kids, parents, rewind) && c < |kids| && parents[c].Some?
    ensures var p := parents[c].value;
      Linked(kids[p := RemoveFirst(kids[p], c)], parents[c := None], RemoveFirst(rewind, c))
  {
    var p := parents[c].value;
    var k2, par2, r2 := kids[p := RemoveFirst(kids[p], c)], parents[c := None], RemoveFirst(rewind, c);
    RemoveFirstDistinct(rewind, c);
    UnfoldAllChildren(kids, parents, rewind, c, k2, par2, r2);
  }

  /** `UnfoldLinked` for every children list. */
  lemma UnfoldAllChildren(kids: seq<seq<nat>>, parents: seq<Option<nat>>, rewind: seq<nat>, c: nat,
                          k2: seq<seq<nat>>, par2: seq<Option<nat>>, r2: seq<nat>)
    requires Linked(kids, parents, rewind) && c < |kids| && parents[c].Some?
    requires k2 == kids[parents[c].value := RemoveFirst(kids[parents[c].value], c)]
    requires par2 == parents[c := None] && r2 == RemoveFirst(rewind, c)
    ensures forall q :: 0 <= q < |k2| ==> k2[q] == ChildrenOf(r2, par2, q)
  {
    forall q | 0 <= q < |k2| ensures k2[q] == ChildrenOf(r2, par2, q) {
      UnfoldChildren(kids, parents, rewind, c, q);
    }
  }

  /** `UnfoldLinked` for the children list of one block `q`. */
  lemma UnfoldChildren(kids: seq<seq<nat>>, parents: seq<Option<nat>>, rewind: seq<nat>, c: nat, q: nat)
    requires Linked(kids, parents, rewind) && c < |kids| && parents[c].Some? && q < |kids|
    ensures var p := parents[c].value;
      kids[p := RemoveFirst(kids[p], c)][q] == ChildrenOf(RemoveFirst(rewind, c), parents[c := None], q)
  {
    var p := parents[c].value;
    ChildrenRemove(rewind, parents, parents[c := None], q, c);
    if q != p {
      ChildrenMembers(rewind, parents, q);
      assert c !in ChildrenOf(rewind, parents, q);
    }
  }

  /** The rank after folding `b` onto `t`: `t` and every block above it rises by `lift`. */
  ghost function Raise(kids: seq<seq<nat>>, height: seq<nat>, t: nat, lift: nat): (h: seq<nat>)
    requires Ranked(kids, height) && t < |kids|
    ensures |h| == |height|
  {
    seq(|height|, x requires 0 <= x < |height| =>
      if t in Sub(kids, height, x) then height[x] + lift else height[x])
  }

  /** Folding root `b` onto `t`, outside `b`'s tree, as one step: the links still agree, with `b`
      appended to the rewind list, the forest under the raised rank is still a forest, and `b`'s
      tree is unchanged and still avoids `t`. */
  lemma FoldRelinked(kids: seq<seq<nat>>, parents: seq<Option<nat>>, rewind: seq<nat>, height: seq<nat>, b: nat, t: nat,
                     k2: seq<seq<nat>>, par2: seq<Option<nat>>, h2: seq<nat>)
    requires Linked(kids, parents, rewind) && Ranked(kids, height)
    requires b < |kids| && t < |kids| && parents[b].None? && t !in Sub(kids, height, b)
    requires k2 == kids[t := kids[t] + [b]] && par2 == parents[b := Some(t)] && h2 == Raise(kids, height, t, height[b] + 1)
    ensures Linked(k2, par2, rewind + [b]) && Tree(k2, h2)
    ensures t !in Sub(k2, h2, b) && Sub(k2, h2, b) == Sub(kids, height, b)
  {
    LinkedTree(kids, parents, rewind, height);
    LinkedParent(kids, parents, rewind);
    FoldLinked(kids, parents, rewind, b, t);
    FoldRanked(kids, height, b, t);
    LinkedTree(k2, par2, rewind + [b], h2);
    SubUnaffected(kids, height, k2, h2, t, kids[t] + [b], b);
  }

  /** Unfolding `c` from its parent `p` as one step: the links still agree, with `c` gone from the
      rewind list, the forest is still a forest under the same rank, and `c`, now on nobody, keeps
      its tree, which avoids `p`. */
  lemma UnfoldRelinked(kids: seq<seq<nat>>, parents: seq<Option<nat>>, rewind: seq<nat>, height: seq<nat>, c: nat, p: nat,
                       k2: seq<seq<nat>>, par2: seq<Option<nat>>)
    requires Linked(kids, parents, rewind) && Ranked(kids, height) && c < |kids| && parents[c] == Some(p)
    requires k2 == kids[p := RemoveFirst(kids[p], c)] && par2 == parents[c := None]
    ensures p < |kids| && Linked(k2, par2, RemoveFirst(rewind, c)) && Tree(k2, height)
    ensures IsRoot(k2, c) && p !in Sub(k2, height, c) && Sub(k2, height, c) == Sub(kids, height, c)
  {
    LinkedTree(kids, parents, rewind, height);
    LinkedParent(kids, parents, rewind);
    ChildrenMembers(rewind, parents, p);
    assert c in ChildrenOf(rewind, parents, p);
    assert p !in Sub(kids, height, c);
    UnfoldLinked(kids, parents, rewind, c);
    UnfoldRanked(kids, height, p, c);
    LinkedTree(k2, par2, RemoveFirst(rewind, c), height);
    LinkedParent(k2, par2, RemoveFirst(rewind, c));
    SubUnaffected(kids, height, k2, height, p, RemoveFirst(kids[p], c), c);
  }

  /** Folding `b` onto a block outside its subtree keeps the hierarchy ranked, under the raised rank. */
  lemma FoldRanked(kids: seq<seq<nat>>, height: seq<nat>, b: nat, t: nat)
    requires Ranked(kids, height) && b < |kids| && t < |kids| && t !in Sub(kids, height, b)
    ensures Ranked(kids[t := kids[t] + [b]], Raise(kids, height, t, height[b] + 1))
  {
    var k2, h2 := kids[t := kids[t] + [b]], Raise(kids, height, t, height[b] + 1);
    forall p, i | 0 <= p < |k2| && 0 <= i < |k2[p]| ensures k2[p][i] < |k2| && h2[k2[p][i]] < h2[p] {
      if p == t && i == |kids[t]| {
        assert k2[p][i] == b;
      } else {
        var c := kids[p][i];
        assert k2[p][i] == c;
        if t in Sub(kids, height, c) {
          SubTrans(kids, height, p, c);
        }
      }
    }
  }

  /** Dropping an entry of a child list keeps the hierarchy ranked. */
  lemma UnfoldRanked(kids: seq<seq<nat>>, height: seq<nat>, p: nat, c: nat)
    requires Ranked(kids, height) && p < |kids|
    ensures Ranked(kids[p := RemoveFirst(kids[p], c)], height)
  {
    var r := RemoveFirst(kids[p], c);
    RemoveFirstMembers(kids[p], c);
    forall a | 0 <= a < |r| ensures r[a] < |kids| && height[r[a]] < height[p] {
      assert r[a] in kids[p];
    }
  }

  /** A child's subtree lies inside its parent's. */
  lemma ChildSub(kids: seq<seq<nat>>, height: seq<nat>, x: nat, i: nat)
    requires Ranked(kids, height) && x < |kids| && i < |kids[x]|
    ensures kids[x][i] in Sub(kids, height, x)
    ensures Sub(kids, height, kids[x][i]) <= Sub(kids, height, x)
  {
    assert kids[x][i] in Sub(kids, height, kids[x][i]);
    SubTrans(kids, height, x, kids[x][i]);
  }

  /** Two hierarchies with the same subtrees at the listed blocks cover the same blocks. */
  lemma CoverSame(k1: seq<seq<nat>>, h1: seq<nat>, k2: seq<seq<nat>>, h2: seq<nat>, cs: seq<nat>)
    requires Ranked(k1, h1) && Ranked(k2, h2)
    requires forall i :: 0 <= i < |cs| ==> cs[i] < |k1| && cs[i] < |k2| && Sub(k1, h1, cs[i]) == Sub(k2, h2, cs[i])
    ensures Cover(k1, h1, cs) == Cover(k2, h2, cs)
  {
  }

  /** Rewriting the children list of `t` (a fold onto `t`, an unfold from it) leaves every subtree that
      does not contain `t` as it was. */
  lemma {:induction false} SubUnaffected(kids: seq<seq<nat>>, height: seq<nat>, k2: seq<seq<nat>>, h2: seq<nat>, t: nat, ns: seq<nat>, x: nat)
    requires Ranked(kids, height) && t < |kids| && k2 == kids[t := ns] && Ranked(k2, h2)
    requires x < |kids| && t !in Sub(kids, height, x)
    ensures Sub(k2, h2, x) == Sub(kids, height, x)
    decreases height[x]
  {
    assert k2[x] == kids[x];
    forall i | 0 <= i < |kids[x]| ensures Sub(k2, h2, kids[x][i]) == Sub(kids, height, kids[x][i]) {
      ChildSub(kids, height, x, i);
      SubUnaffected(kids, height, k2, h2, t, ns, kids[x][i]);
    }
    CoverSame(kids, height, k2, h2, kids[x]);
    SubSplit(kids, height, x);
    SubSplit(k2, h2, x);
  }

  /** After folding `b` onto `t`, the target's subtree gains `b`'s subtree. */
  lemma FoldSubTarget(kids: seq<seq<nat>>, height: seq<nat>, k2: seq<seq<nat>>, h2: seq<nat>, b: nat, t: nat)
    requires Ranked(kids, height) && b < |kids| && t < |kids| && t !in Sub(kids, height, b)
    requires k2 == kids[t := kids[t] + [b]] && Ranked(k2, h2)
    ensures Sub(k2, h2, t) == Sub(kids, height, t) + Sub(kids, height, b)
  {
    SubUnaffected(kids, height, k2, h2, t, kids[t] + [b], b);
    forall i | 0 <= i < |kids[t]| ensures Sub(k2, h2, kids[t][i]) == Sub(kids, height, kids[t][i]) {
      ChildSub(kids, height, t, i);
      assert t !in Sub(kids, height, kids[t][i]);
      SubUnaffected(kids, height, k2, h2, t, kids[t] + [b], kids[t][i]);
    }
    CoverSame(kids, height, k2, h2, kids[t]);
    CoverSnoc(k2, h2, kids[t], b);
    SubSplit(kids, height, t);
    SubSplit(k2, h2, t);
  }

  /** After folding `b` onto `t`, the subtree of every block that held `t` gains `b`'s subtree;
      every other subtree stays as it was. */
  lemma {:induction false} FoldSub(kids: seq<seq<nat>>, height: seq<nat>, k2: seq<seq<nat>>, h2: seq<nat>, b: nat, t: nat, x: nat)
    requires Ranked(kids, height) && b < |kids| && t < |kids| && t !in Sub(kids, height, b)
    requires k2 == kids[t := kids[t] + [b]] && Ranked(k2, h2) && x < |kids|
    ensures Sub(k2, h2, x) == Sub(kids, height, x) + (if t in Sub(kids, height, x) then Sub(kids, height, b) else {})
    decreases height[x]
  {
    if t !in Sub(kids, height, x) {
      SubUnaffected(kids, height, k2, h2, t, kids[t] + [b], x);
    } else if x == t {
      FoldSubTarget(kids, height, k2, h2, b, t);
    } else {
      assert k2[x] == kids[x];
      forall i | 0 <= i < |kids[x]|
        ensures Sub(k2, h2, kids[x][i]) ==
          Sub(kids, height, kids[x][i]) + (if t in Sub(kids, height, kids[x][i]) then Sub(kids, height, b) else {})
      {
        ChildSub(kids, height, x, i);
        FoldSub(kids, height, k2, h2, b, t, kids[x][i]);
      }
      FoldSubAbove(kids, height, k2, h2, b, t, x);
    }
  }

  /** One step of `FoldSub` for a block strictly above the target, from the claim for its children. */
  lemma FoldSubAbove(kids: seq<seq<nat>>, height: seq<nat>, k2: seq<seq<nat>>, h2: seq<nat>, b: nat, t: nat, x: nat)
    requires Ranked(kids, height) && b < |kids| && t < |kids|
    requires k2 == kids[t := kids[t] + [b]] && Ranked(k2, h2) && x < |kids| && x != t
    requires t in Sub(kids, height, x)
    requires forall i :: 0 <= i < |kids[x]| ==>
      Sub(k2, h2, kids[x][i]) == Sub(kids, height, kids[x][i]) + (if t in Sub(kids, height, kids[x][i]) then Sub(kids, height, b) else {})
    ensures Sub(k2, h2, x) == Sub(kids, height, x) + Sub(kids, height, b)
  {
    assert k2[x] == kids[x];
    SubSplit(kids, height, x);
    SubSplit(k2, h2, x);
    CoverGrow(kids, height, k2, h2, kids[x], Sub(kids, height, b), t);
    UnionAssoc({x}, Strict(kids, height, x), Sub(kids, height, b));
  }

  lemma UnionAssoc(a: set<nat>, b: set<nat>, c: set<nat>)
    ensures a + (b + c) == (a + b) + c
  {
  }

  /** If each listed subtree grows by `extra` exactly when it holds `t`, and one of them holds `t`,
      then what they cover grows by `extra`. */
  lemma CoverGrow(kids: seq<seq<nat>>, height: seq<nat>, k2: seq<seq<nat>>, h2: seq<nat>, cs: seq<nat>, extra: set<nat>, t: nat)
    requires Ranked(kids, height) && Ranked(k2, h2)
    requires forall i :: 0 <= i < |cs| ==> cs[i] < |kids| && cs[i] < |k2|
    requires forall i :: 0 <= i < |cs| ==>
      Sub(k2, h2, cs[i]) == Sub(kids, height, cs[i]) + (if t in Sub(kids, height, cs[i]) then extra else {})
    requires t in Cover(kids, height, cs)
    ensures Cover(k2, h2, cs) == Cover(kids, height, cs) + extra
  {
    CoverGrowUp(kids, height, k2, h2, cs, extra, t);
    CoverGrowDown(kids, height, k2, h2, cs, extra, t);
    Antisymmetric(Cover(k2, h2, cs), Cover(kids, height, cs) + extra);
  }

  /** The first half of `CoverGrow`: nothing covered before, and nothing of `extra`, is lost. */
  lemma CoverGrowUp(kids: seq<seq<nat>>, height: seq<nat>, k2: seq<seq<nat>>, h2: seq<nat>, cs: seq<nat>, extra: set<nat>, t: nat)
    requires Ranked(kids, height) && Ranked(k2, h2)
    requires forall i :: 0 <= i < |cs| ==> cs[i] < |kids| && cs[i] < |k2|
    requires forall i :: 0 <= i < |cs| ==>
      Sub(k2, h2, cs[i]) == Sub(kids, height, cs[i]) + (if t in Sub(kids, height, cs[i]) then extra else {})
    requires t in Cover(kids, height, cs)
    ensures Cover(kids, height, cs) + extra <= Cover(k2, h2, cs)
  {
    var i0 :| 0 <= i0 < |cs| && t in Sub(kids, height, cs[i0]);
    forall y | y in Cover(kids, height, cs) + extra ensures y in Cover(k2, h2, cs) {
      if y in extra {
        assert y in Sub(k2, h2, cs[i0]);
      } else {
        var i :| 0 <= i < |cs| && y in Sub(kids, height, cs[i]);
        assert y in Sub(k2, h2, cs[i]);
      }
    }
  }

  /** The second half of `CoverGrow`: nothing but `extra` is gained. */
  lemma CoverGrowDown(kids: seq<seq<nat>>, height: seq<nat>, k2: seq<seq<nat>>, h2: seq<nat>, cs: seq<nat>, extra: set<nat>, t: nat)
    requires Ranked(kids, height) && Ranked(k2, h2)
    requires forall i :: 0 <= i < |cs| ==> cs[i] < |kids| && cs[i] < |k2|
    requires forall i :: 0 <= i < |cs| ==>
      Sub(k2, h2, cs[i]) == Sub(kids, height, cs[i]) + (if t in Sub(kids, height, cs[i]) then extra else {})
    ensures Cover(k2, h2, cs) <= Cover(kids, height, cs) + extra
  {
    forall y | y in Cover(k2, h2, cs) ensures y in Cover(kids, height, cs) + extra {
      var i :| 0 <= i < |cs| && y in Sub(k2, h2, cs[i]);
    }
  }

  /** Two sets that include each other are equal. */
  lemma Antisymmetric(a: set<nat>, b: set<nat>)
    requires a <= b && b <= a
    ensures a == b
  {
  }
}
