/** The per-block win constraints (WinningParams.cs) and the integer grid cell they speak of. */
module Winning {

  /** A grid cell. Unity keeps positions as float vectors; the board is an integer (x, z) grid and the
      height axis y plays no part in any rule, so it is dropped. */
  datatype Position = Position(x: int, z: int)

  /** The serialized component attached to a block. Both lists default to empty and are never
      changed after the level is loaded; an empty list places no constraint. */
  datatype WinningParams = WinningParams(winningPositions: seq<Position>, winningLayers: seq<int>)
  {
    /** The check the level applies to one block: its layer must occur in a non-empty
        `winningLayers`, and its cell must occur in a non-empty `winningPositions`. */
    predicate Admits(layer: int, pos: Position)
    {
      (|winningLayers| == 0 || layer in winningLayers) &&
      (|winningPositions| == 0 || exists i :: 0 <= i < |winningPositions| &&
                                    winningPositions[i].x == pos.x && winningPositions[i].z == pos.z)
    }
  }

  /** The component as a freshly added one: both lists empty. */
  const Default := WinningParams([], [])

  /** A component with both lists empty (the default) admits every block, whatever its layer and cell. */
  lemma DefaultAdmitsAll(layer: int, pos: Position)
    ensures Default.Admits(layer, pos)
  {
  }

  /** Only membership matters: two components whose lists hold the same elements, in any order and
      with any repetitions, admit exactly the same blocks. */
  lemma {:induction false} AdmitsDependsOnMembersOnly(w1: WinningParams, w2: WinningParams, layer: int, pos: Position)
    requires forall l :: l in w1.winningLayers <==> l in w2.winningLayers
    requires forall p :: p in w1.winningPositions <==> p in w2.winningPositions
    ensures w1.Admits(layer, pos) <==> w2.Admits(layer, pos)
  {
    assert forall l :: l in w1.winningLayers <==> l in w2.winningLayers;
    SameMembersSameEmptiness(w1.winningLayers, w2.winningLayers);
    SameMembersSameEmptiness(w1.winningPositions, w2.winningPositions);
    CellListed(w1.winningPositions, pos);
    CellListed(w2.winningPositions, pos);
  }

  /** Two lists with the same members are both empty or both non-empty. */
  lemma SameMembersSameEmptiness<T>(s: seq<T>, t: seq<T>)
    requires forall e :: e in s <==> e in t
    ensures |s| == 0 <==> |t| == 0
  {
    if |s| != 0 {
      assert s[0] in t;
    }
    if |t| != 0 {
      assert t[0] in s;
    }
  }

  /** Comparing a cell field by field against the list is a membership test for the cell. */
  lemma CellListed(s: seq<Position>, pos: Position)
    ensures (exists i :: 0 <= i < |s| && s[i].x == pos.x && s[i].z == pos.z) <==> pos in s
  {
    if pos in s {
      var i :| 0 <= i < |s| && s[i] == pos;
      assert s[i].x == pos.x && s[i].z == pos.z;
    }
  }
}
