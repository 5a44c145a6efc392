# Fold puzzle level, modelled in Dafny

The core of a Unity puzzle is modelled here. In the puzzle, square blocks stand on an integer
(x, z) grid.

- **Fold.** Swiping a block towards its only neighbour folds it over. The block turns 180 degrees
  about the shared edge, carrying everything already stacked on it. It lands on the neighbour and
  becomes that block's last child.
- **Unfold.** Swiping a block towards the side its last child came from unfolds that child back to
  its initial cell.
- **Layers.** After each fold or unfold, recursive walks over the children lists rewrite every
  block's layer, its place in the stack. The block folded last is at layer 0. The bottom block of
  a stack holds the highest layer.
- **Rewind.** Every fold is recorded in a rewind list. A full rewind unfolds the recorded blocks
  again, newest first. It stops early when the parent of the newest block has nothing to bring
  back.
- **Win check.** After every fold or unfold the level checks each block against its
  `WinningParams` (allowed layers and allowed cells). When all pass, the level reports the
  completion and disables itself.

The modules follow the source files:

| module | file | models |
|---|---|---|
| `Winning` | `winning_params.dfy` | `WinningParams.cs`: the win constraints and `Position` |
| `Blocks` | `block_script.dfy` | `BlockScript.cs`: a `Block` class with the fields its methods update in place |
| `Grid` | `grid.dfy` | the grid queries of `LevelController.cs` and the turn geometry of `BlockScript.cs` |
| `Level` | `level_controller.dfy` | `LevelController.cs`: a `LevelController` class over the blocks |

`LevelController` methods change the blocks in place. Each method states the new state in terms of
a few specification functions:

- `Layers.FoldLayers` and `Layers.UnfoldLayers`, in `layers.dfy`, give the combined effect of the
  layer walks.
- `Board.Place` and `Board.Apply`, in `board.dfy`, say where a turn carries a stack.
- `Forest.Linked`, `Forest.Sub` and `Forest.Strict`, in `forest.dfy`, describe the fold hierarchy
  and how it agrees with the rewind list.
- `Level.UnfoldStep` is one rewind step on the level's lists: links, cells, layers and collider of
  the block unfolded from its parent. `Level.Rewinding` applies it once per entry a rewind has
  removed, newest first, and the rewind methods state their final lists through it.

Lemmas in those files prove what the rewrites preserve. `walks.dfy` holds the loop-step lemmas of
the walks, and `seqs.dfy` holds list helpers (`List.Remove`, `IndexOf`). Blocks are named by their
index in the level's block list, so `List.Find` over the block list is "least index".

The level's invariant `LevelController.Valid` holds throughout. It says:

- parent links, children lists and the rewind list agree;
- they form a forest;
- every block stands on its parent's cell, or on its initial cell when it is on nobody;
- exactly the blocks on nobody have their collider on;
- the block under the finger is on nobody;
- a waiting callback still makes sense.

Three properties of the layer rewrites are proved:

- A fold of one stack onto another keeps the layers of the joined stack a permutation of
  0 .. size - 1, with the bottom block holding the highest (`Layers.FoldKeepsStacked`).
- A fold changes no layer outside the target's new stack (`Layers.FoldLocality`).
- An unfold does not always undo a fold (`Layers.FoldUnfoldRoundTrip`).
  `SetBlockParentChildrenLayerAfterUnfold` lowers only the parent's direct children. It turns the
  blocks stacked on them over (layer l becomes d - l) instead of lowering them. So folding a block
  onto a target and unfolding it straight back restores every layer exactly when two things hold:
  the folded block sat at its own descendant count, and every other child of the target is a leaf.

A swipe that is not one of the four directions marks the level busy and starts nothing. The source
does the same, and `LevelController.OnSwipe` states it.

## Model

| member | source | states |
|---|---|---|
| Winning.DefaultAdmitsAll | Assets/Scripts/WinningParams.cs:10-13 | a component whose two lists are left empty admits every block, whatever its layer and cell |
| Winning.AdmitsDependsOnMembersOnly | Assets/Scripts/LevelController.cs:379-395 | the per-block win test depends only on which layers and cells are listed, not on order or repetition |
| Winning.CellListed | Assets/Scripts/LevelController.cs:390 | the `Exists` comparison of x and z is exactly membership of the block's cell in the list |
| Grid.NeighbourGeometry | Assets/Scripts/LevelController.cs:176-191 | the cell one step in a direction differs from the cell, stepping back the opposite way returns, and different directions give different cells |
| Grid.MirrorLandsOnNeighbour | Assets/Scripts/BlockScript.cs:117-145 | the 180 degree turn about the pivot on the swipe side lands the block on the neighbouring cell, and two such turns restore every cell |
| Grid.FirstAt | Assets/Scripts/LevelController.cs:178 | `List.Find` by cell: the least index standing on the cell, and none exactly when no block stands there |
| Grid.FindBlockParentToFolddInto | Assets/Scripts/LevelController.cs:171-192 | the fold target is the first block on the neighbouring cell in the swipe direction, never the swiped block, and exists exactly when that cell is occupied |
| Grid.CheckHasMaxOneNeighbor | Assets/Scripts/LevelController.cs:223-241 | true exactly when at most one of the four neighbouring cells is occupied |
| Grid.ProbesFound | Assets/Scripts/LevelController.cs:226-233 | counting the non-null probes: at most one exactly when no two directions lead to occupied cells |
| Grid.FoldTargetIsOnlyNeighbour | Assets/Scripts/LevelController.cs:79-80 | when a fold is allowed, the three other neighbouring cells are empty |
| Grid.Find | Assets/Scripts/LevelController.cs:205 | `List.Find` over the children: the result is the first child that passes the test, and none exactly when no child passes |
| Grid.FindBlockChildToUnfoldToDirection | Assets/Scripts/LevelController.cs:194-220 | the unfold candidate is the last child or nothing; it is the last child exactly when that child's initial cell is one off on the swipe axis and its first index is the last slot |
| Grid.UnfoldCandidateOfDistinct | Assets/Scripts/LevelController.cs:205-217 | without repeated children the index test always passes, leaving only the coordinate test on the last child |
| Grid.FirstBlockToRewind | Assets/Scripts/LevelController.cs:457-500 | directions are tried right, left, up, down; the result is the first one's candidate, every earlier direction has none, and none with direction Right exactly when no direction has one |
| Blocks.Block.constructor | Assets/Scripts/BlockScript.cs:89-94 | after `Awake` the initial cell is the current cell and the layer is 0, whatever was serialized |
| Blocks.Block.AddBlockChild | Assets/Scripts/BlockScript.cs:31-34 | the child is appended, so children stay in fold order |
| Blocks.Block.RemoveBlockChild | Assets/Scripts/BlockScript.cs:35-38 | the first occurrence is removed and the rest keep their order; a non-child changes nothing |
| Blocks.Block.Setlayer | Assets/Scripts/BlockScript.cs:51-54 | the layer becomes the given value |
| Blocks.Block.SetParent | Assets/Scripts/BlockScript.cs:55-58 | the parent becomes the given block or none |
| Blocks.Block.SetInitialPosition | Assets/Scripts/BlockScript.cs:63-66 | the initial cell becomes the given cell |
| Blocks.Block.SetColliderState | Assets/Scripts/BlockScript.cs:71-74 | the collider flag becomes the given value |
| Blocks.Block.SetPosition | Assets/Scripts/BlockScript.cs:84-87 | the cell becomes the tween's destination |
| Forest.ChildrenMembers | Assets/Scripts/LevelController.cs:248-255 | the children of a block are exactly the blocks in the rewind list whose parent it is |
| Forest.LinkedParent | Assets/Scripts/BlockScript.cs:20-29 | when the links agree with the rewind list, every listed child names its parent, and a block has no parent exactly when it is no block's child |
| Forest.LinkedTree | Assets/Scripts/BlockScript.cs:20-29 | agreeing links under a rank that falls along them form a forest: every block fills at most one child slot |
| Forest.TailIsLastChild | Assets/Scripts/LevelController.cs:424 | the newest entry of the rewind list has a parent and is that parent's last child |
| Forest.LastChildParent | Assets/Scripts/LevelController.cs:263-267 | the last child of a block names that block as its parent |
| Forest.FoldLinked | Assets/Scripts/LevelController.cs:248-255 | the fold's `SetParent`, `AddBlockChild` and `blocksToRewind.Add` keep links and rewind list in agreement |
| Forest.UnfoldLinked | Assets/Scripts/LevelController.cs:265-272 | the unfold's `SetParent(null)`, `RemoveBlockChild` and `blocksToRewind.Remove` keep links and rewind list in agreement |
| Forest.FoldRelinked | Assets/Scripts/LevelController.cs:248-250 | after folding a root onto a block outside its stack, links agree with the extended rewind list, the hierarchy is still a forest, and the folded stack is unchanged |
| Forest.UnfoldRelinked | Assets/Scripts/LevelController.cs:265-267 | after an unfold, links agree with the rewind list without the block, the hierarchy is a forest, and the unfolded block is a root with its stack intact |
| Forest.StrictSplit | Assets/Scripts/LevelController.cs:346-353 | a block's descendants split into its direct children and the blocks below them |
| Board.StackOnOneCell | Assets/Scripts/LevelController.cs:249 | every block of a stack stands on its bottom block's cell |
| Board.FoldLands | Assets/Scripts/BlockScript.cs:106-153 | the turn carries the whole folded stack onto the target's cell, the target is outside that stack, and all blocks are placed for the new link |
| Board.UnfoldLands | Assets/Scripts/BlockScript.cs:156-209 | the turn and the move to the initial cell carry the whole unfolded stack there, and all blocks are placed for the broken link |
| Board.FoldKeepsPlaced | Assets/Scripts/LevelController.cs:246-250 | after the fold roots stand on their initial cells and folded blocks on their parent's cell |
| Board.UnfoldKeepsPlaced | Assets/Scripts/LevelController.cs:263-267 | after the unfold roots stand on their initial cells and folded blocks on their parent's cell |
| Layers.FoldLayersBefore | Assets/Scripts/LevelController.cs:277-338 | the fold's rewrite: the target and its old descendants rise by d + 1, the folded block goes to 0, its descendants turn over (d - l), and nothing else changes |
| Layers.FoldKeepsStacked | Assets/Scripts/LevelController.cs:277-338 | folding one stack onto another keeps the joined stack's layers a permutation of 0 .. size - 1, with the bottom block holding the highest |
| Layers.FoldLocality | Assets/Scripts/LevelController.cs:277-338 | a fold changes no layer outside the target's new stack |
| Layers.FoldKeepsAncestors | Assets/Scripts/LevelController.cs:280-323 | a fold leaves the layer of every block that the target is itself folded onto |
| Layers.FoldUnfoldRoundTrip | Assets/Scripts/LevelController.cs:277-371 | fold then unfold restores every layer exactly when the folded block sat at its descendant count and the target's other children are leaves |
| Level.Unfolded | Assets/Scripts/BlockScript.cs:89-94 | a level of awake, unfolded blocks is sound with an empty rewind list, and exactly its roots have colliders on |
| Level.RootsAfterFold | Assets/Scripts/LevelController.cs:248-253 | turning the folded block's collider off keeps colliders on exactly the blocks on nobody |
| Level.RootsAfterUnfold | Assets/Scripts/LevelController.cs:265-270 | turning the unfolded block's collider on keeps colliders on exactly the blocks on nobody |
| Level.OnRootAfterUnfold | Assets/Scripts/LevelController.cs:442-454 | a rewind step, which leaves `blockHit` alone, keeps it on a block on nobody |
| Level.OnNobodyAfterUnfold | Assets/Scripts/LevelController.cs:422-447 | each rewind step puts one more entry of the original list back on nobody and drops it from the list |
| Level.RewindPicksTail | Assets/Scripts/LevelController.cs:424-428 | `FirstBlockToRewind` on the newest entry's parent picks that very entry or nothing, and nothing exactly when the rewind is stuck |
| Level.LevelController.constructor | Assets/Scripts/LevelController.cs:17-37 | the level starts valid: nothing hit, not swiping, not busy, listening, empty rewind list |
| Level.LevelController.OnSwipeStart | Assets/Scripts/LevelController.cs:48-61 | ignored while swiping or busy; a hit sets `blockHit` to the block, or to none for a non-block object; a miss keeps it |
| Level.LevelController.OnSwipe | Assets/Scripts/LevelController.cs:63-162 | ignored without a hit or while swiping or busy; otherwise swiping and busy with the fold onto the only neighbour, else the unfold of the matching last child, else not busy; a non-directional swipe leaves it busy; no block changes |
| Level.LevelController.Begin | Assets/Scripts/LevelController.cs:75-76 | the level becomes swiping with the given busy flag and waiting callback, still valid |
| Level.LevelController.OnSwipeEnd | Assets/Scripts/LevelController.cs:164-168 | the level is no longer swiping |
| Level.LevelController.MoveStack | Assets/Scripts/BlockScript.cs:143-149 | a tween on a block's transform moves the block and every block stacked on it by the same motion, and nothing else |
| Level.LevelController.GetBlockChildrensCount | Assets/Scripts/LevelController.cs:295-308 | the count is the number of blocks stacked on the block, directly or not |
| Level.LevelController.SetParentChildrenLayerAfterFold | Assets/Scripts/LevelController.cs:310-325 | every block stacked on the given block rises by d + 1, except the folded block and the blocks on it |
| Level.LevelController.RaiseChild | Assets/Scripts/LevelController.cs:316-324 | one pass of that loop: the child, unless it is the folded block, rises with the blocks above it |
| Level.LevelController.SetBlockChildrenLayerAfterFold | Assets/Scripts/LevelController.cs:327-338 | every block stacked on the given block turns over, layer l becoming d - l (also `SetBlockChildChildrenLayerAfterUnfold`, 360-371) |
| Level.LevelController.SetBlockParentChildrenLayerAfterUnfold | Assets/Scripts/LevelController.cs:340-358 | every other child of the parent sinks by d + 1 and the blocks stacked on it turn over |
| Level.LevelController.SetLayersAfterFold | Assets/Scripts/LevelController.cs:277-284 | the layers become `FoldLayers` of the old layers; nothing else changes |
| Level.LevelController.SetLayersAfterUnfold | Assets/Scripts/LevelController.cs:286-293 | the layers become `UnfoldLayers` of the old layers; nothing else changes |
| Level.LevelController.CheckWin | Assets/Scripts/LevelController.cs:373-400 | when every block passes its `WinningParams` check, one completion is reported and the level is disabled; otherwise nothing changes |
| Level.LevelController.FoldCompleted | Assets/Scripts/LevelController.cs:242-259 | the folded stack lands on the target's cell and the block becomes the target's last child; layers become `FoldLayers`; its collider goes off; the level is not busy, nothing is hit, the block joins the rewind list; the win is checked; the level stays valid |
| Level.LevelController.FinishFold | Assets/Scripts/LevelController.cs:248-253 | the block steps of the fold callback, keeping links, forest, placement and colliders consistent with the rewind list extended by the block |
| Level.LevelController.FoldMove | Assets/Scripts/BlockScript.cs:106-153 | the turn and the links: the stack lands on the target's cell and the block becomes its last child |
| Level.LevelController.FoldTurn | Assets/Scripts/BlockScript.cs:106-153 | the turn over the swipe-side edge carries the whole stack rigidly onto the target's cell |
| Level.LevelController.FoldLink | Assets/Scripts/LevelController.cs:248-250 | the block gets the target as parent and becomes its last child, keeping the hierarchy a forest |
| Level.LevelController.Settle | Assets/Scripts/LevelController.cs:252-255 | the callback's bookkeeping: not busy, nothing hit, no waiting callback, the new rewind list; the level is valid |
| Level.LevelController.FinishUnfold | Assets/Scripts/LevelController.cs:265-270 | the block steps of the unfold callback, keeping links, forest, placement and colliders consistent with the rewind list without the block |
| Level.LevelController.UnfoldMove | Assets/Scripts/BlockScript.cs:156-209 | the turn, the move back and the unlinks: the stack lands on the block's initial cell and the block leaves its parent |
| Level.LevelController.UnfoldTurn | Assets/Scripts/BlockScript.cs:192-201 | the turn and the move to the initial cell carry the whole stack rigidly there |
| Level.LevelController.UnfoldLink | Assets/Scripts/LevelController.cs:265-267 | the block loses its parent and leaves the parent's children, becoming a root with its stack intact |
| Level.LevelController.UnfoldCompleted | Assets/Scripts/LevelController.cs:261-275 | the unfolded stack returns to the block's initial cell, the block leaves its parent, layers become `UnfoldLayers`, its collider goes on; not busy, nothing hit, the block leaves the rewind list wherever it is; the win is checked; the level stays valid |
| Level.LevelController.OnFullRewind | Assets/Scripts/LevelController.cs:402-416 | ignored while busy or with an empty rewind list; otherwise the rewind runs; the list only ever loses entries from its end; the blocks end as `Rewinding` leaves them, and a rewind that empties the list leaves every block on nobody at its initial cell |
| Level.LevelController.IEOnFullRewind | Assets/Scripts/LevelController.cs:418-440 | busy during the loop and not after; the list shrinks from the end, every removed entry is back on nobody, it ends empty or stuck, the blocks' links, cells, layers and colliders are those of `Rewinding` over the removed entries, and an emptied list leaves every block on nobody at its initial cell |
| Level.LevelController.RewindSteps | Assets/Scripts/LevelController.cs:422-437 | the loop, stopping at the first stuck step: the list keeps a prefix of itself, the removed entries are on nobody, it ends empty or stuck, and the blocks are as `Rewinding` leaves them |
| Level.LevelController.TrackedRewindStep | Assets/Scripts/LevelController.cs:424-435 | one pass seen from the start of the loop: the blocks are as `Rewinding` over the removed entries leaves them, before the pass and after it |
| Level.LevelController.RewindStep | Assets/Scripts/LevelController.cs:424-435 | one pass: stuck exactly when `FirstBlockToRewind` finds nothing, and then nothing changes; otherwise the newest entry is unfolded from its parent as `UnfoldStep` states (links, cells, `UnfoldLayers`, collider) and dropped |
| Level.AllUnfolded | Assets/Scripts/LevelController.cs:418-440 | with nothing left to rewind, every block is on nobody, has nothing folded onto it and stands on its initial cell |
| Level.LevelController.NextToRewind | Assets/Scripts/LevelController.cs:424 | `FirstBlockToRewind` on the newest entry's parent returns that entry, or nothing exactly when the rewind is stuck |
| Level.LevelController.SetBusy | Assets/Scripts/LevelController.cs:421 | only `isBusy` changes |
| Level.LevelController.ReversBlock | Assets/Scripts/LevelController.cs:442-454 | the newest entry is unfolded from its parent as by the unfold callback (the lists become `UnfoldStep` of the old ones), and the list loses its last entry; `blockHit` and the busy flag are untouched |
| Level.LevelController.Rewound | Assets/Scripts/LevelController.cs:447 | only the rewind list changes, and the level stays valid |

## Left out

- Time and coroutines. Each tween, with its `WaitForCompletion` and `WaitUntil`, is modelled as
  happening at once when its callback runs. `IEOnFullRewind` waits `rotationDuration` after each
  step (LevelController.cs:429), but the unfold's callback runs only after the turn of
  `rotationDuration`, a 0.2 second move and a `WaitUntil` (BlockScript.cs:194-202), so the wait can
  end before the previous step's callback has run. The model assumes each step's callback has run
  before the next step looks at the rewind list, which the source does not guarantee; the race
  between the two is not modelled.
- Transforms and floats. Positions are integer (x, z) cells. The height axis y is dropped, along
  with the lift of `count * 0.05` at the start of `IEFold` and the fold's `count` argument, which
  feeds only that lift. The pivot objects and rotations are modelled as the rigid motion they
  have on cells (`Grid.Mirror`).
- The scene graph. `transform.SetParent` is not modelled as a separate tree: a moving block
  carries the blocks in its children lists (`LevelController.MoveStack`).
- `GameManager`. `LevelCompleted` is modelled as the `completions` counter. The level transform
  is not modelled. The rewind event arrives as a call to `OnFullRewind`.
- Input. The raycast is a `Ray` parameter (miss, non-block object, block). A block can only be hit
  with its collider on. The EasyTouch gesture is a `SwipeType` parameter. `OnEnable` and
  `OnDisable` are the `enabled` flag, which the handlers require and `CheckWin` clears.
- `Debug.Log` calls.
- Order of the callback statements. These orderings differ from the source:
  - `isBusy` is cleared after the collider change rather than before it. Nothing in between
    reads `isBusy`.
  - `ReversBlock` removes the rewind list's last entry after the block steps rather than before
    them. Nothing in between reads the list.
  - `OnSwipe` sets `isBusy` once, to its final value, instead of setting it and clearing it
    again.
  - The `break` out of the rewind loop is a flag.
- The serialized `blockLayer`. `Awake` overwrites it with 0, so the constructor accepts and drops
  it.
- Null checks. `GetBlockChildren() == null` and `blocksToRewind == null` never hold, because the
  lists are created with the object. A `null` in the block list is not modelled.
- The rank `height`. It is a ghost field, present only so the recursive walks terminate.
- `GetPosX` and `GetPosZ` (BlockScript.cs:75-82) read the cell. `Fold` and `Unfold`
  (BlockScript.cs:96-104) start the tweens. Neither has a member of its own.
