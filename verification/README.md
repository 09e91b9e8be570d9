# Verified models of four algorithmic cores

The repository is a collection of animated explanations of puzzles and
algorithms. Among its animation scripts sit four pieces of plain
algorithmic logic. This project models each of them in Dafny and proves what
each one computes.

- **Wang tiles on a bathroom wall** (`tiles.dfy`, module `Tiles`; the
  `divby3` example in `tile_examples.dfy`, module `TileExamples`).
  - A tile has four side colours, listed in the order right, up, left, down.
  - A wall has a colour on its right, left and bottom sides. On top it has
    one input character per column.
  - `find_tiling` tries the heights 1 to `max_height` in turn. For each one
    it builds a grid whose border ring holds one-sided sentinel tiles.
  - It then fills the inner cells row by row with a first-fit backtracking
    search that writes and clears grid cells in place.
  - The model proves the search sound and complete against a declarative
    `ValidTiling` predicate. It proves that the grid is restored when the
    search fails, and that `find_tiling` returns the least height that
    admits a tiling.
  - For the `divby3` example, it proves that a height-1 tiling exists
    exactly when the number of `1`s in the input is a multiple of three.
- **Catalan binary trees** (`catalan.dfy`, module `Catalan`).
  - `_generate_parentheses` enumerates every binary-tree shape with n nodes
    as nested pairs.
  - `_populate` names the vertices: the root is `""` and a child appends `l`
    or `r`. Placeholders containing `B` are added and later removed.
  - The model also covers:
    - the search for vertices without two children;
    - the star-name helpers;
    - the count of stars attached to a drawn tree;
    - the breadth-first collection of a vertex's descendants.
  - Proved:
    - every shape of size n appears exactly once, ordered by the size of the
      left subtree;
    - the enumeration has Catalan(n) elements;
    - the naming gives one distinct vertex per node, and the edges join each
      parent to its `l`/`r` child;
    - a tree with n nodes gets n + 1 stars.
- **Theseus and the minotaur** (`minotaur.dfy`, module `Minotaur`).
  - Theseus steps right, down, left or up onto open cells. The minotaur then
    makes two greedy unit steps towards him, horizontal first.
  - A breadth-first search over (Theseus, minotaur) states keeps a parent
    map and rebuilds the escape path.
  - Proved:
    - a returned path starts at the start, ends in a stop state and is made
      of game moves;
    - no path is returned only when no reachable state satisfies the stop
      condition.
  - The scan that finds the `T`, `E` and `M` marks is modelled too.
- **The robot factory** (`robots.dfy`, module `Robots`).
  - Each turn at most one robot is built. Building one is only allowed when
    it is wanted and affordable.
  - A breadth-first search from one ore robot prunes the states whose
    optimistic geode bound (`can_be_best`) cannot beat the best count found
    so far.
  - Proved:
    - the successor rules and the blueprint parsing;
    - the bound really is an upper bound, so pruning is sound;
    - the search's best count is the largest geode count of any state
      reachable within `depth` turns.

Two shared modules provide `Option` (`wrappers.dfy`, module `Wrappers`) and
Python's `str`/`int` on integers (`numerals.dfy`, module `Numerals`).

Where the docstring of `_generate_parentheses` and its code disagree, the
model follows the code. The docstring lists the two shapes for n = 2 with
the left-heavy one first (`11-catalan/utilities.py:154`). The loop puts
`[None, [None, None]]` first, because left-subtree size 0 comes first
(`Catalan.SmallShapes`).

## Model

| member | source | states |
|---|---|---|
| Tiles.ItemByDirection | 09-bathroom-tiles/scenes.py:32-35 | the item returned is the one at the position of the direction in the list right, up, left, down |
| Tiles.MakeTile | 09-bathroom-tiles/scenes.py:105-115 | a tile built from four colours lists exactly those colours; asking for the colour in direction k of the list gives colour k |
| Tiles.IsHexColorChars | 09-bathroom-tiles/scenes.py:19-25 | a colour is drawn as a hex colour iff it has 7 characters, starts with `#` and the other six are hexadecimal digits of either case |
| Tiles.ToPositiveCoordinates | 09-bathroom-tiles/scenes.py:337-339 | the result is (x mod w, y mod h): inside the wall and differing from (x, y) by whole multiples of the width and height; positions already inside are unchanged, and -1 addresses the last column or row |
| Tiles.NoTileForInputRejects | 09-bathroom-tiles/scenes.py:508-510 | when no tile shows some input character on its up side, no tiling of any height exists |
| Tiles.TopSentinel | 09-bathroom-tiles/scenes.py:537-538 | the sentinel above a column shows the column's input character downwards |
| Tiles.BottomSentinel | 09-bathroom-tiles/scenes.py:540-543 | the sentinel below the last row shows the wall's bottom colour upwards |
| Tiles.RightSentinel | 09-bathroom-tiles/scenes.py:545-548 | the sentinel right of the last column shows the wall's right colour leftwards |
| Tiles.LeftSentinel | 09-bathroom-tiles/scenes.py:550-553 | the sentinel left of the first column shows the wall's left colour rightwards |
| Tiles.FindTilingRecursive | 09-bathroom-tiles/scenes.py:487-528 | on success, the grid holds a valid tiling that extends the tiles placed before (i, j); on failure, the grid is as it was and no valid tiling extends those tiles; sentinels are never written |
| Tiles.PlaceAndSearch | 09-bathroom-tiles/scenes.py:524-528 | placing a matching tile and searching on either yields a valid tiling or clears the cell again; on failure, no valid tiling uses that tile at (i, j) |
| Tiles.RowEndRejects | 09-bathroom-tiles/scenes.py:495-500 | when the last tile of a full row does not match the wall's right colour, no valid tiling extends the placed tiles |
| Tiles.RowEndCloses | 09-bathroom-tiles/scenes.py:502-506 | when a full row matches the right colour, the placed tiles fit up to the next row, and after the last row they form a valid tiling |
| Tiles.TileRejected | 09-bathroom-tiles/scenes.py:509-522 | a tile that mismatches the cell above, the cell to the left or the bottom sentinel is used at (i, j) by no valid tiling that extends the placed tiles |
| Tiles.TileAccepted | 09-bathroom-tiles/scenes.py:509-524 | a tile that passes the three checks keeps the placed tiles fitting when it is added at (i, j) |
| Tiles.AllExcluded | 09-bathroom-tiles/scenes.py:508-528 | once every tile of the set has been excluded at (i, j), no valid tiling extends the placed tiles |
| Tiles.NewGrid | 09-bathroom-tiles/scenes.py:535-553 | the new grid has h + 2 rows and w + 2 columns, sentinels on its border ring and every inner cell empty |
| Tiles.FrameRows | 09-bathroom-tiles/scenes.py:537-543 | after the two row loops, the top and bottom rows hold their sentinels and nothing else was written |
| Tiles.FrameColumns | 09-bathroom-tiles/scenes.py:545-553 | after the two column loops, the right and left columns hold their sentinels as well |
| Tiles.ReadTiling | 09-bathroom-tiles/scenes.py:557-562 | the tiles read off the solved grid, cell (x, y) from row y + 1 and column x + 1, are exactly the tiling found |
| Tiles.FindTiling | 09-bathroom-tiles/scenes.py:531-564 | a returned wall has the input's width and the least height in 1..max_height that admits a valid tiling, with its tiles; None only when no height in that range admits one |
| TileExamples.CarryCountsOnes | 09-bathroom-tiles/scenes.py:613-618 | the colour carried out of the first x cells is the number of ones among the first x input characters, modulo 3 |
| TileExamples.DivBy3TileRule | 09-bathroom-tiles/scenes.py:613-618 | a tile of the set that shows carry a on its left and input c on top is the one whose right side shows (a + c) mod 3 |
| TileExamples.DivBy3TileInSet | 09-bathroom-tiles/scenes.py:613-618 | for every carry and input bit, the set holds the tile that adds them modulo 3 |
| TileExamples.DivBy3 | 09-bathroom-tiles/scenes.py:610-619 | a height-1 tiling of the wall exists iff the number of ones in the input is a multiple of 3 |
| TileExamples.DivBy3Example | 09-bathroom-tiles/scenes.py:611 | the example input `10110111`, with six ones, has a height-1 tiling |
| Catalan.GenerateParentheses | 11-catalan/utilities.py:151-172 | n = 0 gives None; otherwise the result is the enumeration of all shapes with n nodes |
| Catalan.JoinBlocks | 11-catalan/utilities.py:167-172 | joining the memoised smaller enumerations by left-subtree size gives the enumeration of size n |
| Catalan.AppendPairs | 11-catalan/utilities.py:168-170 | the nested loops append every pair of a left shape with a right shape, in order |
| Catalan.MemoAppend | 11-catalan/utilities.py:164-165 | appending the enumeration of the next size (None for size 0) keeps the memo of smaller enumerations correct |
| Catalan.ShapesMember | 11-catalan/utilities.py:151-172 | a shape is in the enumeration of size n iff it has n nodes |
| Catalan.ShapesExactlyOnce | 11-catalan/utilities.py:164-170 | every shape with n nodes occurs exactly once in the enumeration, and no other shape occurs |
| Catalan.BlocksCount | 11-catalan/utilities.py:167-170 | after k rounds of the outer loop, each shape of size n whose left subtree has fewer than k nodes occurs once |
| Catalan.PairsCount | 11-catalan/utilities.py:168-170 | a pair occurs as often as its left part among the lefts times its right part among the rights |
| Catalan.PairsMember | 11-catalan/utilities.py:168-170 | a shape is among the pairs iff its left part is among the lefts and its right part among the rights |
| Catalan.PairsLength | 11-catalan/utilities.py:168-170 | the nested loops produce len(lefts) × len(rights) pairs |
| Catalan.ShapesLength | 11-catalan/utilities.py:164-170 | the enumeration of size n has Catalan(n) elements, by the recurrence with the empty tree counted once |
| Catalan.BlocksLength | 11-catalan/utilities.py:167-170 | after k rounds of the outer loop, the list has the first k terms of the Catalan sum |
| Catalan.SmallShapes | 11-catalan/utilities.py:152-155 | size 1 is the single leaf pair; size 2 is `[None, leaf]` followed by `[leaf, None]` |
| Catalan.SmallCounts | 11-catalan/utilities.py:152-155 | there are 1, 2 and 5 shapes of sizes 1, 2 and 3 |
| Catalan.ShapesOrdered | 11-catalan/utilities.py:167-170 | the enumeration is ordered by increasing left-subtree size |
| Catalan.BlocksOrdered | 11-catalan/utilities.py:167-170 | after k rounds, the list is ordered by left-subtree size and every left subtree has fewer than k nodes |
| Catalan.ShapesNonEmpty | 11-catalan/utilities.py:151-172 | the list the generator reads for every size is non-empty, size 0 being read as `[None]` |
| Catalan.TreeBuilder.constructor | 11-catalan/utilities.py:179-180 | the builder starts with the root vertex `""` and no edges |
| Catalan.TreeBuilder.Populate | 11-catalan/utilities.py:182-197 | populating appends the vertex names and edges of the subtree, placeholders included, in the order of the source |
| Catalan.TreeBuilder.AddChild | 11-catalan/utilities.py:187-197 | one side appends either the child's name and edge followed by its subtree, or a `B` placeholder and its edge |
| Catalan.BinaryTreeFromParentheses | 11-catalan/utilities.py:174-214 | after removing every name containing `B`, the vertices and edges are the tree's names in preorder and its parent-to-child links |
| Catalan.NamesKept | 11-catalan/utilities.py:182-212 | removing the placeholders from the populated vertices leaves exactly the preorder names |
| Catalan.EdgesKept | 11-catalan/utilities.py:182-212 | removing the placeholders' edges leaves exactly the tree's parent-to-child links |
| Catalan.SideNamesKept | 11-catalan/utilities.py:190-197 | one side contributes, once the placeholders are removed, exactly the names of that subtree |
| Catalan.SideEdgesKept | 11-catalan/utilities.py:190-197 | one side contributes, once the placeholders are removed, the link to that child and the subtree's links |
| Catalan.NamesSize | 11-catalan/utilities.py:182-212 | the tree has exactly one vertex per node |
| Catalan.NamesArePaths | 11-catalan/utilities.py:187-194 | a name belongs to the tree iff it extends the root's name by an `l`/`r` path that leads to a node |
| Catalan.NamesDistinct | 11-catalan/utilities.py:182-212 | no vertex name occurs twice |
| Catalan.EdgesLinkNames | 11-catalan/utilities.py:191-192 | every edge joins two vertices of the tree, the second named after the first plus `l` or `r` |
| Catalan.LinksAreEdges | 11-catalan/utilities.py:191-192 | every vertex of the tree other than the root is linked from its parent, the name without its last letter |
| Catalan.NonFullVertices | 11-catalan/utilities.py:134-148 | the result is the vertices, in order, whose outgoing-edge count is not 2 |
| Catalan.NonFullMember | 11-catalan/utilities.py:134-148 | a vertex is returned iff it is a vertex with other than two outgoing edges |
| Catalan.AddStars | 11-catalan/utilities.py:52-78 | the star names returned are `star_1` up to `star_count`, and count is two per childless vertex plus one per single-child vertex |
| Catalan.StarCountNonFull | 11-catalan/utilities.py:58-76 | counting stars over the non-full vertices only gives the same total as counting over all vertices |
| Catalan.TreeStars | 11-catalan/utilities.py:52-78 | a tree with n ≥ 1 nodes gets n + 1 stars; the empty tree gets none |
| Catalan.StarsOfTree | 11-catalan/utilities.py:81-84 | once its stars are added, a tree with n nodes has (vertices + 1) / 2 = n + 1 stars, the count the permutation step relies on |
| Catalan.StarNameIsStar | 11-catalan/utilities.py:10-15 | every star name is recognised as a star name |
| Catalan.StarIndexOfName | 11-catalan/utilities.py:10-19 | the index read back from star name i is i |
| Catalan.TreeNamesAreNotStars | 11-catalan/utilities.py:13-15 | no vertex name of a tree is taken for a star name |
| Catalan.GetAllDescendants | 11-catalan/utilities.py:227-243 | the result starts with the vertex, has no repeats, every other entry is a vertex whose parent comes before it, and it is closed under following edges |
| Catalan.Visit | 11-catalan/utilities.py:233-241 | one round takes the head of the stack into the result and keeps the search invariant |
| Catalan.PushChildren | 11-catalan/utilities.py:236-241 | the stack gains the children of u that are not yet collected, and nothing else |
| Minotaur.NextTheseusPositions | 12-state-space/programs/minotaur.py:11-22 | the result is the open neighbours of the cell, taken in the order right, down, left, up |
| Minotaur.NeighboursMember | 12-state-space/programs/minotaur.py:2-22 | a cell is among Theseus's next positions iff it is open, inside the maze and at Manhattan distance 1 |
| Minotaur.NeighboursOrdered | 12-state-space/programs/minotaur.py:15-20 | the next positions come in the order right, down, left, up, without repeats |
| Minotaur.MoveTowards | 12-state-space/programs/minotaur.py:27-28 | the result is +1, 0 or -1 as m is below, equal to or above t; a non-zero step brings m one closer to t |
| Minotaur.MoveTowardsExamples | 12-state-space/programs/minotaur.py:54-56 | (2, 3) gives +1, (5, 5) gives 0 and (4, 1) gives -1 |
| Minotaur.MinotaurStep | 12-state-space/programs/minotaur.py:35-45 | one step stays put or moves to an adjacent open cell; it never moves away from Theseus on either axis, prefers the horizontal step, and stays put only when both steps are blocked or pointless |
| Minotaur.MinotaurMove | 12-state-space/programs/minotaur.py:30-47 | the minotaur moves at most two cells, onto an open cell, and every cell it moves brings it one closer to Theseus; on Theseus it stays put |
| Minotaur.NextMinotaurPosition | 12-state-space/programs/minotaur.py:30-47 | the loop of two steps computes the minotaur's move |
| Minotaur.NextStates | 12-state-space/programs/minotaur.py:75-87 | the loop computes the game's successor states |
| Minotaur.SuccessorsMember | 12-state-space/programs/minotaur.py:75-87 | a state is a successor iff Theseus moved to an open neighbour, the minotaur answered with its move, and the two do not share a cell |
| Minotaur.SuccessorsOrdered | 12-state-space/programs/minotaur.py:79-85 | there is at most one successor per Theseus move, in the order of his moves |
| Minotaur.PathMoves | 12-state-space/programs/minotaur.py:75-87 | a sequence is a path of successor steps iff each step is a game move |
| Minotaur.SuccessorsInUniverse | 12-state-space/programs/minotaur.py:114-117 | every state the search can discover lies in the finite set of pairs of maze cells |
| Minotaur.Discover | 12-state-space/programs/minotaur.py:114-117 | each successor not yet known is recorded with the current state as its parent and appended to the queue exactly once; known states and the queue's existing entries are left alone, and nothing already known is queued again |
| Minotaur.TracePath | 12-state-space/programs/minotaur.py:104-107 | following parents from the goal back to the start gives a path of successor steps from the start to the goal |
| Minotaur.Expand | 12-state-space/programs/minotaur.py:99-117 | one round pops the head of the queue and does to the rest exactly what discovering the head's successors does; it keeps the search invariant and either discovers a new state or shortens the queue |
| Minotaur.Bfs | 12-state-space/programs/minotaur.py:94-119 | a returned path runs from the start to a stop state through successor steps; none is returned only when no path from the start reaches a stop state |
| Minotaur.FindMarks | 12-state-space/programs/minotaur.py:139-146 | each of `T`, `E` and `M` is found at its last occurrence in row-major order, or is None when absent |
| Minotaur.ScanRow | 12-state-space/programs/minotaur.py:140-146 | scanning a row extends the last-occurrence facts to the end of that row |
| Robots.CanBuildRobot | 12-state-space/programs/graphs/utilities-want-to-build-prune-max.py:9-13 | true iff the stock covers the cost resource by resource |
| Robots.WantToBuildRobot | 12-state-space/programs/graphs/utilities-want-to-build-prune-max.py:15-29 | true iff the robot is the geode robot, none of it exists yet, or some blueprint cost in its resource exceeds the number of such robots |
| Robots.Collect | 12-state-space/programs/graphs/utilities-want-to-build-prune-max.py:54-56 | every resource grows by the number of its robots |
| Robots.TakeCost | 12-state-space/programs/graphs/utilities-want-to-build-prune-max.py:45-52 | building robot i subtracts its cost, adds robot i, and takes one unit of resource i back to cancel the new robot's collection |
| Robots.NextStates | 12-state-space/programs/graphs/utilities-want-to-build-prune-max.py:31-58 | the generator yields the successor states, one turn on |
| Robots.PendingFinishes | 12-state-space/programs/graphs/utilities-want-to-build-prune-max.py:33-58 | collecting after the pending lists are built gives the no-build state followed by one state per wanted and affordable robot |
| Robots.NextMember | 12-state-space/programs/graphs/utilities-want-to-build-prune-max.py:31-58 | the first successor builds nothing; a state is a successor iff it builds nothing or builds one wanted and affordable robot |
| Robots.BuildsMember | 12-state-space/programs/graphs/utilities-want-to-build-prune-max.py:37-52 | a state is among the builds iff it builds a robot that is wanted and affordable |
| Robots.BuildTurn | 12-state-space/programs/graphs/utilities-want-to-build-prune-max.py:45-56 | building keeps every count non-negative and adds at most the geode robots' output to the geodes |
| Robots.NextTurn | 12-state-space/programs/graphs/utilities-want-to-build-prune-max.py:31-58 | a successor has one turn less, the same robots or one more of one kind, non-negative counts, and at most the geode robots' output in new geodes |
| Robots.WordsOfJoin | 12-state-space/programs/graphs/utilities-want-to-build-prune-max.py:62 | splitting words joined by spaces gives those words back |
| Robots.ParseBlueprint | 12-state-space/programs/graphs/utilities-want-to-build-prune-max.py:61-72 | the result is Some exactly when the line has more than 30 words and words 6, 12, 18, 21, 27 and 30 are numbers; the costs are then those numbers in the source's four-by-four layout |
| Robots.ParseBlueprintWords | 12-state-space/programs/graphs/utilities-want-to-build-prune-max.py:61-72 | reading a blueprint line gives back the costs it was written with |
| Robots.ExampleBlueprint | 12-state-space/programs/graphs/utilities-want-to-build-prune-max.py:61-72 | the search's blueprint reads as ((4,0,0,0), (2,0,0,0), (3,14,0,0), (2,0,7,0)) |
| Robots.Start | 12-state-space/programs/graphs/utilities-want-to-build-prune-max.py:76 | the search starts with `depth` turns, nothing collected and a valid count for every kind |
| Robots.ReachSound | 12-state-space/programs/graphs/utilities-want-to-build-prune-max.py:31-58 | every state reachable from a valid state has non-negative counts |
| Robots.CeilingClosed | 12-state-space/programs/graphs/utilities-want-to-build-prune-max.py:7 | the per-turn ceiling on geodes has the closed form geodes + robots * k + k(k-1)/2 |
| Robots.OptimisticCeiling | 12-state-space/programs/graphs/utilities-want-to-build-prune-max.py:4-7 | the `can_be_best` estimate is the geode ceiling over the remaining turns |
| Robots.GeodeBound | 12-state-space/programs/graphs/utilities-want-to-build-prune-max.py:4-7 | within k turns, at most k geode robots are added and the geodes stay under the ceiling |
| Robots.PruneSound | 12-state-space/programs/graphs/utilities-want-to-build-prune-max.py:87-88 | no state reachable from a pruned state has more geodes than the best count so far |
| Robots.Enqueue | 12-state-space/programs/graphs/utilities-want-to-build-prune-max.py:90-93 | each new successor is queued once with the current state as its parent; known states are left alone |
| Robots.Expand | 12-state-space/programs/graphs/utilities-want-to-build-prune-max.py:80-93 | one round raises the best count to the dequeued state's geodes when they exceed it and otherwise leaves it, so it never decreases; a finished or pruned state (no turns left, or no better than the best count) leaves the known states unchanged and only pops the queue, and any other state has its unseen successors recorded and appended to the rest of the queue; it keeps the search invariant and either learns a new state or shortens the queue |
| Robots.Covered | 12-state-space/programs/graphs/utilities-want-to-build-prune-max.py:84-93 | every state reachable from a closed state is known or lies below a pruned one |
| Robots.Optimal | 12-state-space/programs/graphs/utilities-want-to-build-prune-max.py:80-93 | when the queue is empty, no state reachable within `depth` turns has more geodes than the best count |
| Robots.GetTree | 12-state-space/programs/graphs/utilities-want-to-build-prune-max.py:76-93 | the known states are reachable, distinct and rooted in the start, each with a parent it came from; the best count is the largest geode count of any state reachable within `depth` turns, and a known state attains it |
| Robots.KeepRoot | 12-state-space/programs/graphs/utilities-want-to-build-prune-max.py:95-98 | the loop after the search leaves the known states unchanged |

## Left out

- Everything drawn or animated is not part of this model:
  - scenes, tiles, walls and stars as pictures;
  - positions and layouts;
  - the swap animation;
  - the permutation of stars in `ChangeStars`;
  - every `print`.
- `get_text_speed` computes a float duration and is not modelled.
- The other example walls and tile sets are not modelled; only `divby3` is.
- Tiles.FindTiling: the wall size is fixed at 1. Walls scale their width by `size`, which the search then uses as its column count.
- Tiles.FindTiling: the width must be at least 1. With an empty input, the source compares the left sentinel directly with the right one, a wall without cells that the model does not cover.
- Tiles.FindTiling: the wall always has an input word.
- Tiles.FindTiling: `max_height` is an explicit parameter, because its default of 1 has no Dafny counterpart.
- Colours are the text that `str` makes of the given values. The model takes that text as given and does not model `str` on palette entries.
- Catalan.AddStars: the order in which stars are attached follows the drawn x and y position of each vertex, which the model does not have. The model fixes the names and the count, not which vertex gets which star, nor whether a star is drawn left or right.
- Catalan.BinaryTreeFromParentheses: the removal of vertices containing `B` is modelled as filtering the vertex and edge lists. The graph object itself is not modelled.
- Catalan.GetAllDescendants: requires that vertex names are distinct and that every vertex has at most one parent, as in the trees built above. With two parents, the source could queue a vertex twice.
- `generate_binary_trees` is not modelled. It maps the tree construction over the enumeration, and raises an error for n = 0.
- Minotaur.Bfs returns the path instead of printing it. It builds the path by prepending parents rather than by appending and reversing.
- Minotaur.Bfs: that the path is a shortest one is not proved, because it would need an invariant that the queue holds states in order of distance, which the model leaves out to keep the search proof small; the contract states soundness and completeness only.
- Minotaur.Bfs requires a non-empty maze of equal-length rows, since validity reads the first row.
- Minotaur.Bfs: the escape found for the example maze is not evaluated in the model, because stating it would mean unfolding the whole search over that concrete maze, which the verifier cannot do within its resource limits.
- Robots.GetTree requires a depth of at least 0. For a negative depth, the source never reaches a state with no turns left, so its search does not end.
- Robots.GetTree requires a blueprint of four non-negative costs of four resources each.
- The driver loop over depths 0 to 99 is not modelled.
- Robots.ParseBlueprint: `split()` is modelled on the ASCII whitespace Python recognises (space, tab, line feed, carriage return, vertical tab, form feed and the separators 0x1C to 0x1F), and `int` on an optional sign followed by decimal digits. Python also splits on non-ASCII spaces (0x85, 0xA0, U+2000 to U+200A and others) and its `int` accepts underscores, non-ASCII digits and surrounding whitespace.
- Robots.ExampleBlueprint: the blueprint line is written with single spaces between sentences, where the source has two. Both split into the same words.
- Several source loops are modelled as separate methods, each with its own contract:
  - Tiles: PlaceAndSearch, FrameRows and FrameColumns;
  - Catalan: JoinBlocks, AppendPairs, Visit and PushChildren;
  - Minotaur: Discover, Expand and ScanRow;
  - Robots: Collect, TakeCost, Enqueue and Expand.
