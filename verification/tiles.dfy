/** Wang tiles on a bathroom wall: the colour model of tiles and walls, and the
    backtracking search that tiles a wall of a given width with the least
    height that admits a tiling.

    A tile lists its four side colours in the order right, up, left, down.
    Every colour is the text `str` makes of the value given to the tile, so a
    side left unset carries the colour "None". A wall has a colour on its
    left, right and bottom side and, on top, one input character per column.
    The search works on a grid of (h + 2) rows and (w + 2) columns whose
    border ring holds one-sided sentinel tiles for the wall's boundary, and
    fills the inner w x h cells row by row, writing and clearing them in
    place. */
module Tiles {
  import opened Wrappers

  // ---------------------------------------------------------------------
  // Colours, directions, tiles and walls
  // ---------------------------------------------------------------------

  /** A colour is the text of the value given for a side. */
  type Color = string

  /** The text of Python's `None`: the colour of a side left unset. */
  const Unset: Color := "None"

  datatype Direction = Right | Up | Left | Down

  /** The order in which tiles and walls list their side colours. */
  const Directions: seq<Direction> := [Right, Up, Left, Down]

  /** The item that stands at the position of `d` in `Directions`. */
  function ItemByDirection<T>(items: seq<T>, d: Direction): (r: T)
    requires |items| == |Directions|
    ensures forall k :: 0 <= k < |Directions| && Directions[k] == d ==> r == items[k]
  {
    match d
    case Right => items[0]
    case Up => items[1]
    case Left => items[2]
    case Down => items[3]
  }

  datatype Tile = Tile(right: Color, up: Color, left: Color, down: Color)
  {
    function Colors(): seq<Color> { [right, up, left, down] }

    function ColorIn(d: Direction): Color { ItemByDirection(Colors(), d) }
  }

  /** A tile built from its four colours, given in the order of `Directions`. */
  function MakeTile(colors: seq<Color>): (t: Tile)
    requires |colors| == |Directions|
    ensures t.Colors() == colors
    ensures forall k :: 0 <= k < |Directions| ==> t.ColorIn(Directions[k]) == colors[k]
  {
    Tile(colors[0], colors[1], colors[2], colors[3])
  }

  /** A wall with side colours in the order of `Directions` and an input
      word on top; the word's length is the wall's width. */
  datatype Wall = Wall(right: Color, up: Color, left: Color, down: Color, input: string)
  {
    function Width(): nat { |input| }

    /** On top the wall shows its input word rather than its up colour. */
    function ColorIn(d: Direction): Color
    {
      if d == Up then input else ItemByDirection([right, up, left, down], d)
    }
  }

  /** True of the colours that are drawn as filled triangles rather than as
      text: `#` followed by six hexadecimal digits of either case. */
  predicate IsHexColor(s: string)
  {
    |s| == 7 && s[0] == '#' && forall k :: 1 <= k < |s| ==> Lower(s[k]) in "0123456789abcdef"
  }

  /** ASCII lower-casing. */
  function Lower(c: char): char
  {
    if 'A' <= c <= 'Z' then (c as int - 'A' as int + 'a' as int) as char else c
  }

  lemma IsHexColorChars(s: string)
    ensures IsHexColor(s) <==>
      |s| == 7 && s[0] == '#' && forall k :: 1 <= k < 7 ==> s[k] in "0123456789abcdefABCDEF"
  {
    forall c: char ensures Lower(c) in "0123456789abcdef" <==> c in "0123456789abcdefABCDEF" {
      if 'A' <= c <= 'Z' {
        assert Lower(c) as int == c as int + 32;
      }
    }
  }

  /** Wraps a position into the wall, so that -1 addresses the last column
      or row; Python's `%` with a positive divisor never yields a negative
      remainder, like Dafny's. */
  function ToPositiveCoordinates(x: int, y: int, w: int, h: int): (p: (int, int))
    requires w > 0 && h > 0
    ensures 0 <= p.0 < w && 0 <= p.1 < h
    ensures x == (x / w) * w + p.0 && y == (y / h) * h + p.1
    ensures 0 <= x < w ==> p.0 == x
    ensures 0 <= y < h ==> p.1 == y
    ensures x == -1 ==> p.0 == w - 1
    ensures y == -1 ==> p.1 == h - 1
  {
    (x % w, y % h)
  }

  // ---------------------------------------------------------------------
  // What a tiling is
  // ---------------------------------------------------------------------

  /** Tiles placed on a wall, keyed by (column, row) with row 0 on top. */
  type Placement = map<(int, int), Tile>

  predicate InWall(w: int, h: int, x: int, y: int)
  {
    0 <= x < w && 0 <= y < h
  }

  /** Cell (x, y) comes before cell (i, j) in row-major order. */
  predicate Before(x: int, y: int, i: int, j: int)
  {
    y < j || (y == j && x < i)
  }

  /** The keys of `P` are exactly the wall's cells before (i, j); with
      (i, j) = (0, h) they are all cells of a wall of height h. */
  ghost predicate CoversBefore(P: Placement, w: int, h: int, i: int, j: int)
  {
    && (forall x, y {:trigger (x, y) in P} :: InWall(w, h, x, y) && Before(x, y, i, j) ==> (x, y) in P)
    && (forall c {:trigger c in P} :: c in P ==> InWall(w, h, c.0, c.1) && Before(c.0, c.1, i, j))
  }

  /** The tile placed at (x, y) belongs to the set and matches the input
      above row 0 or the tile above it, the wall's left colour in column 0 or
      the tile on its left, and, in the last row, the wall's bottom colour. */
  ghost predicate Fits(P: Placement, tileset: seq<Tile>, wall: Wall, h: int, x: int, y: int)
  {
    && (x, y) in P
    && P[(x, y)] in tileset
    && (if y == 0 then 0 <= x < |wall.input| && P[(x, y)].up == [wall.input[x]]
        else (x, y - 1) in P && P[(x, y)].up == P[(x, y - 1)].down)
    && (if x == 0 then P[(x, y)].left == wall.left
        else (x - 1, y) in P && P[(x, y)].left == P[(x - 1, y)].right)
    && (y == h - 1 ==> P[(x, y)].down == wall.down)
  }

  /** The last tile of row y shows the wall's right colour. */
  ghost predicate RowCloses(P: Placement, wall: Wall, y: int)
  {
    (wall.Width() - 1, y) in P && P[(wall.Width() - 1, y)].right == wall.right
  }

  /** `P` tiles the whole wall of height `h` with tiles of `tileset`. */
  ghost predicate ValidTiling(P: Placement, tileset: seq<Tile>, wall: Wall, h: int)
  {
    && CoversBefore(P, wall.Width(), h, 0, h)
    && (forall x, y {:trigger Fits(P, tileset, wall, h, x, y)} ::
          InWall(wall.Width(), h, x, y) ==> Fits(P, tileset, wall, h, x, y))
    && (forall y :: 0 <= y < h ==> RowCloses(P, wall, y))
  }

  /** Some tile of the set shows `color` on its up side. */
  predicate SomeTileShowsUp(tileset: seq<Tile>, color: Color)
  {
    exists t :: t in tileset && t.up == color
  }

  /** A wall whose input contains a character that no tile shows on its up
      side has no tiling, whatever its height. */
  lemma NoTileForInputRejects(tileset: seq<Tile>, wall: Wall, x: int)
    requires 0 <= x < wall.Width()
    requires !SomeTileShowsUp(tileset, [wall.input[x]])
    ensures forall h, P :: 1 <= h ==> !ValidTiling(P, tileset, wall, h)
  {
    forall h: int, P: Placement | 1 <= h && ValidTiling(P, tileset, wall, h)
      ensures (x, 0) in P && P[(x, 0)] in tileset && P[(x, 0)].up == [wall.input[x]]
    {
      assert InWall(wall.Width(), h, x, 0);
      assert Fits(P, tileset, wall, h, x, 0);
    }
  }

  // ---------------------------------------------------------------------
  // The search grid
  // ---------------------------------------------------------------------

  /** Cells of the search grid: row y + 1, column x + 1 hold cell (x, y). */
  type Grid = array2<Option<Tile>>

  function At(g: Grid, x: int, y: int): Option<Tile>
    reads g
    requires -1 <= x < g.Length1 - 1 && -1 <= y < g.Length0 - 1
  {
    g[y + 1, x + 1]
  }

  /** The sentinel above column x: it shows input character `c` downwards. */
  function TopSentinel(c: char): (t: Tile)
    ensures t.down == [c]
  {
    MakeTile([Unset, Unset, Unset, [c]])
  }

  /** The sentinel below the last row: it shows the wall's bottom colour upwards. */
  function BottomSentinel(wall: Wall): (t: Tile)
    ensures t.up == wall.down
  {
    MakeTile([Unset, wall.ColorIn(Down), Unset, Unset])
  }

  /** The sentinel right of the last column: it shows the wall's right colour leftwards. */
  function RightSentinel(wall: Wall): (t: Tile)
    ensures t.left == wall.right
  {
    MakeTile([Unset, Unset, wall.ColorIn(Right), Unset])
  }

  /** The sentinel left of column 0: it shows the wall's left colour rightwards. */
  function LeftSentinel(wall: Wall): (t: Tile)
    ensures t.right == wall.left
  {
    MakeTile([wall.ColorIn(Left), Unset, Unset, Unset])
  }

  ghost predicate Shaped(g: Grid, wall: Wall, h: int)
  {
    0 <= h && g.Length0 == h + 2 && g.Length1 == wall.Width() + 2
  }

  /** What cell (x, y) of the grid holds while the search stands at (i, j)
      with `prefix` placed: the wall's sentinels on the border ring (its
      corners stay empty), the placed tiles before (i, j), nothing else. */
  ghost function Expected(wall: Wall, h: int, prefix: Placement, i: int, j: int, x: int, y: int): Option<Tile>
  {
    var w := wall.Width();
    if x == -1 && 0 <= y < h then Some(LeftSentinel(wall))
    else if x == w && 0 <= y < h then Some(RightSentinel(wall))
    else if y == -1 && 0 <= x < w then Some(TopSentinel(wall.input[x]))
    else if y == h && 0 <= x < w then Some(BottomSentinel(wall))
    else if InWall(w, h, x, y) && Before(x, y, i, j) && (x, y) in prefix then Some(prefix[(x, y)])
    else None
  }

  /** Every cell of the grid holds what `Expected` says. */
  ghost predicate Mirrors(g: Grid, wall: Wall, h: int, prefix: Placement, i: int, j: int)
    reads g
  {
    forall r, c {:trigger g[r, c]} :: 0 <= r < g.Length0 && 0 <= c < g.Length1 ==>
      g[r, c] == Expected(wall, h, prefix, i, j, c - 1, r - 1)
  }

  /** Everything placed before (i, j) fits; the rows above row j are closed. */
  ghost predicate PrefixFits(prefix: Placement, tileset: seq<Tile>, wall: Wall, h: int, i: int, j: int)
  {
    && CoversBefore(prefix, wall.Width(), h, i, j)
    && (forall x, y {:trigger Fits(prefix, tileset, wall, h, x, y)} ::
          InWall(wall.Width(), h, x, y) && Before(x, y, i, j) ==> Fits(prefix, tileset, wall, h, x, y))
    && (forall y :: 0 <= y < j ==> RowCloses(prefix, wall, y))
  }

  /** `P` agrees with every tile placed in `prefix`. */
  ghost predicate Extends(P: Placement, prefix: Placement)
  {
    forall c {:trigger c in prefix} :: c in prefix ==> c in P && P[c] == prefix[c]
  }

  // ---------------------------------------------------------------------
  // The search
  // ---------------------------------------------------------------------

  /** Fills the inner cells from (i, j) on in row-major order, trying the
      tiles in the order of `tileset` and backtracking; position (w, j) means
      that row j is full and its end must still match the wall's right
      colour. On success the grid holds a tiling that extends what was
      placed before (i, j); on failure the grid is as it was and no tiling
      extends what was placed before (i, j). Sentinels are never written. */
  method FindTilingRecursive(i: int, j: int, tileset: seq<Tile>, g: Grid, wall: Wall, h: int,
                             ghost prefix: Placement)
    returns (found: bool, ghost solution: Placement)
    requires 1 <= wall.Width() && 0 <= i <= wall.Width() && 0 <= j < h
    requires Shaped(g, wall, h)
    requires PrefixFits(prefix, tileset, wall, h, i, j)
    requires Mirrors(g, wall, h, prefix, i, j)
    modifies g
    decreases h - j, wall.Width() - i, 1
    ensures found ==> ValidTiling(solution, tileset, wall, h) && Extends(solution, prefix)
    ensures found ==> Mirrors(g, wall, h, solution, 0, h)
    ensures !found ==> Mirrors(g, wall, h, prefix, i, j)
    ensures !found ==> forall P :: ValidTiling(P, tileset, wall, h) ==> !Extends(P, prefix)
  {
    var w := wall.Width();
    var ci, cj := i, j;
    solution := prefix;
    if ci == w {
      // The row is full: its last tile must match the wall's right side.
      RowEndNeighbours(g, wall, h, prefix, j);
      if At(g, ci - 1, cj).value.ColorIn(Right) != At(g, ci, cj).value.ColorIn(Left) {
        RowEndRejects(prefix, tileset, wall, h, j);
        return false, prefix;
      }
      RowEndCloses(prefix, tileset, wall, h, j);
      MirrorsNextRow(g, wall, h, prefix, j);
      if cj == h - 1 {
        return true, prefix;
      }
      ci, cj := 0, cj + 1;
    }
    var k := 0;
    while k < |tileset|
      invariant 0 <= ci < w && 0 <= cj < h
      invariant (i, j) == (ci, cj) || (i, j) == (w, cj - 1)
      invariant 0 <= k <= |tileset|
      invariant Mirrors(g, wall, h, prefix, ci, cj)
      invariant PrefixFits(prefix, tileset, wall, h, ci, cj)
      invariant forall m {:trigger Excluded(prefix, tileset, wall, h, ci, cj, tileset[m])} ::
                  0 <= m < k ==> Excluded(prefix, tileset, wall, h, ci, cj, tileset[m])
    {
      var tile := tileset[k];
      Neighbours(g, wall, h, prefix, ci, cj);
      if || At(g, ci, cj - 1).value.ColorIn(Down) != tile.ColorIn(Up)
         || At(g, ci - 1, cj).value.ColorIn(Right) != tile.ColorIn(Left)
         || (cj == h - 1 && At(g, ci, cj + 1).value.ColorIn(Up) != tile.ColorIn(Down))
      {
        TileRejected(prefix, tileset, wall, h, ci, cj, tile);
        k := k + 1;
        continue;
      }
      TileAccepted(prefix, tileset, wall, h, ci, cj, tile);
      found, solution := PlaceAndSearch(ci, cj, tile, tileset, g, wall, h, prefix);
      if found {
        return;
      }
      k := k + 1;
    }
    AllExcluded(prefix, tileset, wall, h, ci, cj);
    if (i, j) != (ci, cj) {
      ExpectedNextRow(wall, h, prefix, j);
    }
    found := false;
  }

  /** One step of the loop of `FindTilingRecursive`: places `tile`, which
      matches its neighbours, at (i, j), searches on from (i + 1, j) and
      clears the cell again when that fails. */
  method PlaceAndSearch(i: int, j: int, tile: Tile, tileset: seq<Tile>, g: Grid, wall: Wall, h: int,
                        ghost prefix: Placement)
    returns (found: bool, ghost solution: Placement)
    requires 0 <= i < wall.Width() && 0 <= j < h
    requires Shaped(g, wall, h)
    requires CoversBefore(prefix, wall.Width(), h, i, j)
    requires PrefixFits(prefix[(i, j) := tile], tileset, wall, h, i + 1, j)
    requires Mirrors(g, wall, h, prefix, i, j)
    modifies g
    decreases h - j, wall.Width() - i, 0
    ensures found ==> ValidTiling(solution, tileset, wall, h) && Extends(solution, prefix)
    ensures found ==> Mirrors(g, wall, h, solution, 0, h)
    ensures !found ==> Mirrors(g, wall, h, prefix, i, j)
    ensures !found ==> Excluded(prefix, tileset, wall, h, i, j, tile)
  {
    ExpectedAfterPlace(wall, h, prefix, i, j, tile);
    g[j + 1, i + 1] := Some(tile);
    found, solution := FindTilingRecursive(i + 1, j, tileset, g, wall, h, prefix[(i, j) := tile]);
    if found {
      ExtendsPlaced(solution, prefix, i, j, tile);
      return;
    }
    g[j + 1, i + 1] := None;
    Exclude(prefix, tileset, wall, h, i, j, tile);
  }

  /** The cells the search compares at the end of row j. */
  lemma RowEndNeighbours(g: Grid, wall: Wall, h: int, prefix: Placement, j: int)
    requires 1 <= wall.Width() && 0 <= j < h
    requires Shaped(g, wall, h)
    requires CoversBefore(prefix, wall.Width(), h, wall.Width(), j)
    requires Mirrors(g, wall, h, prefix, wall.Width(), j)
    ensures (wall.Width() - 1, j) in prefix
    ensures At(g, wall.Width() - 1, j) == Some(prefix[(wall.Width() - 1, j)])
    ensures At(g, wall.Width(), j) == Some(RightSentinel(wall))
  {
    assert InWall(wall.Width(), h, wall.Width() - 1, j);
    assert g[j + 1, wall.Width()] == Expected(wall, h, prefix, wall.Width(), j, wall.Width() - 1, j);
    assert g[j + 1, wall.Width() + 1] == Expected(wall, h, prefix, wall.Width(), j, wall.Width(), j);
  }

  /** A full row whose last tile does not show the wall's right colour
      extends to no tiling. */
  lemma RowEndRejects(prefix: Placement, tileset: seq<Tile>, wall: Wall, h: int, j: int)
    requires 1 <= wall.Width() && 0 <= j < h
    requires (wall.Width() - 1, j) in prefix
    requires prefix[(wall.Width() - 1, j)].right != wall.right
    ensures forall P :: ValidTiling(P, tileset, wall, h) ==> !Extends(P, prefix)
  {
    forall P | ValidTiling(P, tileset, wall, h)
      ensures RowCloses(P, wall, j)
    {
    }
  }

  /** A full row whose last tile shows the wall's right colour is closed;
      after the last row the placement is a tiling. */
  lemma RowEndCloses(prefix: Placement, tileset: seq<Tile>, wall: Wall, h: int, j: int)
    requires 1 <= wall.Width() && 0 <= j < h
    requires PrefixFits(prefix, tileset, wall, h, wall.Width(), j)
    requires (wall.Width() - 1, j) in prefix
    requires prefix[(wall.Width() - 1, j)].right == wall.right
    ensures PrefixFits(prefix, tileset, wall, h, 0, j + 1)
    ensures j == h - 1 ==> ValidTiling(prefix, tileset, wall, h)
  {
    var w := wall.Width();
    forall x, y | InWall(w, h, x, y) && Before(x, y, 0, j + 1)
      ensures (x, y) in prefix
    {
      assert Before(x, y, w, j);
    }
    forall c | c in prefix
      ensures InWall(w, h, c.0, c.1) && Before(c.0, c.1, 0, j + 1)
    {
      assert Before(c.0, c.1, w, j);
    }
    forall x, y | InWall(w, h, x, y) && Before(x, y, 0, j + 1)
      ensures Fits(prefix, tileset, wall, h, x, y)
    {
      assert Before(x, y, w, j);
    }
    forall y | 0 <= y < j + 1
      ensures RowCloses(prefix, wall, y)
    {
    }
    assert PrefixFits(prefix, tileset, wall, h, 0, j + 1);
    if j == h - 1 {
      forall x, y | InWall(w, h, x, y)
        ensures Fits(prefix, tileset, wall, h, x, y)
      {
        assert Before(x, y, 0, j + 1);
      }
      assert CoversBefore(prefix, w, h, 0, h);
    }
  }

  /** Standing after the end of row j is standing at the start of row j + 1. */
  lemma ExpectedNextRow(wall: Wall, h: int, prefix: Placement, j: int)
    ensures forall x, y {:trigger Expected(wall, h, prefix, 0, j + 1, x, y)} ::
              Expected(wall, h, prefix, 0, j + 1, x, y) == Expected(wall, h, prefix, wall.Width(), j, x, y)
  {
    forall x, y
      ensures Expected(wall, h, prefix, 0, j + 1, x, y) == Expected(wall, h, prefix, wall.Width(), j, x, y)
    {
      if InWall(wall.Width(), h, x, y) {
        assert Before(x, y, wall.Width(), j) == Before(x, y, 0, j + 1);
      }
    }
  }

  lemma MirrorsNextRow(g: Grid, wall: Wall, h: int, prefix: Placement, j: int)
    requires Mirrors(g, wall, h, prefix, wall.Width(), j)
    ensures Mirrors(g, wall, h, prefix, 0, j + 1)
  {
    ExpectedNextRow(wall, h, prefix, j);
  }

  /** The cells the search compares when it tries a tile at (i, j). */
  lemma Neighbours(g: Grid, wall: Wall, h: int, prefix: Placement, i: int, j: int)
    requires 0 <= i < wall.Width() && 0 <= j < h
    requires Shaped(g, wall, h)
    requires CoversBefore(prefix, wall.Width(), h, i, j)
    requires Mirrors(g, wall, h, prefix, i, j)
    ensures j > 0 ==> (i, j - 1) in prefix
    ensures i > 0 ==> (i - 1, j) in prefix
    ensures At(g, i, j - 1) == Some(if j == 0 then TopSentinel(wall.input[i]) else prefix[(i, j - 1)])
    ensures At(g, i - 1, j) == Some(if i == 0 then LeftSentinel(wall) else prefix[(i - 1, j)])
    ensures j == h - 1 ==> At(g, i, j + 1) == Some(BottomSentinel(wall))
  {
    assert g[j, i + 1] == Expected(wall, h, prefix, i, j, i, j - 1);
    assert g[j + 1, i] == Expected(wall, h, prefix, i, j, i - 1, j);
    if j > 0 {
      assert InWall(wall.Width(), h, i, j - 1) && Before(i, j - 1, i, j);
    }
    if i > 0 {
      assert InWall(wall.Width(), h, i - 1, j) && Before(i - 1, j, i, j);
    }
    if j == h - 1 {
      assert g[j + 2, i + 1] == Expected(wall, h, prefix, i, j, i, j + 1);
    }
  }

  /** The colours a tile placed at (i, j) must show on its up and left
      sides, read from the input, the wall or the tiles already placed. */
  function ExpectedUp(prefix: Placement, wall: Wall, i: int, j: int): Color
    requires 0 <= i < wall.Width() && 0 <= j && (j > 0 ==> (i, j - 1) in prefix)
  {
    if j == 0 then [wall.input[i]] else prefix[(i, j - 1)].down
  }

  function ExpectedLeft(prefix: Placement, wall: Wall, i: int, j: int): Color
    requires 0 <= i && (i > 0 ==> (i - 1, j) in prefix)
  {
    if i == 0 then wall.left else prefix[(i - 1, j)].right
  }

  /** A tile that does not match its neighbours at (i, j) is at (i, j) in
      no tiling extending `prefix`. */
  lemma TileRejected(prefix: Placement, tileset: seq<Tile>, wall: Wall, h: int, i: int, j: int, tile: Tile)
    requires 0 <= i < wall.Width() && 0 <= j < h
    requires j > 0 ==> (i, j - 1) in prefix
    requires i > 0 ==> (i - 1, j) in prefix
    requires || tile.up != ExpectedUp(prefix, wall, i, j)
             || tile.left != ExpectedLeft(prefix, wall, i, j)
             || (j == h - 1 && tile.down != wall.down)
    ensures Excluded(prefix, tileset, wall, h, i, j, tile)
  {
    forall P | ValidTiling(P, tileset, wall, h) && Extends(P, prefix)
      ensures (i, j) in P && P[(i, j)] != tile
    {
      assert InWall(wall.Width(), h, i, j);
      assert Fits(P, tileset, wall, h, i, j);
    }
  }

  /** A tile of the set that matches its neighbours at (i, j) extends the
      placement by one cell. */
  lemma TileAccepted(prefix: Placement, tileset: seq<Tile>, wall: Wall, h: int, i: int, j: int, tile: Tile)
    requires 0 <= i < wall.Width() && 0 <= j < h
    requires tile in tileset
    requires PrefixFits(prefix, tileset, wall, h, i, j)
    requires j > 0 ==> (i, j - 1) in prefix
    requires i > 0 ==> (i - 1, j) in prefix
    requires tile.up == ExpectedUp(prefix, wall, i, j)
    requires tile.left == ExpectedLeft(prefix, wall, i, j)
    requires j == h - 1 ==> tile.down == wall.down
    ensures PrefixFits(prefix[(i, j) := tile], tileset, wall, h, i + 1, j)
  {
    var w := wall.Width();
    var next := prefix[(i, j) := tile];
    CoversAfterPlace(prefix, w, h, i, j, tile);
    forall x, y | InWall(w, h, x, y) && Before(x, y, i + 1, j)
      ensures Fits(next, tileset, wall, h, x, y)
    {
      if (x, y) == (i, j) {
        if j > 0 {
          assert next[(i, j - 1)] == prefix[(i, j - 1)];
        }
        if i > 0 {
          assert next[(i - 1, j)] == prefix[(i - 1, j)];
        }
      } else {
        assert Before(x, y, i, j);
        assert Fits(prefix, tileset, wall, h, x, y);
        assert next[(x, y)] == prefix[(x, y)];
        if y > 0 {
          assert (x, y - 1) != (i, j);
          assert next[(x, y - 1)] == prefix[(x, y - 1)];
        }
        if x > 0 {
          assert (x - 1, y) != (i, j);
          assert next[(x - 1, y)] == prefix[(x - 1, y)];
        }
      }
    }
    forall y | 0 <= y < j
      ensures RowCloses(next, wall, y)
    {
      assert RowCloses(prefix, wall, y);
      assert (w - 1, y) != (i, j);
    }
  }

  /** Placing `tile` at (i, j) changes what is expected of that one cell,
      which was empty. */
  lemma ExpectedAfterPlace(wall: Wall, h: int, prefix: Placement, i: int, j: int, tile: Tile)
    requires 0 <= i < wall.Width() && 0 <= j < h
    ensures Expected(wall, h, prefix, i, j, i, j) == None
    ensures forall x, y {:trigger Expected(wall, h, prefix[(i, j) := tile], i + 1, j, x, y)} ::
              Expected(wall, h, prefix[(i, j) := tile], i + 1, j, x, y)
              == if (x, y) == (i, j) then Some(tile) else Expected(wall, h, prefix, i, j, x, y)
  {
  }

  /** Placing a tile at (i, j) covers one more cell in row-major order. */
  lemma CoversAfterPlace(prefix: Placement, w: int, h: int, i: int, j: int, tile: Tile)
    requires 0 <= i < w && 0 <= j < h
    requires CoversBefore(prefix, w, h, i, j)
    ensures CoversBefore(prefix[(i, j) := tile], w, h, i + 1, j)
  {
    var next := prefix[(i, j) := tile];
    forall x, y | InWall(w, h, x, y) && Before(x, y, i + 1, j)
      ensures (x, y) in next
    {
      if (x, y) != (i, j) {
        assert Before(x, y, i, j);
      }
    }
  }

  /** A placement that extends `prefix` with (i, j) set extends `prefix`,
      when (i, j) was not yet placed. */
  lemma ExtendsPlaced(P: Placement, prefix: Placement, i: int, j: int, tile: Tile)
    requires (i, j) !in prefix
    requires Extends(P, prefix[(i, j) := tile])
    ensures Extends(P, prefix)
  {
    forall c | c in prefix
      ensures c in P && P[c] == prefix[c]
    {
      assert c != (i, j);
      assert c in prefix[(i, j) := tile];
    }
  }

  /** No tiling that extends `prefix` holds `t` at (i, j). */
  ghost predicate Excluded(prefix: Placement, tileset: seq<Tile>, wall: Wall, h: int, i: int, j: int, t: Tile)
  {
    forall P {:trigger ValidTiling(P, tileset, wall, h), Extends(P, prefix)} ::
      ValidTiling(P, tileset, wall, h) && Extends(P, prefix) ==> (i, j) in P && P[(i, j)] != t
  }

  /** If no tiling extends `prefix` with `tile` at (i, j), `tile` is excluded there. */
  lemma Exclude(prefix: Placement, tileset: seq<Tile>, wall: Wall, h: int, i: int, j: int, tile: Tile)
    requires InWall(wall.Width(), h, i, j)
    requires forall P :: ValidTiling(P, tileset, wall, h) ==> !Extends(P, prefix[(i, j) := tile])
    ensures Excluded(prefix, tileset, wall, h, i, j, tile)
  {
    forall P | ValidTiling(P, tileset, wall, h) && Extends(P, prefix)
      ensures (i, j) in P && P[(i, j)] != tile
    {
      assert Fits(P, tileset, wall, h, i, j);
      ExtendsWith(P, prefix, i, j);
    }
  }

  /** A placement that extends `prefix` extends it with its own tile at (i, j). */
  lemma ExtendsWith(P: Placement, prefix: Placement, i: int, j: int)
    requires (i, j) in P && Extends(P, prefix)
    ensures Extends(P, prefix[(i, j) := P[(i, j)]])
  {
  }

  /** When every tile of the set is excluded at a cell of the wall, no
      tiling extends `prefix`. */
  lemma AllExcluded(prefix: Placement, tileset: seq<Tile>, wall: Wall, h: int, i: int, j: int)
    requires InWall(wall.Width(), h, i, j)
    requires forall m {:trigger Excluded(prefix, tileset, wall, h, i, j, tileset[m])} ::
               0 <= m < |tileset| ==> Excluded(prefix, tileset, wall, h, i, j, tileset[m])
    ensures forall P :: ValidTiling(P, tileset, wall, h) ==> !Extends(P, prefix)
  {
    forall P | ValidTiling(P, tileset, wall, h)
      ensures !Extends(P, prefix)
    {
      assert Fits(P, tileset, wall, h, i, j);
      var m :| 0 <= m < |tileset| && tileset[m] == P[(i, j)];
      assert Excluded(prefix, tileset, wall, h, i, j, tileset[m]);
    }
  }

  // ---------------------------------------------------------------------
  // Trying heights in turn
  // ---------------------------------------------------------------------

  /** No placement tiles the wall with height `h`. */
  ghost predicate NoTiling(tileset: seq<Tile>, wall: Wall, h: int)
  {
    forall P :: !ValidTiling(P, tileset, wall, h)
  }

  /** A wall of height `height` with the tiles of a tiling added, keyed by
      (column, row). */
  datatype SolvedWall = SolvedWall(wall: Wall, height: int, tiles: Placement)

  /** Which border cells of the grid are written once the sentinel loops
      have finished `stage` of them and the current one has reached `n`:
      the top row, the bottom row, the right column and the left column, in
      that order, corners excluded. */
  predicate Written(w: int, h: int, stage: int, n: int, r: int, c: int)
  {
    || (r == 0 && 1 <= c <= w && (stage > 0 || c < n))
    || (stage >= 1 && r == h + 1 && 1 <= c <= w && (stage > 1 || c < n))
    || (stage >= 2 && c == w + 1 && 1 <= r <= h && (stage > 2 || r < n))
    || (stage >= 3 && c == 0 && 1 <= r <= h && (stage > 3 || r < n))
  }

  /** The written border cells hold their sentinels; all other cells are empty. */
  ghost predicate PartlyFramed(g: Grid, wall: Wall, h: int, stage: int, n: int)
    reads g
  {
    forall r, c {:trigger g[r, c]} :: 0 <= r < g.Length0 && 0 <= c < g.Length1 ==>
      g[r, c] == if Written(wall.Width(), h, stage, n, r, c)
                 then Expected(wall, h, map[], 0, 0, c - 1, r - 1) else None
  }

  /** Builds the grid for height `h`: sentinels on the border ring, every
      other cell empty. */
  method NewGrid(wall: Wall, h: int) returns (g: Grid)
    requires 1 <= wall.Width() && 1 <= h
    ensures fresh(g) && Shaped(g, wall, h)
    ensures Mirrors(g, wall, h, map[], 0, 0)
  {
    g := new Option<Tile>[h + 2, wall.Width() + 2]((_, _) => None);
    FrameRows(g, wall, h);
    FrameColumns(g, wall, h);
    assert PartlyFramed(g, wall, h, 4, 0);
  }

  /** The sentinel loops over the top and the bottom row. */
  method FrameRows(g: Grid, wall: Wall, h: int)
    requires 1 <= wall.Width() && 1 <= h && Shaped(g, wall, h)
    requires PartlyFramed(g, wall, h, 0, 1)
    modifies g
    ensures PartlyFramed(g, wall, h, 2, 1)
  {
    var w := wall.Width();
    var n := 1;
    while n <= w
      invariant 1 <= n <= w + 1
      invariant PartlyFramed(g, wall, h, 0, n)
    {
      g[0, n] := Some(TopSentinel(wall.input[n - 1]));
      n := n + 1;
    }
    n := 1;
    while n <= w
      invariant 1 <= n <= w + 1
      invariant PartlyFramed(g, wall, h, 1, n)
    {
      g[h + 1, n] := Some(BottomSentinel(wall));
      n := n + 1;
    }
  }

  /** The sentinel loops over the right and the left column. */
  method FrameColumns(g: Grid, wall: Wall, h: int)
    requires 1 <= wall.Width() && 1 <= h && Shaped(g, wall, h)
    requires PartlyFramed(g, wall, h, 2, 1)
    modifies g
    ensures PartlyFramed(g, wall, h, 4, 0)
  {
    var w := wall.Width();
    var n := 1;
    while n <= h
      invariant 1 <= n <= h + 1
      invariant PartlyFramed(g, wall, h, 2, n)
    {
      g[n, w + 1] := Some(RightSentinel(wall));
      n := n + 1;
    }
    n := 1;
    while n <= h
      invariant 1 <= n <= h + 1
      invariant PartlyFramed(g, wall, h, 3, n)
    {
      g[n, 0] := Some(LeftSentinel(wall));
      n := n + 1;
    }
  }

  /** Reads the tiling off a grid that mirrors it: cell (x, y) of the
      result is the tile in row y + 1, column x + 1. */
  method ReadTiling(g: Grid, wall: Wall, h: int, ghost solution: Placement) returns (tiles: Placement)
    requires Shaped(g, wall, h)
    requires CoversBefore(solution, wall.Width(), h, 0, h)
    requires Mirrors(g, wall, h, solution, 0, h)
    ensures tiles == solution
  {
    var w := wall.Width();
    tiles := map[];
    var x := 0;
    while x < w
      invariant 0 <= x <= w
      invariant forall c {:trigger c in tiles} :: c in tiles <==> InWall(w, h, c.0, c.1) && c.0 < x
      invariant forall c {:trigger c in tiles} :: c in tiles ==> c in solution && tiles[c] == solution[c]
    {
      var y := 0;
      while y < h
        invariant 0 <= y <= h
        invariant forall c {:trigger c in tiles} :: c in tiles <==> InWall(w, h, c.0, c.1) && (c.0 < x || (c.0 == x && c.1 < y))
        invariant forall c {:trigger c in tiles} :: c in tiles ==> c in solution && tiles[c] == solution[c]
      {
        assert g[y + 1, x + 1] == Expected(wall, h, solution, 0, h, x, y);
        assert InWall(w, h, x, y) && Before(x, y, 0, h);
        tiles := tiles[(x, y) := g[y + 1, x + 1].value];
        y := y + 1;
      }
      x := x + 1;
    }
    assert tiles.Keys == solution.Keys;
  }

  /** Tries the heights 1 to `maxHeight` in turn and returns the wall tiled
      with the first height that admits a tiling, or None when none does. */
  method FindTiling(tileset: seq<Tile>, wall: Wall, maxHeight: int) returns (r: Option<SolvedWall>)
    requires 1 <= wall.Width()
    ensures r.Some? ==> r.value.wall == wall && 1 <= r.value.height <= maxHeight
    ensures r.Some? ==> ValidTiling(r.value.tiles, tileset, wall, r.value.height)
    ensures r.Some? ==> forall h :: 1 <= h < r.value.height ==> NoTiling(tileset, wall, h)
    ensures r.None? ==> forall h :: 1 <= h <= maxHeight ==> NoTiling(tileset, wall, h)
  {
    var h := 1;
    while h <= maxHeight
      invariant 1 <= h
      invariant forall k :: 1 <= k < h ==> NoTiling(tileset, wall, k)
    {
      var g := NewGrid(wall, h);
      var found;
      ghost var solution;
      found, solution := FindTilingRecursive(0, 0, tileset, g, wall, h, map[]);
      if found {
        var tiles := ReadTiling(g, wall, h, solution);
        return Some(SolvedWall(wall, h, tiles));
      }
      forall P
        ensures !ValidTiling(P, tileset, wall, h)
      {
        assert Extends(P, map[]);
      }
      h := h + 1;
    }
    return None;
  }
}
