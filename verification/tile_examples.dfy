/** The `divby3` example wall and tiles. */
module TileExamples {
  import opened Tiles

  // ---------------------------------------------------------------------
  // The `divby3` example
  // ---------------------------------------------------------------------

  const Palette: seq<Color> := ["#b91e2f", "#f68828", "#cdd190", "#122f30"]

  /** The colour "0", "1" or "2" of a remainder modulo 3. */
  function Digit(a: int): Color
  {
    if a == 0 then "0" else if a == 1 then "1" else "2"
  }

  /** The `divby3` wall: "0" on the left and right, the first palette colour
      at the bottom. */
  function DivBy3Wall(input: string): Wall
  {
    Wall("0", Unset, "0", Palette[0], input)
  }

  /** The `divby3` tiles: a tile with input u on top and remainder a on the
      left shows remainder (a + u) mod 3 on the right. */
  const DivBy3Tiles: seq<Tile> := [
    Tile("0", "0", "0", Palette[0]),
    Tile("1", "0", "1", Palette[0]),
    Tile("2", "0", "2", Palette[0]),
    Tile("1", "1", "0", Palette[0]),
    Tile("2", "1", "1", Palette[0]),
    Tile("0", "1", "2", Palette[0])
  ]

  const DivBy3Input: string := "10110111"

  function Bit(c: char): nat
  {
    if c == '1' then 1 else 0
  }

  /** The number of '1' characters in `s`. */
  function Ones(s: string): nat
  {
    if |s| == 0 then 0 else Ones(s[..|s| - 1]) + Bit(s[|s| - 1])
  }

  predicate IsBinary(s: string)
  {
    forall k :: 0 <= k < |s| ==> s[k] == '0' || s[k] == '1'
  }

  /** Adds a bit to a remainder modulo 3. */
  function AddBit(a: int, b: int): int
  {
    if a + b == 3 then 0 else a + b
  }

  /** The remainder a row of `divby3` tiles carries after the first x input
      characters. */
  function Carry(s: string, x: int): (a: int)
    requires 0 <= x <= |s|
    ensures 0 <= a < 3
  {
    if x == 0 then 0 else AddBit(Carry(s, x - 1), Bit(s[x - 1]))
  }

  lemma {:induction false} CarryCountsOnes(s: string, x: int)
    requires 0 <= x <= |s|
    ensures Carry(s, x) == Ones(s[..x]) % 3
  {
    if x > 0 {
      CarryCountsOnes(s, x - 1);
      assert s[..x][..x - 1] == s[..x - 1];
    }
  }

  /** The tile for input `c` and left remainder `a`: it shows the remainder
      with `c` added on its right. */
  function DivBy3Tile(a: int, c: char): Tile
    requires 0 <= a < 3
  {
    Tile(Digit(AddBit(a, Bit(c))), [c], Digit(a), Palette[0])
  }

  /** The set holds exactly one tile per remainder and input bit. */
  lemma DivBy3TileInSet(a: int, c: char)
    requires 0 <= a < 3 && (c == '0' || c == '1')
    ensures DivBy3Tile(a, c) in DivBy3Tiles
  {
    if c == '0' {
      assert DivBy3Tile(a, c) == DivBy3Tiles[a];
    } else {
      assert DivBy3Tile(a, c) == DivBy3Tiles[3 + a];
    }
  }

  /** Every tile of the set adds its input to the remainder on its left. */
  lemma DivBy3TileRule(t: Tile, a: int, c: char)
    requires t in DivBy3Tiles && 0 <= a < 3 && (c == '0' || c == '1')
    requires t.up == [c] && t.left == Digit(a)
    ensures t == DivBy3Tile(a, c)
  {
  }

  /** In a tiling of height 1, the tile in column x shows on its right the
      remainder carried after x + 1 input characters. */
  lemma {:induction false} DivBy3Carry(P: Placement, input: string, x: int)
    requires IsBinary(input) && 0 <= x < |input|
    requires ValidTiling(P, DivBy3Tiles, DivBy3Wall(input), 1)
    ensures (x, 0) in P && P[(x, 0)].right == Digit(Carry(input, x + 1))
  {
    assert InWall(|input|, 1, x, 0);
    assert Fits(P, DivBy3Tiles, DivBy3Wall(input), 1, x, 0);
    if x > 0 {
      DivBy3Carry(P, input, x - 1);
    }
    DivBy3TileRule(P[(x, 0)], Carry(input, x), input[x]);
  }

  /** The first n tiles of the row of height 1 that carries the running
      remainder along. */
  ghost function DivBy3Row(input: string, n: int): Placement
    requires IsBinary(input) && 0 <= n <= |input|
  {
    if n == 0 then map[]
    else DivBy3Row(input, n - 1)[(n - 1, 0) := DivBy3Tile(Carry(input, n - 1), input[n - 1])]
  }

  lemma {:induction false} DivBy3RowAt(input: string, n: int, c: (int, int))
    requires IsBinary(input) && 0 <= n <= |input|
    ensures c in DivBy3Row(input, n) <==> c.1 == 0 && 0 <= c.0 < n
    ensures c in DivBy3Row(input, n) ==> DivBy3Row(input, n)[c] == DivBy3Tile(Carry(input, c.0), input[c.0])
  {
    if n > 0 {
      DivBy3RowAt(input, n - 1, c);
    }
  }

  /** `P` places, in each column x of row 0, the tile for the x-th input
      character and the remainder carried after the first x characters. */
  ghost predicate CarriesRow(P: Placement, input: string)
    requires IsBinary(input)
  {
    && (forall c {:trigger c in P} :: c in P <==> c.1 == 0 && 0 <= c.0 < |input|)
    && (forall x {:trigger (x, 0) in P} :: 0 <= x < |input| ==>
          P[(x, 0)] == DivBy3Tile(Carry(input, x), input[x]))
  }

  lemma DivBy3RowCarries(input: string)
    requires IsBinary(input)
    ensures CarriesRow(DivBy3Row(input, |input|), input)
  {
    var P := DivBy3Row(input, |input|);
    forall c {:trigger c in P}
      ensures c in P <==> c.1 == 0 && 0 <= c.0 < |input|
    {
      DivBy3RowAt(input, |input|, c);
    }
    forall x {:trigger (x, 0) in P} | 0 <= x < |input|
      ensures (x, 0) in P && P[(x, 0)] == DivBy3Tile(Carry(input, x), input[x])
    {
      DivBy3RowAt(input, |input|, (x, 0));
    }
  }

  /** Each tile of such a row fits. */
  lemma DivBy3RowFits(P: Placement, input: string, x: int, y: int)
    requires IsBinary(input) && CarriesRow(P, input) && InWall(|input|, 1, x, y)
    ensures Fits(P, DivBy3Tiles, DivBy3Wall(input), 1, x, y)
  {
    assert (x, 0) in P;
    DivBy3TileInSet(Carry(input, x), input[x]);
    if x > 0 {
      assert (x - 1, 0) in P;
    }
  }

  /** The last tile of such a row shows the remainder of the whole input. */
  lemma DivBy3RowEnd(P: Placement, input: string)
    requires IsBinary(input) && CarriesRow(P, input) && 1 <= |input|
    ensures (|input| - 1, 0) in P && P[(|input| - 1, 0)].right == Digit(Carry(input, |input|))
  {
    var k := |input| - 1;
    assert (k, 0) in P && P[(k, 0)] == DivBy3Tile(Carry(input, k), input[k]);
  }

  /** A row whose last tile shows remainder 0 closes on the wall's right side. */
  lemma DivBy3RowCloses(P: Placement, input: string, y: int)
    requires 1 <= |input| && Carry(input, |input|) == 0 && y == 0
    requires (|input| - 1, 0) in P && P[(|input| - 1, 0)].right == Digit(Carry(input, |input|))
    ensures RowCloses(P, DivBy3Wall(input), y)
  {
  }

  /** Such a row is a tiling of height 1 when the ones are a multiple of 3. */
  lemma DivBy3RowIsTiling(P: Placement, input: string)
    requires IsBinary(input) && CarriesRow(P, input)
    requires 1 <= |input| && Carry(input, |input|) == 0
    ensures ValidTiling(P, DivBy3Tiles, DivBy3Wall(input), 1)
  {
    var wall := DivBy3Wall(input);
    DivBy3RowEnd(P, input);
    forall y | 0 <= y < 1
      ensures RowCloses(P, wall, y)
    {
      DivBy3RowCloses(P, input, y);
    }
    forall x, y {:trigger Fits(P, DivBy3Tiles, wall, 1, x, y)} | InWall(|input|, 1, x, y)
      ensures Fits(P, DivBy3Tiles, wall, 1, x, y)
    {
      DivBy3RowFits(P, input, x, y);
    }
    DivBy3RowCovers(P, input);
  }

  /** Such a row covers the whole wall of height 1. */
  lemma DivBy3RowCovers(P: Placement, input: string)
    requires IsBinary(input) && CarriesRow(P, input)
    ensures CoversBefore(P, |input|, 1, 0, 1)
  {
  }

  /** A wall of binary input has a tiling of height 1 with the `divby3`
      tiles exactly when the number of ones in its input is a multiple of 3. */
  lemma DivBy3(input: string)
    requires IsBinary(input) && 1 <= |input|
    ensures (exists P :: ValidTiling(P, DivBy3Tiles, DivBy3Wall(input), 1)) <==> Ones(input) % 3 == 0
  {
    CarryCountsOnes(input, |input|);
    assert input[..|input|] == input;
    if Ones(input) % 3 == 0 {
      DivBy3RowCarries(input);
      DivBy3RowIsTiling(DivBy3Row(input, |input|), input);
    }
    forall P | ValidTiling(P, DivBy3Tiles, DivBy3Wall(input), 1)
      ensures Ones(input) % 3 == 0
    {
      DivBy3Carry(P, input, |input| - 1);
      assert RowCloses(P, DivBy3Wall(input), 0);
    }
  }

  lemma OnesStep(s: string, k: int)
    requires 0 <= k < |s|
    ensures Ones(s[..k + 1]) == Ones(s[..k]) + Bit(s[k])
  {
    assert s[..k + 1][..k] == s[..k];
  }

  /** The example's input has six ones, so it has a tiling of height 1. */
  lemma DivBy3Example()
    ensures exists P :: ValidTiling(P, DivBy3Tiles, DivBy3Wall(DivBy3Input), 1)
  {
    var s := DivBy3Input;
    assert IsBinary(s);
    OnesStep(s, 0); OnesStep(s, 1); OnesStep(s, 2); OnesStep(s, 3);
    OnesStep(s, 4); OnesStep(s, 5); OnesStep(s, 6); OnesStep(s, 7);
    assert s[..0] == [] && s[..8] == s;
    DivBy3(s);
  }
}
