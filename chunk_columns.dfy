/**
 * A chunk: sixteen optional sections stacked vertically, and the surface
 * colour and height of each of its 16x16 columns.  A column's colour starts
 * at its highest fully opaque block and has every block above it, up to the
 * top of the highest section present, overlaid in turn; its height is the
 * highest of those blocks that is opaque enough to show.
 */
module ChunkColumns {
  import opened Wrappers
  import opened JavaInts
  import opened Colors
  import opened Voxels
  import opened Chunks

  /** The block data of each section, None where the section is absent. */
  type View = seq<Option<seq<BlockData>>>

  predicate WellFormed(v: View)
  {
    |v| == NSECTIONS && forall i :: 0 <= i < |v| && v[i].Some? ==> |v[i].value| == CUBE_16
  }

  /** The block at height `y` (0..255) of column (x, z); the air block where the section is absent. */
  function ColumnBlock(v: View, air: BlockData, x: int, y: int, z: int): BlockData
    requires WellFormed(v) && 0 <= x < NBLOCKS && 0 <= y < NSECTIONS * NBLOCKS && 0 <= z < NBLOCKS
  {
    IndexInRange(x, y % NBLOCKS, z);
    if v[y / NBLOCKS].None? then air else v[y / NBLOCKS].value[Index(x, y % NBLOCKS, z)]
  }

  /**
   * `blockAt(x, y, z)` of a chunk: section `y / 16` at local height `y % 16`,
   * both with Java's truncating division.  Heights above the chunk fail, and
   * so do heights below zero unless they fall in an absent section 0, which
   * gives the air block.
   */
  function ViewBlockAt(v: View, air: BlockData, x: int, y: int, z: int): (r: Result<BlockData>)
    requires WellFormed(v) && 0 <= x < NBLOCKS && 0 <= z < NBLOCKS
    ensures 0 <= y < NSECTIONS * NBLOCKS ==> r == Success(ColumnBlock(v, air, x, y, z))
    ensures -NBLOCKS < y < 0 ==> r == (if v[0].None? then Success(air) else Failure(IndexOutOfBounds))
    ensures y <= -NBLOCKS || y >= NSECTIONS * NBLOCKS ==> r == Failure(IndexOutOfBounds)
  {
    var s, localY := TruncDiv(y, NSECTIONS), TruncMod(y, NSECTIONS);
    if s < 0 || s >= NSECTIONS then Failure(IndexOutOfBounds)
    else if v[s].None? then Success(air)
    else if 0 <= Index(x, localY, z) < CUBE_16 then Success(v[s].value[Index(x, localY, z)])
    else Failure(IndexOutOfBounds)
  }

  /** Height `y` of column (x, z) holds a fully opaque block of a section that is present. */
  predicate OpaqueAt(v: View, x: int, y: int, z: int)
    requires WellFormed(v) && 0 <= x < NBLOCKS && 0 <= z < NBLOCKS
  {
    0 <= y < NSECTIONS * NBLOCKS && v[y / NBLOCKS].Some? &&
    (IndexInRange(x, y % NBLOCKS, z); v[y / NBLOCKS].value[Index(x, y % NBLOCKS, z)].IsFullyOpaque())
  }

  /** Heights `16 s` to `16 s + 15` lie in section `s`, at local height `y - 16 s`. */
  lemma InSection(y: int, s: int)
    requires NBLOCKS * s <= y < NBLOCKS * (s + 1)
    ensures y / NBLOCKS == s && y % NBLOCKS == y - NBLOCKS * s
  {
  }

  /**
   * `highestOpaqueBlock(x, z, s)` as a value: scanning down from section `s`,
   * the first present section with a fully opaque block in the column gives
   * that block's height; -1 when there is none.
   */
  function TopOpaque(v: View, x: int, z: int, s: int): (y: int)
    requires WellFormed(v) && 0 <= x < NBLOCKS && 0 <= z < NBLOCKS && -1 <= s < NSECTIONS
    ensures -1 <= y < NBLOCKS * (s + 1)
    decreases s + 1
  {
    if s < 0 then -1
    else
      var local := if v[s].Some? then TopOpaqueBelow(v[s].value, x, z, NBLOCKS) else -1;
      if local > -1 then local + NBLOCKS * s else TopOpaque(v, x, z, s - 1)
  }

  /**
   * What `TopOpaque` finds: a fully opaque block of a present section, with
   * none above it up to the top of section `s`.
   */
  lemma {:induction false} TopOpaqueMeaning(v: View, x: int, z: int, s: int)
    requires WellFormed(v) && 0 <= x < NBLOCKS && 0 <= z < NBLOCKS && -1 <= s < NSECTIONS
    ensures TopOpaque(v, x, z, s) >= 0 ==> OpaqueAt(v, x, TopOpaque(v, x, z, s), z)
    ensures forall yy :: TopOpaque(v, x, z, s) < yy < NBLOCKS * (s + 1) ==> !OpaqueAt(v, x, yy, z)
    decreases s + 1
  {
    if s >= 0 {
      var local := if v[s].Some? then TopOpaqueBelow(v[s].value, x, z, NBLOCKS) else -1;
      TopOpaqueStep(v, x, z, s, local);
      TopOpaqueUnfold(v, x, z, s, local);
      if local <= -1 {
        TopOpaqueMeaning(v, x, z, s - 1);
        NoneAboveJoin(v, x, z, s, TopOpaque(v, x, z, s - 1));
      }
    }
  }

  /** One step of `TopOpaque`: section `s`'s own top block if it has one, else the answer below it. */
  lemma TopOpaqueUnfold(v: View, x: int, z: int, s: int, local: int)
    requires WellFormed(v) && 0 <= x < NBLOCKS && 0 <= z < NBLOCKS && 0 <= s < NSECTIONS
    requires local == if v[s].Some? then TopOpaqueBelow(v[s].value, x, z, NBLOCKS) else -1
    ensures TopOpaque(v, x, z, s) == if local > -1 then local + NBLOCKS * s else TopOpaque(v, x, z, s - 1)
  {
  }

  /** No opaque block above `below` in the sections under `s` nor in `s` itself: none above it up to the top of `s`. */
  lemma NoneAboveJoin(v: View, x: int, z: int, s: int, below: int)
    requires WellFormed(v) && 0 <= x < NBLOCKS && 0 <= z < NBLOCKS && 0 <= s < NSECTIONS
    requires below < NBLOCKS * s
    requires forall yy :: below < yy < NBLOCKS * s ==> !OpaqueAt(v, x, yy, z)
    requires forall yy :: NBLOCKS * s - 1 < yy < NBLOCKS * (s + 1) ==> !OpaqueAt(v, x, yy, z)
    ensures forall yy :: below < yy < NBLOCKS * (s + 1) ==> !OpaqueAt(v, x, yy, z)
  {
    forall yy | below < yy < NBLOCKS * (s + 1)
      ensures !OpaqueAt(v, x, yy, z)
    {
      if yy >= NBLOCKS * s {
        assert NBLOCKS * s - 1 < yy;
      }
    }
  }

  /** Section `s` seen whole: its top opaque block is the highest opaque height in it. */
  lemma TopOpaqueStep(v: View, x: int, z: int, s: int, local: int)
    requires WellFormed(v) && 0 <= x < NBLOCKS && 0 <= z < NBLOCKS && 0 <= s < NSECTIONS
    requires local == if v[s].Some? then TopOpaqueBelow(v[s].value, x, z, NBLOCKS) else -1
    ensures local >= 0 ==> OpaqueAt(v, x, local + NBLOCKS * s, z)
    ensures forall yy :: NBLOCKS * s + local < yy < NBLOCKS * (s + 1) ==> !OpaqueAt(v, x, yy, z)
  {
    if local >= 0 {
      OpaqueInSection(v, x, z, s, local + NBLOCKS * s, local);
    }
    forall yy | NBLOCKS * s + local < yy < NBLOCKS * (s + 1)
      ensures !OpaqueAt(v, x, yy, z)
    {
      OpaqueInSection(v, x, z, s, yy, yy - NBLOCKS * s);
    }
  }

  /** Opacity at height `y` is that of local height `ly` in section `s`. */
  lemma OpaqueInSection(v: View, x: int, z: int, s: int, y: int, ly: int)
    requires WellFormed(v) && 0 <= x < NBLOCKS && 0 <= z < NBLOCKS && 0 <= s < NSECTIONS
    requires 0 <= ly < NBLOCKS && y == NBLOCKS * s + ly
    ensures 0 <= Index(x, ly, z) < CUBE_16
    ensures OpaqueAt(v, x, y, z) <==> v[s].Some? && v[s].value[Index(x, ly, z)].IsFullyOpaque()
  {
    IndexInRange(x, ly, z);
    InSection(y, s);
  }

  /**
   * The colour half of the loop of `computeColorsAndHeights`, from height
   * `y` up to `maxY`: each block's computed colour overlaid on the
   * accumulator in turn.
   */
  function ColorFold(v: View, air: BlockData, x: int, z: int, y: int, maxY: int, acc: Color): Color
    requires WellFormed(v) && 0 <= x < NBLOCKS && 0 <= z < NBLOCKS && 0 <= y && maxY <= NSECTIONS * NBLOCKS
    decreases maxY - y
  {
    if y >= maxY then acc
    else ColorFold(v, air, x, z, y + 1, maxY, Overlay(acc, ColumnBlock(v, air, x, y, z).computedColor))
  }

  /**
   * The height half of the same loop: the marker moves to every block that
   * is opaque enough.
   */
  function HeightMark(v: View, air: BlockData, x: int, z: int, y: int, maxY: int, height: int): int
    requires WellFormed(v) && 0 <= x < NBLOCKS && 0 <= z < NBLOCKS && 0 <= y && maxY <= NSECTIONS * NBLOCKS
    decreases maxY - y
  {
    if y >= maxY then height
    else HeightMark(v, air, x, z, y + 1, maxY, if ColumnBlock(v, air, x, y, z).OpaqueEnough() then y else height)
  }

  /** One step of the loop: the block `b` at `y` overlaid, the height marker moved if it is opaque enough. */
  lemma FoldStep(v: View, air: BlockData, x: int, z: int, y: int, maxY: int, acc: Color, height: int, b: BlockData)
    requires WellFormed(v) && 0 <= x < NBLOCKS && 0 <= z < NBLOCKS && 0 <= y < maxY <= NSECTIONS * NBLOCKS
    requires b == ColumnBlock(v, air, x, y, z)
    ensures ColorFold(v, air, x, z, y, maxY, acc) == ColorFold(v, air, x, z, y + 1, maxY, Overlay(acc, b.computedColor))
    ensures HeightMark(v, air, x, z, y, maxY, height) ==
      HeightMark(v, air, x, z, y + 1, maxY, if b.OpaqueEnough() then y else height)
  {
  }

  /**
   * The height marker ends on the highest block from `y` up that is opaque
   * enough, or stays where it was when there is none.
   */
  lemma {:induction false} HeightMarkMeaning(v: View, air: BlockData, x: int, z: int, y: int, maxY: int, height: int)
    requires WellFormed(v) && 0 <= x < NBLOCKS && 0 <= z < NBLOCKS && 0 <= y && maxY <= NSECTIONS * NBLOCKS
    requires height < y
    ensures var h := HeightMark(v, air, x, z, y, maxY, height);
      (h == height || (y <= h < maxY && ColumnBlock(v, air, x, h, z).OpaqueEnough())) &&
      forall yy :: y <= yy < maxY && h < yy ==> !ColumnBlock(v, air, x, yy, z).OpaqueEnough()
    decreases maxY - y
  {
    if y < maxY {
      var b := ColumnBlock(v, air, x, y, z);
      HeightMarkMeaning(v, air, x, z, y + 1, maxY, if b.OpaqueEnough() then y else height);
    }
  }

  /** Overlaying never lowers the accumulator's alpha. */
  lemma {:induction false} ColorFoldAlpha(v: View, air: BlockData, x: int, z: int, y: int, maxY: int, acc: Color)
    requires WellFormed(v) && 0 <= x < NBLOCKS && 0 <= z < NBLOCKS && 0 <= y && maxY <= NSECTIONS * NBLOCKS
    ensures ColorFold(v, air, x, z, y, maxY, acc).alpha >= acc.alpha
    decreases maxY - y
  {
    if y < maxY {
      ColorFoldAlpha(v, air, x, z, y + 1, maxY, Overlay(acc, ColumnBlock(v, air, x, y, z).computedColor));
    }
  }

  /** Blocks that are all fully transparent leave the accumulated colour as it is. */
  lemma {:induction false} ColorFoldClearAbove(v: View, air: BlockData, x: int, z: int, y: int, maxY: int, acc: Color)
    requires WellFormed(v) && 0 <= x < NBLOCKS && 0 <= z < NBLOCKS && 0 <= y && maxY <= NSECTIONS * NBLOCKS
    requires forall yy :: y <= yy < maxY ==> ColumnBlock(v, air, x, yy, z).computedColor.alpha == 0
    ensures ColorFold(v, air, x, z, y, maxY, acc) == acc
    decreases maxY - y
  {
    if y < maxY {
      OverlayTransparent(acc, ColumnBlock(v, air, x, y, z).computedColor);
      ColorFoldClearAbove(v, air, x, z, y + 1, maxY, acc);
    }
  }

  /**
   * One column of `computeColorsAndHeights` with `h` the highest section:
   * the top opaque block's colour with the blocks above it overlaid, then
   * de-multiplied, and the height marker.  Reading the block at the top
   * opaque height fails when there is none and section 0 is present.
   */
  function ColumnResult(v: View, air: BlockData, h: int, x: int, z: int): Result<(Color, int)>
    requires WellFormed(v) && 0 <= h < NSECTIONS && 0 <= x < NBLOCKS && 0 <= z < NBLOCKS
  {
    ColumnAt(v, air, h, x, z, TopOpaque(v, x, z, h))
  }

  /** A column's result when its top opaque block is at `yOpaque`. */
  function ColumnAt(v: View, air: BlockData, h: int, x: int, z: int, yOpaque: int): Result<(Color, int)>
    requires WellFormed(v) && 0 <= h < NSECTIONS && 0 <= x < NBLOCKS && 0 <= z < NBLOCKS
    requires -1 <= yOpaque < NBLOCKS * (h + 1)
  {
    var first := FirstBlock(v, air, x, yOpaque, z);
    ColumnOf(first, if first.Failure? then TRANSPARENT
      else ColorFold(v, air, x, z, yOpaque + 1, NBLOCKS * (h + 1), first.value.computedColor),
      HeightMark(v, air, x, z, yOpaque + 1, NBLOCKS * (h + 1), yOpaque))
  }

  /** The stored values of a column: the folded colour de-multiplied and the height, unless the first block failed. */
  function ColumnOf(first: Result<BlockData>, pixelColor: Color, height: int): Result<(Color, int)>
  {
    if first.Failure? then Failure(first.error) else Success((DemultiplyAlpha(pixelColor), height))
  }

  /** A column's result from its parts: the first block, the folded colour and the height marker. */
  lemma ColumnResultOf(v: View, air: BlockData, h: int, x: int, z: int, yOpaque: int, first: Result<BlockData>, pixelColor: Color, height: int)
    requires WellFormed(v) && 0 <= h < NSECTIONS && 0 <= x < NBLOCKS && 0 <= z < NBLOCKS
    requires yOpaque == TopOpaque(v, x, z, h) && first == FirstBlock(v, air, x, yOpaque, z)
    requires first.Success? ==>
      pixelColor == ColorFold(v, air, x, z, yOpaque + 1, NBLOCKS * (h + 1), first.value.computedColor) &&
      height == HeightMark(v, air, x, z, yOpaque + 1, NBLOCKS * (h + 1), yOpaque)
    ensures ColumnResult(v, air, h, x, z) ==
      if first.Failure? then Failure(first.error) else Success((DemultiplyAlpha(pixelColor), height))
  {
    assert ColumnResult(v, air, h, x, z) == ColumnAt(v, air, h, x, z, yOpaque);
  }

  /** The height half of a column's result, which does not depend on whether its first block can be read. */
  function SurfaceHeight(v: View, air: BlockData, h: int, x: int, z: int): int
    requires WellFormed(v) && 0 <= h < NSECTIONS && 0 <= x < NBLOCKS && 0 <= z < NBLOCKS
  {
    var yOpaque := TopOpaque(v, x, z, h);
    HeightMark(v, air, x, z, yOpaque + 1, NBLOCKS * (h + 1), yOpaque)
  }

  /**
   * The block a column's colour starts from, at the top opaque height or at
   * -1 when there is none: `blockAt` at those heights, as `ViewBlockAt`'s
   * contract states.
   */
  function FirstBlock(v: View, air: BlockData, x: int, y: int, z: int): Result<BlockData>
    requires WellFormed(v) && 0 <= x < NBLOCKS && 0 <= z < NBLOCKS && -1 <= y < NSECTIONS * NBLOCKS
  {
    if y >= 0 then Success(ColumnBlock(v, air, x, y, z))
    else if v[0].None? then Success(air)
    else Failure(IndexOutOfBounds)
  }

  lemma FirstBlockIsBlockAt(v: View, air: BlockData, x: int, y: int, z: int)
    requires WellFormed(v) && 0 <= x < NBLOCKS && 0 <= z < NBLOCKS && -1 <= y < NSECTIONS * NBLOCKS
    ensures FirstBlock(v, air, x, y, z) == ViewBlockAt(v, air, x, y, z)
  {
  }

  /** Every block of every present section has its computed colour. */
  predicate Colored(v: View)
    requires WellFormed(v)
  {
    forall i :: 0 <= i < NSECTIONS && v[i].Some? ==> ComputedColors(v[i].value)
  }

  /**
   * When a column's result exists: exactly when the column has a fully
   * opaque block or section 0 is absent; otherwise reading the block at
   * height -1 fails with ArrayIndexOutOfBoundsException.
   */
  lemma ColumnExists(v: View, air: BlockData, h: int, x: int, z: int)
    requires WellFormed(v) && Colored(v) && 0 <= h < NSECTIONS && 0 <= x < NBLOCKS && 0 <= z < NBLOCKS
    ensures var r := ColumnResult(v, air, h, x, z);
      (r.Success? <==> TopOpaque(v, x, z, h) >= 0 || v[0].None?) &&
      (r.Failure? ==> r.error == IndexOutOfBounds)
  {
    FirstBlockMeaning(v, air, h, x, z);
  }

  /**
   * A column's height: the highest opaque-enough block above the top opaque
   * one, or the top opaque one itself, and below the top of section `h`.
   */
  lemma ColumnHeight(v: View, air: BlockData, h: int, x: int, z: int)
    requires WellFormed(v) && 0 <= h < NSECTIONS && 0 <= x < NBLOCKS && 0 <= z < NBLOCKS
    ensures var yOpaque, height := TopOpaque(v, x, z, h), SurfaceHeight(v, air, h, x, z);
      yOpaque <= height < NBLOCKS * (h + 1) &&
      (height > yOpaque ==> ColumnBlock(v, air, x, height, z).OpaqueEnough()) &&
      (forall yy :: height < yy < NBLOCKS * (h + 1) ==> !ColumnBlock(v, air, x, yy, z).OpaqueEnough())
  {
    var yOpaque := TopOpaque(v, x, z, h);
    HeightMarkMeaning(v, air, x, z, yOpaque + 1, NBLOCKS * (h + 1), yOpaque);
  }

  /** A column with a fully opaque block has a result. */
  lemma ColumnSucceeds(v: View, air: BlockData, h: int, x: int, z: int)
    requires WellFormed(v) && Colored(v) && 0 <= h < NSECTIONS && 0 <= x < NBLOCKS && 0 <= z < NBLOCKS
    requires TopOpaque(v, x, z, h) >= 0
    ensures ColumnResult(v, air, h, x, z).Success?
  {
    FirstBlockMeaning(v, air, h, x, z);
  }

  /** Over a fully opaque block, the surface colour is fully opaque. */
  lemma ColumnOpaque(v: View, air: BlockData, h: int, x: int, z: int)
    requires WellFormed(v) && Colored(v) && 0 <= h < NSECTIONS && 0 <= x < NBLOCKS && 0 <= z < NBLOCKS
    requires TopOpaque(v, x, z, h) >= 0
    ensures var r := ColumnResult(v, air, h, x, z);
      r.Success? && r.value.0.alpha == MAX_BYTE
  {
    var yOpaque := TopOpaque(v, x, z, h);
    var first := FirstBlock(v, air, x, yOpaque, z);
    assert first.Success? && first.value.computedColor.alpha == MAX_BYTE by {
      FirstBlockMeaning(v, air, h, x, z);
    }
    var pixelColor := ColorFold(v, air, x, z, yOpaque + 1, NBLOCKS * (h + 1), first.value.computedColor);
    assert pixelColor.alpha == MAX_BYTE by {
      ColorFoldAlpha(v, air, x, z, yOpaque + 1, NBLOCKS * (h + 1), first.value.computedColor);
    }
    DemultiplyOpaque(pixelColor);
    var height := HeightMark(v, air, x, z, yOpaque + 1, NBLOCKS * (h + 1), yOpaque);
    ColumnResultOf(v, air, h, x, z, yOpaque, first, pixelColor, height);
  }

  /**
   * The block a column starts from: it can be read exactly when the column
   * has a fully opaque block or section 0 is absent, and a fully opaque
   * block's computed colour is fully opaque.
   */
  lemma FirstBlockMeaning(v: View, air: BlockData, h: int, x: int, z: int)
    requires WellFormed(v) && Colored(v) && 0 <= h < NSECTIONS && 0 <= x < NBLOCKS && 0 <= z < NBLOCKS
    ensures var yOpaque := TopOpaque(v, x, z, h);
      var first := FirstBlock(v, air, x, yOpaque, z);
      (first.Success? <==> yOpaque >= 0 || v[0].None?) &&
      (first.Failure? ==> first.error == IndexOutOfBounds) &&
      (yOpaque >= 0 ==> first.value.computedColor.alpha == MAX_BYTE)
  {
    var yOpaque := TopOpaque(v, x, z, h);
    TopOpaqueMeaning(v, x, z, h);
    if yOpaque >= 0 {
      var s := yOpaque / NBLOCKS;
      IndexBijection(x, yOpaque % NBLOCKS, z);
      var b := v[s].value[Index(x, yOpaque % NBLOCKS, z)];
      assert ColumnBlock(v, air, x, yOpaque, z) == b;
      assert ComputedColors(v[s].value);
      assert b.computedColor == ComputeColor(b.block, b.biome);
    }
  }

  /** The result of each column of a row (`row[x]`), or of a whole chunk (`t[z][x]`). */
  type Row = seq<Result<(Color, int)>>
  type Table = seq<Row>

  /** The results of all columns: `t[z][x]` is column (x, z)'s. */
  function Results(v: View, air: BlockData, h: int): (t: Table)
    requires WellFormed(v) && 0 <= h < NSECTIONS
    ensures |t| == NBLOCKS && forall z :: 0 <= z < NBLOCKS ==> |t[z]| == NBLOCKS
  {
    seq(NBLOCKS, z requires 0 <= z < NBLOCKS =>
      seq(NBLOCKS, x requires 0 <= x < NBLOCKS => ColumnResult(v, air, h, x, z)))
  }

  /** The first column from `x` on whose result fails, or the row's length when none does. */
  function FirstFailingColumn(row: Row, x: int): (f: int)
    requires 0 <= x <= |row|
    ensures x <= f <= |row|
    ensures forall i :: x <= i < f ==> row[i].Success?
    ensures f < |row| ==> row[f].Failure?
    decreases |row| - x
  {
    if x == |row| then x
    else if row[x].Failure? then x
    else FirstFailingColumn(row, x + 1)
  }

  /** Column (xx, zz) comes before column (x, z) in z-major order. */
  predicate Before(zz: int, xx: int, z: int, x: int)
  {
    zz < z || (zz == z && xx < x)
  }

  /**
   * The first column, in z-major order from row `z` on, whose result fails:
   * its (row, column), or (number of rows, 0) when none does.
   */
  function FirstFailure(t: Table, z: int): (f: (int, int))
    requires 0 <= z <= |t| && forall i :: 0 <= i < |t| ==> |t[i]| == NBLOCKS
    ensures z <= f.0 <= |t|
    ensures f.0 == |t| ==> f.1 == 0
    ensures f.0 < |t| ==> 0 <= f.1 < NBLOCKS && t[f.0][f.1].Failure?
    ensures forall zz, xx :: z <= zz < |t| && 0 <= xx < NBLOCKS && Before(zz, xx, f.0, f.1) ==> t[zz][xx].Success?
    decreases |t| - z
  {
    if z == |t| then (z, 0)
    else
      var x := FirstFailingColumn(t[z], 0);
      if x < NBLOCKS then (z, x) else FirstFailure(t, z + 1)
  }

  /**
   * A column whose result fails, with every column before it succeeding, is
   * the first failure; when every column succeeds there is none.
   */
  lemma FirstFailureIs(t: Table, z: int, x: int)
    requires |t| == NBLOCKS && forall i :: 0 <= i < |t| ==> |t[i]| == NBLOCKS
    requires 0 <= z <= NBLOCKS && 0 <= x < NBLOCKS && (z == NBLOCKS ==> x == 0)
    requires forall zz, xx :: 0 <= zz < NBLOCKS && 0 <= xx < NBLOCKS && Before(zz, xx, z, x) ==> t[zz][xx].Success?
    requires z < NBLOCKS ==> t[z][x].Failure?
    ensures FirstFailure(t, 0) == (z, x)
  {
    var f := FirstFailure(t, 0);
    if f.0 < NBLOCKS {
      assert !Before(f.0, f.1, z, x) by {
        assert t[f.0][f.1].Failure?;
      }
    }
    if z < NBLOCKS {
      assert !Before(z, x, f.0, f.1) by {
        assert t[z][x].Failure?;
      }
    }
  }

  /** The highest index holding a section, or -1 when there is none. */
  function HighestPresent(sections: seq<ChunkSection?>): (h: int)
    ensures -1 <= h < |sections|
    ensures h >= 0 ==> sections[h] != null
    ensures forall i :: h < i < |sections| ==> sections[i] == null
  {
    if sections == [] then -1
    else if sections[|sections| - 1] != null then |sections| - 1
    else HighestPresent(sections[..|sections| - 1])
  }

  /** The block data of the sections. */
  function ViewOf(sections: seq<ChunkSection?>): (v: View)
    ensures |v| == |sections|
    ensures forall i :: 0 <= i < |sections| ==> (v[i].None? <==> sections[i] == null)
    ensures forall i :: 0 <= i < |sections| && sections[i] != null ==> v[i].value == sections[i].blockData
  {
    seq(|sections|, i requires 0 <= i < |sections| => if sections[i] == null then None else Some(sections[i].blockData))
  }

  /** Sixteen section slots, each section present holding a whole cube of blocks. */
  predicate SectionsValid(sections: seq<ChunkSection?>)
  {
    |sections| == NSECTIONS && WellFormed(ViewOf(sections))
  }

  /**
   * What reading the chunk's root tag yields: nothing (the stream raised an
   * IOException), a root without a level tag, or the level's decoded
   * sections. The NBT decoding itself is not modelled.
   */
  datatype LevelTag = Unreadable | NoLevel | Level(decoded: seq<ChunkSection?>)

  class Chunk {
    const sections: seq<ChunkSection?>
    /** The shared air block, `new BlockData()`, passed in. */
    const air: BlockData
    var highestSection: int
    /** `surfaceColors[z][x]`, null until computed. */
    const surfaceColors: array2<Option<Color>>
    /** `surfaceHeights[z][x]`, as Java shorts. */
    const surfaceHeights: array2<int>

    ghost predicate Valid()
      reads this
    {
      SectionsValid(sections) && 0 <= highestSection < NSECTIONS &&
      surfaceColors.Length0 == NBLOCKS && surfaceColors.Length1 == NBLOCKS &&
      surfaceHeights.Length0 == NBLOCKS && surfaceHeights.Length1 == NBLOCKS
    }

    function Views(): View
    {
      ViewOf(sections)
    }

    /** The field initialisers: no colours yet, all heights 0, highest section 0. */
    constructor Init(sections: seq<ChunkSection?>, air: BlockData)
      ensures this.sections == sections && this.air == air && highestSection == 0
      ensures fresh(surfaceColors) && fresh(surfaceHeights)
      ensures surfaceColors.Length0 == NBLOCKS && surfaceColors.Length1 == NBLOCKS
      ensures surfaceHeights.Length0 == NBLOCKS && surfaceHeights.Length1 == NBLOCKS
      ensures forall z, x :: 0 <= z < NBLOCKS && 0 <= x < NBLOCKS ==> surfaceColors[z, x] == None && surfaceHeights[z, x] == 0
    {
      this.sections := sections;
      this.air := air;
      highestSection := 0;
      surfaceColors := new Option<Color>[NBLOCKS, NBLOCKS]((_, _) => None);
      surfaceHeights := new int[NBLOCKS, NBLOCKS]((_, _) => 0);
    }

    /**
     * `new Chunk(dis)` past the decoding. An unreadable stream raises an
     * IOException, which is swallowed, leaving every section absent. A root
     * tag without a level tag makes the biome lookup dereference null, and
     * that NullPointerException escapes. Otherwise the chunk keeps the
     * decoded sections and records the highest one present, which fails when
     * there is none.
     */
    static method Load(tag: LevelTag, air: BlockData) returns (r: Result<Chunk>)
      requires tag.Level? ==> SectionsValid(tag.decoded) && Colored(ViewOf(tag.decoded))
      ensures tag.Unreadable? ==> r.Success? && r.value.sections == seq(NSECTIONS, _ => null) && r.value.highestSection == 0
      ensures tag.NoLevel? ==> r == Failure(NullPointer)
      ensures tag.Level? ==> (r.Success? <==> HighestPresent(tag.decoded) >= 0)
      ensures tag.Level? && r.Success? ==> r.value.sections == tag.decoded && r.value.highestSection == HighestPresent(tag.decoded)
      ensures tag.Level? && r.Failure? ==> r.error == IndexOutOfBounds
      ensures r.Success? ==> fresh(r.value) && r.value.Valid() && r.value.air == air && Colored(r.value.Views())
      ensures r.Success? ==> forall z, x :: 0 <= z < NBLOCKS && 0 <= x < NBLOCKS ==>
        r.value.surfaceColors[z, x] == None && r.value.surfaceHeights[z, x] == 0
    {
      if tag.Unreadable? {
        var none: seq<ChunkSection?> := seq(NSECTIONS, _ => null);
        var c := new Chunk.Init(none, air);
        return Success(c);
      }
      if tag.NoLevel? {
        return Failure(NullPointer);
      }
      var c := new Chunk.Init(tag.decoded, air);
      var h := c.HighestUsedSection();
      if h.Failure? {
        return Failure(h.error);
      }
      c.highestSection := h.value;
      return Success(c);
    }

    /** `highestUsedSection()`: counting down from 15 to the first present section; none at all reads index -1. */
    method HighestUsedSection() returns (r: Result<int>)
      requires |sections| == NSECTIONS
      ensures r.Success? <==> HighestPresent(sections) >= 0
      ensures r.Success? ==> r.value == HighestPresent(sections)
      ensures r.Failure? ==> r.error == IndexOutOfBounds
    {
      var highest := NSECTIONS - 1;
      while highest >= 0 && sections[highest] == null
        invariant -1 <= highest < NSECTIONS
        invariant forall i :: highest < i < NSECTIONS ==> sections[i] == null
      {
        highest := highest - 1;
      }
      if highest < 0 {
        return Failure(IndexOutOfBounds);
      }
      return Success(highest);
    }

    /** `blockAt(x, y, z)`: the section's block, or the air block where the section is absent. */
    function BlockAt(x: int, y: int, z: int): (r: Result<BlockData>)
      requires SectionsValid(sections) && 0 <= x < NBLOCKS && 0 <= z < NBLOCKS
      ensures r == ViewBlockAt(Views(), air, x, y, z)
    {
      var s, localY := TruncDiv(y, NSECTIONS), TruncMod(y, NSECTIONS);
      if s < 0 || s >= NSECTIONS then Failure(IndexOutOfBounds)
      else if sections[s] == null then Success(air)
      else sections[s].BlockAt(x, localY, z)
    }

    /** `highestOpaqueBlock(x, z, h)`: sections `h` down to 0, stopping at the first with a fully opaque block. */
    method HighestOpaqueBlock(x: int, z: int, h: int) returns (highestOpaque: int)
      requires Valid() && 0 <= x < NBLOCKS && 0 <= z < NBLOCKS && 0 <= h < NSECTIONS
      ensures highestOpaque == TopOpaque(Views(), x, z, h)
    {
      ghost var v := Views();
      highestOpaque := -1;
      var sIdx := h;
      while sIdx >= 0
        invariant -1 <= sIdx <= h
        invariant highestOpaque == -1
        invariant TopOpaque(v, x, z, h) == TopOpaque(v, x, z, sIdx)
      {
        var s := sections[sIdx];
        if s != null {
          var high := s.HighOpaque(x, z);
          if high > -1 {
            highestOpaque := high + NBLOCKS * sIdx;
          }
        }
        if highestOpaque > -1 {
          return;
        }
        sIdx := sIdx - 1;
      }
    }

    /** One column of `computeColorsAndHeights`, up to the values it stores. */
    method Surface(x: int, z: int) returns (r: Result<(Color, int)>)
      requires Valid() && 0 <= x < NBLOCKS && 0 <= z < NBLOCKS
      ensures r == ColumnResult(Views(), air, highestSection, x, z)
      ensures r.Failure? ==> r.error == IndexOutOfBounds
    {
      var yOpaque := HighestOpaqueBlock(x, z, highestSection);
      assert -1 <= yOpaque < NBLOCKS * (highestSection + 1) <= NSECTIONS * NBLOCKS;
      var block := BlockAt(x, yOpaque, z);
      FirstBlockIsBlockAt(Views(), air, x, yOpaque, z);
      if block.Failure? {
        ColumnResultOf(Views(), air, highestSection, x, z, yOpaque, block, TRANSPARENT, 0);
        return Failure(block.error);
      }
      var pixelColor, height := OverlayAbove(x, z, yOpaque + 1, NBLOCKS * (highestSection + 1), block.value.computedColor, yOpaque);
      ColumnResultOf(Views(), air, highestSection, x, z, yOpaque, block, pixelColor, height);
      return Success((DemultiplyAlpha(pixelColor), height));
    }

    /** The loop of `computeColorsAndHeights`: the blocks from `y0` up to `maxY` overlaid in turn. */
    method OverlayAbove(x: int, z: int, y0: int, maxY: int, acc: Color, height0: int) returns (pixelColor: Color, height: int)
      requires SectionsValid(sections) && 0 <= x < NBLOCKS && 0 <= z < NBLOCKS && 0 <= y0 && maxY <= NSECTIONS * NBLOCKS
      ensures pixelColor == ColorFold(Views(), air, x, z, y0, maxY, acc)
      ensures height == HeightMark(Views(), air, x, z, y0, maxY, height0)
    {
      ghost var v := Views();
      pixelColor, height := acc, height0;
      var y := y0;
      while y < maxY
        invariant y0 <= y && (y0 <= maxY ==> y <= maxY)
        invariant ColorFold(v, air, x, z, y, maxY, pixelColor) == ColorFold(v, air, x, z, y0, maxY, acc)
        invariant HeightMark(v, air, x, z, y, maxY, height) == HeightMark(v, air, x, z, y0, maxY, height0)
      {
        var b := BlockAt(x, y, z);
        FoldStep(v, air, x, z, y, maxY, pixelColor, height, b.value);
        pixelColor := Overlay(pixelColor, b.value.computedColor);
        if b.value.OpaqueEnough() {
          height := y;
        }
        y := y + 1;
      }
    }

    /**
     * `computeColorsAndHeights()`: the columns in z-major order, each
     * storing its de-multiplied colour and its height cast to short; the
     * first column whose top opaque block cannot be read stops it with
     * ArrayIndexOutOfBoundsException, the columns before it already stored
     * and the rest untouched.
     */
    method ComputeColorsAndHeights() returns (o: Outcome)
      requires Valid()
      modifies surfaceColors, surfaceHeights
      ensures var f := FirstFailure(Results(Views(), air, highestSection), 0);
        (o.Pass? <==> f.0 == NBLOCKS) && (o.Fail? ==> o.error == IndexOutOfBounds)
      ensures var t, f := Results(Views(), air, highestSection), FirstFailure(Results(Views(), air, highestSection), 0);
        forall z, x :: 0 <= z < NBLOCKS && 0 <= x < NBLOCKS && Before(z, x, f.0, f.1) ==>
          Holds(surfaceColors[z, x], surfaceHeights[z, x], t[z][x])
      ensures var f := FirstFailure(Results(Views(), air, highestSection), 0);
        forall z, x :: 0 <= z < NBLOCKS && 0 <= x < NBLOCKS && !Before(z, x, f.0, f.1) ==>
          surfaceColors[z, x] == old(surfaceColors[z, x]) && surfaceHeights[z, x] == old(surfaceHeights[z, x])
    {
      ghost var t := Results(Views(), air, highestSection);
      var z := 0;
      while z < NBLOCKS
        invariant 0 <= z <= NBLOCKS
        invariant forall zz, xx :: 0 <= zz < z && 0 <= xx < NBLOCKS ==>
          Holds(surfaceColors[zz, xx], surfaceHeights[zz, xx], t[zz][xx])
        invariant forall zz, xx :: z <= zz < NBLOCKS && 0 <= xx < NBLOCKS ==>
          surfaceColors[zz, xx] == old(surfaceColors[zz, xx]) && surfaceHeights[zz, xx] == old(surfaceHeights[zz, xx])
      {
        var outcome, stop := ComputeRow(z);
        if outcome.Fail? {
          FirstFailureIs(t, z, stop);
          return outcome;
        }
        z := z + 1;
      }
      FirstFailureIs(t, NBLOCKS, 0);
      return Pass;
    }

    /** One column of `computeColorsAndHeights()`: its result, stored when it exists. */
    method StoreColumn(x: int, z: int) returns (r: Result<(Color, int)>)
      requires Valid() && 0 <= x < NBLOCKS && 0 <= z < NBLOCKS
      modifies surfaceColors, surfaceHeights
      ensures r == ColumnResult(Views(), air, highestSection, x, z)
      ensures r.Failure? ==> r.error == IndexOutOfBounds
      ensures r.Success? ==> surfaceColors[z, x] == Some(r.value.0) && surfaceHeights[z, x] == ToShort(r.value.1)
      ensures forall zz, xx :: 0 <= zz < NBLOCKS && 0 <= xx < NBLOCKS && (zz != z || xx != x || r.Failure?) ==>
        surfaceColors[zz, xx] == old(surfaceColors[zz, xx]) && surfaceHeights[zz, xx] == old(surfaceHeights[zz, xx])
    {
      r := Surface(x, z);
      if r.Success? {
        surfaceColors[z, x] := Some(r.value.0);
        surfaceHeights[z, x] := ToShort(r.value.1);
      }
    }

    /**
     * Row `z` of `computeColorsAndHeights()`: its columns from x = 0 up,
     * stopping at `stop`, the first whose result fails.
     */
    method ComputeRow(z: int) returns (o: Outcome, ghost stop: int)
      requires Valid() && 0 <= z < NBLOCKS
      modifies surfaceColors, surfaceHeights
      ensures 0 <= stop <= NBLOCKS && (o.Pass? <==> stop == NBLOCKS)
      ensures o.Fail? ==> stop < NBLOCKS && Results(Views(), air, highestSection)[z][stop].Failure? && o.error == IndexOutOfBounds
      ensures var t := Results(Views(), air, highestSection);
        forall xx :: 0 <= xx < stop ==> Holds(surfaceColors[z, xx], surfaceHeights[z, xx], t[z][xx])
      ensures forall zz, xx :: 0 <= zz < NBLOCKS && 0 <= xx < NBLOCKS && (zz != z || xx >= stop) ==>
        surfaceColors[zz, xx] == old(surfaceColors[zz, xx]) && surfaceHeights[zz, xx] == old(surfaceHeights[zz, xx])
    {
      ghost var t := Results(Views(), air, highestSection);
      var x := 0;
      while x < NBLOCKS
        invariant 0 <= x <= NBLOCKS
        invariant forall xx :: 0 <= xx < x ==> Holds(surfaceColors[z, xx], surfaceHeights[z, xx], t[z][xx])
        invariant forall zz, xx :: 0 <= zz < NBLOCKS && 0 <= xx < NBLOCKS && (zz != z || xx >= x) ==>
          surfaceColors[zz, xx] == old(surfaceColors[zz, xx]) && surfaceHeights[zz, xx] == old(surfaceHeights[zz, xx])
      {
        var r := StoreColumn(x, z);
        assert r == t[z][x];
        if r.Failure? {
          return Fail(r.error), x;
        }
        x := x + 1;
      }
      return Pass, NBLOCKS;
    }
  }

  /** The stored colour and height are those of result `r`, which exists. */
  predicate Holds(color: Option<Color>, height: int, r: Result<(Color, int)>)
  {
    r.Success? && color == Some(r.value.0) && height == ToShort(r.value.1)
  }
}
