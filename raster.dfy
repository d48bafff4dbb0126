/**
 * The raster of one region (`RegionStructure`): the surface colours and
 * heights of its 32x32 chunks laid out as a 512x512 image, each non-
 * transparent pixel shaded by the slope of the terrain around it and by its
 * height above sea level, then packed into ARGB ints.  Decoding the chunks
 * is not part of this model: each chunk's surface arrives as a value, or as
 * None where the region has no stream for it.
 */
module RegionStructures {
  import opened Wrappers
  import opened JavaInts
  import opened Colors

  const NPIXELS: int := 512
  const TOTAL_PIXELS: int := 0x4_0000
  const NCHUNKS: int := 32
  const NBLOCKS: int := 16
  const SHADE_CLIP_MAX: int := 10
  const SHADE_CLIP_MIN: int := -10
  const SEA_LEVEL: int := 64
  const SEA_FACTOR: int := 7
  const SHADE_FACTOR: int := 8

  /** A chunk's surface: `colors[z][x]` and `heights[z][x]` for its 16x16 columns. */
  datatype ChunkSurface = ChunkSurface(colors: seq<seq<Color>>, heights: seq<seq<Short>>)

  predicate WellFormedSurface(s: ChunkSurface)
  {
    |s.colors| == NBLOCKS && |s.heights| == NBLOCKS &&
    forall z :: 0 <= z < NBLOCKS ==> |s.colors[z]| == NBLOCKS && |s.heights[z]| == NBLOCKS
  }

  /** The region's chunks, `chunks[cx + 32 cz]` for chunk (cx, cz). */
  predicate WellFormedChunks(chunks: seq<Option<ChunkSurface>>)
  {
    |chunks| == NCHUNKS * NCHUNKS &&
    forall k :: 0 <= k < |chunks| && chunks[k].Some? ==> WellFormedSurface(chunks[k].value)
  }

  // ------------------------------------------------------------ layout

  /** Where `storeData` puts column (x, z) of chunk (cx, cz): row `16 cz + z`, column `16 cx + x`. */
  function PixelIndex(cx: int, cz: int, x: int, z: int): int
  {
    NPIXELS * (NBLOCKS * cz + z) + NBLOCKS * cx + x
  }

  /** The column within its chunk of pixel `i`. */
  function PixelX(i: int): int { i % NBLOCKS }
  /** The chunk column of pixel `i`. */
  function PixelCX(i: int): int { i % NPIXELS / NBLOCKS }
  /** The row within its chunk of pixel `i`. */
  function PixelZ(i: int): int { i / NPIXELS % NBLOCKS }
  /** The chunk row of pixel `i`. */
  function PixelCZ(i: int): int { i / NPIXELS / NBLOCKS }

  /** The index of the chunk pixel `i` belongs to, in the order `chunks` lists them. */
  function ChunkOfPixel(i: int): int { PixelCX(i) + NCHUNKS * PixelCZ(i) }

  /**
   * Each (chunk, column) pair has its own pixel, and every pixel of the
   * 512x512 raster is one of them.
   */
  lemma PixelIndexBijection(cx: int, cz: int, x: int, z: int)
    requires 0 <= cx < NCHUNKS && 0 <= cz < NCHUNKS && 0 <= x < NBLOCKS && 0 <= z < NBLOCKS
    ensures var i := PixelIndex(cx, cz, x, z);
      0 <= i < TOTAL_PIXELS && PixelCX(i) == cx && PixelCZ(i) == cz && PixelX(i) == x && PixelZ(i) == z
  {
    var i := PixelIndex(cx, cz, x, z);
    var row, col := NBLOCKS * cz + z, NBLOCKS * cx + x;
    assert i / NPIXELS == row && i % NPIXELS == col;
    assert col / NBLOCKS == cx && col % NBLOCKS == x;
    assert row / NBLOCKS == cz && row % NBLOCKS == z;
  }

  lemma PixelDecomposition(i: int)
    requires 0 <= i < TOTAL_PIXELS
    ensures 0 <= PixelCX(i) < NCHUNKS && 0 <= PixelCZ(i) < NCHUNKS && 0 <= PixelX(i) < NBLOCKS && 0 <= PixelZ(i) < NBLOCKS
    ensures i == PixelIndex(PixelCX(i), PixelCZ(i), PixelX(i), PixelZ(i))
  {
    var row, col := i / NPIXELS, i % NPIXELS;
    assert i == NPIXELS * row + col;
    assert row == NBLOCKS * (row / NBLOCKS) + row % NBLOCKS;
    assert col == NBLOCKS * (col / NBLOCKS) + col % NBLOCKS;
    assert col % NBLOCKS == i % NBLOCKS;
  }

  /** Distinct chunk columns never share a pixel. */
  lemma PixelIndexInjective(cx: int, cz: int, x: int, z: int, cx': int, cz': int, x': int, z': int)
    requires 0 <= cx < NCHUNKS && 0 <= cz < NCHUNKS && 0 <= x < NBLOCKS && 0 <= z < NBLOCKS
    requires 0 <= cx' < NCHUNKS && 0 <= cz' < NCHUNKS && 0 <= x' < NBLOCKS && 0 <= z' < NBLOCKS
    requires PixelIndex(cx, cz, x, z) == PixelIndex(cx', cz', x', z')
    ensures cx == cx' && cz == cz' && x == x' && z == z'
  {
    PixelIndexBijection(cx, cz, x, z);
    PixelIndexBijection(cx', cz', x', z');
  }

  /** Row `z` of chunk (cx, cz) occupies the sixteen pixels from `PixelIndex(cx, cz, 0, z)`. */
  lemma RowSpan(i: int, cx: int, cz: int, z: int)
    requires 0 <= i < TOTAL_PIXELS && 0 <= cx < NCHUNKS && 0 <= cz < NCHUNKS && 0 <= z < NBLOCKS
    ensures var offset := PixelIndex(cx, cz, 0, z);
      (offset <= i < offset + NBLOCKS <==> PixelCX(i) == cx && PixelCZ(i) == cz && PixelZ(i) == z) &&
      (offset <= i < offset + NBLOCKS ==> PixelX(i) == i - offset)
  {
    var offset := PixelIndex(cx, cz, 0, z);
    PixelDecomposition(i);
    if offset <= i < offset + NBLOCKS {
      PixelIndexBijection(cx, cz, i - offset, z);
    }
  }

  // ------------------------------------------------------------ prerendering

  /** The colour `prerender` leaves at pixel `i`: its chunk's column colour, or none where the chunk is missing. */
  function PrerenderedColor(chunks: seq<Option<ChunkSurface>>, i: int): Option<Color>
    requires WellFormedChunks(chunks) && 0 <= i < TOTAL_PIXELS
  {
    PixelDecomposition(i);
    var c := chunks[ChunkOfPixel(i)];
    if c.None? then None else Some(c.value.colors[PixelZ(i)][PixelX(i)])
  }

  /** The height `prerender` leaves at pixel `i`: its chunk's column height, or 0 where the chunk is missing. */
  function PrerenderedHeight(chunks: seq<Option<ChunkSurface>>, i: int): Short
    requires WellFormedChunks(chunks) && 0 <= i < TOTAL_PIXELS
  {
    PixelDecomposition(i);
    var c := chunks[ChunkOfPixel(i)];
    if c.None? then 0 else c.value.heights[PixelZ(i)][PixelX(i)]
  }

  /** Pixel `i` holds its prerendered values if its chunk comes before chunk (cx, cz), and is empty otherwise. */
  ghost predicate Prerendered(colors: seq<Option<Color>>, heights: seq<Short>, chunks: seq<Option<ChunkSurface>>, i: int, cx: int, cz: int)
    requires |colors| == TOTAL_PIXELS && |heights| == TOTAL_PIXELS && WellFormedChunks(chunks) && 0 <= i < TOTAL_PIXELS
  {
    if ChunkOfPixel(i) < cx + NCHUNKS * cz then
      colors[i] == PrerenderedColor(chunks, i) && heights[i] == PrerenderedHeight(chunks, i)
    else
      colors[i] == None && heights[i] == 0
  }

  /** Storing chunk (cx, cz), or skipping it when it is missing, extends the prerendered part by one chunk. */
  lemma PrerenderStep(colors: seq<Option<Color>>, heights: seq<Short>, colors': seq<Option<Color>>, heights': seq<Short>,
                      chunks: seq<Option<ChunkSurface>>, cx: int, cz: int, i: int)
    requires |colors| == |heights| == |colors'| == |heights'| == TOTAL_PIXELS && WellFormedChunks(chunks)
    requires 0 <= cx < NCHUNKS && 0 <= cz < NCHUNKS && 0 <= i < TOTAL_PIXELS
    requires Prerendered(colors, heights, chunks, i, cx, cz)
    requires var c := chunks[cx + NCHUNKS * cz];
      if c.Some? && PixelCX(i) == cx && PixelCZ(i) == cz then
        colors'[i] == Some(c.value.colors[PixelZ(i)][PixelX(i)]) && heights'[i] == c.value.heights[PixelZ(i)][PixelX(i)]
      else
        colors'[i] == colors[i] && heights'[i] == heights[i]
    ensures Prerendered(colors', heights', chunks, i, cx + 1, cz)
  {
    PixelDecomposition(i);
    assert ChunkOfPixel(i) == cx + NCHUNKS * cz <==> PixelCX(i) == cx && PixelCZ(i) == cz;
  }

  /** Rows below `z` of chunk (cx, cz) hold the surface `s`; every other pixel is as in `colors0` and `heights0`. */
  ghost predicate Stored(colors: seq<Option<Color>>, heights: seq<Short>, colors0: seq<Option<Color>>, heights0: seq<Short>,
                         cx: int, cz: int, s: ChunkSurface, z: int, i: int)
    requires |colors| == |heights| == |colors0| == |heights0| == TOTAL_PIXELS && WellFormedSurface(s) && 0 <= i < TOTAL_PIXELS
  {
    PixelDecomposition(i);
    if PixelCX(i) == cx && PixelCZ(i) == cz && PixelZ(i) < z then
      colors[i] == Some(s.colors[PixelZ(i)][PixelX(i)]) && heights[i] == s.heights[PixelZ(i)][PixelX(i)]
    else
      colors[i] == colors0[i] && heights[i] == heights0[i]
  }

  // ------------------------------------------------------------ shading

  /** `transparent(color)`: no colour, or a colour with alpha 0. */
  predicate Transparent(c: Option<Color>)
  {
    c.None? || c.value.alpha == 0
  }

  /** `heightDiff(a, b)`. */
  function HeightDiff(h: seq<Short>, a: int, b: int): int
    requires 0 <= a < |h| && 0 <= b < |h|
  {
    h[a] as int - h[b] as int
  }

  /** `computeDyx(idx, x)`: one-sided differences at the left and right edges, twice the central one inside. */
  function Dyx(h: seq<Short>, idx: int): int
    requires |h| == TOTAL_PIXELS && 0 <= idx < TOTAL_PIXELS
  {
    var x := idx % NPIXELS;
    if x == 0 then HeightDiff(h, idx + 1, idx)
    else if x == NPIXELS - 1 then HeightDiff(h, idx, idx - 1)
    else HeightDiff(h, idx + 1, idx - 1) * 2
  }

  /** `computeDyz(idx, z)`: the same along z, with stride 512. */
  function Dyz(h: seq<Short>, idx: int): int
    requires |h| == TOTAL_PIXELS && 0 <= idx < TOTAL_PIXELS
  {
    var z := idx / NPIXELS;
    if z == 0 then HeightDiff(h, idx + NPIXELS, idx)
    else if z == NPIXELS - 1 then HeightDiff(h, idx, idx - NPIXELS)
    else HeightDiff(h, idx + NPIXELS, idx - NPIXELS) * 2
  }

  /** `shadeClip(v)`: the slope clamped to -10..10. */
  function ShadeClip(v: int): (r: int)
    ensures SHADE_CLIP_MIN <= r <= SHADE_CLIP_MAX
    ensures SHADE_CLIP_MIN <= v <= SHADE_CLIP_MAX ==> r == v
  {
    if v > SHADE_CLIP_MAX then SHADE_CLIP_MAX else if v < SHADE_CLIP_MIN then SHADE_CLIP_MIN else v
  }

  /**
   * `computeShadeAmount`: `(int) ((clip + (h - 64) / 7) * 8)`, that is
   * `8 (7 clip + h - 64) / 7` truncated toward zero.
   */
  function ShadeAmountOf(slope: int, height: int): int
  {
    TruncDiv(SHADE_FACTOR * (SEA_FACTOR * ShadeClip(slope) + height - SEA_LEVEL), SEA_FACTOR)
  }

  function ShadeAmount(h: seq<Short>, idx: int): int
    requires |h| == TOTAL_PIXELS && 0 <= idx < TOTAL_PIXELS
  {
    ShadeAmountOf(Dyx(h, idx) + Dyz(h, idx), h[idx])
  }

  /** What `shade` does to one pixel: a transparent one is left alone, any other shaded by its amount. */
  function ShadedPixel(c: Option<Color>, h: seq<Short>, idx: int): Option<Color>
    requires |h| == TOTAL_PIXELS && 0 <= idx < TOTAL_PIXELS
  {
    if Transparent(c) then c
    else
      ShadeAmountFits(Dyx(h, idx) + Dyz(h, idx), h[idx]);
      Some(Shade(c.value, ShadeAmount(h, idx)))
  }

  /** Shading skips pixels with no colour or alpha 0, and keeps every pixel's alpha. */
  lemma ShadedPixelMeaning(c: Option<Color>, h: seq<Short>, idx: int)
    requires |h| == TOTAL_PIXELS && 0 <= idx < TOTAL_PIXELS
    ensures Transparent(c) ==> ShadedPixel(c, h, idx) == c
    ensures c.Some? ==> ShadedPixel(c, h, idx).Some? && ShadedPixel(c, h, idx).value.alpha == c.value.alpha
    ensures c.None? <==> ShadedPixel(c, h, idx).None?
  {
  }

  /** On level ground at sea level the shade amount is zero, so shading changes nothing there. */
  lemma LevelGroundUnshaded(c: Color, h: seq<Short>, idx: int)
    requires |h| == TOTAL_PIXELS && 0 <= idx < TOTAL_PIXELS
    requires forall j :: 0 <= j < TOTAL_PIXELS ==> h[j] == SEA_LEVEL
    ensures ShadeAmount(h, idx) == 0
    ensures ShadedPixel(Some(c), h, idx) == Some(c)
  {
    assert Dyx(h, idx) == 0 && Dyz(h, idx) == 0;
    ShadeZero(c);
  }

  /** A steeper rise, at the same height, never gives a smaller shade amount. */
  lemma ShadeAmountMonotone(slope1: int, slope2: int, height: int)
    requires slope1 <= slope2
    ensures ShadeAmountOf(slope1, height) <= ShadeAmountOf(slope2, height)
  {
    var n1 := SHADE_FACTOR * (SEA_FACTOR * ShadeClip(slope1) + height - SEA_LEVEL);
    var n2 := SHADE_FACTOR * (SEA_FACTOR * ShadeClip(slope2) + height - SEA_LEVEL);
    assert n1 <= n2;
    TruncDivMonotone(n1, n2);
  }

  /** Truncating division by the sea factor is monotone. */
  lemma TruncDivMonotone(a: int, b: int)
    requires a <= b
    ensures TruncDiv(a, SEA_FACTOR) <= TruncDiv(b, SEA_FACTOR)
  {
    if 0 <= a {
      DivMonotone(a, b);
    } else if b < 0 {
      DivMonotone(-b, -a);
    }
  }

  lemma DivMonotone(a: int, b: int)
    requires 0 <= a <= b
    ensures a / SEA_FACTOR <= b / SEA_FACTOR
  {
    var qa, ra := a / SEA_FACTOR, a % SEA_FACTOR;
    var qb, rb := b / SEA_FACTOR, b % SEA_FACTOR;
    assert a == SEA_FACTOR * qa + ra && b == SEA_FACTOR * qb + rb;
  }

  /** The shade amounts lie between those of the steepest fall and the steepest rise at the pixel's height. */
  lemma ShadeAmountBounds(slope: int, height: int)
    ensures ShadeAmountOf(SHADE_CLIP_MIN, height) <= ShadeAmountOf(slope, height) <= ShadeAmountOf(SHADE_CLIP_MAX, height)
  {
    var n := SHADE_FACTOR * (SEA_FACTOR * ShadeClip(slope) + height - SEA_LEVEL);
    TruncDivMonotone(SHADE_FACTOR * (SEA_FACTOR * SHADE_CLIP_MIN + height - SEA_LEVEL), n);
    TruncDivMonotone(n, SHADE_FACTOR * (SEA_FACTOR * SHADE_CLIP_MAX + height - SEA_LEVEL));
  }

  /** For a short height the shade amount fits an int, as Java's `(int)` cast needs. */
  lemma ShadeAmountFits(slope: int, height: Short)
    ensures IsInt32(ShadeAmountOf(slope, height))
  {
    ShadeAmountBounds(slope, height);
    TruncDivMonotone(SHADE_FACTOR * (SEA_FACTOR * SHADE_CLIP_MIN - 0x8000 - SEA_LEVEL),
                     SHADE_FACTOR * (SEA_FACTOR * SHADE_CLIP_MIN + height - SEA_LEVEL));
    TruncDivMonotone(SHADE_FACTOR * (SEA_FACTOR * SHADE_CLIP_MAX + height - SEA_LEVEL),
                     SHADE_FACTOR * (SEA_FACTOR * SHADE_CLIP_MAX + 0x7fff - SEA_LEVEL));
  }

  // ------------------------------------------------------------ visit order

  /** Shading the pixels of `order` one after the other, each from the heights `h`, which shading never writes. */
  function ShadeInOrder(colors: seq<Option<Color>>, h: seq<Short>, order: seq<int>): (r: seq<Option<Color>>)
    requires |colors| == TOTAL_PIXELS && |h| == TOTAL_PIXELS
    requires forall k :: 0 <= k < |order| ==> 0 <= order[k] < TOTAL_PIXELS
    ensures |r| == TOTAL_PIXELS
  {
    if order == [] then colors
    else
      var rest := ShadeInOrder(colors, h, order[..|order| - 1]);
      var i := order[|order| - 1];
      rest[i := ShadedPixel(rest[i], h, i)]
  }

  /**
   * Whatever order the pixels are visited in, each visited pixel ends up
   * shaded from its own colour and each other pixel is untouched: the
   * result does not depend on the visit order.
   */
  lemma {:induction false} ShadeOrderIrrelevant(colors: seq<Option<Color>>, h: seq<Short>, order: seq<int>, i: int)
    requires |colors| == TOTAL_PIXELS && |h| == TOTAL_PIXELS
    requires forall k :: 0 <= k < |order| ==> 0 <= order[k] < TOTAL_PIXELS
    requires forall k, l :: 0 <= k < l < |order| ==> order[k] != order[l]
    requires 0 <= i < TOTAL_PIXELS
    ensures ShadeInOrder(colors, h, order)[i] == if i in order then ShadedPixel(colors[i], h, i) else colors[i]
  {
    if order != [] {
      var init := order[..|order| - 1];
      ShadeOrderIrrelevant(colors, h, init, i);
      var last := order[|order| - 1];
      if i == last {
        assert i !in init;
      } else {
        assert i in order <==> i in init by {
          if i in order {
            var k :| 0 <= k < |order| && order[k] == i;
            assert init[k] == i;
          }
        }
      }
    }
  }

  /** The pixels in raster order, as `shade` visits them. */
  function RasterOrder(n: nat): (order: seq<int>)
    ensures |order| == n && forall k :: 0 <= k < n ==> order[k] == k
  {
    if n == 0 then [] else RasterOrder(n - 1) + [n - 1]
  }

  // ------------------------------------------------------------ packing

  /** The int `covertColorsToInts` stores: a colour's word, or the array's initial 0 where there is none. */
  function IntOf(c: Option<Color>): Int32
  {
    if c.None? then 0 else ToInt(c.value)
  }

  /** A pixel no chunk filled packs to 0, the word of the transparent colour. */
  lemma UnfilledIsTransparent()
    ensures IntOf(None) == ToInt(TRANSPARENT) == 0
  {
  }

  /** The heights of the whole raster after prerendering. */
  function PrerenderedHeights(chunks: seq<Option<ChunkSurface>>): (h: seq<Short>)
    requires WellFormedChunks(chunks)
    ensures |h| == TOTAL_PIXELS
  {
    seq(TOTAL_PIXELS, i requires 0 <= i < TOTAL_PIXELS => PrerenderedHeight(chunks, i))
  }

  /** The int a region's image holds at pixel `i`: its prerendered colour, shaded, packed. */
  function PixelInt(chunks: seq<Option<ChunkSurface>>, i: int): Int32
    requires WellFormedChunks(chunks) && 0 <= i < TOTAL_PIXELS
  {
    IntOf(ShadedPixel(PrerenderedColor(chunks, i), PrerenderedHeights(chunks), i))
  }

  /** A pixel of a chunk the region has no stream for is transparent in the image. */
  lemma MissingChunkTransparent(chunks: seq<Option<ChunkSurface>>, cx: int, cz: int, x: int, z: int)
    requires WellFormedChunks(chunks)
    requires 0 <= cx < NCHUNKS && 0 <= cz < NCHUNKS && 0 <= x < NBLOCKS && 0 <= z < NBLOCKS
    requires chunks[cx + NCHUNKS * cz].None?
    ensures 0 <= PixelIndex(cx, cz, x, z) < TOTAL_PIXELS && PixelInt(chunks, PixelIndex(cx, cz, x, z)) == 0
  {
    PixelIndexBijection(cx, cz, x, z);
  }

  // ------------------------------------------------------------ the structure

  class RegionStructure {
    const surfaceColor: array<Option<Color>>
    const colorAsInts: array<Int32>
    const surfaceHeight: array<Short>

    ghost predicate Valid()
      reads this
    {
      surfaceColor.Length == TOTAL_PIXELS && colorAsInts.Length == TOTAL_PIXELS && surfaceHeight.Length == TOTAL_PIXELS
    }

    /**
     * `new RegionStructure(region)`: prerender the chunks, shade, pack.
     * Each pixel's int is its chunk column's colour shaded from the
     * prerendered heights, or 0 where no chunk was there.
     */
    constructor (chunks: seq<Option<ChunkSurface>>)
      requires WellFormedChunks(chunks)
      ensures Valid() && fresh(surfaceColor) && fresh(colorAsInts) && fresh(surfaceHeight)
      ensures surfaceHeight[..] == PrerenderedHeights(chunks)
      ensures forall i :: 0 <= i < TOTAL_PIXELS ==>
        surfaceColor[i] == ShadedPixel(PrerenderedColor(chunks, i), PrerenderedHeights(chunks), i) &&
        colorAsInts[i] == PixelInt(chunks, i)
    {
      surfaceColor := new Option<Color>[TOTAL_PIXELS](_ => None);
      colorAsInts := new Int32[TOTAL_PIXELS](_ => 0);
      surfaceHeight := new Short[TOTAL_PIXELS](_ => 0);
      new;
      Prerender(chunks);
      assert surfaceHeight[..] == PrerenderedHeights(chunks);
      ghost var prerendered := surfaceColor[..];
      Shade();
      assert forall i :: 0 <= i < TOTAL_PIXELS ==> surfaceColor[i] == ShadedPixel(prerendered[i], surfaceHeight[..], i);
      ConvertColorsToInts();
    }

    /** `prerender()`: every chunk with a stream stored at its place; the others left empty. */
    method Prerender(chunks: seq<Option<ChunkSurface>>)
      requires Valid() && WellFormedChunks(chunks)
      requires forall i :: 0 <= i < TOTAL_PIXELS ==> surfaceColor[i] == None && surfaceHeight[i] == 0
      modifies surfaceColor, surfaceHeight
      ensures forall i :: 0 <= i < TOTAL_PIXELS ==>
        surfaceColor[i] == PrerenderedColor(chunks, i) && surfaceHeight[i] == PrerenderedHeight(chunks, i)
    {
      for cz := 0 to NCHUNKS
        invariant forall i :: 0 <= i < TOTAL_PIXELS ==> Prerendered(surfaceColor[..], surfaceHeight[..], chunks, i, 0, cz)
      {
        for cx := 0 to NCHUNKS
          invariant forall i :: 0 <= i < TOTAL_PIXELS ==> Prerendered(surfaceColor[..], surfaceHeight[..], chunks, i, cx, cz)
        {
          ghost var colors, heights := surfaceColor[..], surfaceHeight[..];
          var c := chunks[cx + NCHUNKS * cz];
          if c.Some? {
            StoreData(cx, cz, c.value);
          }
          ghost var next := cx + 1;
          forall i | 0 <= i < TOTAL_PIXELS
            ensures Prerendered(surfaceColor[..], surfaceHeight[..], chunks, i, next, cz)
          {
            PrerenderStep(colors, heights, surfaceColor[..], surfaceHeight[..], chunks, cx, cz, i);
          }
        }
        ghost var nextRow := cz + 1;
        forall i | 0 <= i < TOTAL_PIXELS
          ensures Prerendered(surfaceColor[..], surfaceHeight[..], chunks, i, 0, nextRow)
        {
          assert Prerendered(surfaceColor[..], surfaceHeight[..], chunks, i, NCHUNKS, cz);
        }
      }
      forall i | 0 <= i < TOTAL_PIXELS
        ensures surfaceColor[i] == PrerenderedColor(chunks, i) && surfaceHeight[i] == PrerenderedHeight(chunks, i)
      {
        PixelDecomposition(i);
        assert Prerendered(surfaceColor[..], surfaceHeight[..], chunks, i, 0, NCHUNKS);
      }
    }

    /** `storeData(cx, cz, ...)`: chunk (cx, cz)'s rows copied to their places; nothing else written. */
    method StoreData(cx: int, cz: int, s: ChunkSurface)
      requires Valid() && 0 <= cx < NCHUNKS && 0 <= cz < NCHUNKS && WellFormedSurface(s)
      modifies surfaceColor, surfaceHeight
      ensures forall i :: 0 <= i < TOTAL_PIXELS ==>
        if PixelCX(i) == cx && PixelCZ(i) == cz then
          surfaceColor[i] == Some(s.colors[PixelZ(i)][PixelX(i)]) && surfaceHeight[i] == s.heights[PixelZ(i)][PixelX(i)]
        else
          surfaceColor[i] == old(surfaceColor[i]) && surfaceHeight[i] == old(surfaceHeight[i])
    {
      ghost var colors0, heights0 := surfaceColor[..], surfaceHeight[..];
      for z := 0 to NBLOCKS
        invariant forall i :: 0 <= i < TOTAL_PIXELS ==> Stored(surfaceColor[..], surfaceHeight[..], colors0, heights0, cx, cz, s, z, i)
      {
        ghost var colors, heights := surfaceColor[..], surfaceHeight[..];
        var offset := NPIXELS * (NBLOCKS * cz + z) + NBLOCKS * cx;
        assert offset == PixelIndex(cx, cz, 0, z);
        forall x | 0 <= x < NBLOCKS {
          surfaceColor[offset + x] := Some(s.colors[z][x]);
        }
        forall x | 0 <= x < NBLOCKS {
          surfaceHeight[offset + x] := s.heights[z][x];
        }
        ghost var rows := z + 1;
        forall i | 0 <= i < TOTAL_PIXELS
          ensures Stored(surfaceColor[..], surfaceHeight[..], colors0, heights0, cx, cz, s, rows, i)
        {
          assert Stored(colors, heights, colors0, heights0, cx, cz, s, z, i);
          RowSpan(i, cx, cz, z);
        }
      }
      forall i | 0 <= i < TOTAL_PIXELS
        ensures if PixelCX(i) == cx && PixelCZ(i) == cz then
            surfaceColor[i] == Some(s.colors[PixelZ(i)][PixelX(i)]) && surfaceHeight[i] == s.heights[PixelZ(i)][PixelX(i)]
          else
            surfaceColor[i] == old(surfaceColor[i]) && surfaceHeight[i] == old(surfaceHeight[i])
      {
        PixelDecomposition(i);
        assert Stored(surfaceColor[..], surfaceHeight[..], colors0, heights0, cx, cz, s, NBLOCKS, i);
      }
    }

    /** `shade()`: every pixel, in raster order, shaded from the heights, which stay as they are. */
    method Shade()
      requires Valid()
      modifies surfaceColor
      ensures forall i :: 0 <= i < TOTAL_PIXELS ==> surfaceColor[i] == ShadedPixel(old(surfaceColor[i]), surfaceHeight[..], i)
    {
      ghost var h := surfaceHeight[..];
      var idx := -1;
      for z := 0 to NPIXELS
        invariant idx == NPIXELS * z - 1
        invariant forall i :: 0 <= i < TOTAL_PIXELS ==>
          surfaceColor[i] == if i <= idx then ShadedPixel(old(surfaceColor[i]), h, i) else old(surfaceColor[i])
      {
        for x := 0 to NPIXELS
          invariant idx == NPIXELS * z + x - 1
          invariant forall i :: 0 <= i < TOTAL_PIXELS ==>
            surfaceColor[i] == if i <= idx then ShadedPixel(old(surfaceColor[i]), h, i) else old(surfaceColor[i])
        {
          idx := idx + 1;
          assert idx % NPIXELS == x && idx / NPIXELS == z;
          ShadePixel(idx, x, z);
        }
      }
    }

    /** One turn of the inner loop of `shade`: the pixel `idx`, in column `x` of row `z`, shaded unless it is transparent. */
    method ShadePixel(idx: int, x: int, z: int)
      requires Valid() && 0 <= idx < TOTAL_PIXELS && x == idx % NPIXELS && z == idx / NPIXELS
      modifies surfaceColor
      ensures surfaceColor[..] == old(surfaceColor[..])[idx := ShadedPixel(old(surfaceColor[idx]), surfaceHeight[..], idx)]
    {
      if Transparent(surfaceColor[idx]) {
        return;
      }
      var dyx := ComputeDyx(idx, x);
      var dyz := ComputeDyz(idx, z);
      ShadeAmountFits(dyx + dyz, surfaceHeight[idx]);
      var amount: Int32 := ShadeAmountOf(dyx + dyz, surfaceHeight[idx]);
      surfaceColor[idx] := Some(Colors.Shade(surfaceColor[idx].value, amount));
    }

    /** `computeDyx(idx, x)` on the height array. */
    method ComputeDyx(idx: int, x: int) returns (d: int)
      requires Valid() && 0 <= idx < TOTAL_PIXELS && x == idx % NPIXELS
      ensures d == Dyx(surfaceHeight[..], idx)
    {
      if x == 0 {
        return surfaceHeight[idx + 1] as int - surfaceHeight[idx] as int;
      } else if x == NPIXELS - 1 {
        return surfaceHeight[idx] as int - surfaceHeight[idx - 1] as int;
      }
      return (surfaceHeight[idx + 1] as int - surfaceHeight[idx - 1] as int) * 2;
    }

    /** `computeDyz(idx, z)` on the height array. */
    method ComputeDyz(idx: int, z: int) returns (d: int)
      requires Valid() && 0 <= idx < TOTAL_PIXELS && z == idx / NPIXELS
      ensures d == Dyz(surfaceHeight[..], idx)
    {
      if z == 0 {
        return surfaceHeight[idx + NPIXELS] as int - surfaceHeight[idx] as int;
      } else if z == NPIXELS - 1 {
        return surfaceHeight[idx] as int - surfaceHeight[idx - NPIXELS] as int;
      }
      return (surfaceHeight[idx + NPIXELS] as int - surfaceHeight[idx - NPIXELS] as int) * 2;
    }

    /** `covertColorsToInts()`: each colour's word; pixels with no colour keep their 0. */
    method ConvertColorsToInts()
      requires Valid()
      requires forall i :: 0 <= i < TOTAL_PIXELS ==> colorAsInts[i] == 0
      modifies colorAsInts
      ensures forall i :: 0 <= i < TOTAL_PIXELS ==> colorAsInts[i] == IntOf(surfaceColor[i])
    {
      for i := 0 to TOTAL_PIXELS
        invariant forall j :: 0 <= j < TOTAL_PIXELS ==> colorAsInts[j] == if j < i then IntOf(surfaceColor[j]) else 0
      {
        var c := surfaceColor[i];
        if c.Some? {
          colorAsInts[i] := ToInt(c.value);
        }
      }
    }

    /** `getImage()`: a 512x512 image whose pixel (x, z) is the int at `512 z + x`. */
    method GetImage() returns (image: array2<Int32>)
      requires Valid()
      ensures fresh(image) && image.Length0 == NPIXELS && image.Length1 == NPIXELS
      ensures forall x, z :: 0 <= x < NPIXELS && 0 <= z < NPIXELS ==> image[x, z] == colorAsInts[NPIXELS * z + x]
    {
      image := new Int32[NPIXELS, NPIXELS]((_, _) => 0);
      for z := 0 to NPIXELS
        invariant forall x, zz :: 0 <= x < NPIXELS && 0 <= zz < z ==> image[x, zz] == colorAsInts[NPIXELS * zz + x]
      {
        forall x | 0 <= x < NPIXELS {
          image[x, z] := colorAsInts[NPIXELS * z + x];
        }
      }
    }
  }
}
