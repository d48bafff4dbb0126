/**
 * Quad tiles and quad levels: `AbsQuadTile` with its `SubregionQTile` and
 * `FourQTile` forms, `CompositeTile` (four tiles shrunk into one), and
 * `QdLvl` (the tiles of one zoom level, keyed by coordinate).
 *
 * Images held in memory are 2-D arrays of ARGB words indexed [x, z], as
 * `BufferedImage.getRGB(x, z)` reads them. The PNG files a tile was
 * written to are a map from path to picture (columns of ARGB words); a
 * path missing from it stands for a file that cannot be read. Reading a
 * file back yields a new image every time, so a picture is a value.
 */
module Tiles {
  import opened Wrappers
  import opened JavaInts
  import opened Geometry
  import opened Colors
  import opened Schematics
  import Regions
  import Decimal
  import Quads

  /** Pixel side of a tile. */
  const NPIXELS: int := 256
  /** Half a tile: the side of one quadrant of a composite. */
  const HALF: int := 128

  /** An image read from a file: `pic[x][z]` is the ARGB word of pixel (x, z). */
  type Picture = seq<seq<Int32>>

  /** At least a tile in size, so reading any tile pixel stays in bounds. */
  predicate TileSized(pic: Picture)
  {
    |pic| >= NPIXELS && forall x :: 0 <= x < |pic| ==> |pic[x]| >= NPIXELS
  }

  /** The written PNG files: path to picture. */
  type Disk = map<string, Picture>

  /** Every picture on disk is tile-sized. */
  predicate DiskFits(disk: Disk)
  {
    forall path :: path in disk ==> TileSized(disk[path])
  }

  /** Which of a 2x2 group's tiles exist: top-left, top-right, bottom-left, bottom-right. */
  datatype Children = Children(tl: bool, tr: bool, bl: bool, br: bool)

  /**
   * The three kinds of tile; a four-tile records which of its children
   * exist, from which its tag is `MakeTag` of the four flags.
   */
  datatype TileKind = Subregion | Four(children: Children) | RegionTile
  {
    function Tag(): (tag: string)
      requires Four?
      ensures |tag| == 6
    {
      MakeTag(children.tl, children.tr, children.bl, children.br)
    }
  }

  /** `tileTag(qt)`: `#` for a present tile, `.` for none. */
  function TileTag(present: bool): char
  {
    if present then '#' else '.'
  }

  /** `makeTag(tl, tr, bl, br)`: the four markers between brackets. */
  function MakeTag(tl: bool, tr: bool, bl: bool, br: bool): (tag: string)
    ensures |tag| == 6 && tag[0] == '[' && tag[5] == ']'
    ensures var present := [tl, tr, bl, br];
      forall k :: 0 <= k < 4 ==> (tag[k + 1] == '#' <==> present[k]) && (tag[k + 1] == '.' <==> !present[k])
  {
    "[" + [TileTag(tl)] + [TileTag(tr)] + [TileTag(bl)] + [TileTag(br)] + "]"
  }

  /** A merged tile always has a present child, so its tag always shows a `#`. */
  lemma TagShowsPresentTile(tl: bool, tr: bool, bl: bool, br: bool)
    requires tl || tr || bl || br
    ensures '#' in MakeTag(tl, tr, bl, br)[1..5]
  {
    var tag := MakeTag(tl, tr, bl, br);
    var k := if tl then 0 else if tr then 1 else if bl then 2 else 3;
    assert tag[1..5][k] == tag[k + 1] == '#';
  }

  /** A quad tile (`AbsQuadTile`): its coordinate, its image while held, and where it was written. */
  class QuadTile {
    const coord: Coord
    const kind: TileKind
    var image: array2?<Int32>
    var onDisk: Option<string>

    /** `new SubregionQTile(image, x, z)`. */
    constructor Subregion(image: array2?<Int32>, x: Int32, z: Int32)
      ensures coord == Coord(x, z) && kind == TileKind.Subregion
      ensures this.image == image && onDisk.None?
    {
      coord := Coord(x, z);
      kind := TileKind.Subregion;
      this.image := image;
      onDisk := None;
    }

    /**
     * `new RegionQTile(region, delta)`: the region's coordinate shifted by
     * `delta`, with the region's rendered image.
     */
    constructor OfRegion(regionCoord: Coord, delta: Coord, image: array2?<Int32>)
      ensures coord == Coord(ToInt32(regionCoord.x as int + delta.x as int), ToInt32(regionCoord.z as int + delta.z as int))
      ensures kind == TileKind.RegionTile && this.image == image && onDisk.None?
    {
      coord := Coord(ToInt32(regionCoord.x as int + delta.x as int), ToInt32(regionCoord.z as int + delta.z as int));
      kind := TileKind.RegionTile;
      this.image := image;
      onDisk := None;
    }

    /**
     * `new FourQTile(a, b, tl, tr, bl, br)`: the parent of the 2x2 group
     * whose top-left child is at (a, b), its tag, and the composite image.
     */
    constructor Four(a: Int32, b: Int32, tl: QuadTile?, tr: QuadTile?, bl: QuadTile?, br: QuadTile?, disk: Disk)
      requires DiskFits(disk)
      ensures coord == Coord(TruncDiv(a, 2), TruncDiv(b, 2))
      ensures kind == TileKind.Four(Children(tl != null, tr != null, bl != null, br != null))
      ensures onDisk.None? && image != null && fresh(image)
      ensures image.Length0 == NPIXELS && image.Length1 == NPIXELS
      ensures forall x, z :: 0 <= x < NPIXELS && 0 <= z < NPIXELS ==>
        image[x, z] == CompositePixel(LoadedImage(tl, disk), LoadedImage(tr, disk),
                                      LoadedImage(bl, disk), LoadedImage(br, disk), x, z)
    {
      var composite := new CompositeTile(tl, tr, bl, br, disk);
      coord := Coord(TruncDiv(a, 2), TruncDiv(b, 2));
      kind := TileKind.Four(Children(tl != null, tr != null, bl != null, br != null));
      image := composite.image;
      onDisk := None;
    }

    /** `pngName()`: `t.<x>.<z>.png`, the same name a region's tile gets. */
    function PngName(): (name: string)
      ensures |name| > 6 && name[..2] == "t." && name[|name| - 4..] == ".png"
      ensures name == Regions.TileFileName(coord)
    {
      Regions.TileFileName(coord)
    }

    /** `releaseResources()`: drop the image; nothing else changes. */
    method ReleaseResources()
      modifies this
      ensures image == null && onDisk == old(onDisk)
    {
      image := null;
    }

    /** `setLocationOnDisk(pngFile)`: remember where the image was written. */
    method SetLocationOnDisk(pngFile: string)
      modifies `onDisk
      ensures onDisk == Some(pngFile)
    {
      onDisk := Some(pngFile);
    }

    /**
     * `loadImageFromDisk()`: null when no location was recorded, else the
     * image read back; a file that cannot be read is an I/O failure.
     */
    method LoadImageFromDisk(disk: Disk) returns (r: Result<Option<Picture>>)
      ensures onDisk.None? ==> r == Success(None)
      ensures onDisk.Some? && onDisk.value in disk ==> r == Success(Some(disk[onDisk.value]))
      ensures onDisk.Some? && onDisk.value !in disk ==> r.Failure? && r.error.IOFailure?
    {
      if onDisk.None? {
        return Success(None);
      }
      if onDisk.value !in disk {
        return Failure(IOFailure(onDisk.value));
      }
      return Success(Some(disk[onDisk.value]));
    }
  }

  /** Tiles at distinct coordinates get distinct file names. */
  lemma PngNameInjective(t1: QuadTile, t2: QuadTile)
    requires t1.PngName() == t2.PngName()
    ensures t1.coord == t2.coord
  {
    Regions.TileNameInjective(t1.coord, t2.coord);
  }

  /** The image a composite reads for a quadrant: none for a missing tile, no recorded location or an unreadable file. */
  function LoadedImage(t: QuadTile?, disk: Disk): (img: Option<Picture>)
    reads t
    ensures img.Some? <==> t != null && t.onDisk.Some? && t.onDisk.value in disk
    ensures img.Some? ==> img.value in disk.Values
    ensures DiskFits(disk) ==> Loadable(img)
  {
    if t == null || t.onDisk.None? || t.onDisk.value !in disk then None else Some(disk[t.onDisk.value])
  }

  /** The average of the 2x2 block whose top-left pixel is (x, z). */
  function AvColor(img: Picture, x: int, z: int): Color
    requires TileSized(img) && 0 <= x < NPIXELS - 1 && 0 <= z < NPIXELS - 1
  {
    Average([img[x][z], img[x + 1][z], img[x][z + 1], img[x + 1][z + 1]])
  }

  /** `getAvColor(img, x, z)`: read the 2x2 block at (x, z) and average it. */
  method GetAvColor(img: Picture, x: int, z: int) returns (c: Color)
    requires TileSized(img) && 0 <= x < NPIXELS - 1 && 0 <= z < NPIXELS - 1
    ensures c == AvColor(img, x, z)
  {
    var a := img[x][z];
    var b := img[x + 1][z];
    var cc := img[x][z + 1];
    var d := img[x + 1][z + 1];
    c := AverageColor([a, b, cc, d]);
  }

  /** The pixel (i, j) of a shrunk quadrant: the 2x2 block at (2i, 2j) of the source, averaged. */
  function Downsampled(img: Picture, i: int, j: int): Int32
    requires TileSized(img) && 0 <= i < HALF && 0 <= j < HALF
  {
    ToInt(AvColor(img, 2 * i, 2 * j))
  }

  /** A 2x2 block of one colour shrinks to that colour. */
  lemma UniformBlockKeepsColor(img: Picture, i: int, j: int, v: Int32)
    requires TileSized(img) && 0 <= i < HALF && 0 <= j < HALF
    requires img[2 * i][2 * j] == v && img[2 * i + 1][2 * j] == v
    requires img[2 * i][2 * j + 1] == v && img[2 * i + 1][2 * j + 1] == v
    ensures Downsampled(img, i, j) == v
  {
    var argb := [img[2 * i][2 * j], img[2 * i + 1][2 * j], img[2 * i][2 * j + 1], img[2 * i + 1][2 * j + 1]];
    AverageUniform(argb, v);
    ToIntFromInt(v);
  }

  /** An image a quadrant may contribute: none, or a tile-sized picture. */
  predicate Loadable(img: Option<Picture>)
  {
    img.Some? ==> TileSized(img.value)
  }

  /** The quadrant (0 tl, 1 tr, 2 bl, 3 br) holding canvas pixel (x, z). */
  function QuadrantOf(x: int, z: int): int
  {
    (if z < HALF then 0 else 2) + (if x < HALF then 0 else 1)
  }

  /** The canvas offset of quadrant q, as the constructor passes it to `compose`. */
  function OffsetX(q: int): int { if q == 1 || q == 3 then HALF else 0 }
  function OffsetZ(q: int): int { if q >= 2 then HALF else 0 }

  /** The four quadrants cover the canvas once: pixel (x, z) lies inside quadrant q exactly when q is its quadrant. */
  lemma QuadrantsPartition(x: int, z: int, q: int)
    requires 0 <= x < NPIXELS && 0 <= z < NPIXELS && 0 <= q < 4
    ensures OffsetX(q) <= x < OffsetX(q) + HALF && OffsetZ(q) <= z < OffsetZ(q) + HALF <==> q == QuadrantOf(x, z)
  {
  }

  /** The one of the four values that belongs to quadrant q. */
  function Pick<T>(q: int, tl: T, tr: T, bl: T, br: T): T
  {
    if q == 0 then tl else if q == 1 then tr else if q == 2 then bl else br
  }

  /**
   * Pixel (x, z) of a composite of the four quadrants' reloaded images:
   * the shrunk image of its quadrant at (x, z) less the quadrant's offset,
   * or transparent (0) when that quadrant has no image.
   */
  function CompositePixel(tl: Option<Picture>, tr: Option<Picture>, bl: Option<Picture>, br: Option<Picture>,
                          x: int, z: int): Int32
    requires Loadable(tl) && Loadable(tr) && Loadable(bl) && Loadable(br)
  {
    var q := QuadrantOf(x, z);
    Composed(Pick(q, tl, tr, bl, br), OffsetX(q), OffsetZ(q), x, z, 0)
  }

  /** A quadrant with an image shows that image shrunk by half, each pixel the average of a 2x2 block. */
  lemma CompositeShowsQuadrant(tl: Option<Picture>, tr: Option<Picture>, bl: Option<Picture>, br: Option<Picture>,
                               x: int, z: int)
    requires Loadable(tl) && Loadable(tr) && Loadable(bl) && Loadable(br) && 0 <= x < NPIXELS && 0 <= z < NPIXELS
    ensures var q := QuadrantOf(x, z);
      var img := Pick(q, tl, tr, bl, br);
      CompositePixel(tl, tr, bl, br, x, z) ==
        if img.None? then 0 else ToInt(AvColor(img.value, 2 * (x % HALF), 2 * (z % HALF)))
  {
    var q := QuadrantOf(x, z);
    QuadrantsPartition(x, z, q);
    ComposedInQuadrant(Pick(q, tl, tr, bl, br), OffsetX(q), OffsetZ(q), x, z);
  }

  /** Composed alone into a blank canvas, an image shows at (x, z) of its quadrant the average of its 2x2 block. */
  lemma ComposedInQuadrant(img: Option<Picture>, offx: int, offz: int, x: int, z: int)
    requires Loadable(img) && (offx == 0 || offx == HALF) && (offz == 0 || offz == HALF)
    requires offx <= x < offx + HALF && offz <= z < offz + HALF
    ensures Composed(img, offx, offz, x, z, 0) == if img.None? then 0 else ToInt(AvColor(img.value, 2 * (x % HALF), 2 * (z % HALF)))
  {
    HalfOffset(x, offx);
    HalfOffset(z, offz);
    if img.Some? {
      assert Composed(img, offx, offz, x, z, 0) == Downsampled(img.value, x % HALF, z % HALF);
    }
  }

  /** Within a quadrant starting at `off`, a coordinate's remainder by HALF is its distance from `off`. */
  lemma HalfOffset(v: int, off: int)
    requires (off == 0 || off == HALF) && off <= v < off + HALF
    ensures v % HALF == v - off
  {
  }

  /** With no images for any quadrant, the composite is fully transparent. */
  lemma EmptyCompositeTransparent(x: int, z: int)
    ensures CompositePixel(None, None, None, None, x, z) == ToInt(TRANSPARENT)
  {
  }

  /** The canvas once the first k quadrants are composed: their pixels final, the rest still blank. */
  function Stage(tl: Option<Picture>, tr: Option<Picture>, bl: Option<Picture>, br: Option<Picture>, k: int, x: int, z: int): Int32
    requires Loadable(tl) && Loadable(tr) && Loadable(bl) && Loadable(br)
  {
    if QuadrantOf(x, z) < k then CompositePixel(tl, tr, bl, br, x, z) else 0
  }

  /** Composing quadrant k over stage k gives stage k + 1. */
  lemma StageStep(tl: Option<Picture>, tr: Option<Picture>, bl: Option<Picture>, br: Option<Picture>, k: int, x: int, z: int)
    requires Loadable(tl) && Loadable(tr) && Loadable(bl) && Loadable(br)
    requires 0 <= x < NPIXELS && 0 <= z < NPIXELS && 0 <= k < 4
    ensures Composed(Pick(k, tl, tr, bl, br), OffsetX(k), OffsetZ(k), x, z, Stage(tl, tr, bl, br, k, x, z))
      == Stage(tl, tr, bl, br, k + 1, x, z)
  {
    QuadrantsPartition(x, z, k);
  }

  /** `CompositeTile`: four tiles, each shrunk to a quarter and placed in its quadrant of a new canvas. */
  class CompositeTile {
    const image: array2<Int32>

    /** `new CompositeTile(tl, tr, bl, br)`: a transparent canvas, then `compose` for each quadrant. */
    constructor (tl: QuadTile?, tr: QuadTile?, bl: QuadTile?, br: QuadTile?, disk: Disk)
      requires DiskFits(disk)
      ensures fresh(image) && image.Length0 == NPIXELS && image.Length1 == NPIXELS
      ensures forall x, z :: 0 <= x < NPIXELS && 0 <= z < NPIXELS ==>
        image[x, z] == CompositePixel(old(LoadedImage(tl, disk)), old(LoadedImage(tr, disk)),
                                      old(LoadedImage(bl, disk)), old(LoadedImage(br, disk)), x, z)
    {
      ghost var itl, itr, ibl, ibr := LoadedImage(tl, disk), LoadedImage(tr, disk), LoadedImage(bl, disk), LoadedImage(br, disk);
      var canvas := BlankCanvas(itl, itr, ibl, ibr);
      ComposeQuadrant(canvas, tl, disk, itl, itr, ibl, ibr, 0);
      ComposeQuadrant(canvas, tr, disk, itl, itr, ibl, ibr, 1);
      ComposeQuadrant(canvas, bl, disk, itl, itr, ibl, ibr, 2);
      ComposeQuadrant(canvas, br, disk, itl, itr, ibl, ibr, 3);
      image := canvas;
    }
  }

  /** `new BufferedImage(NPIXELS, NPIXELS, TYPE_INT_ARGB)`: a tile-sized canvas, every pixel 0 (transparent). */
  method BlankCanvas(ghost tl: Option<Picture>, ghost tr: Option<Picture>, ghost bl: Option<Picture>, ghost br: Option<Picture>)
    returns (canvas: array2<Int32>)
    requires Loadable(tl) && Loadable(tr) && Loadable(bl) && Loadable(br)
    ensures fresh(canvas) && canvas.Length0 == NPIXELS && canvas.Length1 == NPIXELS
    ensures forall x, z :: 0 <= x < NPIXELS && 0 <= z < NPIXELS ==> canvas[x, z] == 0 == Stage(tl, tr, bl, br, 0, x, z)
  {
    canvas := new Int32[NPIXELS, NPIXELS]((x, z) => 0);
  }

  /** The constructor's k-th `compose` call, taking the canvas from stage k to stage k + 1. */
  method ComposeQuadrant(canvas: array2<Int32>, tile: QuadTile?, disk: Disk,
                         ghost tl: Option<Picture>, ghost tr: Option<Picture>, ghost bl: Option<Picture>, ghost br: Option<Picture>,
                         k: int)
    requires DiskFits(disk) && 0 <= k < 4 && LoadedImage(tile, disk) == Pick(k, tl, tr, bl, br)
    requires Loadable(tl) && Loadable(tr) && Loadable(bl) && Loadable(br)
    requires canvas.Length0 == NPIXELS && canvas.Length1 == NPIXELS
    requires forall x, z :: 0 <= x < NPIXELS && 0 <= z < NPIXELS ==> canvas[x, z] == Stage(tl, tr, bl, br, k, x, z)
    modifies canvas
    ensures forall x, z :: 0 <= x < NPIXELS && 0 <= z < NPIXELS ==> canvas[x, z] == Stage(tl, tr, bl, br, k + 1, x, z)
    ensures k == 3 ==> forall x, z :: 0 <= x < NPIXELS && 0 <= z < NPIXELS ==>
      canvas[x, z] == CompositePixel(tl, tr, bl, br, x, z)
  {
    Compose(canvas, tile, OffsetX(k), OffsetZ(k), disk);
    forall x, z | 0 <= x < NPIXELS && 0 <= z < NPIXELS
      ensures canvas[x, z] == Stage(tl, tr, bl, br, k + 1, x, z)
    {
      StageStep(tl, tr, bl, br, k, x, z);
    }
  }

  /** The value `compose(tile, offx, offz)` leaves at (x, z), given the value before. */
  function Composed(src: Option<Picture>, offx: int, offz: int, x: int, z: int, before: Int32): Int32
    requires src.Some? ==> TileSized(src.value)
  {
    if src.Some? && offx <= x < offx + HALF && offz <= z < offz + HALF
    then Downsampled(src.value, x - offx, z - offz)
    else before
  }

  /**
   * `compose(tile, offx, offz)`: shrink the tile's reloaded image into the
   * quadrant at (offx, offz); a missing tile or image, or a failed read,
   * leaves the canvas as it was.
   */
  method Compose(canvas: array2<Int32>, tile: QuadTile?, offx: int, offz: int, disk: Disk)
    requires DiskFits(disk)
    requires canvas.Length0 == NPIXELS && canvas.Length1 == NPIXELS
    requires (offx == 0 || offx == HALF) && (offz == 0 || offz == HALF)
    modifies canvas
    ensures forall x, z :: 0 <= x < NPIXELS && 0 <= z < NPIXELS ==>
      canvas[x, z] == Composed(LoadedImage(tile, disk), offx, offz, x, z, old(canvas[x, z]))
  {
    if tile == null {
      return;
    }
    var loaded := tile.LoadImageFromDisk(disk);
    if loaded.Failure? {
      return;
    }
    if loaded.value.None? {
      return;
    }
    var tileImage := loaded.value.value;
    assert LoadedImage(tile, disk) == Some(tileImage);
    ComposeImage(canvas, tileImage, offx, offz);
  }

  /** The loops of `compose` once the tile's image is read: each 2x2 block of it averaged into one canvas pixel. */
  method ComposeImage(canvas: array2<Int32>, tileImage: Picture, offx: int, offz: int)
    requires TileSized(tileImage)
    requires canvas.Length0 == NPIXELS && canvas.Length1 == NPIXELS
    requires (offx == 0 || offx == HALF) && (offz == 0 || offz == HALF)
    modifies canvas
    ensures forall x, z :: 0 <= x < NPIXELS && 0 <= z < NPIXELS ==>
      canvas[x, z] == Composed(Some(tileImage), offx, offz, x, z, old(canvas[x, z]))
  {
    var z := 0;
    while z < NPIXELS
      invariant 0 <= z <= NPIXELS && z % 2 == 0
      invariant forall x', z' :: 0 <= x' < NPIXELS && 0 <= z' < NPIXELS ==>
        canvas[x', z'] == if offx <= x' < offx + HALF && offz <= z' < offz + z / 2
                          then Downsampled(tileImage, x' - offx, z' - offz) else old(canvas[x', z'])
    {
      ComposeRow(canvas, tileImage, offx, offz, z);
      z := z + 2;
    }
  }

  /** One pass of `compose`'s outer loop: row z/2 of the quadrant from rows z and z+1 of the source. */
  method ComposeRow(canvas: array2<Int32>, src: Picture, offx: int, offz: int, z: int)
    requires TileSized(src)
    requires canvas.Length0 == NPIXELS && canvas.Length1 == NPIXELS
    requires (offx == 0 || offx == HALF) && (offz == 0 || offz == HALF)
    requires 0 <= z < NPIXELS && z % 2 == 0
    modifies canvas
    ensures forall x', z' :: 0 <= x' < NPIXELS && 0 <= z' < NPIXELS ==>
      canvas[x', z'] == if z' == offz + z / 2 && offx <= x' < offx + HALF
                        then Downsampled(src, x' - offx, z / 2) else old(canvas[x', z'])
  {
    var z2 := z / 2;
    var row := offz + z2;
    assert 2 * z2 == z;
    var x := 0;
    ghost var cols := 0;
    while x < NPIXELS
      invariant 0 <= x <= NPIXELS && x == 2 * cols
      invariant forall x', z' :: 0 <= x' < NPIXELS && 0 <= z' < NPIXELS ==>
        canvas[x', z'] == if z' == row && offx <= x' < offx + cols
                          then Downsampled(src, x' - offx, z2) else old(canvas[x', z'])
    {
      var x2 := x / 2;
      assert x2 == cols;
      var v := DownsampledAt(src, x, z);
      canvas[offx + x2, row] := v;
      x, cols := x + 2, cols + 1;
    }
  }

  /** `getAvColor(tileImage, x, z).toInt()` at even (x, z): the shrunk pixel (x / 2, z / 2). */
  method DownsampledAt(src: Picture, x: int, z: int) returns (v: Int32)
    requires TileSized(src) && 0 <= x < NPIXELS && 0 <= z < NPIXELS && x % 2 == 0 && z % 2 == 0
    ensures v == Downsampled(src, x / 2, z / 2)
  {
    var av := GetAvColor(src, x, z);
    v := ToInt(av);
  }

  /** The schematic marks of a level: its tiles, each marked when it sits on the origin tile. */
  function LevelMarks(tileMap: map<Coord, QuadTile>, originTile: Option<Coord>): (marks: map<Coord, bool>)
    ensures marks.Keys == tileMap.Keys
  {
    map c | c in tileMap :: originTile == Some(tileMap[c].coord)
  }

  /** The name of a level at `zoom`: `z` followed by the zoom, which reads back. */
  function LevelName(zoom: Int32): (name: string)
    ensures |name| >= 2 && name[0] == 'z' && Decimal.ParseInt(name[1..]) == Success(zoom)
  {
    Decimal.ParseIntToString(zoom);
    var name := "z" + Decimal.IntToString(zoom);
    assert name[1..] == Decimal.IntToString(zoom);
    name
  }

  /**
   * `setZoom(z)`'s side: 2^z in 32-bit arithmetic (1 for z <= 0), so exact up
   * to zoom 30, the minimum int at 31 and zero from 32 on.
   */
  function DimOf(zoom: int): (d: Int32)
    ensures 0 <= zoom <= 30 ==> d == Quads.Pow2(zoom)
    ensures zoom == 31 ==> d == -0x8000_0000
    ensures zoom >= 32 ==> d == 0
    ensures d > 0 <==> zoom <= 30
  {
    if zoom <= 0 then 1
    else
      Pow2Word(zoom);
      ToInt32(Quads.Pow2(zoom))
  }

  /** 2^n as a 32-bit int: exact up to 30, the minimum int at 31, zero from 32 on. */
  lemma Pow2Word(n: nat)
    ensures n <= 30 ==> ToInt32(Quads.Pow2(n)) == Quads.Pow2(n)
    ensures n == 31 ==> ToInt32(Quads.Pow2(n)) == -0x8000_0000
    ensures n >= 32 ==> ToInt32(Quads.Pow2(n)) == 0
  {
    if n <= 30 {
      Pow2Below(n);
    } else if n == 31 {
      Pow2Thirty();
    } else {
      Pow2Wraps(n);
      MultipleWordIsZero(Quads.Pow2(n - 32));
    }
  }

  /** A multiple of 2^32 is zero as a 32-bit int. */
  lemma MultipleWordIsZero(m: nat)
    ensures ToInt32(m * TWO_32) == 0
  {
    assert (m * TWO_32) % TWO_32 == 0;
  }

  /** From 32 on, 2^n is a multiple of 2^32. */
  lemma {:induction false} Pow2Wraps(n: nat)
    requires n >= 32
    ensures Quads.Pow2(n) == Quads.Pow2(n - 32) * TWO_32
    decreases n
  {
    if n == 32 {
      Pow2Thirty();
    } else {
      Pow2Wraps(n - 1);
    }
  }

  /** Up to zoom 30 the side is exactly 2^zoom, and `computeMaxZoom` gives the zoom back. */
  lemma DimOfExact(zoom: nat)
    requires zoom <= 30
    ensures DimOf(zoom) == Quads.Pow2(zoom) && Quads.Log2(DimOf(zoom)) == zoom
  {
    Pow2Below(zoom);
    Quads.Log2Pow2(zoom);
  }

  lemma Pow2Below(n: nat)
    requires n <= 30
    ensures Quads.Pow2(n) <= 0x4000_0000
  {
    Pow2Monotone(n, 30);
    Pow2Thirty();
  }

  lemma Pow2Thirty()
    ensures Quads.Pow2(30) == 0x4000_0000
  {
    assert Quads.Pow2(10) == 0x400;
    assert Quads.Pow2(20) == 0x10_0000;
  }

  lemma {:induction false} Pow2Monotone(n: nat, m: nat)
    requires n <= m
    ensures Quads.Pow2(n) <= Quads.Pow2(m)
    decreases m
  {
    if n < m {
      Pow2Monotone(n, m - 1);
    }
  }

  /** One level of the quad-tree (`QdLvl`): its tiles by coordinate and the level's attributes. */
  class QdLvl {
    var tileMap: map<Coord, QuadTile>
    var zoom: Int32
    var dim: Int32
    var blocksPerTileSide: Int32
    var originTile: Option<Coord>
    var originDisplace: Option<Coord>
    var outputDir: Option<string>
    /** The blank count that `addTile(null)` bumps in the level's statistics. */
    var blanks: nat

    /** Each tile is filed under its own coordinate. */
    ghost predicate Valid()
      reads this
    {
      forall c :: c in tileMap ==> tileMap[c].coord == c
    }

    /** `new QdLvl()`: no tiles, Java's default zeros and nulls. */
    constructor ()
      ensures Valid() && tileMap == map[] && zoom == 0 && dim == 0 && blocksPerTileSide == 0
      ensures originTile.None? && originDisplace.None? && outputDir.None? && blanks == 0
    {
      tileMap := map[];
      zoom, dim, blocksPerTileSide := 0, 0, 0;
      originTile, originDisplace, outputDir := None, None, None;
      blanks := 0;
    }

    /** `addTile(tile)`: file a tile under its coordinate, replacing any there; a null only counts a blank. */
    method AddTile(tile: QuadTile?)
      requires Valid()
      modifies this
      ensures Valid()
      ensures tile != null ==> tileMap == old(tileMap)[tile.coord := tile] && blanks == old(blanks)
      ensures tile == null ==> tileMap == old(tileMap) && blanks == old(blanks) + 1
      ensures zoom == old(zoom) && dim == old(dim) && blocksPerTileSide == old(blocksPerTileSide)
      ensures originTile == old(originTile) && originDisplace == old(originDisplace) && outputDir == old(outputDir)
    {
      if tile != null {
        tileMap := tileMap[tile.coord := tile];
      } else {
        blanks := blanks + 1;
      }
    }

    /** `setZoom(z)`: record the zoom and double the side from 1, z times, in 32-bit arithmetic. */
    method SetZoom(z: Int32)
      modifies this
      ensures zoom == z && dim == DimOf(z)
      ensures tileMap == old(tileMap) && blanks == old(blanks) && blocksPerTileSide == old(blocksPerTileSide)
      ensures originTile == old(originTile) && originDisplace == old(originDisplace) && outputDir == old(outputDir)
    {
      zoom := z;
      dim := 1;
      var i := 0;
      while i < z
        invariant 0 <= i <= if z < 0 then 0 else z
        invariant zoom == z && dim == DimOf(i)
        invariant tileMap == old(tileMap) && blanks == old(blanks) && blocksPerTileSide == old(blocksPerTileSide)
        invariant originTile == old(originTile) && originDisplace == old(originDisplace) && outputDir == old(outputDir)
      {
        ToInt32Double(Quads.Pow2(i));
        dim := ToInt32(dim as int * 2);
        i := i + 1;
      }
    }

    method SetBlocksPerTileSide(n: Int32)
      modifies this
      ensures blocksPerTileSide == n
      ensures tileMap == old(tileMap) && blanks == old(blanks) && zoom == old(zoom) && dim == old(dim)
      ensures originTile == old(originTile) && originDisplace == old(originDisplace) && outputDir == old(outputDir)
    {
      blocksPerTileSide := n;
    }

    method SetOriginTile(c: Coord)
      modifies this
      ensures originTile == Some(c)
      ensures tileMap == old(tileMap) && blanks == old(blanks) && zoom == old(zoom) && dim == old(dim)
      ensures blocksPerTileSide == old(blocksPerTileSide) && originDisplace == old(originDisplace) && outputDir == old(outputDir)
    {
      originTile := Some(c);
    }

    method SetOriginDisplace(c: Coord)
      modifies this
      ensures originDisplace == Some(c)
      ensures tileMap == old(tileMap) && blanks == old(blanks) && zoom == old(zoom) && dim == old(dim)
      ensures blocksPerTileSide == old(blocksPerTileSide) && originTile == old(originTile) && outputDir == old(outputDir)
    {
      originDisplace := Some(c);
    }

    method SetOutputDir(dir: string)
      modifies this
      ensures outputDir == Some(dir)
      ensures tileMap == old(tileMap) && blanks == old(blanks) && zoom == old(zoom) && dim == old(dim)
      ensures blocksPerTileSide == old(blocksPerTileSide) && originTile == old(originTile) && originDisplace == old(originDisplace)
    {
      outputDir := Some(dir);
    }

    /** `at(a, b)`: the tile filed at (a, b), or null. */
    function At(a: Int32, b: Int32): (t: QuadTile?)
      reads this
      ensures t != null <==> Coord(a, b) in tileMap
      ensures t != null ==> t == tileMap[Coord(a, b)]
    {
      if Coord(a, b) in tileMap then tileMap[Coord(a, b)] else null
    }

    /** `tiles()`: the filed tiles. */
    function Tiles(): (ts: set<QuadTile>)
      reads this
      ensures forall c :: c in tileMap ==> tileMap[c] in ts
    {
      tileMap.Values
    }

    /** `name()`: `z` followed by the zoom. */
    function Name(): (name: string)
      reads this
      ensures |name| >= 2 && name[0] == 'z' && Decimal.ParseInt(name[1..]) == Success(zoom)
    {
      Decimal.ParseIntToString(zoom);
      LevelName(zoom)
    }

    /** `schematic()`: `dim` rows of `dim` cells, ` O` on the origin tile. */
    method Schematic() returns (s: string)
      ensures s == Rows(Frame(LevelMarks(tileMap, originTile), 0, 0), Side(dim), Side(dim))
    {
      ghost var f := Frame(LevelMarks(tileMap, originTile), 0, 0);
      s := "";
      var b := 0;
      while b < dim
        invariant 0 <= b <= Side(dim)
        invariant s == Rows(f, Side(dim), b)
      {
        s := AppendRow(s, b);
        s := s + "\n";
        b := b + 1;
      }
    }

    /** The inner loop of `schematic()`: append the cells of row `b`. */
    method AppendRow(s0: string, b: Int32) returns (s: string)
      ensures s == s0 + Row(Frame(LevelMarks(tileMap, originTile), 0, 0), b, Side(dim))
    {
      ghost var f := Frame(LevelMarks(tileMap, originTile), 0, 0);
      s := s0;
      var a := 0;
      while a < dim
        invariant 0 <= a <= Side(dim)
        invariant s == s0 + Row(f, b, a)
      {
        var t := At(a, b);
        assert CoordAt(f, a, b) == Coord(a, b);
        s := s + TileChar(t, originTile);
        a := a + 1;
      }
    }
  }

  /** A negative side draws nothing. */
  function Side(dim: Int32): nat
  {
    if dim < 0 then 0 else dim
  }

  /** `tileChar(tile)`: ` .` for none, ` O` on the origin tile, ` #` otherwise. */
  function TileChar(t: QuadTile?, originTile: Option<Coord>): (cell: string)
    ensures cell == Mark(t != null, t != null && originTile == Some(t.coord))
  {
    if t == null then " ." else if originTile == Some(t.coord) then " O" else " #"
  }

  /** A level holds exactly one tile per coordinate: as many tiles as coordinates, each filed under its own. */
  lemma TilesOnePerCoord(level: QdLvl)
    requires level.Valid()
    ensures |level.Tiles()| == |level.tileMap.Keys|
    ensures forall t :: t in level.Tiles() ==> t.coord in level.tileMap && level.tileMap[t.coord] == t
  {
    var m := level.tileMap;
    ValuesOfCoordMap(m);
  }

  lemma {:induction false} ValuesOfCoordMap(m: map<Coord, QuadTile>)
    requires forall c :: c in m ==> m[c].coord == c
    ensures |m.Values| == |m.Keys|
    decreases |m.Keys|
  {
    if m.Keys != {} {
      var c :| c in m.Keys;
      var rest := m - {c};
      ValuesOfCoordMap(rest);
      forall v | v in m.Values
        ensures v in rest.Values + {m[c]}
      {
        var k :| k in m && m[k] == v;
        if k != c {
          assert rest[k] == v;
        }
      }
      forall v | v in rest.Values
        ensures v in m.Values
      {
        var k :| k in rest && rest[k] == v;
        assert m[k] == v;
      }
      assert m.Values == rest.Values + {m[c]};
      assert m[c] !in rest.Values;
      assert m.Keys == rest.Keys + {c};
    }
  }

  /** After `addTile`, `at` answers with the last tile added at each coordinate. */
  lemma AtAfterAdd(before: map<Coord, QuadTile>, tile: QuadTile, a: Int32, b: Int32)
    ensures var after := before[tile.coord := tile];
      (Coord(a, b) == tile.coord ==> Coord(a, b) in after && after[Coord(a, b)] == tile) &&
      (Coord(a, b) != tile.coord ==>
        (Coord(a, b) in after <==> Coord(a, b) in before) &&
        (Coord(a, b) in before ==> after[Coord(a, b)] == before[Coord(a, b)]))
  {
  }
}
