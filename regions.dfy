/**
 * Regions (`Region`), the set of regions found in a world's region
 * directory (`RegionData`), and the image of one region cut into the four
 * base tiles it covers (`RegionImageData`).  The region directory's listing
 * and the disk are not part of this model: a region's file arrives as its
 * path, whether it exists, and its bytes.
 */
module Regions {
  import opened Wrappers
  import opened JavaInts
  import opened Geometry
  import Decimal
  import RegionFiles
  import RegionStructures

  // ------------------------------------------------------------ names

  /** `xs + "." + zs`, for two ints' texts, splits back at its first dot. */
  lemma SplitAtDot(x: Int32, z: Int32)
    ensures var xs, zs := Decimal.IntToString(x), Decimal.IntToString(z);
      var m := xs + "." + zs;
      Decimal.IndexOf(m, '.') == |xs| && m[..|xs|] == xs && m[|xs| + 1..] == zs
  {
    var xs, zs := Decimal.IntToString(x), Decimal.IntToString(z);
    var m := xs + "." + zs;
    Decimal.IntToStringWithout(x, '.');
    assert m[|xs|] == '.';
    assert m[..|xs|] == xs;
    assert m[|xs| + 1..] == zs;
  }

  /** `t.<x>.<z>.png`: the file name of the tile at a coordinate. */
  function TileFileName(c: Coord): string
  {
    "t." + Decimal.IntToString(c.x) + "." + Decimal.IntToString(c.z) + ".png"
  }

  /** Distinct coordinates have distinct tile names. */
  lemma TileNameInjective(a: Coord, b: Coord)
    requires TileFileName(a) == TileFileName(b)
    ensures a == b
  {
    var ma := Decimal.IntToString(a.x) + "." + Decimal.IntToString(a.z);
    var mb := Decimal.IntToString(b.x) + "." + Decimal.IntToString(b.z);
    var n := TileFileName(a);
    assert n[2..|n| - 4] == ma;
    assert TileFileName(b)[2..|n| - 4] == mb;
    SplitAtDot(a.x, a.z);
    SplitAtDot(b.x, b.z);
    Decimal.ParseIntToString(a.x);
    Decimal.ParseIntToString(a.z);
    Decimal.ParseIntToString(b.x);
    Decimal.ParseIntToString(b.z);
  }

  /** Two coordinates' tile names are equal exactly when the coordinates are. */
  lemma TileNamesEqual(a: Coord, b: Coord)
    ensures TileFileName(a) == TileFileName(b) <==> a == b
  {
    if TileFileName(a) == TileFileName(b) {
      TileNameInjective(a, b);
    }
  }

  /**
   * The two groups of `^r\.(-?\d+)\.(-?\d+)\.mca$` in `name`, or None when it
   * does not match.  Neither group can hold a dot, so the first one ends at
   * the first dot after `r.`.
   */
  function RegionFileMatch(name: string): (r: Option<(string, string)>)
    ensures r.Some? ==>
      Decimal.SignedDigits(r.value.0) && Decimal.SignedDigits(r.value.1) && name == "r." + r.value.0 + "." + r.value.1 + ".mca"
  {
    if |name| < 6 || name[..2] != "r." || name[|name| - 4..] != ".mca" then None
    else
      var m := name[2..|name| - 4];
      var k := Decimal.IndexOf(m, '.');
      if k < |m| && Decimal.SignedDigits(m[..k]) && Decimal.SignedDigits(m[k + 1..]) then
        assert m == m[..k] + "." + m[k + 1..];
        assert name == name[..2] + m + name[|name| - 4..];
        Some((m[..k], m[k + 1..]))
      else None
  }

  /** `r.<x>.<z>.mca`: the name of the region file at a coordinate. */
  function RegionFileName(c: Coord): string
  {
    "r." + Decimal.IntToString(c.x) + "." + Decimal.IntToString(c.z) + ".mca"
  }

  /**
   * The coordinate in a region file's name, as `load(File)` reads it: the
   * name must match the region file pattern, and each group is read by
   * `Integer.parseInt`, which fails on a value beyond 32 bits.
   */
  function ParseRegionFileName(name: string): (r: Result<Coord>)
    ensures RegionFileMatch(name).None? ==> r.Failure?
  {
    var m := RegionFileMatch(name);
    if m.None? then Failure(NumberFormat(name))
    else
      var x := Decimal.ParseInt(m.value.0);
      var z := Decimal.ParseInt(m.value.1);
      if x.Failure? then Failure(x.error)
      else if z.Failure? then Failure(z.error)
      else Success(Coord(x.value, z.value))
  }

  /** Every region file name matches the pattern and reads back as its coordinate. */
  lemma ParseRegionFileNameRoundTrip(c: Coord)
    ensures RegionFileMatch(RegionFileName(c)) == Some((Decimal.IntToString(c.x), Decimal.IntToString(c.z)))
    ensures ParseRegionFileName(RegionFileName(c)) == Success(c)
  {
    var name := RegionFileName(c);
    var xs, zs := Decimal.IntToString(c.x), Decimal.IntToString(c.z);
    assert name[..2] == "r.";
    assert name[|name| - 4..] == ".mca";
    assert name[2..|name| - 4] == xs + "." + zs;
    SplitAtDot(c.x, c.z);
    Decimal.SignedDigitsOfInt(c.x);
    Decimal.SignedDigitsOfInt(c.z);
    Decimal.ParseIntToString(c.x);
    Decimal.ParseIntToString(c.z);
  }

  /** A name with negative and positive parts matches; names off the pattern do not. */
  lemma RegionFileMatchExamples()
    ensures RegionFileMatch("r.-1.2.mca") == Some(("-1", "2"))
    ensures RegionFileMatch("r.1.2.mcr").None? && RegionFileMatch("r.1.mca").None? && RegionFileMatch("r.-.2.mca").None?
  {
    var m := "r.-1.2.mca"[2..6];
    assert m == "-1.2";
    assert Decimal.IndexOf(m, '.') == 2;
    assert m[..2] == "-1" && m[3..] == "2";
    var m2 := "r.1.mca"[2..3];
    assert Decimal.IndexOf(m2, '.') == 1;
    var m3 := "r.-.2.mca"[2..5];
    assert Decimal.IndexOf(m3, '.') == 1 && m3[..1] == "-";
  }

  // ------------------------------------------------------------ a region

  class Region {
    const coord: Coord
    /** The region file's path, if the region has one. */
    const file: Option<string>
    const mock: bool
    /** The opened region file; null without a file or once released. */
    var rf: RegionFiles.RegionFile?

    ghost predicate Valid()
      reads this, rf
    {
      rf != null ==> rf.Valid()
    }

    /** `new Region(x, z)`: the region of unit tests, with no file, marked mock. */
    constructor Mock(x: Int32, z: Int32)
      ensures Valid() && coord == Coord(x, z) && file.None? && mock && rf == null
    {
      coord := Coord(x, z);
      file := None;
      mock := true;
      rf := null;
    }

    /** The fields once the region file, if any, has been opened. */
    constructor Opened(x: Int32, z: Int32, file: Option<string>, mock: bool, rf: RegionFiles.RegionFile?)
      requires rf != null ==> rf.Valid()
      ensures Valid() && coord == Coord(x, z) && this.file == file && this.mock == mock && this.rf == rf
    {
      coord := Coord(x, z);
      this.file := file;
      this.mock := mock;
      this.rf := rf;
    }

    /**
     * `equals`: another region at the same coordinate, whatever its file; equal
     * regions hash alike and have the same tile, and only they do.
     */
    predicate Equals(o: Region?)
      ensures Equals(o) ==> o != null && o.HashCode() == HashCode()
      ensures Equals(o) <==> o != null && o.TileName() == TileName()
    {
      o != null && (TileNamesEqual(coord, o.coord); coord == o.coord)
    }

    /** `hashCode()`: the coordinate's hash. */
    function HashCode(): Int32
    {
      Geometry.HashCode(coord)
    }

    /** `tileName()`: `t.<x>.<z>.png`, a name no region at another coordinate has. */
    function TileName(): (name: string)
      ensures |name| > 6 && name[..2] == "t." && name[|name| - 4..] == ".png"
      ensures name == TileFileName(coord)
    {
      TileFileName(coord)
    }

    /** `getChunkDataStream(cx, cz)`: none without a region file, otherwise the file's answer. */
    function GetChunkDataStream(cx: Int32, cz: Int32): (r: Result<Option<RegionFiles.ChunkStream>>)
      requires Valid()
      reads this, rf, if rf == null then {} else {rf.offsets}
      ensures rf == null ==> r == Success(None)
      ensures rf != null ==> r == rf.GetChunkDataStream(cx, cz)
    {
      if rf == null then Success(None) else rf.GetChunkDataStream(cx, cz)
    }

    /** `releaseResources()`: drop the region file. */
    method ReleaseResources()
      modifies this
      ensures Valid() && rf == null
    {
      rf := null;
    }
  }

  /**
   * `new Region(x, z, f, mock)`: a region with a file opens it as a region
   * file, and the region file's exception escapes; a region without one has
   * no region file.
   */
  method NewRegion(x: Int32, z: Int32, file: Option<string>, mock: bool, present: bool, contents: seq<RegionFiles.UByte>,
                   lastModified: int) returns (r: Result<Region>)
    ensures r.Success? <==> file.None? || mock || (present && RegionFiles.Acceptable(|contents|))
    ensures file.Some? && !mock && !present ==> r == Failure(IllegalArgument(RegionFiles.E_NO_SUCH_FILE))
    ensures r.Success? ==>
      fresh(r.value) && r.value.Valid() && r.value.coord == Coord(x, z) && r.value.file == file && r.value.mock == mock
    ensures r.Success? && file.None? ==> r.value.rf == null
    ensures r.Success? && file.Some? ==>
      r.value.rf != null && fresh(r.value.rf) && r.value.rf.Loaded(mock, contents) && r.value.rf.path == file.value
  {
    if file.None? {
      var region := new Region.Opened(x, z, file, mock, null);
      return Success(region);
    }
    var rfile := RegionFiles.Open(file.value, mock, present, contents, lastModified);
    if rfile.Failure? {
      return Failure(rfile.error);
    }
    var region := new Region.Opened(x, z, file, mock, rfile.value);
    return Success(region);
  }

  /** Region equality is an equivalence that ignores the file, and equal regions hash alike. */
  lemma RegionEquality(a: Region, b: Region, c: Region)
    ensures a.Equals(a)
    ensures a.Equals(b) <==> a.coord == b.coord
    ensures a.Equals(b) ==> b.Equals(a) && a.HashCode() == b.HashCode()
    ensures a.Equals(b) && b.Equals(c) ==> a.Equals(c)
  {
  }

  /** Once released, a region gives no chunk stream. */
  lemma ReleasedHasNoStream(r: Region, cx: Int32, cz: Int32)
    requires r.Valid() && r.rf == null
    ensures r.GetChunkDataStream(cx, cz) == Success(None)
  {
  }

  // ------------------------------------------------------------ the region set

  /** A `Set<Region>`: by region equality, no two members share a coordinate. */
  predicate DistinctCoords(regions: set<Region>)
  {
    forall r1, r2 :: r1 in regions && r2 in regions && r1.coord == r2.coord ==> r1 == r2
  }

  /** The regions of a set, keyed by coordinate. */
  function ByCoord(regions: set<Region>): (m: map<Coord, Region>)
    requires DistinctCoords(regions)
    ensures forall c :: c in m ==> m[c] in regions && m[c].coord == c
  {
    map r | r in regions :: r.coord := r
  }

  /** The keys of `ByCoord` are the regions' coordinates. */
  lemma ByCoordKeys(regions: set<Region>)
    requires DistinctCoords(regions)
    ensures ByCoord(regions).Keys == set r | r in regions :: r.coord
  {
  }

  lemma ByCoordAdd(regions: set<Region>, done: set<Region>, r: Region)
    requires DistinctCoords(regions) && done <= regions && r in regions
    ensures DistinctCoords(done) && DistinctCoords(done + {r})
    ensures ByCoord(done + {r}) == ByCoord(done)[r.coord := r]
  {
  }

  lemma UnionUpdate<K, V>(m1: map<K, V>, m2: map<K, V>, k: K, v: V)
    ensures (m1 + m2)[k := v] == m1 + m2[k := v]
  {
  }

  class RegionData {
    const bounds: Bounds
    var regionMap: map<Coord, Region>

    /** The bounds hold exactly the coordinates of the map, and each region is keyed by its own coordinate. */
    ghost predicate Valid()
      reads this, bounds
    {
      bounds.Valid() && bounds.points == regionMap.Keys &&
      forall c :: c in regionMap ==> regionMap[c].coord == c
    }

    /** `new RegionData()`: no regions, all-zero bounds. */
    constructor ()
      ensures Valid() && fresh(bounds) && regionMap == map[]
      ensures bounds.MinX() == 0 && bounds.MaxX() == 0 && bounds.MinZ() == 0 && bounds.MaxZ() == 0 && bounds.MaxDim() == 0
    {
      bounds := new Bounds();
      regionMap := map[];
    }

    /** `loadRegion(r)`: widen the bounds and map the coordinate to the region, replacing any earlier one. */
    method LoadRegion(r: Region)
      requires Valid()
      modifies this, bounds
      ensures Valid() && regionMap == old(regionMap)[r.coord := r]
    {
      bounds.Add(r.coord);
      regionMap := regionMap[r.coord := r];
    }

    /** `load(Set<Region>)`: every region of the set loaded, in whatever order the set yields them. */
    method Load(regions: set<Region>)
      requires Valid() && DistinctCoords(regions)
      modifies this, bounds
      ensures Valid() && regionMap == old(regionMap) + ByCoord(regions)
    {
      ghost var done: set<Region> := {};
      var rest := regions;
      while rest != {}
        invariant rest <= regions && done == regions - rest && Valid()
        invariant regionMap == old(regionMap) + ByCoord(done)
        decreases |rest|
      {
        var r :| r in rest;
        LoadRegion(r);
        assert regionMap == old(regionMap) + ByCoord(done + {r}) by {
          ByCoordAdd(regions, done, r);
          UnionUpdate(old(regionMap), ByCoord(done), r.coord, r);
        }
        rest := rest - {r};
        done := done + {r};
      }
      assert done == regions;
    }

    /** `at(x, z)`: the region at (x, z), or null. */
    function At(x: Int32, z: Int32): (r: Region?)
      requires Valid()
      reads this, bounds
      ensures r != null <==> Coord(x, z) in bounds.points
      ensures r != null ==> r.coord == Coord(x, z)
    {
      if Coord(x, z) in regionMap then regionMap[Coord(x, z)] else null
    }

    /** `size()`: the number of distinct coordinates loaded, as the bounds saw them. */
    function Size(): (n: nat)
      requires Valid()
      reads this, bounds
      ensures n == |bounds.points|
    {
      |regionMap|
    }
  }

  /** Loading a set into a fresh instance: one region per coordinate, bounds their bounding box. */
  lemma LoadedFromSet(rd: RegionData, regions: set<Region>)
    requires rd.Valid() && DistinctCoords(regions) && rd.regionMap == ByCoord(regions)
    ensures rd.Size() == |regions|
    ensures rd.bounds.points == set r | r in regions :: r.coord
    ensures forall r :: r in regions ==> rd.At(r.coord.x, r.coord.z) == r
  {
    ByCoordKeys(regions);
    CoordsOfDistinct(regions);
  }

  lemma {:induction false} CoordsOfDistinct(regions: set<Region>)
    requires DistinctCoords(regions)
    ensures |set r | r in regions :: r.coord| == |regions|
    decreases |regions|
  {
    if regions != {} {
      var r :| r in regions;
      var rest := regions - {r};
      CoordsOfDistinct(rest);
      assert (set q | q in regions :: q.coord) == (set q | q in rest :: q.coord) + {r.coord};
      assert r.coord !in (set q | q in rest :: q.coord);
    }
  }

  // ------------------------------------------------------------ a region's image

  const TILE_PIXELS: int := 256

  /** The coordinate of a region's top-left base tile: `2 r + delta`, in 32-bit arithmetic. */
  function QuadCoordOf(region: Coord, delta: Coord): Coord
  {
    Coord(ToInt32(region.x * 2 + delta.x), ToInt32(region.z * 2 + delta.z))
  }

  /** Pixel (x, z) of the region image lies in window (dx, dz), dx and dz in {0, 1}. */
  predicate InWindow(dx: int, dz: int, x: int, z: int)
  {
    TILE_PIXELS * dx <= x < TILE_PIXELS * dx + TILE_PIXELS && TILE_PIXELS * dz <= z < TILE_PIXELS * dz + TILE_PIXELS
  }

  /** The four windows partition the 512x512 region image: each pixel lies in exactly one. */
  lemma WindowsPartition(x: int, z: int)
    requires 0 <= x < RegionStructures.NPIXELS && 0 <= z < RegionStructures.NPIXELS
    ensures exists dx, dz :: 0 <= dx <= 1 && 0 <= dz <= 1 && InWindow(dx, dz, x, z)
    ensures forall dx, dz, dx', dz' :: InWindow(dx, dz, x, z) && InWindow(dx', dz', x, z) ==> dx == dx' && dz == dz'
  {
    var dx, dz := x / TILE_PIXELS, z / TILE_PIXELS;
    assert InWindow(dx, dz, x, z);
  }

  class RegionImageData {
    const region: Region
    const coord: Coord
    /** The region's 512x512 image, until released. */
    var image: array2?<Int32>

    /**
     * `new RegionImageData(region, delta)`: the coordinate of the region's
     * first base tile, and the region's image rendered from the surfaces of
     * its chunks.
     */
    constructor (region: Region, delta: Coord, chunks: seq<Option<RegionStructures.ChunkSurface>>)
      requires RegionStructures.WellFormedChunks(chunks)
      ensures this.region == region && coord == QuadCoordOf(region.coord, delta)
      ensures image != null && fresh(image)
      ensures image.Length0 == RegionStructures.NPIXELS && image.Length1 == RegionStructures.NPIXELS
      ensures forall x, z :: 0 <= x < RegionStructures.NPIXELS && 0 <= z < RegionStructures.NPIXELS ==>
        image[x, z] == RegionStructures.PixelInt(chunks, RegionStructures.NPIXELS * z + x)
    {
      this.region := region;
      coord := QuadCoordOf(region.coord, delta);
      var structure := new RegionStructures.RegionStructure(chunks);
      var rendered := structure.GetImage();
      image := rendered;
    }

    /**
     * `getImage(dx, dz)`: the 256x256 window at (256 dx, 256 dz); a window
     * outside the image raises RasterFormatException, a released image
     * NullPointerException.
     */
    method GetImage(dx: Int32, dz: Int32) returns (r: Result<array2<Int32>>)
      ensures image == null ==> r == Failure(NullPointer)
      ensures image != null ==>
        (r.Success? <==> WindowFits(ToInt32(dx * TILE_PIXELS), image.Length0) && WindowFits(ToInt32(dz * TILE_PIXELS), image.Length1))
      ensures r.Failure? && image != null ==> r.error == RasterFormat
      ensures r.Success? ==>
        image != null && fresh(r.value) && r.value.Length0 == TILE_PIXELS && r.value.Length1 == TILE_PIXELS &&
        forall i, j :: 0 <= i < TILE_PIXELS && 0 <= j < TILE_PIXELS ==>
          r.value[i, j] == image[ToInt32(dx * TILE_PIXELS) + i, ToInt32(dz * TILE_PIXELS) + j]
    {
      if image == null {
        return Failure(NullPointer);
      }
      var ox, oz := ToInt32(dx * TILE_PIXELS), ToInt32(dz * TILE_PIXELS);
      if !WindowFits(ox, image.Length0) || !WindowFits(oz, image.Length1) {
        return Failure(RasterFormat);
      }
      var window := new Int32[TILE_PIXELS, TILE_PIXELS]((_, _) => 0);
      for j := 0 to TILE_PIXELS
        invariant forall i, j' :: 0 <= i < TILE_PIXELS && 0 <= j' < j ==> window[i, j'] == image[ox + i, oz + j']
      {
        forall i | 0 <= i < TILE_PIXELS {
          window[i, j] := image[ox + i, oz + j];
        }
      }
      return Success(window);
    }

    /** `releaseResources()`: drop the image and the region's file. */
    method ReleaseResources()
      modifies this, region
      ensures image == null && region.rf == null && region.Valid()
    {
      region.ReleaseResources();
      image := null;
    }
  }

  /** A window starting at `origin` of width 256 lies within a side of `length` pixels. */
  predicate WindowFits(origin: int, length: int)
  {
    0 <= origin && origin + TILE_PIXELS <= length
  }

  /** Of the windows within the region image, only dx, dz in {0, 1} fit. */
  lemma WindowFitsExactly(d: Int32)
    requires -0x80_0000 <= d < 0x80_0000
    ensures WindowFits(ToInt32(d * TILE_PIXELS), RegionStructures.NPIXELS) <==> 0 <= d <= 1
  {
  }
}
