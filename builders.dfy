/**
 * The builders of the tile pyramid.
 *
 * The base builder cuts each region's 512x512 image into four 256x256 base
 * tiles and enlarges every tile twice by pixel doubling, filling the base
 * level and the two levels below it. The older builder makes one level from
 * another: from the quad data one tile per region, or, zooming out, one
 * tile per 2x2 group of the source level.
 */
module Builders {
  import opened Wrappers
  import opened JavaInts
  import opened Geometry
  import Regions
  import Quads
  import Tiles

  const BLOCKS_PER_REGION: Int32 := 512
  const BLOCKS_PER_BASE_TILE: Int32 := 256
  const NPIXELS: int := 256
  const HALF_NPIXELS: int := 128
  const E_ZOOM_2_OR_MORE: string := "Zoom level must be 2 or more"

  /** `new File(dir, name)`: with no directory the name alone. */
  function PathIn(dir: Option<string>, name: string): string
  {
    if dir.None? then name else dir.value + "/" + name
  }

  // ---------------------------------------------------------------------
  // Level attributes when zooming out

  /** The attributes a level hands to the viewer. */
  datatype Attributes = Attributes(zoom: Int32, blocksPerTile: Int32, originTile: Coord, originDisplace: Coord)

  /**
   * `computeAttributes`: one zoom step out. Tiles cover twice the blocks,
   * the origin tile is halved toward zero, and the odd half-tile the halving
   * drops moves into the displacement; all in 32-bit arithmetic.
   */
  function ZoomedOut(a: Attributes): Attributes
  {
    var bpt := a.blocksPerTile as int;
    Attributes(
      ToInt32(a.zoom as int - 1),
      ToInt32(bpt * 2),
      Div2(a.originTile),
      Coord(DisplacedBy(a.originDisplace.x, a.originTile.x, a.blocksPerTile),
            DisplacedBy(a.originDisplace.z, a.originTile.z, a.blocksPerTile)))
  }

  /** One axis of the new displacement: the old one plus the tile the halving of `origin` drops, if odd. */
  function DisplacedBy(disp: Int32, origin: Int32, blocksPerTile: Int32): Int32
  {
    ToInt32(disp as int + TruncMod(origin as int, 2) * blocksPerTile as int)
  }

  /** The block at which the world origin sits: whole tiles to the origin tile, then the displacement. */
  function OriginBlock(a: Attributes): (int, int)
  {
    (a.originTile.x as int * a.blocksPerTile as int + a.originDisplace.x as int,
     a.originTile.z as int * a.blocksPerTile as int + a.originDisplace.z as int)
  }

  /** One axis of the origin block: halving the tile and doubling the tile size loses nothing. */
  lemma AxisKept(o: int, bpt: int, d: int)
    ensures TruncDiv(o, 2) * (bpt * 2) + (d + TruncMod(o, 2) * bpt) == o * bpt + d
  {
    TruncDivMod(o, 2);
    var q, r := TruncDiv(o, 2), TruncMod(o, 2);
    assert q * (bpt * 2) + r * bpt == (q * 2 + r) * bpt;
  }

  /** Zooming out keeps the world origin on the same block, as long as nothing wraps. */
  lemma ZoomOutKeepsOriginBlock(a: Attributes)
    requires IsInt32(a.blocksPerTile as int * 2)
    requires IsInt32(a.originDisplace.x as int + TruncMod(a.originTile.x as int, 2) * a.blocksPerTile as int)
    requires IsInt32(a.originDisplace.z as int + TruncMod(a.originTile.z as int, 2) * a.blocksPerTile as int)
    ensures OriginBlock(ZoomedOut(a)) == OriginBlock(a)
  {
    AxisKept(a.originTile.x as int, a.blocksPerTile as int, a.originDisplace.x as int);
    AxisKept(a.originTile.z as int, a.blocksPerTile as int, a.originDisplace.z as int);
  }

  /** Two steps out from origin tile (1,3), 512 blocks per tile. */
  lemma ZoomOutTwice()
    ensures ZoomedOut(Attributes(3, 512, Coord(1, 3), ORIGIN)) == Attributes(2, 1024, Coord(0, 1), Coord(512, 512))
    ensures ZoomedOut(Attributes(2, 1024, Coord(0, 1), Coord(512, 512))) == Attributes(1, 2048, ORIGIN, Coord(512, 1536))
  {
  }

  // ---------------------------------------------------------------------
  // Tile coordinates

  /** The zoom-in child of tile `c` at (dx, dz): `(2x + dx, 2z + dz)` in 32-bit arithmetic. */
  function Child(c: Coord, dx: int, dz: int): Coord
  {
    Coord(ToInt32(c.x as int * 2 + dx), ToInt32(c.z as int * 2 + dz))
  }

  /** The base tile at (dx, dz) of the region at `rc`, shifted by the region-to-quad delta. */
  function BaseTileCoord(rc: Coord, delta: Coord, dx: int, dz: int): Coord
  {
    Coord(ToInt32(rc.x as int * 2 + delta.x as int + dx), ToInt32(rc.z as int * 2 + delta.z as int + dz))
  }

  /** All zoom-in children of the tiles at `keys`. */
  function ChildKeys(keys: set<Coord>): set<Coord>
  {
    set c, dx, dz | c in keys && 0 <= dx < 2 && 0 <= dz < 2 :: Child(c, dx, dz)
  }

  /** The four base tiles of a region's image. */
  function BaseKeys(rc: Coord, delta: Coord): set<Coord>
  {
    {BaseTileCoord(rc, delta, 0, 0), BaseTileCoord(rc, delta, 1, 0), BaseTileCoord(rc, delta, 0, 1), BaseTileCoord(rc, delta, 1, 1)}
  }

  /** Two ints one apart or equal that cast to the same 32-bit value are equal. */
  lemma ToInt32Near(a: int, b: int)
    requires ToInt32(a) == ToInt32(b) && -1 <= a - b <= 1
    ensures a == b
  {
    assert (ToInt32(a) - a) % TWO_32 == 0 && (ToInt32(b) - b) % TWO_32 == 0;
    var k := (a - b);
    assert (ToInt32(a) - a) - (ToInt32(b) - b) == -k;
  }

  /**
   * A region's four base tiles are distinct, even with 32-bit wrap-around,
   * and the first is the tile the region's image data is filed under.
   */
  lemma BaseTilesDistinct(rc: Coord, delta: Coord, dx: int, dz: int, dx': int, dz': int)
    requires 0 <= dx < 2 && 0 <= dz < 2 && 0 <= dx' < 2 && 0 <= dz' < 2
    ensures BaseTileCoord(rc, delta, 0, 0) == Regions.QuadCoordOf(rc, delta)
    ensures BaseTileCoord(rc, delta, dx, dz) == BaseTileCoord(rc, delta, dx', dz') <==> dx == dx' && dz == dz'
  {
    if BaseTileCoord(rc, delta, dx, dz) == BaseTileCoord(rc, delta, dx', dz') {
      ToInt32Near(rc.x as int * 2 + delta.x as int + dx, rc.x as int * 2 + delta.x as int + dx');
      ToInt32Near(rc.z as int * 2 + delta.z as int + dz, rc.z as int * 2 + delta.z as int + dz');
    }
  }

  /** Tiles whose doubled coordinates do not wrap. */
  predicate Doublable(c: Coord)
  {
    -0x4000_0000 <= c.x < 0x4000_0000 && -0x4000_0000 <= c.z < 0x4000_0000
  }

  /** Children of distinct tiles never collide, and one tile's four children are distinct. */
  lemma ChildrenNeverCollide(c: Coord, c': Coord, dx: int, dz: int, dx': int, dz': int)
    requires Doublable(c) && Doublable(c')
    requires 0 <= dx < 2 && 0 <= dz < 2 && 0 <= dx' < 2 && 0 <= dz' < 2
    requires Child(c, dx, dz) == Child(c', dx', dz')
    ensures c == c' && dx == dx' && dz == dz'
  {
    assert c.x as int * 2 + dx == c'.x as int * 2 + dx';
    assert c.z as int * 2 + dz == c'.z as int * 2 + dz';
  }

  /** Halving a child (Java division, as zooming out does) gives back its parent. */
  lemma ParentOfChild(c: Coord, dx: int, dz: int)
    requires 0 <= c.x < 0x4000_0000 && 0 <= c.z < 0x4000_0000
    requires 0 <= dx < 2 && 0 <= dz < 2
    ensures Div2(Child(c, dx, dz)) == c
  {
    assert Child(c, dx, dz) == Coord(c.x * 2 + dx, c.z * 2 + dz);
  }

  /** Adding a tile's coordinate adds its four children. */
  lemma ChildKeysAdd(keys: set<Coord>, c: Coord)
    ensures ChildKeys(keys + {c}) == ChildKeys(keys) + {Child(c, 0, 0), Child(c, 1, 0), Child(c, 0, 1), Child(c, 1, 1)}
  {
    var lhs, rhs := ChildKeys(keys + {c}), ChildKeys(keys) + {Child(c, 0, 0), Child(c, 1, 0), Child(c, 0, 1), Child(c, 1, 1)};
    forall k | k in lhs
      ensures k in rhs
    {
      var p, dx, dz :| p in keys + {c} && 0 <= dx < 2 && 0 <= dz < 2 && k == Child(p, dx, dz);
      if p != c {
        assert k in ChildKeys(keys);
      }
    }
    assert Child(c, 0, 0) in lhs && Child(c, 1, 0) in lhs && Child(c, 0, 1) in lhs && Child(c, 1, 1) in lhs;
  }

  /** More tiles, more children. */
  lemma ChildKeysGrow(small: set<Coord>, large: set<Coord>)
    requires small <= large
    ensures ChildKeys(small) <= ChildKeys(large)
  {
  }

  // ---------------------------------------------------------------------
  // Zooming out: 2x2 groups of a source level

  /** The source tile at (x, z) exists; coordinates outside 32 bits never do. */
  predicate Present(keys: set<Coord>, x: int, z: int)
  {
    IsInt32(x) && IsInt32(z) && Coord(x, z) in keys
  }

  /** Which of the four children of zoom-out tile `c` exist; its tag is made from these. */
  function ChildrenOf(keys: set<Coord>, c: Coord): Tiles.Children
  {
    var a, b := 2 * c.x as int, 2 * c.z as int;
    Tiles.Children(Present(keys, a, b), Present(keys, a + 1, b), Present(keys, a, b + 1), Present(keys, a + 1, b + 1))
  }

  /**
   * Tile `c` of the zoomed-out level exists: its 2x2 group starts inside the
   * source's `dim` x `dim` grid and at least one of its children exists.
   */
  predicate IsParent(keys: set<Coord>, dim: int, c: Coord)
  {
    var a, b := 2 * c.x as int, 2 * c.z as int;
    0 <= a < dim && 0 <= b < dim &&
    (Present(keys, a, b) || Present(keys, a + 1, b) || Present(keys, a, b + 1) || Present(keys, a + 1, b + 1))
  }

  /** The parents of the groups in column `a` above row `b`. */
  predicate InColumn(keys: set<Coord>, dim: int, c: Coord, a: int, b: int)
  {
    IsParent(keys, dim, c) && 2 * c.x as int == a && 2 * c.z as int < b
  }

  /** Visiting the group at even (a, b) adds at most its own parent to the column. */
  lemma InColumnStep(keys: set<Coord>, dim: int, i: int, j: int)
    requires 0 <= i < 0x4000_0000 && 0 <= j < 0x4000_0000
    ensures forall c :: InColumn(keys, dim, c, 2 * i, 2 * j + 2) <==>
      InColumn(keys, dim, c, 2 * i, 2 * j) || (c == Coord(i, j) && IsParent(keys, dim, c))
  {
  }

  /** The parents of the groups left of column `a`. */
  predicate ColumnsDone(keys: set<Coord>, dim: int, c: Coord, a: int)
  {
    IsParent(keys, dim, c) && 2 * c.x as int < a
  }

  /** Finishing column `a` adds its parents to those of the columns before it. */
  lemma ColumnsDoneStep(keys: set<Coord>, dim: int, i: int)
    ensures forall c :: ColumnsDone(keys, dim, c, 2 * i + 2) <==>
      ColumnsDone(keys, dim, c, 2 * i) || InColumn(keys, dim, c, 2 * i, dim)
  {
  }

  /** The parent of a source tile, for tiles at non-negative coordinates. */
  function ParentOf(k: Coord): Coord
    requires 0 <= k.x && 0 <= k.z
  {
    Coord(k.x / 2, k.z / 2)
  }

  /** The source tiles that fall in some 2x2 group the loop visits. */
  predicate InGroups(k: Coord, dim: int)
  {
    0 <= k.x && 0 <= k.z && 2 * (k.x / 2) < dim && 2 * (k.z / 2) < dim
  }

  /** The parents of the source tiles inside the visited groups. */
  function ParentSet(keys: set<Coord>, dim: int): set<Coord>
  {
    set k | k in keys && InGroups(k, dim) :: ParentOf(k)
  }

  /** The parent set holds exactly the tiles `IsParent` describes. */
  lemma ParentSetMembers(keys: set<Coord>, dim: int, c: Coord)
    ensures c in ParentSet(keys, dim) <==> IsParent(keys, dim, c)
  {
    var a, b := 2 * c.x as int, 2 * c.z as int;
    if c in ParentSet(keys, dim) {
      var k :| k in keys && InGroups(k, dim) && ParentOf(k) == c;
      assert Present(keys, k.x, k.z);
      assert k.x == a || k.x == a + 1;
      assert k.z == b || k.z == b + 1;
    }
    if IsParent(keys, dim, c) {
      if Present(keys, a, b) {
        assert ParentOf(Coord(a, b)) == c;
      } else if Present(keys, a + 1, b) {
        assert ParentOf(Coord(a + 1, b)) == c;
      } else if Present(keys, a, b + 1) {
        assert ParentOf(Coord(a, b + 1)) == c;
      } else {
        assert ParentOf(Coord(a + 1, b + 1)) == c;
      }
    }
  }

  /** There are never more parents than source tiles. */
  lemma {:induction false} ParentSetBound(keys: set<Coord>, dim: int)
    ensures |ParentSet(keys, dim)| <= |keys|
    decreases |keys|
  {
    if keys != {} {
      var k :| k in keys;
      var rest := keys - {k};
      ParentSetBound(rest, dim);
      var extra := if InGroups(k, dim) then {ParentOf(k)} else {};
      assert ParentSet(keys, dim) == ParentSet(rest, dim) + extra;
    }
  }

  /**
   * A zoomed-out level built into an empty level holds one tile per parent
   * group, never more tiles than its source.
   */
  lemma ZoomOutNeverGrows(built: set<Coord>, keys: set<Coord>, dim: int)
    requires forall c :: c in built <==> IsParent(keys, dim, c)
    ensures built == ParentSet(keys, dim) && |built| <= |keys|
  {
    forall c
      ensures c in built <==> c in ParentSet(keys, dim)
    {
      ParentSetMembers(keys, dim, c);
    }
    ParentSetBound(keys, dim);
  }

  /** A merged tile as the zoom-out loop leaves it in the level. */
  ghost predicate MergedTile(t: Tiles.QuadTile, c: Coord, keys: set<Coord>, suppressWrite: bool, dir: Option<string>)
    reads t
  {
    MergedAt(t, c, keys) && Settled(t, suppressWrite, dir)
  }

  /** The merged tile's identity: its coordinate and which children it has. */
  predicate MergedAt(t: Tiles.QuadTile, c: Coord, keys: set<Coord>)
  {
    t.coord == c && t.kind == Tiles.TileKind.Four(ChildrenOf(keys, c))
  }

  /** A tile after its pass: its image released, its file recorded unless writing was suppressed. */
  ghost predicate Settled(t: Tiles.QuadTile, suppressWrite: bool, dir: Option<string>)
    reads t
  {
    t.image == null && t.onDisk == (if suppressWrite then None else Some(PathIn(dir, t.PngName())))
  }

  /** Every tile of `m` is the merged tile at its key. */
  ghost predicate AllMerged(m: map<Coord, Tiles.QuadTile>, keys: set<Coord>, suppressWrite: bool, dir: Option<string>)
    reads m.Values
  {
    forall c :: c in m ==> MergedTile(m[c], c, keys, suppressWrite, dir)
  }

  lemma AllMergedAdd(m: map<Coord, Tiles.QuadTile>, c: Coord, t: Tiles.QuadTile, keys: set<Coord>, suppressWrite: bool, dir: Option<string>)
    requires AllMerged(m, keys, suppressWrite, dir) && MergedTile(t, c, keys, suppressWrite, dir)
    ensures AllMerged(m[c := t], keys, suppressWrite, dir)
  {
  }

  // ---------------------------------------------------------------------
  // Region tiles

  /** A region's coordinate shifted by the delta, in 32-bit arithmetic. */
  function Shifted(c: Coord, delta: Coord): Coord
  {
    Coord(ToInt32(c.x as int + delta.x as int), ToInt32(c.z as int + delta.z as int))
  }

  /** The tiles a set of regions yields. */
  function ShiftedKeys(keys: set<Coord>, delta: Coord): set<Coord>
  {
    set c | c in keys :: Shifted(c, delta)
  }

  /** Shifting is one-to-one, even with wrap-around, so every region gets a tile of its own. */
  lemma ShiftInjective(c: Coord, c': Coord, delta: Coord)
    requires Shifted(c, delta) == Shifted(c', delta)
    ensures c == c'
  {
    ToInt32Injective(c.x as int + delta.x as int, c'.x as int + delta.x as int);
    ToInt32Injective(c.z as int + delta.z as int, c'.z as int + delta.z as int);
  }

  /** As many region tiles as regions. */
  lemma {:induction false} ShiftedKeysCount(keys: set<Coord>, delta: Coord)
    ensures |ShiftedKeys(keys, delta)| == |keys|
    decreases |keys|
  {
    if keys != {} {
      var k :| k in keys;
      var rest := keys - {k};
      ShiftedKeysCount(rest, delta);
      assert ShiftedKeys(keys, delta) == ShiftedKeys(rest, delta) + {Shifted(k, delta)};
      if Shifted(k, delta) in ShiftedKeys(rest, delta) {
        var k' :| k' in rest && Shifted(k', delta) == Shifted(k, delta);
        ShiftInjective(k', k, delta);
      }
    }
  }

  /** A region tile as the quad-data loop leaves it: the image released, written unless suppressed or mock. */
  ghost predicate RegionTileAt(t: Tiles.QuadTile, c: Coord, suppressWrite: bool, dir: Option<string>)
    reads t
  {
    t.coord == c && t.kind == Tiles.TileKind.RegionTile && t.image == null &&
    (suppressWrite ==> t.onDisk.None?) &&
    (t.onDisk.Some? ==> t.onDisk.value == PathIn(dir, t.PngName()))
  }

  /** Java's int addition after an int product: wrapping the product first changes nothing. */
  lemma WrapInner(d: int, p: int)
    ensures ToInt32(d + ToInt32(p) as int) == ToInt32(d + p)
  {
    var k := (ToInt32(p) as int - p) / TWO_32;
    assert ToInt32(p) as int == p + k * TWO_32;
    ToInt32Congruent(d + ToInt32(p) as int, d + p, k);
  }

  /** A level's attributes, once its origin tile and displacement are set. */
  function AttributesOf(level: Tiles.QdLvl): Option<Attributes>
    reads level
  {
    if level.originTile.Some? && level.originDisplace.Some? then
      Some(Attributes(level.zoom, level.blocksPerTileSide, level.originTile.value, level.originDisplace.value))
    else None
  }

  /** `sourceDisp.x() + ((sox % 2) * blocksPerTile)` in Java int arithmetic, wrapping the product and then the sum. */
  method Displace(disp: Int32, origin: Int32, blocksPerTile: Int32) returns (r: Int32)
    ensures r == DisplacedBy(disp, origin, blocksPerTile)
  {
    var product := ToInt32(TruncMod(origin as int, 2) * blocksPerTile as int);
    r := ToInt32(disp as int + product as int);
    WrapInner(disp as int, TruncMod(origin as int, 2) * blocksPerTile as int);
  }

  /**
   * `computeAttributes(ql, sourceLevel)`: the zoom and tile size are set
   * first; a source without origin tile or displacement then throws
   * NullPointerException, otherwise the origin follows `ZoomedOut`.
   */
  method ComputeAttributes(ql: Tiles.QdLvl, source: Tiles.QdLvl) returns (o: Outcome)
    requires ql != source
    modifies ql
    ensures ql.zoom == ToInt32(source.zoom as int - 1) && ql.dim == Tiles.DimOf(ql.zoom)
    ensures ql.blocksPerTileSide == ToInt32(source.blocksPerTileSide as int * 2)
    ensures o.Pass? <==> AttributesOf(source).Some?
    ensures o.Fail? ==> o.error == NullPointer && ql.originTile == old(ql.originTile) && ql.originDisplace == old(ql.originDisplace)
    ensures o.Pass? ==> AttributesOf(ql) == Some(ZoomedOut(AttributesOf(source).value))
    ensures ql.tileMap == old(ql.tileMap) && ql.outputDir == old(ql.outputDir) && ql.blanks == old(ql.blanks)
  {
    var blocksPerTile := source.blocksPerTileSide;
    ql.SetZoom(ToInt32(source.zoom as int - 1));
    ql.SetBlocksPerTileSide(ToInt32(blocksPerTile as int * 2));
    if source.originTile.None? || source.originDisplace.None? {
      return Fail(NullPointer);
    }
    var sourceOrig, sourceDisp := source.originTile.value, source.originDisplace.value;
    var sox, soz := sourceOrig.x, sourceOrig.z;
    var xDisp := Displace(sourceDisp.x, sox, blocksPerTile);
    var zDisp := Displace(sourceDisp.z, soz, blocksPerTile);
    ql.SetOriginTile(Coord(TruncDiv(sox as int, 2), TruncDiv(soz as int, 2)));
    ql.SetOriginDisplace(Coord(xDisp, zDisp));
    return Pass;
  }

  /**
   * `mergeTiles(a, b, tl, tr, bl, br)`: no tile when all four are missing,
   * otherwise the four-tile parent of the group at (a, b).
   */
  method MergeTiles(a: Int32, b: Int32, tl: Tiles.QuadTile?, tr: Tiles.QuadTile?, bl: Tiles.QuadTile?, br: Tiles.QuadTile?,
                    disk: Tiles.Disk)
    returns (merged: Tiles.QuadTile?)
    requires Tiles.DiskFits(disk)
    ensures merged == null <==> tl == null && tr == null && bl == null && br == null
    ensures merged != null ==> (fresh(merged) && merged.onDisk.None? &&
      merged.coord == Coord(TruncDiv(a as int, 2), TruncDiv(b as int, 2)) &&
      merged.kind == Tiles.TileKind.Four(Tiles.Children(tl != null, tr != null, bl != null, br != null)))
  {
    if tl == null && tr == null && bl == null && br == null {
      return null;
    }
    merged := new Tiles.QuadTile.Four(a, b, tl, tr, bl, br, disk);
  }

  /** `writeTileImageToDisk`: record the tile's file in the level's directory (the PNG itself is I/O). */
  method WriteTileImageToDisk(dir: Option<string>, tile: Tiles.QuadTile)
    modifies tile`onDisk
    ensures tile.onDisk == Some(PathIn(dir, tile.PngName()))
  {
    tile.SetLocationOnDisk(PathIn(dir, tile.PngName()));
  }

  /** Adding a region adds its shifted coordinate. */
  lemma ShiftedKeysAdd(keys: set<Coord>, k: Coord, delta: Coord)
    ensures ShiftedKeys(keys + {k}, delta) == ShiftedKeys(keys, delta) + {Shifted(k, delta)}
  {
  }

  /**
   * One pass of the `generateFromQuadData` loop: the region's tile, written
   * unless suppressed or mock, released with the region's file, and added.
   * In Java the tile's image is `TileUtils.generateImage(region)`, the
   * region's structure rendered from the chunk surfaces of its file (the
   * rendering RegionStructures models); those surfaces are not supplied
   * here, so the tile is made without an image. Writing, which in Java
   * reads the image before the release, records only the file path here.
   */
  method AddRegionTile(ql: Tiles.QdLvl, r: Regions.Region, delta: Coord, suppressWrite: bool) returns (qtile: Tiles.QuadTile)
    requires ql.Valid()
    modifies ql, r
    ensures ql.Valid() && ql.outputDir == old(ql.outputDir) && r.rf == null
    ensures fresh(qtile) && ql.tileMap == old(ql.tileMap)[Shifted(r.coord, delta) := qtile]
    ensures RegionTileAt(qtile, Shifted(r.coord, delta), suppressWrite, ql.outputDir)
    ensures qtile.onDisk.Some? <==> !suppressWrite && !r.mock
  {
    qtile := new Tiles.QuadTile.OfRegion(r.coord, delta, null);
    if !suppressWrite && !r.mock {
      WriteTileImageToDisk(ql.outputDir, qtile);
    }
    qtile.ReleaseResources();
    r.ReleaseResources();
    ql.AddTile(qtile);
  }

  /** The lookups of one `generateFromSourceLevel` pass, for the group at (a, b) == (2i, 2j), and their merge. */
  method MergeAt(source: Tiles.QdLvl, a: Int32, b: Int32, ghost i: int, ghost j: int, disk: Tiles.Disk)
    returns (merged: Tiles.QuadTile?)
    requires Tiles.DiskFits(disk)
    requires a as int == 2 * i && b as int == 2 * j && 0 <= a < source.dim < 0x7FFF_FFFF && 0 <= b < source.dim
    ensures merged != null <==> IsParent(source.tileMap.Keys, source.dim as int, Coord(i, j))
    ensures merged != null ==> (fresh(merged) && merged.onDisk.None? &&
      MergedAt(merged, Coord(i, j), source.tileMap.Keys))
  {
    var tl := source.At(a, b);
    var tr := source.At(a + 1, b);
    var bl := source.At(a, b + 1);
    var br := source.At(a + 1, b + 1);
    merged := MergeTiles(a, b, tl, tr, bl, br, disk);
  }

  /**
   * One pass of the `generateFromSourceLevel` loop: the group at
   * (a, b) == (2i, 2j), merged if any of its four tiles exists, then added,
   * written unless suppressed, and released.
   */
  method MergeGroup(source: Tiles.QdLvl, ql: Tiles.QdLvl, a: Int32, b: Int32, ghost i: int, ghost j: int,
                    suppressWrite: bool, disk: Tiles.Disk)
    returns (merged: Tiles.QuadTile?)
    requires ql != source && ql.Valid() && Tiles.DiskFits(disk)
    requires a as int == 2 * i && b as int == 2 * j && 0 <= a < source.dim < 0x7FFF_FFFF && 0 <= b < source.dim
    modifies ql
    ensures ql.Valid() && ql.outputDir == old(ql.outputDir)
    ensures merged != null <==> IsParent(source.tileMap.Keys, source.dim as int, Coord(i, j))
    ensures merged == null ==> ql.tileMap == old(ql.tileMap)
    ensures merged != null ==> (fresh(merged) && ql.tileMap == old(ql.tileMap)[Coord(i, j) := merged] &&
      MergedTile(merged, Coord(i, j), source.tileMap.Keys, suppressWrite, ql.outputDir))
  {
    merged := MergeAt(source, a, b, i, j, disk);
    if merged != null {
      ql.AddTile(merged);
      if !suppressWrite {
        WriteTileImageToDisk(ql.outputDir, merged);
      }
      merged.ReleaseResources();
    }
  }

  /** Merging maps one after another is merging them all at once. */
  lemma MergeAssociates<K, V>(m1: map<K, V>, m2: map<K, V>, m3: map<K, V>)
    ensures (m1 + m2) + m3 == m1 + (m2 + m3)
  {
  }

  /**
   * The inner loop of `generateFromSourceLevel`: the groups at (a, b) for
   * even b below `dim`, each merged by `MergeGroup`.
   */
  method MergeColumn(source: Tiles.QdLvl, ql: Tiles.QdLvl, a: Int32, ghost i: int, suppressWrite: bool, disk: Tiles.Disk)
    returns (ghost column: map<Coord, Tiles.QuadTile>)
    requires ql != source && ql.Valid() && Tiles.DiskFits(disk)
    requires a as int == 2 * i && 0 <= a < source.dim < 0x7FFF_FFFF
    modifies ql
    ensures ql.Valid() && ql.outputDir == old(ql.outputDir) && ql.tileMap == old(ql.tileMap) + column
    ensures forall c :: c in column <==> InColumn(source.tileMap.Keys, source.dim as int, c, a as int, source.dim as int)
    ensures AllMerged(column, source.tileMap.Keys, suppressWrite, ql.outputDir)
  {
    ghost var keys := source.tileMap.Keys;
    ghost var dir := ql.outputDir;
    ghost var base := ql.tileMap;
    var dim := source.dim;
    column := map[];
    var b: Int32 := 0;
    ghost var j := 0;
    while b < dim
      invariant b as int == 2 * j && 0 <= j && (j == 0 || b <= dim as int + 1)
      invariant ql.Valid() && ql.outputDir == dir && ql.tileMap == base + column
      invariant forall c :: c in column <==> InColumn(keys, dim as int, c, a as int, b as int)
      invariant AllMerged(column, keys, suppressWrite, dir)
      decreases dim as int - b as int
    {
      var merged := MergeGroup(source, ql, a, b, i, j, suppressWrite, disk);
      InColumnStep(keys, dim as int, i, j);
      if merged != null {
        Regions.UnionUpdate(base, column, Coord(i, j), merged);
        AllMergedAdd(column, Coord(i, j), merged, keys, suppressWrite, dir);
        column := column[Coord(i, j) := merged];
      }
      b := b + 2;
      j := j + 1;
    }
  }

  /** The `generateFromQuadData` loop: every region's tile, in any order. */
  method AddRegionTiles(ql: Tiles.QdLvl, rd: Regions.RegionData, delta: Coord, suppressWrite: bool)
    returns (ghost added: map<Coord, Tiles.QuadTile>)
    requires ql.Valid() && rd.Valid()
    modifies ql, rd.regionMap.Values
    ensures ql.Valid() && ql.outputDir == old(ql.outputDir) && ql.tileMap == old(ql.tileMap) + added
    ensures added.Keys == ShiftedKeys(rd.regionMap.Keys, delta)
    ensures forall c :: c in added ==> RegionTileAt(added[c], c, suppressWrite, ql.outputDir)
    ensures forall k :: k in rd.regionMap ==> rd.regionMap[k].rf == null
  {
    ghost var dir := ql.outputDir;
    var todo := rd.regionMap.Keys;
    ghost var done: set<Coord> := {};
    added := map[];
    while todo != {}
      invariant todo <= rd.regionMap.Keys && done == rd.regionMap.Keys - todo
      invariant ql.Valid() && ql.outputDir == dir && ql.tileMap == old(ql.tileMap) + added
      invariant added.Keys == ShiftedKeys(done, delta)
      invariant forall c :: c in added ==> RegionTileAt(added[c], c, suppressWrite, dir)
      invariant forall k :: k in done ==> rd.regionMap[k].rf == null
      decreases todo
    {
      var k :| k in todo;
      var r := rd.regionMap[k];
      var qtile := AddRegionTile(ql, r, delta, suppressWrite);
      Regions.UnionUpdate(old(ql.tileMap), added, qtile.coord, qtile);
      added := added[qtile.coord := qtile];
      ShiftedKeysAdd(done, k, delta);
      todo := todo - {k};
      done := done + {k};
    }
  }

  /** The outer `generateFromSourceLevel` loop: the columns at even `a` below the source's `dim`. */
  method MergeColumns(source: Tiles.QdLvl, ql: Tiles.QdLvl, suppressWrite: bool, disk: Tiles.Disk)
    returns (ghost added: map<Coord, Tiles.QuadTile>)
    requires ql != source && ql.Valid() && Tiles.DiskFits(disk) && source.dim < 0x7FFF_FFFF
    modifies ql
    ensures ql.Valid() && ql.outputDir == old(ql.outputDir) && ql.tileMap == old(ql.tileMap) + added
    ensures forall c :: c in added <==> IsParent(source.tileMap.Keys, source.dim as int, c)
    ensures forall c :: c in added ==> MergedTile(added[c], c, source.tileMap.Keys, suppressWrite, ql.outputDir)
  {
    var dim := source.dim;
    ghost var keys := source.tileMap.Keys;
    ghost var dir := ql.outputDir;
    added := map[];
    var a: Int32 := 0;
    ghost var i := 0;
    while a < dim
      invariant a as int == 2 * i && 0 <= i && (i == 0 || a <= dim as int + 1)
      invariant ql.Valid() && ql.outputDir == dir && ql.tileMap == old(ql.tileMap) + added
      invariant forall c :: c in added <==> ColumnsDone(keys, dim as int, c, a as int)
      invariant forall c :: c in added ==> MergedTile(added[c], c, keys, suppressWrite, dir)
      decreases dim as int - a as int
    {
      var column := MergeColumn(source, ql, a, i, suppressWrite, disk);
      ColumnsDoneStep(keys, dim as int, i);
      MergeAssociates(old(ql.tileMap), added, column);
      added := added + column;
      a := a + 2;
      i := i + 1;
    }
  }

  /**
   * `QuadLevelBuilderOld`: builds a single level, either from the quad data
   * (one tile per region) or from a source level (one tile per 2x2 group).
   */
  class QuadLevelBuilderOld {
    const quadData: Quads.QuadData?
    const sourceLevel: Tiles.QdLvl?
    const zoomIn: bool
    /** The negated calibration; never set when building from a level. */
    const regionToQuadDelta: Option<Coord>
    var generatedLevel: Tiles.QdLvl?

    /** Exactly one source, and the level being built is not the source. */
    ghost predicate Valid()
      reads this
    {
      (quadData != null <==> sourceLevel == null) &&
      (quadData != null ==> regionToQuadDelta == Some(Negation(quadData.calibration))) &&
      (sourceLevel != null ==> generatedLevel != sourceLevel)
    }

    /** `new QuadLevelBuilderOld(quadData)`. */
    constructor OfQuadData(quadData: Quads.QuadData)
      ensures Valid() && this.quadData == quadData && sourceLevel == null && !zoomIn && generatedLevel == null
    {
      this.quadData := quadData;
      regionToQuadDelta := Some(Negation(quadData.calibration));
      sourceLevel := null;
      zoomIn := false;
      generatedLevel := null;
    }

    /** The fields `new QuadLevelBuilderOld(level, zoomIn)` sets once its guard has passed. */
    constructor OfLevel(level: Tiles.QdLvl, zoomIn: bool)
      ensures Valid() && quadData == null && sourceLevel == level && this.zoomIn == zoomIn && generatedLevel == null
    {
      quadData := null;
      sourceLevel := level;
      this.zoomIn := zoomIn;
      regionToQuadDelta := None;
      generatedLevel := null;
    }

    /** `prepare()`: a fresh level, from the quad data or from the source level. */
    method Prepare() returns (r: Result<Tiles.QdLvl>)
      requires Valid()
      modifies this
      ensures Valid()
      ensures quadData != null ==> r.Success?
      ensures r.Success? ==> fresh(r.value) && generatedLevel == r.value && r.value.Valid() && r.value.tileMap == map[]
      ensures r.Success? && quadData != null ==> PreparedFromQuadData(r.value)
      ensures quadData == null ==> (r.Success? <==> AttributesOf(sourceLevel).Some?)
      ensures r.Success? && quadData == null ==>
        r.value.zoom == ToInt32(sourceLevel.zoom as int - 1) &&
        r.value.blocksPerTileSide == ToInt32(sourceLevel.blocksPerTileSide as int * 2) &&
        AttributesOf(r.value) == Some(ZoomedOut(AttributesOf(sourceLevel).value))
      ensures r.Failure? ==> r.error == NullPointer && generatedLevel == old(generatedLevel)
    {
      if quadData != null {
        var ql := PrepareFromQuadData();
        generatedLevel := ql;
        return Success(ql);
      }
      r := PrepareFromSourceLevel();
      if r.Success? {
        generatedLevel := r.value;
      }
    }

    /** What `prepareFromQuadData` sets. */
    ghost predicate PreparedFromQuadData(ql: Tiles.QdLvl)
      requires quadData != null
      reads this, quadData, ql
    {
      ql.zoom == quadData.maxZoom && ql.dim == Tiles.DimOf(quadData.maxZoom) &&
      ql.blocksPerTileSide == BLOCKS_PER_REGION &&
      ql.originTile == Some(Negation(quadData.calibration)) && ql.originDisplace == Some(ORIGIN) &&
      ql.outputDir.None?
    }

    /** `prepareFromQuadData()`: zoom = maxZoom, 512 blocks per tile, origin at the delta, no displacement. */
    method PrepareFromQuadData() returns (ql: Tiles.QdLvl)
      requires Valid() && quadData != null
      ensures fresh(ql) && ql.Valid() && ql.tileMap == map[] && PreparedFromQuadData(ql)
    {
      ql := new Tiles.QdLvl();
      ql.SetZoom(quadData.maxZoom);
      ql.SetBlocksPerTileSide(BLOCKS_PER_REGION);
      ql.SetOriginTile(regionToQuadDelta.value);
      ql.SetOriginDisplace(Coord(0, 0));
    }

    /** `prepareFromSourceLevel()`: a fresh level with the zoomed-out attributes. */
    method PrepareFromSourceLevel() returns (r: Result<Tiles.QdLvl>)
      requires Valid() && quadData == null
      ensures r.Success? <==> AttributesOf(sourceLevel).Some?
      ensures r.Failure? ==> r.error == NullPointer
      ensures r.Success? ==> (fresh(r.value) && r.value.Valid() && r.value.tileMap == map[] && r.value != sourceLevel &&
        r.value.zoom == ToInt32(sourceLevel.zoom as int - 1) &&
        r.value.blocksPerTileSide == ToInt32(sourceLevel.blocksPerTileSide as int * 2) &&
        AttributesOf(r.value) == Some(ZoomedOut(AttributesOf(sourceLevel).value)))
    {
      var ql := new Tiles.QdLvl();
      var o := ComputeAttributes(ql, sourceLevel);
      if o.Fail? {
        return Failure(o.error);
      }
      return Success(ql);
    }

    /**
     * `generateFromQuadData`: one tile per region, at the region's
     * coordinate shifted by the delta; each tile is written unless
     * suppressed or the region is a mock, then released together with the
     * region's file.
     */
    method GenerateFromQuadData(suppressWrite: bool) returns (o: Outcome)
      requires Valid() && quadData != null && quadData.regionData.Valid()
      requires generatedLevel != null ==> generatedLevel.Valid()
      modifies generatedLevel, quadData.regionData.regionMap.Values
      ensures generatedLevel == null ==> o == Fail(NullPointer)
      ensures generatedLevel != null ==> (o.Pass? && generatedLevel.Valid() &&
        generatedLevel.tileMap.Keys ==
          old(generatedLevel.tileMap.Keys) + ShiftedKeys(quadData.regionData.regionMap.Keys, regionToQuadDelta.value))
      ensures generatedLevel != null ==>
        forall c :: c in ShiftedKeys(quadData.regionData.regionMap.Keys, regionToQuadDelta.value) ==>
          RegionTileAt(generatedLevel.tileMap[c], c, suppressWrite, generatedLevel.outputDir)
      ensures generatedLevel != null ==>
        forall c :: c in old(generatedLevel.tileMap) && c !in ShiftedKeys(quadData.regionData.regionMap.Keys, regionToQuadDelta.value) ==>
          generatedLevel.tileMap[c] == old(generatedLevel.tileMap[c])
      ensures generatedLevel != null ==> forall k :: k in quadData.regionData.regionMap ==> quadData.regionData.regionMap[k].rf == null
    {
      var ql := generatedLevel;
      if ql == null {
        return Fail(NullPointer);
      }
      ghost var added := AddRegionTiles(ql, quadData.regionData, regionToQuadDelta.value, suppressWrite);
      return Pass;
    }

    /**
     * `generateFromSourceLevel`: visit the 2x2 groups at even (a, b) below
     * the source's `dim`; every group with a tile yields a four-tile parent
     * at (a/2, b/2), which is written unless suppressed and then released.
     * `dim` is a Java int, so a `dim` of the largest int would step `a` past
     * it forever; levels never have that side.
     */
    method GenerateFromSourceLevel(suppressWrite: bool, disk: Tiles.Disk) returns (o: Outcome)
      requires Valid() && quadData == null
      requires sourceLevel.dim < 0x7FFF_FFFF && Tiles.DiskFits(disk)
      requires generatedLevel != null ==> generatedLevel.Valid()
      modifies generatedLevel
      ensures generatedLevel == null ==> o == Fail(NullPointer)
      ensures generatedLevel != null ==> (o.Pass? && generatedLevel.Valid() &&
        forall c :: c in generatedLevel.tileMap <==>
          c in old(generatedLevel.tileMap) || IsParent(sourceLevel.tileMap.Keys, sourceLevel.dim as int, c))
      ensures generatedLevel != null ==>
        forall c :: IsParent(sourceLevel.tileMap.Keys, sourceLevel.dim as int, c) ==>
          MergedTile(generatedLevel.tileMap[c], c, sourceLevel.tileMap.Keys, suppressWrite, generatedLevel.outputDir)
      ensures generatedLevel != null ==>
        forall c :: c in old(generatedLevel.tileMap) && !IsParent(sourceLevel.tileMap.Keys, sourceLevel.dim as int, c) ==>
          generatedLevel.tileMap[c] == old(generatedLevel.tileMap[c])
    {
      var ql := generatedLevel;
      if ql == null {
        return Fail(NullPointer);
      }
      ghost var added := MergeColumns(sourceLevel, ql, suppressWrite, disk);
      return Pass;
    }

    /**
     * `genTiles(suppressWriteToDisk)`: from the quad data one tile per
     * region, otherwise the zoomed-out tiles of the source level; before
     * `prepare` either path dereferences the null level.
     */
    method GenTiles(suppressWrite: bool, disk: Tiles.Disk) returns (o: Outcome)
      requires Valid()
      requires quadData != null ==> quadData.regionData.Valid()
      requires quadData == null ==> sourceLevel.dim < 0x7FFF_FFFF && Tiles.DiskFits(disk)
      requires generatedLevel != null ==> generatedLevel.Valid()
      modifies generatedLevel, if quadData != null then quadData.regionData.regionMap.Values else {}
      ensures generatedLevel == null <==> o == Fail(NullPointer)
      ensures o.Pass? <==> generatedLevel != null
      ensures generatedLevel != null && quadData != null ==>
        generatedLevel.tileMap.Keys ==
          old(generatedLevel.tileMap.Keys) + ShiftedKeys(quadData.regionData.regionMap.Keys, regionToQuadDelta.value)
      ensures generatedLevel != null && quadData == null ==>
        forall c :: c in generatedLevel.tileMap <==>
          c in old(generatedLevel.tileMap) || IsParent(sourceLevel.tileMap.Keys, sourceLevel.dim as int, c)
    {
      if quadData != null {
        o := GenerateFromQuadData(suppressWrite);
      } else {
        o := GenerateFromSourceLevel(suppressWrite, disk);
      }
    }
  }

  /**
   * `new QuadLevelBuilderOld(level, zoomIn)`: a level below zoom 2 is
   * refused with an illegal argument; otherwise a builder over the level.
   */
  method FromLevel(level: Tiles.QdLvl, zoomIn: bool) returns (r: Result<QuadLevelBuilderOld>)
    ensures r.Failure? <==> level.zoom < 2
    ensures r.Failure? ==> r.error == IllegalArgument(E_ZOOM_2_OR_MORE)
    ensures r.Success? ==> (fresh(r.value) && r.value.Valid() && r.value.quadData == null &&
      r.value.sourceLevel == level && r.value.zoomIn == zoomIn && r.value.generatedLevel == null)
  {
    if level.zoom < 2 {
      return Failure(IllegalArgument(E_ZOOM_2_OR_MORE));
    }
    var b := new QuadLevelBuilderOld.OfLevel(level, zoomIn);
    return Success(b);
  }
}
