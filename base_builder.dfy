/**
 * `BaseQuadLevelBuilder`: the base level (one pixel per block, 256 blocks
 * per tile) and the two levels zoomed in from it (2x2 and 4x4 pixels per
 * block), built together, region by region, from the quad data.
 */
module BaseBuilder {
  import opened Wrappers
  import opened JavaInts
  import opened Geometry
  import RegionStructures
  import Regions
  import Quads
  import Tiles
  import Builders

  const NPIXELS: int := Builders.NPIXELS
  const HALF_NPIXELS: int := Builders.HALF_NPIXELS

  // ---------------------------------------------------------------------
  // Level attributes

  /**
   * What `prepare` gives level +k (k = 0, 1, 2): zoom `baseZoom + k`,
   * 256 / 2^k blocks per tile, the origin tile at the delta scaled by 2^k,
   * and no displacement.
   */
  function BaseAttributes(baseZoom: Int32, delta: Coord, k: int): Builders.Attributes
    requires 0 <= k < 3
  {
    if k == 0 then Builders.Attributes(baseZoom, 256, delta, ORIGIN)
    else if k == 1 then Builders.Attributes(ToInt32(baseZoom as int + 1), 128, Scale(delta, 2), ORIGIN)
    else Builders.Attributes(ToInt32(baseZoom as int + 2), 64, Scale(delta, 4), ORIGIN)
  }

  /**
   * The zoomed-in levels nest: zooming level +k+1 out gives level +k back,
   * so all three put the world origin on the same block; as long as
   * neither the zoom nor the scaled delta wraps.
   */
  lemma BaseLevelsNest(baseZoom: Int32, delta: Coord, k: int)
    requires 0 <= k < 2 && baseZoom as int + 2 <= 0x7FFF_FFFF
    requires -0x2000_0000 <= delta.x < 0x2000_0000 && -0x2000_0000 <= delta.z < 0x2000_0000
    ensures Builders.ZoomedOut(BaseAttributes(baseZoom, delta, k + 1)) == BaseAttributes(baseZoom, delta, k)
    ensures Builders.OriginBlock(BaseAttributes(baseZoom, delta, k + 1)) == Builders.OriginBlock(BaseAttributes(baseZoom, delta, k))
  {
    var s: int := if k == 0 then 1 else 2;
    var sc := if k == 0 then delta else Scale(delta, 2);
    assert sc == Coord(delta.x * s, delta.z * s);
    var c := Scale(delta, (2 * s) as Int32);
    assert c == Coord(delta.x * s * 2, delta.z * s * 2);
    DoubledHalves(sc.x as int);
    DoubledHalves(sc.z as int);
    assert Div2(c) == sc;
    Builders.ZoomOutKeepsOriginBlock(BaseAttributes(baseZoom, delta, k + 1));
  }

  /** Java halves an even value exactly: `(2v) / 2 == v` and `(2v) % 2 == 0`. */
  lemma DoubledHalves(v: int)
    ensures TruncDiv(2 * v, 2) == v && TruncMod(2 * v, 2) == 0
  {
    if v < 0 {
      assert -(2 * v) == 2 * (-v);
    }
  }

  // ---------------------------------------------------------------------
  // Tiles and their images

  /** A tile holding a 256x256 image. */
  ghost predicate Imaged(t: Tiles.QuadTile)
    reads t`image
  {
    t.image != null && t.image.Length0 == NPIXELS && t.image.Length1 == NPIXELS
  }

  /** Every tile of the level holds a 256x256 image. */
  ghost predicate LevelImaged(level: Tiles.QdLvl)
    reads level`tileMap, level.tileMap.Values`image
  {
    forall c :: c in level.tileMap ==> Imaged(level.tileMap[c])
  }

  /** The tile's file is recorded in the directory. */
  ghost predicate Written(t: Tiles.QuadTile, dir: Option<string>)
    reads t`onDisk
  {
    t.onDisk == Some(Builders.PathIn(dir, t.PngName()))
  }

  /** Every tile of the level has its file recorded in the level's directory. */
  ghost predicate LevelWritten(level: Tiles.QdLvl)
    reads level`tileMap, level`outputDir, level.tileMap.Values`onDisk
  {
    forall c :: c in level.tileMap ==> Written(level.tileMap[c], level.outputDir)
  }

  /**
   * `writeTiles(ql)`: every tile of the level records its file in the
   * level's directory (writing the PNG itself is I/O); images and the
   * level are untouched.
   */
  method WriteTiles(level: Tiles.QdLvl)
    modifies level.tileMap.Values`onDisk
    ensures LevelWritten(level)
  {
    var todo := level.tileMap.Keys;
    while todo != {}
      invariant todo <= level.tileMap.Keys
      invariant forall c :: c in level.tileMap && c !in todo ==> Written(level.tileMap[c], level.outputDir)
      decreases todo
    {
      var c :| c in todo;
      Builders.WriteTileImageToDisk(level.outputDir, level.tileMap[c]);
      todo := todo - {c};
    }
  }

  // ---------------------------------------------------------------------
  // Zooming in: one tile quarter enlarged to a whole tile

  /** `bi` enlarges the 128x128 quarter of `src` at (ox, oz): each source pixel fills a 2x2 block. */
  ghost predicate ScaledFrom(bi: array2<Int32>, src: array2<Int32>, ox: int, oz: int)
    reads bi, src
  {
    bi.Length0 == NPIXELS && bi.Length1 == NPIXELS &&
    0 <= ox && ox + HALF_NPIXELS <= src.Length0 && 0 <= oz && oz + HALF_NPIXELS <= src.Length1 &&
    forall x, z :: 0 <= x < NPIXELS && 0 <= z < NPIXELS ==> bi[x, z] == src[ox + x / 2, oz + z / 2]
  }

  /** The loops of `makeScaledTile`: each pixel of the quarter copied to a 2x2 block. */
  method Enlarge(src: array2<Int32>, ox: int, oz: int) returns (bi: array2<Int32>)
    requires 0 <= ox && ox + HALF_NPIXELS <= src.Length0 && 0 <= oz && oz + HALF_NPIXELS <= src.Length1
    ensures fresh(bi) && ScaledFrom(bi, src, ox, oz)
  {
    bi := new Int32[NPIXELS, NPIXELS]((_, _) => 0);
    var a := 0;
    while a < HALF_NPIXELS
      invariant 0 <= a <= HALF_NPIXELS
      invariant forall x, z :: 0 <= x < 2 * a && 0 <= z < NPIXELS ==> bi[x, z] == src[ox + x / 2, oz + z / 2]
    {
      EnlargeColumn(src, ox, oz, bi, a);
      a := a + 1;
    }
  }

  /** The inner loop of `makeScaledTile`: column `a` of the quarter into columns 2a and 2a+1. */
  method EnlargeColumn(src: array2<Int32>, ox: int, oz: int, bi: array2<Int32>, a: int)
    requires 0 <= ox && ox + HALF_NPIXELS <= src.Length0 && 0 <= oz && oz + HALF_NPIXELS <= src.Length1
    requires bi.Length0 == NPIXELS && bi.Length1 == NPIXELS && bi != src && 0 <= a < HALF_NPIXELS
    modifies bi
    ensures forall x, z :: 0 <= x < NPIXELS && 0 <= z < NPIXELS ==>
      bi[x, z] == if 2 * a <= x < 2 * a + 2 then src[ox + x / 2, oz + z / 2] else old(bi[x, z])
  {
    var b := 0;
    while b < HALF_NPIXELS
      invariant 0 <= b <= HALF_NPIXELS
      invariant forall x, z :: 0 <= x < NPIXELS && 0 <= z < NPIXELS ==>
        bi[x, z] == if 2 * a <= x < 2 * a + 2 && z < 2 * b then src[ox + x / 2, oz + z / 2] else old(bi[x, z])
    {
      var color := src[ox + a, oz + b];
      bi[2 * a, 2 * b] := color;
      bi[2 * a + 1, 2 * b] := color;
      bi[2 * a, 2 * b + 1] := color;
      bi[2 * a + 1, 2 * b + 1] := color;
      b := b + 1;
    }
  }

  /**
   * `makeScaledTile(tile, dx, dz)`: the child of `tile` at (dx, dz), its
   * image the quarter at (128 dx, 128 dz) enlarged. A tile without an image
   * raises NullPointerException, one whose image is too small for the
   * quarter ArrayIndexOutOfBoundsException.
   */
  method MakeScaledTile(tile: Tiles.QuadTile, dx: int, dz: int) returns (r: Result<Tiles.QuadTile>)
    requires 0 <= dx < 2 && 0 <= dz < 2
    ensures tile.image == null ==> r == Failure(NullPointer)
    ensures tile.image != null ==>
      (r.Success? <==> HALF_NPIXELS * dx + HALF_NPIXELS <= tile.image.Length0 && HALF_NPIXELS * dz + HALF_NPIXELS <= tile.image.Length1)
    ensures tile.image != null && r.Failure? ==> r.error == IndexOutOfBounds
    ensures r.Success? ==> (fresh(r.value) && r.value.coord == Builders.Child(tile.coord, dx, dz) &&
      r.value.kind == Tiles.TileKind.Subregion && r.value.onDisk.None? &&
      r.value.image != null && fresh(r.value.image) && tile.image != null &&
      ScaledFrom(r.value.image, tile.image, HALF_NPIXELS * dx, HALF_NPIXELS * dz))
  {
    var x := ToInt32(tile.coord.x as int * 2 + dx);
    var z := ToInt32(tile.coord.z as int * 2 + dz);
    var ox, oz := HALF_NPIXELS * dx, HALF_NPIXELS * dz;
    var src := tile.image;
    if src == null {
      return Failure(NullPointer);
    }
    if src.Length0 < ox + HALF_NPIXELS || src.Length1 < oz + HALF_NPIXELS {
      return Failure(IndexOutOfBounds);
    }
    var bi := Enlarge(src, ox, oz);
    var scaled := new Tiles.QuadTile.Subregion(bi, x, z);
    return Success(scaled);
  }

  /** Each pixel of an enlarged quarter shows the source pixel it came from. */
  lemma ScaledBlock(bi: array2<Int32>, src: array2<Int32>, ox: int, oz: int, a: int, b: int)
    requires ScaledFrom(bi, src, ox, oz) && 0 <= a < HALF_NPIXELS && 0 <= b < HALF_NPIXELS
    ensures bi[2 * a, 2 * b] == bi[2 * a + 1, 2 * b] == bi[2 * a, 2 * b + 1] == bi[2 * a + 1, 2 * b + 1] == src[ox + a, oz + b]
  {
    assert (2 * a) / 2 == a && (2 * a + 1) / 2 == a && (2 * b) / 2 == b && (2 * b + 1) / 2 == b;
  }

  /** The four children of `tile`, each enlarged from its quarter of the tile's image. */
  method MakeScaledTiles(tile: Tiles.QuadTile)
    returns (t00: Tiles.QuadTile, t10: Tiles.QuadTile, t01: Tiles.QuadTile, t11: Tiles.QuadTile)
    requires Imaged(tile)
    ensures fresh(t00) && fresh(t10) && fresh(t01) && fresh(t11)
    ensures t00.coord == Builders.Child(tile.coord, 0, 0) && t10.coord == Builders.Child(tile.coord, 1, 0)
    ensures t01.coord == Builders.Child(tile.coord, 0, 1) && t11.coord == Builders.Child(tile.coord, 1, 1)
    ensures Imaged(t00) && Imaged(t10) && Imaged(t01) && Imaged(t11)
    ensures ScaledFrom(t00.image, tile.image, 0, 0) && ScaledFrom(t10.image, tile.image, HALF_NPIXELS, 0)
    ensures ScaledFrom(t01.image, tile.image, 0, HALF_NPIXELS) && ScaledFrom(t11.image, tile.image, HALF_NPIXELS, HALF_NPIXELS)
  {
    var r := MakeScaledTile(tile, 0, 0);
    t00 := r.value;
    r := MakeScaledTile(tile, 1, 0);
    t10 := r.value;
    r := MakeScaledTile(tile, 0, 1);
    t01 := r.value;
    r := MakeScaledTile(tile, 1, 1);
    t11 := r.value;
  }

  /** The four children of tile `c`. */
  function ChildrenOf(c: Coord): set<Coord>
  {
    {Builders.Child(c, 0, 0), Builders.Child(c, 1, 0), Builders.Child(c, 0, 1), Builders.Child(c, 1, 1)}
  }

  /** The four children of a tile are distinct, even where the doubled coordinates wrap. */
  lemma ChildrenDistinct(c: Coord)
    ensures var k00, k10 := Builders.Child(c, 0, 0), Builders.Child(c, 1, 0);
      var k01, k11 := Builders.Child(c, 0, 1), Builders.Child(c, 1, 1);
      k00 != k10 && k00 != k01 && k00 != k11 && k10 != k01 && k10 != k11 && k01 != k11
  {
    BaseKeysDistinct(c, ORIGIN);
    assert forall dx, dz :: Builders.Child(c, dx, dz) == Builders.BaseTileCoord(c, ORIGIN, dx, dz);
  }

  /**
   * The child at (dx, dz) of tile `c`, whose tile is `t`, is in `m` and its
   * image is quarter (dx, dz) of `t`'s image enlarged.
   */
  ghost predicate ChildScaled(m: map<Coord, Tiles.QuadTile>, c: Coord, t: Tiles.QuadTile, dx: int, dz: int)
    reads t`image, t.image, m.Values`image, set u | u in m.Values :: u.image
  {
    Builders.Child(c, dx, dz) in m && t.image != null && m[Builders.Child(c, dx, dz)].image != null &&
    ScaledFrom(m[Builders.Child(c, dx, dz)].image, t.image, HALF_NPIXELS * dx, HALF_NPIXELS * dz)
  }

  /** All four children of tile `c` are in `m`, each enlarged from its quarter of `t`'s image. */
  ghost predicate ChildrenScaled(m: map<Coord, Tiles.QuadTile>, c: Coord, t: Tiles.QuadTile)
    reads t`image, t.image, m.Values`image, set u | u in m.Values :: u.image
  {
    ChildScaled(m, c, t, 0, 0) && ChildScaled(m, c, t, 1, 0) && ChildScaled(m, c, t, 0, 1) && ChildScaled(m, c, t, 1, 1)
  }

  /** Every tile of `src` at `keys` has its four children in `dst`, enlarged from its image. */
  ghost predicate ScaledFor(src: map<Coord, Tiles.QuadTile>, keys: set<Coord>, dst: map<Coord, Tiles.QuadTile>)
    reads src.Values`image, set u | u in src.Values :: u.image, dst.Values`image, set u | u in dst.Values :: u.image
  {
    forall c :: c in keys ==> c in src && ChildrenScaled(dst, c, src[c])
  }

  /** Level `dst` is zoomed in from level `src`: every tile of `src` has its four enlarged children in `dst`. */
  ghost predicate ZoomedIn(src: map<Coord, Tiles.QuadTile>, dst: map<Coord, Tiles.QuadTile>)
    reads src.Values`image, set u | u in src.Values :: u.image, dst.Values`image, set u | u in dst.Values :: u.image
  {
    ScaledFor(src, src.Keys, dst)
  }

  /** Tiles whose children do not wrap, so that no two share a child. */
  predicate AllDoublable(keys: set<Coord>)
  {
    forall c :: c in keys ==> Builders.Doublable(c)
  }

  /** A child not overwritten by `four` keeps its image. */
  lemma ChildScaledKept(m: map<Coord, Tiles.QuadTile>, four: map<Coord, Tiles.QuadTile>, c: Coord, t: Tiles.QuadTile, dx: int, dz: int)
    requires ChildScaled(m, c, t, dx, dz) && Builders.Child(c, dx, dz) !in four
    ensures ChildScaled(m + four, c, t, dx, dz)
  {
    assert (m + four)[Builders.Child(c, dx, dz)] == m[Builders.Child(c, dx, dz)];
  }

  /** A child in `four` wins over whatever `m` held there. */
  lemma ChildScaledOver(m: map<Coord, Tiles.QuadTile>, four: map<Coord, Tiles.QuadTile>, c: Coord, t: Tiles.QuadTile, dx: int, dz: int)
    requires ChildScaled(four, c, t, dx, dz)
    ensures ChildScaled(m + four, c, t, dx, dz)
  {
    assert (m + four)[Builders.Child(c, dx, dz)] == four[Builders.Child(c, dx, dz)];
  }

  /** All four children in `added` win over any tiles of `m`. */
  lemma ChildrenScaledOver(m: map<Coord, Tiles.QuadTile>, added: map<Coord, Tiles.QuadTile>, c: Coord, t: Tiles.QuadTile)
    requires ChildrenScaled(added, c, t)
    ensures ChildrenScaled(m + added, c, t)
  {
    ChildScaledOver(m, added, c, t, 0, 0);
    ChildScaledOver(m, added, c, t, 1, 0);
    ChildScaledOver(m, added, c, t, 0, 1);
    ChildScaledOver(m, added, c, t, 1, 1);
  }

  /** The children of a tile other than `c` are not among `c`'s children, so they survive them. */
  lemma ChildrenScaledKept(m: map<Coord, Tiles.QuadTile>, four: map<Coord, Tiles.QuadTile>, c: Coord, c': Coord, t: Tiles.QuadTile)
    requires ChildrenScaled(m, c', t) && four.Keys == ChildrenOf(c)
    requires c != c' && Builders.Doublable(c) && Builders.Doublable(c')
    ensures ChildrenScaled(m + four, c', t)
  {
    forall dx, dz | 0 <= dx < 2 && 0 <= dz < 2
      ensures Builders.Child(c', dx, dz) !in four
    {
      forall dx', dz' | 0 <= dx' < 2 && 0 <= dz' < 2
        ensures Builders.Child(c', dx, dz) != Builders.Child(c, dx', dz')
      {
        if Builders.Child(c', dx, dz) == Builders.Child(c, dx', dz') {
          Builders.ChildrenNeverCollide(c', c, dx, dz, dx', dz');
        }
      }
    }
    ChildScaledKept(m, four, c', t, 0, 0);
    ChildScaledKept(m, four, c', t, 1, 0);
    ChildScaledKept(m, four, c', t, 0, 1);
    ChildScaledKept(m, four, c', t, 1, 1);
  }

  /** One more tile's children added: every tile done so far keeps its enlarged children. */
  lemma ScaledForAdd(src: map<Coord, Tiles.QuadTile>, added: map<Coord, Tiles.QuadTile>, four: map<Coord, Tiles.QuadTile>,
                     done: set<Coord>, c: Coord)
    requires c in src && c !in done && AllDoublable(src.Keys)
    requires ScaledFor(src, done, added) && ChildrenScaled(four, c, src[c]) && four.Keys == ChildrenOf(c)
    ensures ScaledFor(src, done + {c}, added + four)
  {
    forall c' | c' in done + {c}
      ensures c' in src && ChildrenScaled(added + four, c', src[c'])
    {
      if c' == c {
        ChildrenScaledOver(added, four, c, src[c]);
      } else {
        ChildrenScaledKept(added, four, c, c', src[c']);
      }
    }
  }

  /** Every tile of `m` holds the image it held before, with the same pixels. */
  twostate predicate ImagesKept(m: map<Coord, Tiles.QuadTile>)
    reads m.Values`image, set u | u in m.Values :: u.image
  {
    forall k :: k in m ==> m[k].image == old(m[k].image) && (m[k].image == null || unchanged(m[k].image))
  }

  /** Tiles whose images, and the pixels in them, are as they were keep their enlarged children. */
  twostate lemma ScaledForKept(new src: map<Coord, Tiles.QuadTile>, new keys: set<Coord>, new dst: map<Coord, Tiles.QuadTile>)
    requires old(allocated(src)) && old(allocated(dst))
    requires old(ScaledFor(src, keys, dst))
    requires ImagesKept(src)
    requires ImagesKept(dst)
    ensures ScaledFor(src, keys, dst)
  {
  }

  /** Tiles whose images, and the pixels in them, are as they were still show their windows. */
  twostate lemma ShowsRegionKept(new m: map<Coord, Tiles.QuadTile>, new rc: Coord, new delta: Coord,
                                 new chunks: seq<Option<RegionStructures.ChunkSurface>>)
    requires old(allocated(m)) && old(allocated(chunks))
    requires old(ShowsRegion(m, rc, delta, chunks)) && ImagesKept(m)
    ensures ShowsRegion(m, rc, delta, chunks)
  {
  }

  /** Regions shown by tiles whose images are as they were still show. */
  twostate lemma RegionsShownKept(new m: map<Coord, Tiles.QuadTile>, new done: set<Coord>, new delta: Coord,
                                  new surfaces: map<Coord, seq<Option<RegionStructures.ChunkSurface>>>)
    requires old(allocated(m)) && old(allocated(surfaces))
    requires old(RegionsShown(m, done, delta, surfaces)) && ImagesKept(m)
    ensures RegionsShown(m, done, delta, surfaces)
  {
  }

  /** The map of four tiles at four keys, in the order the builder adds them. */
  function FourMap<V>(k00: Coord, k10: Coord, k01: Coord, k11: Coord, t00: V, t10: V, t01: V, t11: V): (four: map<Coord, V>)
    ensures four.Keys == {k00, k10, k01, k11}
    ensures forall k :: k in four ==> four[k] in {t00, t10, t01, t11}
  {
    map[k00 := t00][k10 := t10][k01 := t01][k11 := t11]
  }

  /** At four distinct keys, the map of four holds each tile at its own key. */
  lemma FourMapAt<V>(k00: Coord, k10: Coord, k01: Coord, k11: Coord, t00: V, t10: V, t01: V, t11: V)
    requires k00 != k10 && k00 != k01 && k00 != k11 && k10 != k01 && k10 != k11 && k01 != k11
    ensures var four := FourMap(k00, k10, k01, k11, t00, t10, t01, t11);
      four[k00] == t00 && four[k10] == t10 && four[k01] == t01 && four[k11] == t11
  {
  }

  /** Four updates in turn are one union with the map of the four. */
  lemma FourUpdates<V>(m: map<Coord, V>, k00: Coord, k10: Coord, k01: Coord, k11: Coord, t00: V, t10: V, t01: V, t11: V)
    ensures m[k00 := t00][k10 := t10][k01 := t01][k11 := t11] == m + FourMap(k00, k10, k01, k11, t00, t10, t01, t11)
  {
    var e: map<Coord, V> := map[];
    assert m == m + e;
    Regions.UnionUpdate(m, e, k00, t00);
    Regions.UnionUpdate(m, e[k00 := t00], k10, t10);
    Regions.UnionUpdate(m, e[k00 := t00][k10 := t10], k01, t01);
    Regions.UnionUpdate(m, e[k00 := t00][k10 := t10][k01 := t01], k11, t11);
  }

  /** Four `addTile` calls in turn: each tile filed under its own coordinate. */
  method AddFour(level: Tiles.QdLvl, t00: Tiles.QuadTile, t10: Tiles.QuadTile, t01: Tiles.QuadTile, t11: Tiles.QuadTile)
    requires level.Valid() && LevelImaged(level) && Imaged(t00) && Imaged(t10) && Imaged(t01) && Imaged(t11)
    modifies level
    ensures level.Valid() && LevelImaged(level) && level.outputDir == old(level.outputDir)
    ensures level.tileMap == old(level.tileMap) + FourMap(t00.coord, t10.coord, t01.coord, t11.coord, t00, t10, t01, t11)
  {
    level.AddTile(t00);
    level.AddTile(t10);
    level.AddTile(t01);
    level.AddTile(t11);
    FourUpdates(old(level.tileMap), t00.coord, t10.coord, t01.coord, t11.coord, t00, t10, t01, t11);
  }

  /**
   * The four children of one tile, as one pass of the `tileZoomIn` loop adds
   * them; the tiles held before, and those of `keep`, keep their images.
   */
  method AddScaledTiles(tile: Tiles.QuadTile, output: Tiles.QdLvl, ghost keep: map<Coord, Tiles.QuadTile>)
    returns (ghost four: map<Coord, Tiles.QuadTile>)
    requires output.Valid() && LevelImaged(output) && Imaged(tile)
    modifies output
    ensures output.Valid() && LevelImaged(output) && output.outputDir == old(output.outputDir)
    ensures output.tileMap == old(output.tileMap) + four && four.Keys == ChildrenOf(tile.coord)
    ensures forall k :: k in four ==> fresh(four[k])
    ensures ChildrenScaled(four, tile.coord, tile)
    ensures ImagesKept(old(output.tileMap)) && ImagesKept(keep)
  {
    var t00, t10, t01, t11 := MakeScaledTiles(tile);
    AddFour(output, t00, t10, t01, t11);
    four := FourMap(t00.coord, t10.coord, t01.coord, t11.coord, t00, t10, t01, t11);
    ChildrenDistinct(tile.coord);
    FourMapAt(t00.coord, t10.coord, t01.coord, t11.coord, t00, t10, t01, t11);
  }

  /**
   * One pass of the `tileZoomIn` loop, for tile `c`: its four children added
   * to the tiles `added` over `base` so far, and with them the enlarged
   * children of the tiles `done` before it kept.
   */
  method ScaleOne(input: Tiles.QdLvl, output: Tiles.QdLvl, c: Coord,
                  ghost base: map<Coord, Tiles.QuadTile>, ghost done: set<Coord>, ghost added: map<Coord, Tiles.QuadTile>)
    returns (ghost four: map<Coord, Tiles.QuadTile>)
    requires input != output && input.Valid() && output.Valid() && LevelImaged(input) && LevelImaged(output)
    requires c in input.tileMap && c !in done
    requires output.tileMap == base + added && added.Keys == Builders.ChildKeys(done)
    requires AllDoublable(input.tileMap.Keys) ==> ScaledFor(input.tileMap, done, output.tileMap)
    modifies output
    ensures output.Valid() && LevelImaged(output) && output.outputDir == old(output.outputDir)
    ensures output.tileMap == base + (added + four) && (added + four).Keys == Builders.ChildKeys(done + {c})
    ensures forall k :: k in four ==> fresh(four[k])
    ensures AllDoublable(input.tileMap.Keys) ==> ScaledFor(input.tileMap, done + {c}, output.tileMap)
  {
    ghost var m := output.tileMap;
    four := AddScaledTiles(input.tileMap[c], output, input.tileMap);
    if AllDoublable(input.tileMap.Keys) {
      ScaledForKept(input.tileMap, done, m);
      ScaledForAdd(input.tileMap, m, four, done, c);
    }
    Builders.ChildKeysAdd(done, c);
    Builders.MergeAssociates(base, added, four);
  }

  /** The loop of `tileZoomIn`: the four children of every input tile. */
  method ScaleAll(input: Tiles.QdLvl, output: Tiles.QdLvl) returns (ghost added: map<Coord, Tiles.QuadTile>)
    requires input != output && input.Valid() && output.Valid() && LevelImaged(input) && LevelImaged(output)
    modifies output
    ensures output.Valid() && LevelImaged(output) && output.outputDir == old(output.outputDir)
    ensures output.tileMap == old(output.tileMap) + added && added.Keys == Builders.ChildKeys(input.tileMap.Keys)
    ensures forall k :: k in added ==> fresh(added[k])
    ensures AllDoublable(input.tileMap.Keys) ==> ZoomedIn(input.tileMap, output.tileMap)
  {
    var todo := input.tileMap.Keys;
    ghost var done: set<Coord> := {};
    added := map[];
    while todo != {}
      invariant todo <= input.tileMap.Keys && done == input.tileMap.Keys - todo
      invariant output.Valid() && LevelImaged(output) && output.outputDir == old(output.outputDir)
      invariant output.tileMap == old(output.tileMap) + added && added.Keys == Builders.ChildKeys(done)
      invariant forall k :: k in added ==> fresh(added[k])
      invariant AllDoublable(input.tileMap.Keys) ==> ScaledFor(input.tileMap, done, output.tileMap)
      decreases todo
    {
      var c :| c in todo;
      var four := ScaleOne(input, output, c, old(output.tileMap), done, added);
      added := added + four;
      todo := todo - {c};
      done := done + {c};
    }
  }

  /**
   * `tileZoomIn(input, output)`: every tile of the input level gets its
   * four scaled children in the output level, replacing any there; then,
   * unless suppressed, every output tile is written.
   */
  method TileZoomIn(input: Tiles.QdLvl, output: Tiles.QdLvl, suppressWrite: bool) returns (ghost added: map<Coord, Tiles.QuadTile>)
    requires input != output && input.Valid() && output.Valid() && LevelImaged(input) && LevelImaged(output)
    modifies output, output.tileMap.Values`onDisk
    ensures output.Valid() && LevelImaged(output) && output.outputDir == old(output.outputDir)
    ensures output.tileMap == old(output.tileMap) + added && added.Keys == Builders.ChildKeys(input.tileMap.Keys)
    ensures forall k :: k in added ==> fresh(added[k])
    ensures !suppressWrite ==> LevelWritten(output)
    ensures AllDoublable(input.tileMap.Keys) ==> ZoomedIn(input.tileMap, output.tileMap)
  {
    added := ScaleAll(input, output);
    if !suppressWrite {
      WriteTiles(output);
    }
  }

  // ---------------------------------------------------------------------
  // The base level: four tiles per region

  /** The four base tiles of a region are distinct, even where the 32-bit sums wrap. */
  lemma BaseTilesDistinct(rc: Coord, delta: Coord, dx: int, dz: int, dx': int, dz': int)
    requires 0 <= dx < 2 && 0 <= dz < 2 && 0 <= dx' < 2 && 0 <= dz' < 2
    requires Builders.BaseTileCoord(rc, delta, dx, dz) == Builders.BaseTileCoord(rc, delta, dx', dz')
    ensures dx == dx' && dz == dz'
  {
    var vx, vz := rc.x as int * 2 + delta.x as int, rc.z as int * 2 + delta.z as int;
    ToInt32Injective(vx + dx, vx + dx');
    ToInt32Injective(vz + dz, vz + dz');
  }

  /** The four base tiles of a region, pairwise. */
  lemma BaseKeysDistinct(rc: Coord, delta: Coord)
    ensures var k00, k10 := Builders.BaseTileCoord(rc, delta, 0, 0), Builders.BaseTileCoord(rc, delta, 1, 0);
      var k01, k11 := Builders.BaseTileCoord(rc, delta, 0, 1), Builders.BaseTileCoord(rc, delta, 1, 1);
      k00 != k10 && k00 != k01 && k00 != k11 && k10 != k01 && k10 != k11 && k01 != k11
  {
    if Builders.BaseTileCoord(rc, delta, 0, 0) == Builders.BaseTileCoord(rc, delta, 1, 0) { BaseTilesDistinct(rc, delta, 0, 0, 1, 0); }
    if Builders.BaseTileCoord(rc, delta, 0, 0) == Builders.BaseTileCoord(rc, delta, 0, 1) { BaseTilesDistinct(rc, delta, 0, 0, 0, 1); }
    if Builders.BaseTileCoord(rc, delta, 0, 0) == Builders.BaseTileCoord(rc, delta, 1, 1) { BaseTilesDistinct(rc, delta, 0, 0, 1, 1); }
    if Builders.BaseTileCoord(rc, delta, 1, 0) == Builders.BaseTileCoord(rc, delta, 0, 1) { BaseTilesDistinct(rc, delta, 1, 0, 0, 1); }
    if Builders.BaseTileCoord(rc, delta, 1, 0) == Builders.BaseTileCoord(rc, delta, 1, 1) { BaseTilesDistinct(rc, delta, 1, 0, 1, 1); }
    if Builders.BaseTileCoord(rc, delta, 0, 1) == Builders.BaseTileCoord(rc, delta, 1, 1) { BaseTilesDistinct(rc, delta, 0, 1, 1, 1); }
  }

  /** The base tiles of a set of regions. */
  function RegionKeys(keys: set<Coord>, delta: Coord): set<Coord>
  {
    set c, dx, dz | c in keys && 0 <= dx < 2 && 0 <= dz < 2 :: Builders.BaseTileCoord(c, delta, dx, dz)
  }

  /** No regions, no base tiles. */
  lemma RegionKeysNone(delta: Coord)
    ensures RegionKeys({}, delta) == {}
  {
  }

  /** Adding a region adds its four base tiles. */
  lemma RegionKeysAdd(keys: set<Coord>, c: Coord, delta: Coord)
    ensures RegionKeys(keys + {c}, delta) == RegionKeys(keys, delta) + Builders.BaseKeys(c, delta)
  {
    var lhs, rhs := RegionKeys(keys + {c}, delta), RegionKeys(keys, delta) + Builders.BaseKeys(c, delta);
    forall k | k in lhs
      ensures k in rhs
    {
      var p, dx, dz :| p in keys + {c} && 0 <= dx < 2 && 0 <= dz < 2 && k == Builders.BaseTileCoord(p, delta, dx, dz);
      if p != c {
        assert k in RegionKeys(keys, delta);
      }
    }
    assert Builders.BaseTileCoord(c, delta, 0, 0) in lhs && Builders.BaseTileCoord(c, delta, 1, 0) in lhs;
    assert Builders.BaseTileCoord(c, delta, 0, 1) in lhs && Builders.BaseTileCoord(c, delta, 1, 1) in lhs;
  }

  /** `img` is the image a region renders from `chunks`: pixel (x, z) is chunk pixel `512 z + x`. */
  ghost predicate Rendered(img: array2<Int32>, chunks: seq<Option<RegionStructures.ChunkSurface>>)
    reads img
  {
    RegionStructures.WellFormedChunks(chunks) &&
    img.Length0 == RegionStructures.NPIXELS && img.Length1 == RegionStructures.NPIXELS &&
    forall x, z :: 0 <= x < RegionStructures.NPIXELS && 0 <= z < RegionStructures.NPIXELS ==>
      img[x, z] == RegionStructures.PixelInt(chunks, RegionStructures.NPIXELS * z + x)
  }

  /**
   * Tile `t` is base tile (dx, dz) of the region rendered from `chunks`:
   * its pixel (i, j) is region pixel (256 dx + i, 256 dz + j).
   */
  ghost predicate ShowsWindow(t: Tiles.QuadTile, chunks: seq<Option<RegionStructures.ChunkSurface>>, dx: int, dz: int)
    reads t`image, t.image
  {
    RegionStructures.WellFormedChunks(chunks) && 0 <= dx < 2 && 0 <= dz < 2 &&
    t.kind == Tiles.TileKind.Subregion && Imaged(t) &&
    forall i, j :: 0 <= i < NPIXELS && 0 <= j < NPIXELS ==>
      t.image[i, j] == RegionStructures.PixelInt(chunks, RegionStructures.NPIXELS * (NPIXELS * dz + j) + NPIXELS * dx + i)
  }

  /** The four base tiles in `m` of the region at `rc` show the four windows of the image rendered from `chunks`. */
  ghost predicate ShowsRegion(m: map<Coord, Tiles.QuadTile>, rc: Coord, delta: Coord, chunks: seq<Option<RegionStructures.ChunkSurface>>)
    reads m.Values`image, set t | t in m.Values :: t.image
  {
    forall dx, dz :: 0 <= dx < 2 && 0 <= dz < 2 ==>
      Builders.BaseTileCoord(rc, delta, dx, dz) in m && ShowsWindow(m[Builders.BaseTileCoord(rc, delta, dx, dz)], chunks, dx, dz)
  }

  /** Four tiles showing the four windows, at their base tile coordinates, show the region. */
  lemma FourShowRegion(rc: Coord, delta: Coord, chunks: seq<Option<RegionStructures.ChunkSurface>>,
                       t00: Tiles.QuadTile, t10: Tiles.QuadTile, t01: Tiles.QuadTile, t11: Tiles.QuadTile)
    requires ShowsWindow(t00, chunks, 0, 0) && ShowsWindow(t10, chunks, 1, 0)
    requires ShowsWindow(t01, chunks, 0, 1) && ShowsWindow(t11, chunks, 1, 1)
    ensures var k00, k10 := Builders.BaseTileCoord(rc, delta, 0, 0), Builders.BaseTileCoord(rc, delta, 1, 0);
      var k01, k11 := Builders.BaseTileCoord(rc, delta, 0, 1), Builders.BaseTileCoord(rc, delta, 1, 1);
      ShowsRegion(FourMap(k00, k10, k01, k11, t00, t10, t01, t11), rc, delta, chunks)
  {
    var k00, k10 := Builders.BaseTileCoord(rc, delta, 0, 0), Builders.BaseTileCoord(rc, delta, 1, 0);
    var k01, k11 := Builders.BaseTileCoord(rc, delta, 0, 1), Builders.BaseTileCoord(rc, delta, 1, 1);
    BaseKeysDistinct(rc, delta);
    FourMapAt(k00, k10, k01, k11, t00, t10, t01, t11);
  }

  /** Base tiles added over a level win over the tiles it held. */
  lemma ShowsRegionOver(m: map<Coord, Tiles.QuadTile>, four: map<Coord, Tiles.QuadTile>, rc: Coord, delta: Coord,
                        chunks: seq<Option<RegionStructures.ChunkSurface>>)
    requires ShowsRegion(four, rc, delta, chunks)
    ensures ShowsRegion(m + four, rc, delta, chunks)
  {
    forall dx, dz | 0 <= dx < 2 && 0 <= dz < 2
      ensures (m + four)[Builders.BaseTileCoord(rc, delta, dx, dz)] == four[Builders.BaseTileCoord(rc, delta, dx, dz)]
    {
    }
  }

  /** A region whose base tiles `four` does not touch still shows. */
  lemma ShowsRegionApart(m: map<Coord, Tiles.QuadTile>, four: map<Coord, Tiles.QuadTile>, rc: Coord, delta: Coord,
                         chunks: seq<Option<RegionStructures.ChunkSurface>>)
    requires ShowsRegion(m, rc, delta, chunks) && four.Keys !! Builders.BaseKeys(rc, delta)
    ensures ShowsRegion(m + four, rc, delta, chunks)
  {
    forall dx, dz | 0 <= dx < 2 && 0 <= dz < 2
      ensures (m + four)[Builders.BaseTileCoord(rc, delta, dx, dz)] == m[Builders.BaseTileCoord(rc, delta, dx, dz)]
    {
      assert Builders.BaseTileCoord(rc, delta, dx, dz) in Builders.BaseKeys(rc, delta) by {
        assert dx == 0 || dx == 1;
        assert dz == 0 || dz == 1;
      }
    }
  }

  /** The base coordinates of the region at `rc` fit an int, so none wraps. */
  predicate BaseFits(rc: Coord, delta: Coord)
  {
    IsInt32(rc.x as int * 2 + delta.x as int) && IsInt32(rc.x as int * 2 + delta.x as int + 1) &&
    IsInt32(rc.z as int * 2 + delta.z as int) && IsInt32(rc.z as int * 2 + delta.z as int + 1)
  }

  /** Distinct regions whose base coordinates do not wrap share no base tile. */
  lemma BaseKeysApart(rc: Coord, rc': Coord, delta: Coord)
    requires BaseFits(rc, delta) && BaseFits(rc', delta) && rc != rc'
    ensures Builders.BaseKeys(rc, delta) !! Builders.BaseKeys(rc', delta)
  {
    forall dx, dz, dx', dz' | 0 <= dx < 2 && 0 <= dz < 2 && 0 <= dx' < 2 && 0 <= dz' < 2
      ensures Builders.BaseTileCoord(rc, delta, dx, dz) != Builders.BaseTileCoord(rc', delta, dx', dz')
    {
    }
  }

  /**
   * Every region of `done` shows in the base level `m`, rendered from its
   * surfaces, as long as no region's base coordinates wrap: otherwise a
   * later region's tiles can replace an earlier one's.
   */
  ghost predicate RegionsShown(m: map<Coord, Tiles.QuadTile>, done: set<Coord>, delta: Coord,
                               surfaces: map<Coord, seq<Option<RegionStructures.ChunkSurface>>>)
    reads m.Values`image, set t | t in m.Values :: t.image
  {
    done <= surfaces.Keys &&
    ((forall c :: c in done ==> BaseFits(c, delta)) ==> forall c :: c in done ==> ShowsRegion(m, c, delta, surfaces[c]))
  }

  /** One more region's base tiles added: it shows, and so does every region before it. */
  lemma RegionsShownStep(m: map<Coord, Tiles.QuadTile>, four: map<Coord, Tiles.QuadTile>, done: set<Coord>, c: Coord, delta: Coord,
                         surfaces: map<Coord, seq<Option<RegionStructures.ChunkSurface>>>)
    requires RegionsShown(m, done, delta, surfaces) && c in surfaces
    requires four.Keys == Builders.BaseKeys(c, delta) && ShowsRegion(four, c, delta, surfaces[c])
    ensures RegionsShown(m + four, done + {c}, delta, surfaces)
  {
    if forall c' :: c' in done + {c} ==> BaseFits(c', delta) {
      forall c' | c' in done + {c}
        ensures ShowsRegion(m + four, c', delta, surfaces[c'])
      {
        if c' == c {
          ShowsRegionOver(m, four, c, delta, surfaces[c]);
        } else {
          BaseKeysApart(c, c', delta);
          ShowsRegionApart(m, four, c', delta, surfaces[c']);
        }
      }
    }
  }

  /**
   * `makeBaseQuadTile(ri, dx, dz)`: the tile at `2 r + delta + (dx, dz)`
   * holding window (dx, dz) of the region image; the window's failures
   * (released image, window outside) propagate.
   */
  method MakeBaseQuadTile(ri: Regions.RegionImageData, delta: Coord, dx: int, dz: int) returns (r: Result<Tiles.QuadTile>)
    requires 0 <= dx < 2 && 0 <= dz < 2
    ensures ri.image == null ==> r == Failure(NullPointer)
    ensures ri.image != null ==>
      (r.Success? <==> NPIXELS * dx + NPIXELS <= ri.image.Length0 && NPIXELS * dz + NPIXELS <= ri.image.Length1)
    ensures ri.image != null && r.Failure? ==> r.error == RasterFormat
    ensures r.Success? ==> (fresh(r.value) && r.value.coord == Builders.BaseTileCoord(ri.region.coord, delta, dx, dz) &&
      r.value.kind == Tiles.TileKind.Subregion && r.value.onDisk.None? && ri.image != null && Imaged(r.value) &&
      forall i, j :: 0 <= i < NPIXELS && 0 <= j < NPIXELS ==>
        r.value.image[i, j] == ri.image[NPIXELS * dx + i, NPIXELS * dz + j])
  {
    var x := ToInt32(ri.region.coord.x as int * 2 + delta.x as int + dx);
    var z := ToInt32(ri.region.coord.z as int * 2 + delta.z as int + dz);
    var window := ri.GetImage(dx as Int32, dz as Int32);
    if window.Failure? {
      return Failure(window.error);
    }
    var t := new Tiles.QuadTile.Subregion(window.value, x, z);
    return Success(t);
  }

  /** Base tile (dx, dz) of the region image `ri`, rendered from `chunks`. */
  method BaseTile(ri: Regions.RegionImageData, delta: Coord, chunks: seq<Option<RegionStructures.ChunkSurface>>, dx: int, dz: int)
    returns (t: Tiles.QuadTile)
    requires 0 <= dx < 2 && 0 <= dz < 2 && ri.image != null && Rendered(ri.image, chunks)
    ensures fresh(t) && t.coord == Builders.BaseTileCoord(ri.region.coord, delta, dx, dz) && ShowsWindow(t, chunks, dx, dz)
  {
    var r := MakeBaseQuadTile(ri, delta, dx, dz);
    t := r.value;
  }

  /**
   * The four base tiles of one region, as `generateZoomPlus0Tiles` adds them:
   * they show the region, and every region shown before still shows.
   */
  method AddBaseTiles(ri: Regions.RegionImageData, level0: Tiles.QdLvl, delta: Coord,
                      chunks: seq<Option<RegionStructures.ChunkSurface>>,
                      ghost done: set<Coord>, ghost surfaces: map<Coord, seq<Option<RegionStructures.ChunkSurface>>>)
    returns (ghost four: map<Coord, Tiles.QuadTile>)
    requires level0.Valid() && LevelImaged(level0) && ri.image != null && Rendered(ri.image, chunks)
    requires RegionsShown(level0.tileMap, done, delta, surfaces)
    requires ri.region.coord in surfaces && surfaces[ri.region.coord] == chunks
    modifies level0
    ensures level0.Valid() && LevelImaged(level0) && level0.outputDir == old(level0.outputDir)
    ensures level0.tileMap == old(level0.tileMap) + four && four.Keys == Builders.BaseKeys(ri.region.coord, delta)
    ensures forall k :: k in four ==> fresh(four[k])
    ensures ShowsRegion(four, ri.region.coord, delta, chunks)
    ensures ShowsRegion(level0.tileMap, ri.region.coord, delta, chunks)
    ensures RegionsShown(level0.tileMap, done + {ri.region.coord}, delta, surfaces)
  {
    ghost var m := level0.tileMap;
    var t00, t10, t01, t11;
    t00, t10, t01, t11, four := BaseTiles(ri, delta, chunks);
    AddFour(level0, t00, t10, t01, t11);
    ShowsRegionOver(m, four, ri.region.coord, delta, chunks);
    RegionsShownStep(m, four, done, ri.region.coord, delta, surfaces);
  }

  /** The four base tiles of the region image `ri`, each showing its window. */
  method BaseTiles(ri: Regions.RegionImageData, delta: Coord, chunks: seq<Option<RegionStructures.ChunkSurface>>)
    returns (t00: Tiles.QuadTile, t10: Tiles.QuadTile, t01: Tiles.QuadTile, t11: Tiles.QuadTile, ghost four: map<Coord, Tiles.QuadTile>)
    requires ri.image != null && Rendered(ri.image, chunks)
    ensures four == FourMap(t00.coord, t10.coord, t01.coord, t11.coord, t00, t10, t01, t11)
    ensures four.Keys == Builders.BaseKeys(ri.region.coord, delta) && forall k :: k in four ==> fresh(four[k])
    ensures ShowsRegion(four, ri.region.coord, delta, chunks)
    ensures fresh(t00) && t00.coord == Builders.BaseTileCoord(ri.region.coord, delta, 0, 0) && ShowsWindow(t00, chunks, 0, 0)
    ensures fresh(t10) && t10.coord == Builders.BaseTileCoord(ri.region.coord, delta, 1, 0) && ShowsWindow(t10, chunks, 1, 0)
    ensures fresh(t01) && t01.coord == Builders.BaseTileCoord(ri.region.coord, delta, 0, 1) && ShowsWindow(t01, chunks, 0, 1)
    ensures fresh(t11) && t11.coord == Builders.BaseTileCoord(ri.region.coord, delta, 1, 1) && ShowsWindow(t11, chunks, 1, 1)
  {
    t00 := BaseTile(ri, delta, chunks, 0, 0);
    t10 := BaseTile(ri, delta, chunks, 1, 0);
    t01 := BaseTile(ri, delta, chunks, 0, 1);
    t11 := BaseTile(ri, delta, chunks, 1, 1);
    four := FourMap(t00.coord, t10.coord, t01.coord, t11.coord, t00, t10, t01, t11);
    FourShowRegion(ri.region.coord, delta, chunks, t00, t10, t01, t11);
  }

  /**
   * `generateZoomPlus0Tiles(r)`: the four base tiles of region `r`, each a
   * window of the image rendered from the region's chunks, added to the base
   * level; then, unless suppressed, every base tile is written. The regions
   * `done` before it, rendered from `surfaces`, still show.
   */
  method GenerateZoomPlus0Tiles(level0: Tiles.QdLvl, r: Regions.Region, delta: Coord,
                                chunks: seq<Option<RegionStructures.ChunkSurface>>, suppressWrite: bool,
                                ghost done: set<Coord>, ghost surfaces: map<Coord, seq<Option<RegionStructures.ChunkSurface>>>)
    returns (ghost four: map<Coord, Tiles.QuadTile>)
    requires RegionStructures.WellFormedChunks(chunks) && level0.Valid() && LevelImaged(level0)
    requires RegionsShown(level0.tileMap, done, delta, surfaces) && r.coord in surfaces && surfaces[r.coord] == chunks
    modifies level0, level0.tileMap.Values`onDisk
    ensures level0.Valid() && LevelImaged(level0) && level0.outputDir == old(level0.outputDir)
    ensures level0.tileMap == old(level0.tileMap) + four && four.Keys == Builders.BaseKeys(r.coord, delta)
    ensures forall k :: k in four ==> fresh(four[k])
    ensures ShowsRegion(four, r.coord, delta, chunks)
    ensures !suppressWrite ==> LevelWritten(level0)
    ensures ShowsRegion(level0.tileMap, r.coord, delta, chunks)
    ensures RegionsShown(level0.tileMap, done + {r.coord}, delta, surfaces)
  {
    var ri := new Regions.RegionImageData(r, delta, chunks);
    four := AddBaseTiles(ri, level0, delta, chunks, done, surfaces);
    if !suppressWrite {
      WriteBaseTiles(level0, r.coord, delta, chunks, done + {r.coord}, surfaces);
    }
  }

  /** `writeTiles(levelZoomPlus0)`: writing leaves every image in place, so the regions still show. */
  method WriteBaseTiles(level0: Tiles.QdLvl, ghost rc: Coord, ghost delta: Coord,
                        ghost chunks: seq<Option<RegionStructures.ChunkSurface>>, ghost done: set<Coord>,
                        ghost surfaces: map<Coord, seq<Option<RegionStructures.ChunkSurface>>>)
    requires ShowsRegion(level0.tileMap, rc, delta, chunks) && RegionsShown(level0.tileMap, done, delta, surfaces)
    modifies level0.tileMap.Values`onDisk
    ensures LevelWritten(level0)
    ensures ShowsRegion(level0.tileMap, rc, delta, chunks) && RegionsShown(level0.tileMap, done, delta, surfaces)
  {
    WriteTiles(level0);
    ShowsRegionKept(level0.tileMap, rc, delta, chunks);
    RegionsShownKept(level0.tileMap, done, delta, surfaces);
  }

  // ---------------------------------------------------------------------
  // The three levels together

  /** Every tile of the three levels. */
  function AllTiles(l0: Tiles.QdLvl, l1: Tiles.QdLvl, l2: Tiles.QdLvl): set<Tiles.QuadTile>
    reads l0, l1, l2
  {
    l0.tileMap.Values + l1.tileMap.Values + l2.tileMap.Values
  }

  /** Three distinct levels, each valid and imaged, no two sharing a tile. */
  ghost predicate Levels(l0: Tiles.QdLvl, l1: Tiles.QdLvl, l2: Tiles.QdLvl)
    reads l0, l1, l2, AllTiles(l0, l1, l2)`image
  {
    l0 != l1 && l1 != l2 && l0 != l2 &&
    l0.Valid() && l1.Valid() && l2.Valid() && LevelImaged(l0) && LevelImaged(l1) && LevelImaged(l2) &&
    l0.tileMap.Values !! l1.tileMap.Values && l0.tileMap.Values !! l2.tileMap.Values && l1.tileMap.Values !! l2.tileMap.Values
  }

  /** A union of two maps takes its values from the two; it shares none with a set neither shares any with. */
  lemma UnionValues<V>(m: map<Coord, V>, added: map<Coord, V>, other: set<V>)
    ensures (m + added).Values <= m.Values + added.Values
    ensures m.Values !! other && added.Values !! other ==> (m + added).Values !! other
  {
    forall v | v in (m + added).Values
      ensures v in m.Values + added.Values
    {
      var k :| k in m + added && (m + added)[k] == v;
      if k in added {
        assert added[k] == v;
      } else {
        assert m[k] == v;
      }
    }
  }

  /**
   * `generateZoomPlus0Tiles` within the three levels: the other two are
   * untouched, and no tile is shared afterwards either.
   */
  method BaseStep(l0: Tiles.QdLvl, l1: Tiles.QdLvl, l2: Tiles.QdLvl, r: Regions.Region, delta: Coord,
                  chunks: seq<Option<RegionStructures.ChunkSurface>>, suppressWrite: bool,
                  ghost done: set<Coord>, ghost surfaces: map<Coord, seq<Option<RegionStructures.ChunkSurface>>>)
    returns (ghost four: map<Coord, Tiles.QuadTile>)
    requires Levels(l0, l1, l2) && RegionStructures.WellFormedChunks(chunks)
    requires RegionsShown(l0.tileMap, done, delta, surfaces) && r.coord in surfaces && surfaces[r.coord] == chunks
    modifies l0, l0.tileMap.Values`onDisk
    ensures Levels(l0, l1, l2) && l0.outputDir == old(l0.outputDir)
    ensures l0.tileMap == old(l0.tileMap) + four && four.Keys == Builders.BaseKeys(r.coord, delta)
    ensures forall k :: k in four ==> fresh(four[k])
    ensures !suppressWrite ==> LevelWritten(l0)
    ensures ShowsRegion(l0.tileMap, r.coord, delta, chunks)
    ensures RegionsShown(l0.tileMap, done + {r.coord}, delta, surfaces)
  {
    ghost var m0 := l0.tileMap;
    four := GenerateZoomPlus0Tiles(l0, r, delta, chunks, suppressWrite, done, surfaces);
    assert four.Values !! l1.tileMap.Values && four.Values !! l2.tileMap.Values;
    UnionValues(m0, four, l1.tileMap.Values);
    UnionValues(m0, four, l2.tileMap.Values);
  }

  /** `tileZoomIn` from `input` into `output`: the tiles of `input` and of `keep` keep their images. */
  method TileZoomInKeeping(input: Tiles.QdLvl, output: Tiles.QdLvl, suppressWrite: bool, ghost keep: map<Coord, Tiles.QuadTile>)
    returns (ghost added: map<Coord, Tiles.QuadTile>)
    requires input != output && input.Valid() && output.Valid() && LevelImaged(input) && LevelImaged(output)
    modifies output, output.tileMap.Values`onDisk
    ensures output.Valid() && LevelImaged(output) && output.outputDir == old(output.outputDir)
    ensures output.tileMap == old(output.tileMap) + added && added.Keys == Builders.ChildKeys(input.tileMap.Keys)
    ensures forall k :: k in added ==> fresh(added[k])
    ensures !suppressWrite ==> LevelWritten(output)
    ensures AllDoublable(input.tileMap.Keys) ==> ZoomedIn(input.tileMap, output.tileMap)
    ensures ImagesKept(input.tileMap) && ImagesKept(keep)
  {
    added := TileZoomIn(input, output, suppressWrite);
  }

  /**
   * `generateZoomPlus1Tiles` / `generateZoomPlus2Tiles`: `tileZoomIn` from
   * `input` into `output` within the three levels; `input` and `other` keep
   * their tiles, and a level written before stays written.
   */
  method ZoomStep(input: Tiles.QdLvl, output: Tiles.QdLvl, other: Tiles.QdLvl, suppressWrite: bool)
    returns (ghost added: map<Coord, Tiles.QuadTile>)
    requires Levels(input, output, other)
    modifies output, output.tileMap.Values`onDisk
    ensures Levels(input, output, other) && output.outputDir == old(output.outputDir)
    ensures output.tileMap == old(output.tileMap) + added && added.Keys == Builders.ChildKeys(input.tileMap.Keys)
    ensures forall k :: k in added ==> fresh(added[k])
    ensures !suppressWrite ==> LevelWritten(output)
    ensures old(LevelWritten(input)) ==> LevelWritten(input)
    ensures old(LevelWritten(other)) ==> LevelWritten(other)
    ensures AllDoublable(input.tileMap.Keys) ==> ZoomedIn(input.tileMap, output.tileMap)
    ensures ImagesKept(input.tileMap) && ImagesKept(other.tileMap)
  {
    ghost var m := output.tileMap;
    added := TileZoomInKeeping(input, output, suppressWrite, other.tileMap);
    assert added.Values !! input.tileMap.Values && added.Values !! other.tileMap.Values;
    UnionValues(m, added, input.tileMap.Values);
    UnionValues(m, added, other.tileMap.Values);
  }

  /**
   * `generateZoomPlus1Tiles`: the children of every base tile go into the
   * +1 level, written unless suppressed, while the base level keeps showing
   * the regions `done`.
   */
  method GenerateZoomPlus1Tiles(l0: Tiles.QdLvl, l1: Tiles.QdLvl, l2: Tiles.QdLvl, suppressWrite: bool,
                                ghost delta: Coord, ghost done: set<Coord>,
                                ghost surfaces: map<Coord, seq<Option<RegionStructures.ChunkSurface>>>)
    returns (ghost added1: map<Coord, Tiles.QuadTile>)
    requires Levels(l0, l1, l2)
    requires RegionsShown(l0.tileMap, done, delta, surfaces)
    modifies l1, l1.tileMap.Values`onDisk
    ensures Levels(l0, l1, l2) && l1.outputDir == old(l1.outputDir)
    ensures l1.tileMap == old(l1.tileMap) + added1 && added1.Keys == Builders.ChildKeys(l0.tileMap.Keys)
    ensures forall k :: k in added1 ==> fresh(added1[k])
    ensures !suppressWrite ==> LevelWritten(l1)
    ensures old(LevelWritten(l0)) ==> LevelWritten(l0)
    ensures AllDoublable(l0.tileMap.Keys) ==> ZoomedIn(l0.tileMap, l1.tileMap)
    ensures RegionsShown(l0.tileMap, done, delta, surfaces)
  {
    added1 := ZoomStep(l0, l1, l2, suppressWrite);
    RegionsShownKept(l0.tileMap, done, delta, surfaces);
  }

  /**
   * `generateZoomPlus2Tiles`: the children of every +1 tile go into the +2
   * level, written unless suppressed; the base level keeps showing the
   * regions `done` and the +1 level keeps zooming in on it.
   */
  method GenerateZoomPlus2Tiles(l0: Tiles.QdLvl, l1: Tiles.QdLvl, l2: Tiles.QdLvl, suppressWrite: bool,
                                ghost delta: Coord, ghost done: set<Coord>,
                                ghost surfaces: map<Coord, seq<Option<RegionStructures.ChunkSurface>>>)
    returns (ghost added2: map<Coord, Tiles.QuadTile>)
    requires Levels(l0, l1, l2)
    requires RegionsShown(l0.tileMap, done, delta, surfaces)
    requires AllDoublable(l0.tileMap.Keys) ==> ZoomedIn(l0.tileMap, l1.tileMap)
    modifies l2, l2.tileMap.Values`onDisk
    ensures Levels(l0, l1, l2) && l2.outputDir == old(l2.outputDir)
    ensures l2.tileMap == old(l2.tileMap) + added2 && added2.Keys == Builders.ChildKeys(l1.tileMap.Keys)
    ensures forall k :: k in added2 ==> fresh(added2[k])
    ensures !suppressWrite ==> LevelWritten(l2)
    ensures old(LevelWritten(l0)) ==> LevelWritten(l0)
    ensures old(LevelWritten(l1)) ==> LevelWritten(l1)
    ensures AllDoublable(l0.tileMap.Keys) ==> ZoomedIn(l0.tileMap, l1.tileMap)
    ensures AllDoublable(l1.tileMap.Keys) ==> ZoomedIn(l1.tileMap, l2.tileMap)
    ensures RegionsShown(l0.tileMap, done, delta, surfaces)
  {
    label Before:
    added2 := ZoomStep(l1, l2, l0, suppressWrite);
    RegionsShownKept@Before(l0.tileMap, done, delta, surfaces);
    if AllDoublable(l0.tileMap.Keys) {
      ScaledForKept@Before(l0.tileMap, l0.tileMap.Keys, l1.tileMap);
    }
  }

  /**
   * `generateZoomPlus1Tiles` then `generateZoomPlus2Tiles`: each zoomed-in
   * level gets the children of every tile of the level above, each written
   * unless suppressed, while the base level keeps showing the regions
   * `done`.
   */
  method ZoomSteps(l0: Tiles.QdLvl, l1: Tiles.QdLvl, l2: Tiles.QdLvl, suppressWrite: bool,
                   ghost delta: Coord, ghost done: set<Coord>, ghost surfaces: map<Coord, seq<Option<RegionStructures.ChunkSurface>>>)
    returns (ghost added1: map<Coord, Tiles.QuadTile>, ghost added2: map<Coord, Tiles.QuadTile>)
    requires Levels(l0, l1, l2)
    requires RegionsShown(l0.tileMap, done, delta, surfaces)
    modifies l1, l2, AllTiles(l0, l1, l2)`onDisk
    ensures Levels(l0, l1, l2)
    ensures l1.outputDir == old(l1.outputDir) && l2.outputDir == old(l2.outputDir)
    ensures l1.tileMap == old(l1.tileMap) + added1 && added1.Keys == Builders.ChildKeys(l0.tileMap.Keys)
    ensures l2.tileMap == old(l2.tileMap) + added2 && added2.Keys == Builders.ChildKeys(l1.tileMap.Keys)
    ensures forall k :: k in added1 ==> fresh(added1[k])
    ensures forall k :: k in added2 ==> fresh(added2[k])
    ensures !suppressWrite ==> LevelWritten(l1) && LevelWritten(l2)
    ensures old(LevelWritten(l0)) ==> LevelWritten(l0)
    ensures AllDoublable(l0.tileMap.Keys) ==> ZoomedIn(l0.tileMap, l1.tileMap)
    ensures AllDoublable(l1.tileMap.Keys) ==> ZoomedIn(l1.tileMap, l2.tileMap)
    ensures RegionsShown(l0.tileMap, done, delta, surfaces)
  {
    added1 := GenerateZoomPlus1Tiles(l0, l1, l2, suppressWrite, delta, done, surfaces);
    added2 := GenerateZoomPlus2Tiles(l0, l1, l2, suppressWrite, delta, done, surfaces);
  }

  /**
   * One pass of the `genTiles` loop: the region's base tiles, then the
   * children of every base tile, then the children of every +1 tile; each
   * level written after its step unless suppressed. The region shows in
   * the base level, and so does every region `done` before it.
   */
  method GenerateRegion(l0: Tiles.QdLvl, l1: Tiles.QdLvl, l2: Tiles.QdLvl, r: Regions.Region, delta: Coord,
                        chunks: seq<Option<RegionStructures.ChunkSurface>>, suppressWrite: bool,
                        ghost done: set<Coord>, ghost surfaces: map<Coord, seq<Option<RegionStructures.ChunkSurface>>>)
    returns (ghost four: map<Coord, Tiles.QuadTile>, ghost added1: map<Coord, Tiles.QuadTile>, ghost added2: map<Coord, Tiles.QuadTile>)
    requires Levels(l0, l1, l2) && RegionStructures.WellFormedChunks(chunks)
    requires RegionsShown(l0.tileMap, done, delta, surfaces) && r.coord in surfaces && surfaces[r.coord] == chunks
    modifies l0, l1, l2, AllTiles(l0, l1, l2)`onDisk
    ensures Levels(l0, l1, l2)
    ensures l0.outputDir == old(l0.outputDir) && l1.outputDir == old(l1.outputDir) && l2.outputDir == old(l2.outputDir)
    ensures l0.tileMap == old(l0.tileMap) + four && four.Keys == Builders.BaseKeys(r.coord, delta)
    ensures l1.tileMap == old(l1.tileMap) + added1 && added1.Keys == Builders.ChildKeys(l0.tileMap.Keys)
    ensures l2.tileMap == old(l2.tileMap) + added2 && added2.Keys == Builders.ChildKeys(l1.tileMap.Keys)
    ensures forall k :: k in four ==> fresh(four[k])
    ensures forall k :: k in added1 ==> fresh(added1[k])
    ensures forall k :: k in added2 ==> fresh(added2[k])
    ensures !suppressWrite ==> LevelWritten(l0) && LevelWritten(l1) && LevelWritten(l2)
    ensures RegionsShown(l0.tileMap, done + {r.coord}, delta, surfaces)
    ensures AllDoublable(l0.tileMap.Keys) ==> ZoomedIn(l0.tileMap, l1.tileMap)
    ensures AllDoublable(l1.tileMap.Keys) ==> ZoomedIn(l1.tileMap, l2.tileMap)
  {
    four := BaseStep(l0, l1, l2, r, delta, chunks, suppressWrite, done, surfaces);
    added1, added2 := ZoomSteps(l0, l1, l2, suppressWrite, delta, done + {r.coord}, surfaces);
  }

  /**
   * The key sets `n0`, `n1`, `n2` of the three levels once the regions `done`
   * are processed, from levels whose keys were `k0`, `k1` and `k2`.
   */
  ghost predicate KeysBuilt(n0: set<Coord>, n1: set<Coord>, n2: set<Coord>, k0: set<Coord>, k1: set<Coord>, k2: set<Coord>,
                            done: set<Coord>, delta: Coord)
  {
    n0 == k0 + RegionKeys(done, delta) &&
    (done == {} ==> n1 == k1 && n2 == k2) &&
    (done != {} ==> n1 == k1 + Builders.ChildKeys(n0) && n2 == k2 + Builders.ChildKeys(n1))
  }

  /** One more region keeps the key sets built: its base keys, then the children of each level. */
  lemma KeysBuiltStep(m0: set<Coord>, m1: set<Coord>, m2: set<Coord>, n0: set<Coord>, n1: set<Coord>, n2: set<Coord>,
                      k0: set<Coord>, k1: set<Coord>, k2: set<Coord>, done: set<Coord>, c: Coord, delta: Coord)
    requires KeysBuilt(m0, m1, m2, k0, k1, k2, done, delta)
    requires n0 == m0 + Builders.BaseKeys(c, delta)
    requires n1 == m1 + Builders.ChildKeys(n0)
    requires n2 == m2 + Builders.ChildKeys(n1)
    ensures KeysBuilt(n0, n1, n2, k0, k1, k2, done + {c}, delta)
  {
    RegionKeysAdd(done, c, delta);
    Builders.ChildKeysGrow(m0, n0);
    Builders.ChildKeysGrow(m1, n1);
  }

  /** The tiles of the three levels are all written, unless writing is suppressed or nothing was done yet. */
  ghost predicate WrittenSoFar(l0: Tiles.QdLvl, l1: Tiles.QdLvl, l2: Tiles.QdLvl, done: set<Coord>, suppressWrite: bool)
    reads l0, l1, l2, AllTiles(l0, l1, l2)`onDisk
  {
    done != {} && !suppressWrite ==> LevelWritten(l0) && LevelWritten(l1) && LevelWritten(l2)
  }

  /** Levels built for the regions `done` over the keys `k0`, `k1` and `k2`, written unless suppressed. */
  ghost predicate Built(l0: Tiles.QdLvl, l1: Tiles.QdLvl, l2: Tiles.QdLvl, k0: set<Coord>, k1: set<Coord>, k2: set<Coord>,
                        done: set<Coord>, delta: Coord, suppressWrite: bool)
    reads l0, l1, l2, AllTiles(l0, l1, l2)`image, AllTiles(l0, l1, l2)`onDisk
  {
    Levels(l0, l1, l2) &&
    KeysBuilt(l0.tileMap.Keys, l1.tileMap.Keys, l2.tileMap.Keys, k0, k1, k2, done, delta) &&
    WrittenSoFar(l0, l1, l2, done, suppressWrite)
  }

  /** One pass of the `genTiles` loop, for region `c`, taking what is built from `done` to `done` and its coordinate. */
  method RegionPass(l0: Tiles.QdLvl, l1: Tiles.QdLvl, l2: Tiles.QdLvl, c: Coord, r: Regions.Region, delta: Coord,
                    chunks: seq<Option<RegionStructures.ChunkSurface>>, suppressWrite: bool,
                    ghost k0: set<Coord>, ghost k1: set<Coord>, ghost k2: set<Coord>, ghost done: set<Coord>,
                    ghost surfaces: map<Coord, seq<Option<RegionStructures.ChunkSurface>>>)
    requires Built(l0, l1, l2, k0, k1, k2, done, delta, suppressWrite) && RegionStructures.WellFormedChunks(chunks)
    requires RegionsShown(l0.tileMap, done, delta, surfaces) && r.coord == c && c in surfaces && surfaces[c] == chunks
    modifies l0, l1, l2, AllTiles(l0, l1, l2)`onDisk
    ensures Built(l0, l1, l2, k0, k1, k2, done + {c}, delta, suppressWrite)
    ensures RegionsShown(l0.tileMap, done + {c}, delta, surfaces)
    ensures l0.outputDir == old(l0.outputDir) && l1.outputDir == old(l1.outputDir) && l2.outputDir == old(l2.outputDir)
    ensures forall t :: t in AllTiles(l0, l1, l2) ==> t in old(AllTiles(l0, l1, l2)) || fresh(t)
  {
    ghost var m0, m1, m2 := l0.tileMap, l1.tileMap, l2.tileMap;
    ghost var four, added1, added2 := GenerateRegion(l0, l1, l2, r, delta, chunks, suppressWrite, done, surfaces);
    KeysBuiltStep(m0.Keys, m1.Keys, m2.Keys, l0.tileMap.Keys, l1.tileMap.Keys, l2.tileMap.Keys, k0, k1, k2, done, r.coord, delta);
    TilesOldOrFresh(l0, l1, l2, four, added1, added2);
  }

  /** Levels that only gained fresh tiles hold, besides, only the tiles they held. */
  twostate lemma TilesOldOrFresh(new l0: Tiles.QdLvl, new l1: Tiles.QdLvl, new l2: Tiles.QdLvl, new four: map<Coord, Tiles.QuadTile>,
                                 new added1: map<Coord, Tiles.QuadTile>, new added2: map<Coord, Tiles.QuadTile>)
    requires old(allocated(l0)) && old(allocated(l1)) && old(allocated(l2))
    requires l0.tileMap == old(l0.tileMap) + four && l1.tileMap == old(l1.tileMap) + added1 && l2.tileMap == old(l2.tileMap) + added2
    requires forall k :: k in four ==> fresh(four[k])
    requires forall k :: k in added1 ==> fresh(added1[k])
    requires forall k :: k in added2 ==> fresh(added2[k])
    ensures forall t :: t in AllTiles(l0, l1, l2) ==> t in old(AllTiles(l0, l1, l2)) || fresh(t)
  {
    UnionValues(old(l0.tileMap), four, {});
    UnionValues(old(l1.tileMap), added1, {});
    UnionValues(old(l2.tileMap), added2, {});
  }

  /**
   * The loop of `genTiles` over the regions, in no particular order:
   * afterwards the base level holds the base tiles of every region and, once
   * a region was processed, each zoomed-in level holds the children of
   * every tile of the level above, all written unless suppressed. Tiles
   * added for one region are added again, by coordinate, for every later
   * one. Every region shows in the base level, rendered from its surfaces,
   * and each zoomed-in level enlarges the level above.
   */
  method BuildLevels(l0: Tiles.QdLvl, l1: Tiles.QdLvl, l2: Tiles.QdLvl, regions: map<Coord, Regions.Region>, delta: Coord,
                     surfaces: map<Coord, seq<Option<RegionStructures.ChunkSurface>>>, suppressWrite: bool)
    requires Levels(l0, l1, l2)
    requires forall c :: c in regions ==> regions[c].coord == c
    requires forall c :: c in regions ==> c in surfaces && RegionStructures.WellFormedChunks(surfaces[c])
    modifies l0, l1, l2, AllTiles(l0, l1, l2)`onDisk
    ensures Levels(l0, l1, l2)
    ensures l0.outputDir == old(l0.outputDir) && l1.outputDir == old(l1.outputDir) && l2.outputDir == old(l2.outputDir)
    ensures KeysBuilt(l0.tileMap.Keys, l1.tileMap.Keys, l2.tileMap.Keys,
                      old(l0.tileMap.Keys), old(l1.tileMap.Keys), old(l2.tileMap.Keys), regions.Keys, delta)
    ensures WrittenSoFar(l0, l1, l2, regions.Keys, suppressWrite)
    ensures RegionsShown(l0.tileMap, regions.Keys, delta, surfaces)
    ensures regions == map[] ==> l1.tileMap == old(l1.tileMap) && l2.tileMap == old(l2.tileMap)
  {
    RegionKeysNone(delta);
    if regions == map[] {
      // no regions: the loop does not run
      return;
    }
    ghost var k0, k1, k2 := l0.tileMap.Keys, l1.tileMap.Keys, l2.tileMap.Keys;
    var todo := regions.Keys;
    ghost var done: set<Coord> := {};
    while todo != {}
      invariant todo <= regions.Keys && done + todo == regions.Keys && done !! todo
      invariant Built(l0, l1, l2, k0, k1, k2, done, delta, suppressWrite) && RegionsShown(l0.tileMap, done, delta, surfaces)
      invariant l0.outputDir == old(l0.outputDir) && l1.outputDir == old(l1.outputDir) && l2.outputDir == old(l2.outputDir)
      invariant forall t :: t in AllTiles(l0, l1, l2) ==> t in old(AllTiles(l0, l1, l2)) || fresh(t)
      decreases todo
    {
      var c :| c in todo;
      RegionPass(l0, l1, l2, c, regions[c], delta, surfaces[c], suppressWrite, k0, k1, k2, done, surfaces);
      todo := todo - {c};
      done := done + {c};
    }
    assert done == regions.Keys;
  }

  /**
   * A level as `prepare` leaves it: no tiles, the attributes `a` (its side
   * following from the zoom), and its directory named after it under `dir`.
   */
  ghost predicate PreparedLevel(level: Tiles.QdLvl, a: Builders.Attributes, dir: Option<string>)
    reads level
  {
    level.Valid() && level.tileMap == map[] && Builders.AttributesOf(level) == Some(a) &&
    level.dim == Tiles.DimOf(a.zoom) && level.outputDir == Some(Builders.PathIn(dir, Tiles.LevelName(a.zoom)))
  }

  /** Levels +0, +1 and +2 as `prepare` leaves them: empty, apart, with the attributes over `baseZoom`. */
  ghost predicate PreparedLevels(l0: Tiles.QdLvl, l1: Tiles.QdLvl, l2: Tiles.QdLvl, baseZoom: Int32, delta: Coord,
                                 dir: Option<string>)
    reads l0, l1, l2
  {
    l0 != l1 && l1 != l2 && l0 != l2 &&
    PreparedLevel(l0, BaseAttributes(baseZoom, delta, 0), dir) &&
    PreparedLevel(l1, BaseAttributes(baseZoom, delta, 1), dir) &&
    PreparedLevel(l2, BaseAttributes(baseZoom, delta, 2), dir)
  }

  /** Prepared levels, being three distinct empty ones, satisfy `Levels`. */
  lemma PreparedAreLevels(l0: Tiles.QdLvl, l1: Tiles.QdLvl, l2: Tiles.QdLvl, baseZoom: Int32, delta: Coord,
                          dir: Option<string>)
    requires PreparedLevels(l0, l1, l2, baseZoom, delta, dir)
    ensures Levels(l0, l1, l2)
  {
  }

  /** A new level set up as `prepare` does it, filed under its name in the output directory. */
  method SetUpLevel(level: Tiles.QdLvl, a: Builders.Attributes, dir: Option<string>)
    requires level.Valid() && level.tileMap == map[]
    modifies level
    ensures PreparedLevel(level, a, dir)
  {
    level.SetZoom(a.zoom);
    level.SetBlocksPerTileSide(a.blocksPerTile);
    level.SetOriginTile(a.originTile);
    level.SetOriginDisplace(a.originDisplace);
    var name := level.Name();
    level.SetOutputDir(Builders.PathIn(dir, name));
  }

  // ---------------------------------------------------------------------
  // The builder

  /** The tiles of a level, none before it exists. */
  function TilesOf(level: Tiles.QdLvl?): set<Tiles.QuadTile>
    reads level
  {
    if level == null then {} else level.tileMap.Values
  }

  /**
   * `BaseQuadLevelBuilder`: the top-level output directory, the quad data,
   * the region-to-quad delta (the negated calibration) and, once prepared,
   * the base level and the two levels zoomed in from it.
   */
  class BaseQuadLevelBuilder {
    const outputDir: Option<string>
    const quadData: Quads.QuadData
    const regionToQuadDelta: Coord
    var levelZoomPlus0: Tiles.QdLvl?
    var levelZoomPlus1: Tiles.QdLvl?
    var levelZoomPlus2: Tiles.QdLvl?

    /** The three levels exist together or not at all. */
    ghost predicate Valid()
      reads this
    {
      (levelZoomPlus0 == null <==> levelZoomPlus1 == null) &&
      (levelZoomPlus1 == null <==> levelZoomPlus2 == null)
    }

    /** `prepare()` has run. */
    predicate Prepared()
      reads this
    {
      levelZoomPlus0 != null && levelZoomPlus1 != null && levelZoomPlus2 != null
    }

    /** `new BaseQuadLevelBuilder(outputDir, quadData)`: the delta is the negated calibration, no levels yet. */
    constructor (outputDir: Option<string>, quadData: Quads.QuadData)
      ensures Valid() && !Prepared() && levelZoomPlus0 == null
      ensures this.outputDir == outputDir && this.quadData == quadData
      ensures regionToQuadDelta == Negation(quadData.calibration)
    {
      this.outputDir := outputDir;
      this.quadData := quadData;
      regionToQuadDelta := Negation(quadData.calibration);
      levelZoomPlus0, levelZoomPlus1, levelZoomPlus2 := null, null, null;
    }

    /**
     * `prepare()`: three fresh, empty levels with the attributes of levels
     * +0, +1 and +2 over `baseZoom`, each filed under its name in the output
     * directory.
     */
    method Prepare(baseZoom: Int32)
      requires Valid()
      modifies this
      ensures Valid() && Prepared()
      ensures fresh(levelZoomPlus0) && fresh(levelZoomPlus1) && fresh(levelZoomPlus2)
      ensures PreparedLevels(levelZoomPlus0, levelZoomPlus1, levelZoomPlus2, baseZoom, regionToQuadDelta, outputDir)
    {
      levelZoomPlus0 := new Tiles.QdLvl();
      SetUpLevel(levelZoomPlus0, BaseAttributes(baseZoom, regionToQuadDelta, 0), outputDir);
      levelZoomPlus1 := new Tiles.QdLvl();
      SetUpLevel(levelZoomPlus1, BaseAttributes(baseZoom, regionToQuadDelta, 1), outputDir);
      levelZoomPlus2 := new Tiles.QdLvl();
      SetUpLevel(levelZoomPlus2, BaseAttributes(baseZoom, regionToQuadDelta, 2), outputDir);
    }

    /**
     * `genTiles(suppressWrite)`: before `prepare` the first tracker call
     * dereferences a null level; afterwards every region of the quad data
     * adds its base tiles and the zoomed-in tiles, as `BuildLevels` states.
     * `surfaces` holds each region's chunk surfaces, read from its file.
     */
    method GenTiles(suppressWrite: bool, surfaces: map<Coord, seq<Option<RegionStructures.ChunkSurface>>>)
      returns (o: Outcome)
      requires Valid() && quadData.regionData.Valid()
      requires Prepared() ==> Levels(levelZoomPlus0, levelZoomPlus1, levelZoomPlus2)
      requires forall c :: c in quadData.regionData.regionMap ==> c in surfaces && RegionStructures.WellFormedChunks(surfaces[c])
      modifies levelZoomPlus0, levelZoomPlus1, levelZoomPlus2
      modifies TilesOf(levelZoomPlus0)`onDisk, TilesOf(levelZoomPlus1)`onDisk, TilesOf(levelZoomPlus2)`onDisk
      ensures !Prepared() ==> o == Fail(NullPointer)
      ensures Prepared() ==> o == Pass && Levels(levelZoomPlus0, levelZoomPlus1, levelZoomPlus2)
      ensures Prepared() ==>
        KeysBuilt(levelZoomPlus0.tileMap.Keys, levelZoomPlus1.tileMap.Keys, levelZoomPlus2.tileMap.Keys,
                  old(levelZoomPlus0.tileMap.Keys), old(levelZoomPlus1.tileMap.Keys), old(levelZoomPlus2.tileMap.Keys),
                  quadData.regionData.regionMap.Keys, regionToQuadDelta)
      ensures Prepared() ==>
        WrittenSoFar(levelZoomPlus0, levelZoomPlus1, levelZoomPlus2, quadData.regionData.regionMap.Keys, suppressWrite)
      ensures Prepared() ==>
        RegionsShown(levelZoomPlus0.tileMap, quadData.regionData.regionMap.Keys, regionToQuadDelta, surfaces)
    {
      if !Prepared() {
        return Fail(NullPointer);
      }
      BuildLevels(levelZoomPlus0, levelZoomPlus1, levelZoomPlus2, quadData.regionData.regionMap,
                  regionToQuadDelta, surfaces, suppressWrite);
      return Pass;
    }
  }
}
