/**
 * The quad (`QuadData`): the smallest power-of-two square of regions that
 * holds the bounding box of the loaded regions, centred, and the zoom level
 * at which one tile covers the whole square.
 */
module Quads {
  import opened Wrappers
  import opened JavaInts
  import opened Geometry
  import opened Regions
  import opened Schematics

  const ORIGIN: Coord := Coord(0, 0)
  /** The largest bounding box side for which `computeQuad` terminates. */
  const MAX_QUAD_DIM: int := 0x4000_0000

  function Pow2(n: nat): (p: nat)
    ensures p >= 1
  {
    if n == 0 then 1 else 2 * Pow2(n - 1)
  }

  ghost predicate IsPow2(q: int)
  {
    exists n: nat :: Pow2(n) == q
  }

  /** The number of halvings that bring `d` down to 1. */
  function Log2(d: int): nat
    decreases d
  {
    if d <= 1 then 0 else 1 + Log2(d / 2)
  }

  lemma {:induction false} Log2Pow2(n: nat)
    ensures Log2(Pow2(n)) == n
  {
    if n > 0 {
      Log2Pow2(n - 1);
      assert Pow2(n) / 2 == Pow2(n - 1);
    }
  }

  lemma {:induction false} Log2Below(d: int)
    requires d >= 1
    ensures Log2(d) < d
    decreases d
  {
    if d > 1 {
      Log2Below(d / 2);
    }
  }

  /** The smallest power of two that is at least `dim` (1 for an empty or one-wide box). */
  ghost predicate IsQuadDim(q: int, dim: int)
  {
    IsPow2(q) && q >= dim && (q == 1 || q / 2 < dim)
  }

  /**
   * `computeQuad()`: double from 1 until the side reaches `dim`; the result
   * is the smallest power of two that is at least `dim`.
   */
  method ComputeQuad(dim: Int32) returns (q: Int32)
    requires dim <= MAX_QUAD_DIM
    ensures IsQuadDim(q, dim)
  {
    q := 1;
    ghost var n: nat := 0;
    while q < dim
      invariant q == Pow2(n) && (q == 1 || q / 2 < dim)
      decreases dim - q
    {
      q := q * 2;
      n := n + 1;
    }
  }

  /** `computeMaxZoom(quadDim)`: halve until 1, counting; the exponent of a power of two. */
  method ComputeMaxZoom(quadDim: Int32) returns (zoom: Int32)
    ensures zoom == Log2(quadDim)
    ensures forall n: nat :: Pow2(n) == quadDim ==> zoom == n
  {
    zoom := 0;
    var dim := quadDim;
    if quadDim >= 1 {
      Log2Below(quadDim);
    }
    while dim > 1
      invariant zoom + Log2(dim) == Log2(quadDim) && dim <= quadDim
      decreases dim
    {
      zoom := zoom + 1;
      dim := dim / 2;
    }
    forall n: nat | Pow2(n) == quadDim
      ensures zoom == n
    {
      Log2Pow2(n);
    }
  }

  /** `computeOffset(n)`: half the padding `quadDim - n`, in 32-bit arithmetic with Java's division. */
  function Offset(quadDim: Int32, n: Int32): (off: Int32)
  {
    TruncDiv(ToInt32(quadDim - n), 2)
  }

  /** A span no wider than the quad is centred: the offset leaves equal padding on both sides, give or take one. */
  lemma OffsetCentres(quadDim: Int32, n: Int32)
    requires 0 <= n <= quadDim
    ensures var off := Offset(quadDim, n);
      0 <= off && off + n <= quadDim && (quadDim - n - 2 * off == 0 || quadDim - n - 2 * off == 1)
  {
  }

  /** `tileChar(region)`: ` .` for no region, ` O` for the origin region, ` #` for any other. */
  function TileChar(r: Region?): (cell: string)
    ensures cell == Mark(r != null, r != null && r.coord == ORIGIN)
  {
    if r == null then " ." else if r.coord == ORIGIN then " O" else " #"
  }

  /** The schematic marks of the loaded regions: present, and whether each is the origin region. */
  function RegionMarks(m: map<Coord, Region>): (marks: map<Coord, bool>)
    ensures marks.Keys == m.Keys
  {
    map c | c in m :: m[c].coord == ORIGIN
  }

  /** A summary of the bounding box: the numbers the quad is derived from. */
  datatype Box = Box(maxDim: Int32, nx: Int32, nz: Int32, minX: Int32, minZ: Int32)

  /** How `QuadData` derives its fields from the box, in 32-bit arithmetic. */
  ghost predicate Derived(box: Box, quadDim: Int32, maxZoom: Int32, xoff: Int32, zoff: Int32, xcc: Int32, zcc: Int32)
  {
    IsQuadDim(quadDim, box.maxDim) && maxZoom >= 0 && Pow2(maxZoom) == quadDim &&
    xoff == Offset(quadDim, box.nx) && zoff == Offset(quadDim, box.nz) &&
    xcc == ToInt32(box.minX as int - xoff as int) && zcc == ToInt32(box.minZ as int - zoff as int)
  }

  /** The constructor's derivation, one step per field. */
  method Derive(box: Box) returns (quadDim: Int32, maxZoom: Int32, xoff: Int32, zoff: Int32, xcc: Int32, zcc: Int32)
    requires box.maxDim <= MAX_QUAD_DIM
    ensures Derived(box, quadDim, maxZoom, xoff, zoff, xcc, zcc)
  {
    quadDim := ComputeQuad(box.maxDim);
    maxZoom := ComputeMaxZoom(quadDim);
    ghost var n: nat :| Pow2(n) == quadDim;
    xoff := Offset(quadDim, box.nx);
    zoff := Offset(quadDim, box.nz);
    xcc := ToInt32(box.minX as int - xoff as int);
    zcc := ToInt32(box.minZ as int - zoff as int);
  }

  /** The derivation is a function of the box: one quad per bounding box. */
  lemma DerivedUnique(box: Box, q1: Int32, z1: Int32, xo1: Int32, zo1: Int32, xc1: Int32, zc1: Int32,
                      q2: Int32, z2: Int32, xo2: Int32, zo2: Int32, xc2: Int32, zc2: Int32)
    requires Derived(box, q1, z1, xo1, zo1, xc1, zc1) && Derived(box, q2, z2, xo2, zo2, xc2, zc2)
    ensures q1 == q2 && z1 == z2 && xo1 == xo2 && zo1 == zo2 && xc1 == xc2 && zc1 == zc2
  {
    QuadDimUnique(q1, q2, box.maxDim);
    PowUnique(z1, z2);
  }

  class QuadData {
    const regionData: RegionData
    const bounds: Bounds
    const quadDim: Int32
    const maxZoom: Int32
    const xoff: Int32
    const zoff: Int32
    const xcc: Int32
    const zcc: Int32
    const calibration: Coord

    ghost function BoxNow(): Box
      requires bounds.Valid()
      reads bounds
    {
      Box(bounds.MaxDim(), bounds.Nx(), bounds.Nz(), bounds.MinX(), bounds.MinZ())
    }

    /** The fields as the constructor derives them from the current bounds. */
    ghost predicate Valid()
      reads this, bounds
    {
      bounds.Valid() && bounds == regionData.bounds &&
      Derived(BoxNow(), quadDim, maxZoom, xoff, zoff, xcc, zcc) && calibration == Coord(xcc, zcc)
    }

    /** `new QuadData(regionData)`. */
    constructor (regionData: RegionData)
      requires regionData.Valid() && regionData.bounds.MaxDim() <= MAX_QUAD_DIM
      ensures this.regionData == regionData && Valid()
    {
      var b := regionData.bounds;
      var box := Box(b.MaxDim(), b.Nx(), b.Nz(), b.MinX(), b.MinZ());
      var q, zoom, xo, zo, xc, zc := Derive(box);
      this.regionData := regionData;
      bounds := b;
      quadDim, maxZoom := q, zoom;
      xoff, zoff := xo, zo;
      xcc, zcc := xc, zc;
      calibration := Coord(xc, zc);
    }

    /** `quadToRegion(a, b)`: shift quad coordinates by the calibration (32-bit). */
    function QuadToRegion(a: Int32, b: Int32): Coord
    {
      Coord(ToInt32(a as int + xcc as int), ToInt32(b as int + zcc as int))
    }

    /** `at(a, b)`: the region at quad position (a, b), or null. */
    function At(a: Int32, b: Int32): (r: Region?)
      requires regionData.Valid()
      reads this, regionData, regionData.bounds
      ensures r != null <==> QuadToRegion(a, b) in regionData.regionMap
      ensures r != null ==> r == regionData.regionMap[QuadToRegion(a, b)]
    {
      var c := QuadToRegion(a, b);
      regionData.At(c.x, c.z)
    }

    /**
     * `schematic()`: row by row, one two-character cell per quad position.
     * (`quadDim` is at least 1 in every constructed quad.)
     */
    method Schematic() returns (s: string)
      requires quadDim >= 0 && regionData.Valid()
      ensures s == Rows(Frame(RegionMarks(regionData.regionMap), xcc, zcc), quadDim, quadDim)
    {
      ghost var f := Frame(RegionMarks(regionData.regionMap), xcc, zcc);
      s := "";
      for z := 0 to quadDim
        invariant s == Rows(f, quadDim, z)
      {
        s := AppendRow(s, z);
        s := s + "\n";
      }
    }

    /** The inner loop of `schematic()`: append the cells of row `z`. */
    method AppendRow(s0: string, z: Int32) returns (s: string)
      requires quadDim >= 0 && regionData.Valid()
      ensures s == s0 + Row(Frame(RegionMarks(regionData.regionMap), xcc, zcc), z, quadDim)
    {
      ghost var f := Frame(RegionMarks(regionData.regionMap), xcc, zcc);
      s := s0;
      for x := 0 to quadDim
        invariant s == s0 + Row(f, z, x)
      {
        var r := regionData.At(ToInt32(x as int + xcc as int), ToInt32(z as int + zcc as int));
        CellIsTileOfAt(this, x, z);
        s := s + TileChar(r);
      }
    }
  }

  /** Each schematic cell shows the region `at` that quad position. */
  lemma CellIsTileOfAt(qd: QuadData, x: Int32, z: Int32)
    requires qd.regionData.Valid()
    ensures Cell(Frame(RegionMarks(qd.regionData.regionMap), qd.xcc, qd.zcc), x, z) == TileChar(qd.At(x, z))
    ensures qd.At(x, z) == qd.regionData.At(ToInt32(x as int + qd.xcc as int), ToInt32(z as int + qd.zcc as int))
  {
  }

  /**
   * Every loaded region has a place in the quad: its coordinate minus the
   * calibration lies in [0, quadDim) on both axes, and `at` finds it there.
   * Holds while no 32-bit sum overflows: the spans fit in an int and the
   * calibration is exact.
   */
  lemma RegionsInsideQuad(qd: QuadData, c: Coord)
    requires qd.Valid() && qd.regionData.Valid() && c in qd.bounds.points
    requires IsInt32(qd.bounds.MaxX() - qd.bounds.MinX() + 1) && IsInt32(qd.bounds.MaxZ() - qd.bounds.MinZ() + 1)
    requires IsInt32(qd.bounds.MinX() - qd.xoff) && IsInt32(qd.bounds.MinZ() - qd.zoff)
    ensures 0 <= c.x - qd.xcc < qd.quadDim && 0 <= c.z - qd.zcc < qd.quadDim
    ensures qd.QuadToRegion(c.x - qd.xcc, c.z - qd.zcc) == c
    ensures qd.At(c.x - qd.xcc, c.z - qd.zcc) == qd.regionData.regionMap[c]
  {
    var box := qd.BoxNow();
    assert box.minX <= c.x < box.minX + box.nx && box.minZ <= c.z < box.minZ + box.nz;
    assert IsQuadDim(qd.quadDim, box.maxDim) && box.maxDim >= box.nx && box.maxDim >= box.nz;
    CentredInQuad(qd.quadDim, box.nx, box.minX, qd.xoff, qd.xcc, c.x);
    CentredInQuad(qd.quadDim, box.nz, box.minZ, qd.zoff, qd.zcc, c.z);
  }

  /** One axis of `RegionsInsideQuad`: a value of the span [min, min + n) lands in [0, quadDim). */
  lemma CentredInQuad(quadDim: Int32, n: Int32, min: Int32, off: Int32, cc: Int32, v: Int32)
    requires 1 <= n <= quadDim && off == Offset(quadDim, n)
    requires IsInt32(min as int - off as int) && cc == ToInt32(min as int - off as int)
    requires min <= v < min + n
    ensures 0 <= v - cc < quadDim && ToInt32(v - cc + cc as int) == v
  {
    OffsetCentres(quadDim, n);
    assert cc == min - off;
    assert v - cc + cc == v;
  }

  /**
   * The quad depends only on which coordinates were loaded: neither the
   * order of loading nor repeated regions change it.
   */
  lemma QuadDependsOnPointsOnly(q1: QuadData, q2: QuadData)
    requires q1.Valid() && q2.Valid() && q1.bounds.points == q2.bounds.points
    ensures q1.quadDim == q2.quadDim && q1.maxZoom == q2.maxZoom
    ensures q1.xoff == q2.xoff && q1.zoff == q2.zoff && q1.calibration == q2.calibration
  {
    BoundsDependOnPointsOnly(q1.bounds, q2.bounds);
    var box := q1.BoxNow();
    assert q2.BoxNow() == box;
    DerivedUnique(box, q1.quadDim, q1.maxZoom, q1.xoff, q1.zoff, q1.xcc, q1.zcc,
                  q2.quadDim, q2.maxZoom, q2.xoff, q2.zoff, q2.xcc, q2.zcc);
  }

  lemma {:induction false} PowUnique(a: nat, b: nat)
    requires Pow2(a) == Pow2(b)
    ensures a == b
  {
    if a > 0 && b > 0 {
      PowUnique(a - 1, b - 1);
    }
  }

  /** There is one smallest power of two at least `m`. */
  lemma QuadDimUnique(q1: int, q2: int, m: int)
    requires IsQuadDim(q1, m) && IsQuadDim(q2, m)
    ensures q1 == q2
  {
    var n1: nat :| Pow2(n1) == q1;
    var n2: nat :| Pow2(n2) == q2;
    if n1 < n2 {
      PowMono(n1, n2 - 1);
    } else if n2 < n1 {
      PowMono(n2, n1 - 1);
    }
  }

  lemma {:induction false} PowMono(a: nat, b: nat)
    requires a <= b
    ensures Pow2(a) <= Pow2(b)
    decreases b
  {
    if a < b {
      PowMono(a, b - 1);
    }
  }
}
