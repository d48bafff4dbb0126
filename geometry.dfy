/**
 * Region and tile coordinates (`Coord`) and the bounding box of a set of
 * coordinates (`Bounds`).  Components are Java ints, so negation, scaling and
 * the hash wrap around at 32 bits and `div2` truncates toward zero.
 */
module Geometry {
  import opened Wrappers
  import opened JavaInts
  import Decimal

  /** An immutable x/z pair; `equals` compares both components. */
  datatype Coord = Coord(x: Int32, z: Int32)

  const ORIGIN: Coord := Coord(0, 0)

  /** `hashCode()`: `31 * x + z` in 32-bit arithmetic. */
  function HashCode(c: Coord): (h: Int32)
    ensures IsInt32(31 * c.x + c.z) ==> h == 31 * c.x + c.z
  {
    ToInt32(31 * c.x + c.z)
  }

  /** Two numbers closer than 2^32 but not equal leave different remainders modulo 2^32. */
  lemma RemaindersDiffer(a: int, b: int)
    requires 0 < b - a < TWO_32
    ensures a % TWO_32 != b % TWO_32
  {
    var q, r := a / TWO_32, a % TWO_32;
    if r + (b - a) < TWO_32 {
      assert b == TWO_32 * q + (r + (b - a));
      assert b % TWO_32 == r + (b - a);
    } else {
      assert b == TWO_32 * (q + 1) + (r + (b - a) - TWO_32);
      assert b % TWO_32 == r + (b - a) - TWO_32;
    }
  }

  /** Two coordinates with the same x and different z never share a hash. */
  lemma HashSeparatesZ(x: Int32, z1: Int32, z2: Int32)
    requires z1 != z2
    ensures HashCode(Coord(x, z1)) != HashCode(Coord(x, z2))
  {
    if z1 < z2 {
      RemaindersDiffer(31 * x + z1, 31 * x + z2);
    } else {
      RemaindersDiffer(31 * x + z2, 31 * x + z1);
    }
  }

  /** `negation()`: both components negated, in 32-bit arithmetic. */
  function Negation(c: Coord): (r: Coord)
    ensures c.x != MIN_INT ==> r.x == -(c.x as int)
    ensures c.z != MIN_INT ==> r.z == -(c.z as int)
    ensures c.x == MIN_INT ==> r.x == MIN_INT
    ensures c.z == MIN_INT ==> r.z == MIN_INT
  {
    Coord(ToInt32(-(c.x as int)), ToInt32(-(c.z as int)))
  }

  /** Negating twice gives back the coordinate, including at the most negative int. */
  lemma NegationInvolutive(c: Coord)
    ensures Negation(Negation(c)) == c
  {
  }

  /** `scale(s)`: both components multiplied by `s`, in 32-bit arithmetic. */
  function Scale(c: Coord, s: Int32): (r: Coord)
    ensures IsInt32(c.x * s) && IsInt32(c.z * s) ==> r == Coord(c.x * s, c.z * s)
  {
    Coord(ToInt32(c.x * s), ToInt32(c.z * s))
  }

  /** Scaling by one is the identity and scaling by minus one is negation. */
  lemma ScaleUnits(c: Coord)
    ensures Scale(c, 1) == c
    ensures Scale(c, -1) == Negation(c)
  {
    assert c.x * 1 == c.x && c.z * 1 == c.z;
    assert c.x * -1 == -(c.x as int) && c.z * -1 == -(c.z as int);
  }

  /** `div2()`: each component halved with Java's division, rounding toward zero. */
  function Div2(c: Coord): (r: Coord)
    ensures 0 <= c.x ==> 0 <= c.x - 2 * r.x <= 1
    ensures c.x < 0 ==> -1 <= c.x - 2 * r.x <= 0
    ensures 0 <= c.z ==> 0 <= c.z - 2 * r.z <= 1
    ensures c.z < 0 ==> -1 <= c.z - 2 * r.z <= 0
  {
    Coord(TruncDiv(c.x, 2), TruncDiv(c.z, 2))
  }

  /** Halving rounds toward zero, not down: `(-1,-3)` becomes `(0,-1)`. */
  lemma Div2RoundsTowardZero()
    ensures Div2(Coord(-1, -3)) == Coord(0, -1)
  {
  }

  /**
   * `toString()`: `[x,z]`; the comma after the bracket is the text's first, so
   * the two numbers are told apart.
   */
  function ToString(c: Coord): (s: string)
    ensures |s| >= 5 && s[0] == '[' && s[|s| - 1] == ']'
    ensures Decimal.IndexOf(s[1..|s| - 1], ',') == |Decimal.IntToString(c.x)|
  {
    Decimal.IntToStringWithout(c.x, ',');
    var xs, zs := Decimal.IntToString(c.x), Decimal.IntToString(c.z);
    var s := "[" + xs + "," + zs + "]";
    assert s[1..|s| - 1] == xs + "," + zs;
    CommaSplit(s[1..|s| - 1], xs, zs);
    s
  }

  /**
   * The reading of `[x,z]` text that the ledger's record lines rely on: a
   * bracketed pair of decimal ints separated by the first comma.
   */
  function CoordOf(s: string): (r: Result<Coord>)
    ensures r.Success? ==> |s| >= 5 && s[0] == '[' && s[|s| - 1] == ']'
  {
    if |s| < 2 || s[0] != '[' || s[|s| - 1] != ']' then Failure(NumberFormat(s))
    else
      var body := s[1..|s| - 1];
      var k := Decimal.IndexOf(body, ',');
      if k == |body| then Failure(NumberFormat(s))
      else
        var x := Decimal.ParseInt(body[..k]);
        var z := Decimal.ParseInt(body[k + 1..]);
        if x.Failure? || z.Failure? then Failure(NumberFormat(s))
        else Success(Coord(x.value, z.value))
  }

  /** Text made of `xs`, a comma and `zs`, where `xs` has no comma, splits at that comma into the two. */
  lemma CommaSplit(body: string, xs: string, zs: string)
    requires body == xs + "," + zs
    requires forall i :: 0 <= i < |xs| ==> xs[i] != ','
    ensures Decimal.IndexOf(body, ',') == |xs| && body[..|xs|] == xs && body[|xs| + 1..] == zs
  {
    assert body[|xs|] == ',';
    assert forall i :: 0 <= i < |xs| ==> body[i] == xs[i];
  }

  /** A bracketed pair whose first part has no comma reads back as the two parts' numbers. */
  lemma CoordOfPair(xs: string, zs: string, c: Coord)
    requires forall i :: 0 <= i < |xs| ==> xs[i] != ','
    requires Decimal.ParseInt(xs) == Success(c.x) && Decimal.ParseInt(zs) == Success(c.z)
    ensures CoordOf("[" + xs + "," + zs + "]") == Success(c)
  {
    var s := "[" + xs + "," + zs + "]";
    assert s[1..|s| - 1] == xs + "," + zs;
    CommaSplit(s[1..|s| - 1], xs, zs);
  }

  /** The text of a coordinate reads back as that coordinate. */
  lemma CoordOfToString(c: Coord)
    ensures CoordOf(ToString(c)) == Success(c)
  {
    Decimal.IntToStringWithout(c.x, ',');
    Decimal.ParseIntToString(c.x);
    Decimal.ParseIntToString(c.z);
    CoordOfPair(Decimal.IntToString(c.x), Decimal.IntToString(c.z), c);
  }

  // ----------------------------------------------------------- bounds

  const MAX_INT: Int32 := 0x7fff_ffff
  const MIN_INT: Int32 := -0x8000_0000

  predicate IsMinX(points: set<Coord>, v: int)
  {
    (exists p :: p in points && p.x == v) && forall p :: p in points ==> v <= p.x
  }

  predicate IsMaxX(points: set<Coord>, v: int)
  {
    (exists p :: p in points && p.x == v) && forall p :: p in points ==> p.x <= v
  }

  predicate IsMinZ(points: set<Coord>, v: int)
  {
    (exists p :: p in points && p.z == v) && forall p :: p in points ==> v <= p.z
  }

  predicate IsMaxZ(points: set<Coord>, v: int)
  {
    (exists p :: p in points && p.z == v) && forall p :: p in points ==> p.z <= v
  }

  /** An extremum of a set of points is unique. */
  lemma ExtremaUnique(points: set<Coord>, u: int, v: int)
    ensures IsMinX(points, u) && IsMinX(points, v) ==> u == v
    ensures IsMaxX(points, u) && IsMaxX(points, v) ==> u == v
    ensures IsMinZ(points, u) && IsMinZ(points, v) ==> u == v
    ensures IsMaxZ(points, u) && IsMaxZ(points, v) ==> u == v
  {
  }

  /**
   * The smallest box holding every point added so far.  The ghost set
   * `points` is what has been added; the fields are its extrema, or the
   * Java initial values while nothing has been added.
   */
  class Bounds {
    var minX: Int32
    var maxX: Int32
    var minZ: Int32
    var maxZ: Int32
    var noData: bool
    ghost var points: set<Coord>

    ghost predicate Valid()
      reads this
    {
      (noData <==> points == {}) &&
      (noData ==> minX == MAX_INT && maxX == MIN_INT && minZ == MAX_INT && maxZ == MIN_INT) &&
      (!noData ==> IsMinX(points, minX) && IsMaxX(points, maxX) && IsMinZ(points, minZ) && IsMaxZ(points, maxZ))
    }

    constructor()
      ensures Valid() && points == {}
    {
      minX, maxX, minZ, maxZ := MAX_INT, MIN_INT, MAX_INT, MIN_INT;
      noData := true;
      points := {};
    }

    /** `add(x, z)` and `add(coord)`: widen the box to take in the point. */
    method Add(c: Coord)
      requires Valid()
      modifies this
      ensures Valid() && points == old(points) + {c}
    {
      noData := false;
      if c.x < minX {
        minX := c.x;
      }
      if c.x > maxX {
        maxX := c.x;
      }
      if c.z < minZ {
        minZ := c.z;
      }
      if c.z > maxZ {
        maxZ := c.z;
      }
      points := points + {c};
    }

    /** `minX()`: the least x added, or 0 before any add. */
    function MinX(): (v: Int32)
      requires Valid()
      reads this
      ensures points == {} ==> v == 0
      ensures points != {} ==> IsMinX(points, v)
    {
      if noData then 0 else minX
    }

    /** `maxX()`: the greatest x added, or 0 before any add. */
    function MaxX(): (v: Int32)
      requires Valid()
      reads this
      ensures points == {} ==> v == 0
      ensures points != {} ==> IsMaxX(points, v)
    {
      if noData then 0 else maxX
    }

    /** `minZ()`: the least z added, or 0 before any add. */
    function MinZ(): (v: Int32)
      requires Valid()
      reads this
      ensures points == {} ==> v == 0
      ensures points != {} ==> IsMinZ(points, v)
    {
      if noData then 0 else minZ
    }

    /** `maxZ()`: the greatest z added, or 0 before any add. */
    function MaxZ(): (v: Int32)
      requires Valid()
      reads this
      ensures points == {} ==> v == 0
      ensures points != {} ==> IsMaxZ(points, v)
    {
      if noData then 0 else maxZ
    }

    /** `nx()`: the number of x values the box spans (32-bit), or 0 before any add. */
    function Nx(): (n: Int32)
      requires Valid()
      reads this
      ensures points == {} ==> n == 0
      ensures points != {} && IsInt32(MaxX() - MinX() + 1) ==>
        n >= 1 && forall p :: p in points ==> MinX() <= p.x < MinX() + n
    {
      if noData then 0 else ToInt32(maxX - minX + 1)
    }

    /** `nz()`: the number of z values the box spans (32-bit), or 0 before any add. */
    function Nz(): (n: Int32)
      requires Valid()
      reads this
      ensures points == {} ==> n == 0
      ensures points != {} && IsInt32(MaxZ() - MinZ() + 1) ==>
        n >= 1 && forall p :: p in points ==> MinZ() <= p.z < MinZ() + n
    {
      if noData then 0 else ToInt32(maxZ - minZ + 1)
    }

    /** `maxDim()`: the larger of the two spans. */
    function MaxDim(): (d: Int32)
      requires Valid()
      reads this
      ensures d == Nx() || d == Nz()
      ensures d >= Nx() && d >= Nz()
    {
      if noData then 0 else if Nx() > Nz() then Nx() else Nz()
    }
  }

  /**
   * Everything a `Bounds` reports depends only on the set of points added, so
   * neither the order of the adds nor repeated adds of a point matter.
   */
  lemma BoundsDependOnPointsOnly(b1: Bounds, b2: Bounds)
    requires b1.Valid() && b2.Valid() && b1.points == b2.points
    ensures b1.MinX() == b2.MinX() && b1.MaxX() == b2.MaxX()
    ensures b1.MinZ() == b2.MinZ() && b1.MaxZ() == b2.MaxZ()
    ensures b1.Nx() == b2.Nx() && b1.Nz() == b2.Nz() && b1.MaxDim() == b2.MaxDim()
  {
    ExtremaUnique(b1.points, b1.MinX(), b2.MinX());
    ExtremaUnique(b1.points, b1.MaxX(), b2.MaxX());
    ExtremaUnique(b1.points, b1.MinZ(), b2.MinZ());
    ExtremaUnique(b1.points, b1.MaxZ(), b2.MaxZ());
  }
}
