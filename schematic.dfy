/**
 * The text schematics that `QuadData` and `QdLvl` draw: one line per row of
 * a square grid, two characters per cell (` .` empty, ` #` present, ` O`
 * the origin), each line ended by a newline.
 */
module Schematics {
  import opened JavaInts
  import opened Geometry

  /**
   * What a schematic is drawn from: the occupied coordinates, each marked
   * with whether it is the origin, and the calibration added to a grid
   * position (x, z) to find its coordinate.
   */
  datatype Frame = Frame(marks: map<Coord, bool>, xcc: Int32, zcc: Int32)

  /** The cell of an empty, an origin and any other occupied position. */
  function Mark(present: bool, origin: bool): (cell: string)
    ensures |cell| == 2 && cell[0] == ' '
    ensures cell[1] == '.' <==> !present
    ensures cell[1] == 'O' <==> present && origin
  {
    if !present then " ." else if origin then " O" else " #"
  }

  /** The coordinate that grid position (x, z) shows: shifted by the calibration, in 32-bit arithmetic. */
  function CoordAt(f: Frame, x: int, z: int): Coord
  {
    Coord(ToInt32(x + f.xcc as int), ToInt32(z + f.zcc as int))
  }

  /** The cell of grid position (x, z). */
  function Cell(f: Frame, x: int, z: int): (cell: string)
    ensures |cell| == 2
  {
    var c := CoordAt(f, x, z);
    Mark(c in f.marks, c in f.marks && f.marks[c])
  }

  /** The first `n` cells of row `z`. */
  function Row(f: Frame, z: int, n: nat): string
  {
    if n == 0 then "" else Row(f, z, n - 1) + Cell(f, n - 1, z)
  }

  /** The first `n` rows of a `dim`-wide schematic, each ended by a newline. */
  function Rows(f: Frame, dim: nat, n: nat): string
  {
    if n == 0 then "" else Rows(f, dim, n - 1) + Row(f, n - 1, dim) + "\n"
  }

  lemma {:induction false} RowLayout(f: Frame, z: int, n: nat, x: int)
    ensures |Row(f, z, n)| == 2 * n
    ensures 0 <= x < n ==> Row(f, z, n)[2 * x..2 * x + 2] == Cell(f, x, z)
    decreases n
  {
    if n > 0 {
      RowLayout(f, z, n - 1, x);
      var prev := Row(f, z, n - 1);
      assert Row(f, z, n) == prev + Cell(f, n - 1, z);
      if 0 <= x < n - 1 {
        SliceLeft(prev, Cell(f, n - 1, z), 2 * x, 2 * x + 2);
      }
    }
  }

  lemma {:induction false} RowsLength(f: Frame, dim: nat, n: nat)
    ensures |Rows(f, dim, n)| == n * (2 * dim + 1)
    decreases n
  {
    if n > 0 {
      RowsLength(f, dim, n - 1);
      RowLayout(f, n - 1, dim, 0);
      assert (n - 1) * (2 * dim + 1) + (2 * dim + 1) == n * (2 * dim + 1);
    }
  }

  lemma {:induction false} RowsPrefix(f: Frame, dim: nat, k: nat, n: nat)
    requires k <= n
    ensures |Rows(f, dim, k)| <= |Rows(f, dim, n)|
    ensures Rows(f, dim, n)[..|Rows(f, dim, k)|] == Rows(f, dim, k)
    decreases n - k
  {
    if k < n {
      RowsPrefix(f, dim, k, n - 1);
      var prev := Rows(f, dim, n - 1);
      assert Rows(f, dim, n) == prev + Row(f, n - 1, dim) + "\n";
      assert Rows(f, dim, n)[..|prev|] == prev;
    }
  }

  /**
   * Line `z` of a `dim`-wide schematic is row `z` followed by a newline; it
   * starts after the `z` lines before it (`z (2 dim + 1)` characters, by
   * `RowsLength`), and the row is `2 dim` characters with the cell of quad
   * position (x, z) at column `2 x` (`RowLayout`).
   */
  lemma SchematicLines(f: Frame, dim: nat, z: nat)
    requires z < dim
    ensures |Rows(f, dim, z)| + |Row(f, z, dim)| + 1 <= |Rows(f, dim, dim)|
    ensures Rows(f, dim, dim)[|Rows(f, dim, z)|..|Rows(f, dim, z)| + |Row(f, z, dim)| + 1] == Row(f, z, dim) + "\n"
  {
    RowsPrefix(f, dim, z + 1, dim);
    RowsStep(f, dim, z);
    LineWithin(Rows(f, dim, dim), Rows(f, dim, z), Row(f, z, dim), Rows(f, dim, z + 1));
  }

  lemma RowsStep(f: Frame, dim: nat, n: nat)
    ensures Rows(f, dim, n + 1) == Rows(f, dim, n) + Row(f, n, dim) + "\n"
  {
  }

  /** A line that a prefix of `s` ends with sits in `s` at the same place. */
  lemma LineWithin(s: string, before: string, row: string, line: string)
    requires line == before + row + "\n"
    requires |line| <= |s| && s[..|line|] == line
    ensures |before| + |row| + 1 <= |s|
    ensures s[|before|..|before| + |row| + 1] == row + "\n"
  {
    assert s[|before|..|line|] == line[|before|..|line|];
  }

  lemma SliceLeft(a: string, b: string, i: int, j: int)
    requires 0 <= i <= j <= |a|
    ensures (a + b)[i..j] == a[i..j]
  {
  }
}
