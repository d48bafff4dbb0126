/**
 * Validated identifiers of blocks and biomes.  A block is named by an id in
 * 0..4095 and a data value in 0..15, or -1 for "not applicable"; a biome by an
 * id in 0..255.
 */
module Ids {
  import opened Wrappers
  import opened JavaInts
  import Decimal
  import StringUtils

  const DV_NA: int := -1
  const MAX_BLOCK_ID: int := 4095
  const MAX_DV: int := 15
  const MAX_BIOME_ID: int := 255

  predicate ValidBlockId(id: int, dv: int)
  {
    0 <= id <= MAX_BLOCK_ID && DV_NA <= dv <= MAX_DV
  }

  /** A block id; only `NewBlockId` makes one, so both fields are in range. */
  datatype BlockId = BlockId(id: int, dv: int)

  /** `new BlockId(id, dv)`: out-of-range values raise IllegalArgumentException. */
  function NewBlockId(id: Int32, dv: Int32): (r: Result<BlockId>)
    ensures r.Success? <==> ValidBlockId(id, dv)
    ensures r.Success? ==> r.value.id == id && r.value.dv == dv
    ensures r.Failure? ==> r.error.IllegalArgument?
  {
    if id < 0 || id > MAX_BLOCK_ID || dv < DV_NA || dv > MAX_DV then
      Failure(IllegalArgument("Out of bounds: " + Decimal.IntToString(id) + ":" + Decimal.IntToString(dv)))
    else Success(BlockId(id, dv))
  }

  /** The low byte of the data value, as `dv & 0xff` gives it: 255 for "not applicable". */
  function DvByte(dv: int): (b: int)
    requires DV_NA <= dv <= MAX_DV
    ensures 0 <= b < 256
    ensures dv == DV_NA ==> b == 255
    ensures dv >= 0 ==> b == dv
  {
    dv % 256
  }

  /** `hashCode()`: `(id << 8) | (dv & 0xff)`. */
  function BlockHash(b: BlockId): (h: int)
    requires ValidBlockId(b.id, b.dv)
    ensures 0 <= h < 0x10_0000
    ensures h / 256 == b.id && h % 256 == DvByte(b.dv)
  {
    b.id * 256 + DvByte(b.dv)
  }

  /** Valid block ids with equal hashes are equal. */
  lemma BlockHashInjective(a: BlockId, b: BlockId)
    requires ValidBlockId(a.id, a.dv) && ValidBlockId(b.id, b.dv)
    ensures BlockHash(a) == BlockHash(b) <==> a == b
  {
  }

  /** `compareTo`: the difference of the hashes. */
  function BlockCompare(a: BlockId, b: BlockId): (c: int)
    requires ValidBlockId(a.id, a.dv) && ValidBlockId(b.id, b.dv)
    ensures c < 0 <==> a.id < b.id || (a.id == b.id && DvRank(a.dv) < DvRank(b.dv))
    ensures c == 0 <==> a == b
  {
    BlockHash(a) - BlockHash(b)
  }

  /** Where a data value sorts: 0..15 in order, "not applicable" after 15. */
  function DvRank(dv: int): int
  {
    if dv == DV_NA then 16 else dv
  }

  /** The comparison is antisymmetric. */
  lemma BlockCompareAntisymmetric(a: BlockId, b: BlockId)
    requires ValidBlockId(a.id, a.dv) && ValidBlockId(b.id, b.dv)
    ensures BlockCompare(a, b) == -BlockCompare(b, a)
  {
  }

  /**
   * `toString()`: `BlockId{0x<hex id>:<dv>}`, with `-` for "not applicable";
   * both parts read back.
   */
  function BlockIdString(b: BlockId): (s: string)
    requires ValidBlockId(b.id, b.dv)
    ensures var h := StringUtils.AsHexInt(b.id);
      |s| >= 11 + |h| && s[..8] == "BlockId{" && s[8 + |h|] == ':' && s[|s| - 1] == '}' &&
      StringUtils.Hex(s[8..8 + |h|]) == Success(b.id) &&
      (b.dv == DV_NA <==> s[9 + |h|..|s| - 1] == "-") &&
      (b.dv != DV_NA ==> Decimal.ParseInt(s[9 + |h|..|s| - 1]) == Success(b.dv))
  {
    var h := StringUtils.AsHexInt(b.id);
    StringUtils.HexOfAsHexInt(b.id);
    var d := if b.dv == DV_NA then "-" else Decimal.IntToString(b.dv);
    Decimal.ParseIntToString(b.dv);
    BlockTextParts(h, d);
    "BlockId{" + h + ":" + d + "}"
  }

  /** Where the hex and the data-value texts sit in `BlockId{<h>:<d>}`. */
  lemma BlockTextParts(h: string, d: string)
    requires |d| > 0
    ensures var s := "BlockId{" + h + ":" + d + "}";
      |s| == 10 + |h| + |d| && s[..8] == "BlockId{" && s[8 + |h|] == ':' && s[|s| - 1] == '}' &&
      s[8..8 + |h|] == h && s[9 + |h|..|s| - 1] == d
  {
    var s := "BlockId{" + h + ":" + d + "}";
    assert s[8..8 + |h|] == h;
    assert s[9 + |h|..|s| - 1] == d;
  }

  /** The two renderings the test suite spells out. */
  lemma BlockIdStringExamples()
    ensures BlockIdString(BlockId(3, -1)) == "BlockId{0x3:-}"
    ensures BlockIdString(BlockId(3, 15)) == "BlockId{0x3:15}"
  {
    BlockIdStringNotApplicable();
    BlockIdStringFifteen();
  }

  lemma BlockIdStringNotApplicable()
    ensures BlockIdString(BlockId(3, -1)) == "BlockId{0x3:-}"
  {
    HexThree();
  }

  lemma BlockIdStringFifteen()
    ensures BlockIdString(BlockId(3, 15)) == "BlockId{0x3:15}"
  {
    HexThree();
    FifteenText();
    assert BlockIdString(BlockId(3, 15)) == "BlockId{" + "0x3" + ":" + "15" + "}";
  }

  lemma FifteenText()
    ensures Decimal.IntToString(15) == "15"
  {
    assert Decimal.NatToString(1) == "1";
  }

  lemma HexThree()
    ensures StringUtils.AsHexInt(3) == "0x3"
  {
    assert StringUtils.HexDigits(3) == "3";
  }

  // ------------------------------------------------------------ biomes

  /** A biome id; only `NewBiomeId` makes one, so it is in 0..255. */
  datatype BiomeId = BiomeId(id: int)

  /** `new BiomeId(id)`: an id outside 0..255 raises IllegalArgumentException. */
  function NewBiomeId(id: Int32): (r: Result<BiomeId>)
    ensures r.Success? <==> 0 <= id <= MAX_BIOME_ID
    ensures r.Success? ==> r.value.id == id
    ensures r.Failure? ==> r.error.IllegalArgument?
  {
    if id < 0 || id > MAX_BIOME_ID then Failure(IllegalArgument("Out of bounds: " + Decimal.IntToString(id)))
    else Success(BiomeId(id))
  }

  /** `hashCode()` is the id itself; `compareTo` is the difference of the ids. */
  function BiomeHash(b: BiomeId): int { b.id }

  function BiomeCompare(a: BiomeId, b: BiomeId): (c: int)
    ensures c < 0 <==> a.id < b.id
    ensures c == 0 <==> a == b
    ensures c > 0 <==> a.id > b.id
  {
    a.id - b.id
  }

  /** Equal hashes mean equal biome ids. */
  lemma BiomeHashInjective(a: BiomeId, b: BiomeId)
    ensures BiomeHash(a) == BiomeHash(b) <==> a == b
  {
  }

  /** `toString()`: `BiomeId{0x<hex id>}`, whose hex text reads back as the id. */
  function BiomeIdString(b: BiomeId): (s: string)
    requires 0 <= b.id <= MAX_BIOME_ID
    ensures |s| > 9 && s[..8] == "BiomeId{" && s[|s| - 1] == '}' && StringUtils.Hex(s[8..|s| - 1]) == Success(b.id)
  {
    StringUtils.HexOfAsHexInt(b.id);
    var s := "BiomeId{" + StringUtils.AsHexInt(b.id) + "}";
    assert s[8..|s| - 1] == StringUtils.AsHexInt(b.id);
    s
  }

}
