/**
 * A chunk: sixteen vertical sections of 16x16x16 blocks each, decoded from
 * the section byte arrays, and the per-column surface colour and height
 * computed from them.
 */
module Chunks {
  import opened Wrappers
  import opened JavaInts
  import opened Colors
  import opened Ids
  import opened Materials
  import opened ColorTables
  import opened Voxels

  const NBLOCKS: int := 16
  const CUBE_16: int := 4096
  const NSECTIONS: int := 16

  /** `index(x, y, z)`: where block (x, y, z) of a section is stored. */
  function Index(x: int, y: int, z: int): int
  {
    y * NBLOCKS * NBLOCKS + z * NBLOCKS + x
  }

  /** Within a section the index is a bijection from 0..15 cubed onto 0..4095. */
  lemma IndexBijection(x: int, y: int, z: int)
    requires 0 <= x < 16 && 0 <= y < 16 && 0 <= z < 16
    ensures 0 <= Index(x, y, z) < CUBE_16
    ensures Index(x, y, z) % 16 == x && (Index(x, y, z) / 16) % 16 == z && Index(x, y, z) / 256 == y
  {
    var i := Index(x, y, z);
    assert i == (y * 16 + z) * 16 + x;
    assert i / 16 == y * 16 + z;
  }

  /** The index of a block of a section lies in the section's array. */
  lemma IndexInRange(x: int, y: int, z: int)
    requires 0 <= x < 16 && 0 <= y < 16 && 0 <= z < 16
    ensures 0 <= Index(x, y, z) < CUBE_16
  {
  }

  lemma IndexOnto(i: int)
    requires 0 <= i < CUBE_16
    ensures Index(i % 16, i / 256, (i / 16) % 16) == i
  {
    var a, q := i % 16, i / 16;
    var b, c := q % 16, q / 16;
    assert i == 16 * q + a;
    assert q == 16 * c + b;
    assert i == 256 * c + 16 * b + a;
    assert i / 256 == c;
  }

  /**
   * `nybble(arr, i)`: byte `i / 2`, shifted right by 4 (as a signed byte) when
   * `i` is odd, then masked to 4 bits: the low nibble for even `i`, the high
   * one for odd `i`.
   */
  function Nybble(arr: seq<JByte>, i: nat): (n: int)
    requires i / 2 < |arr|
    ensures 0 <= n < 16
    ensures i % 2 == 0 ==> n == UnsignedByte(arr[i / 2]) % 16
    ensures i % 2 == 1 ==> n == UnsignedByte(arr[i / 2]) / 16
  {
    var b: int := arr[i / 2];
    var shifted := if i % 2 == 1 then b / 16 else b;
    shifted % 16
  }

  /** A byte packed as `lo | hi << 4` gives back `lo` at the even index and `hi` at the odd one. */
  lemma NybblePacking(arr: seq<JByte>, k: nat, lo: int, hi: int)
    requires 0 <= lo < 16 && 0 <= hi < 16 && k < |arr|
    requires arr[k] == ToJByte(lo + 16 * hi)
    ensures Nybble(arr, 2 * k) == lo && Nybble(arr, 2 * k + 1) == hi
  {
    assert UnsignedByte(arr[k]) == lo + 16 * hi;
  }

  /** The 12-bit block id at index `i`: the unsigned low byte, and the Add nibble as bits 8..11. */
  function SectionId(idsLow: seq<JByte>, add: Option<seq<JByte>>, i: nat): (id: int)
    requires i < |idsLow| && (add.Some? ==> i / 2 < |add.value|)
    ensures 0 <= id < CUBE_16
    ensures id % 256 == UnsignedByte(idsLow[i])
    ensures add.None? ==> id < 256
    ensures add.Some? ==> id / 256 == Nybble(add.value, i)
  {
    UnsignedByte(idsLow[i]) + (if add.Some? then Nybble(add.value, i) * 256 else 0)
  }

  /** The arrays hold entry `i`. */
  predicate InRange(idsLow: seq<JByte>, add: Option<seq<JByte>>, data: seq<JByte>, biomeData: Option<seq<JByte>>, i: nat)
  {
    i < |idsLow| && (add.Some? ==> i / 2 < |add.value|) && i / 2 < |data| &&
    (biomeData.Some? ==> i % SQUARE_NBLOCKS < |biomeData.value|)
  }

  /** How many entries the arrays hold before the first one that is too short. */
  function Limit(idsLow: seq<JByte>, add: Option<seq<JByte>>, data: seq<JByte>, biomeData: Option<seq<JByte>>): (n: nat)
    ensures n <= CUBE_16
    ensures forall i: nat :: i < n ==> InRange(idsLow, add, data, biomeData, i)
    ensures n < CUBE_16 ==> !InRange(idsLow, add, data, biomeData, n)
  {
    var a := if add.Some? then 2 * |add.value| else CUBE_16;
    var b := if biomeData.Some? && |biomeData.value| < SQUARE_NBLOCKS then |biomeData.value| else CUBE_16;
    Min(Min(Min(Min(CUBE_16, |idsLow|), a), 2 * |data|), b)
  }

  /** Up to the limit, an index is in range exactly when it is below the limit. */
  lemma LimitFirstGap(idsLow: seq<JByte>, add: Option<seq<JByte>>, data: seq<JByte>, biomeData: Option<seq<JByte>>, i: nat)
    requires i < CUBE_16 && i <= Limit(idsLow, add, data, biomeData)
    ensures InRange(idsLow, add, data, biomeData, i) <==> i < Limit(idsLow, add, data, biomeData)
  {
  }

  function Min(a: int, b: int): int { if a < b then a else b }

  /** The key block `i` is looked up under. */
  function EntryKey(idsLow: seq<JByte>, add: Option<seq<JByte>>, data: seq<JByte>, biomeData: Option<seq<JByte>>, i: nat): BlockId
    requires InRange(idsLow, add, data, biomeData, i)
  {
    BlockId(SectionId(idsLow, add, i), Nybble(data, i))
  }

  /** The biome block `i` stands in. */
  function EntryBiome(biomes: BiomeColors, biomeData: Option<seq<JByte>>, i: nat): Biome
    requires biomeData.Some? ==> i % SQUARE_NBLOCKS < |biomeData.value|
  {
    if biomeData.None? then biomes.defaultBiome
    else Resolve(biomes.cache, biomes.defaultBiome, BiomeKey(biomeData.value, i))
  }

  /** What `process` stores at index `i`. */
  function Entry(blocks: BlockColors, biomes: BiomeColors, idsLow: seq<JByte>, add: Option<seq<JByte>>,
                 data: seq<JByte>, biomeData: Option<seq<JByte>>, i: nat): (bd: BlockData)
    requires InRange(idsLow, add, data, biomeData, i)
    ensures bd.computedColor == ComputeColor(bd.block, bd.biome)
  {
    var b := Resolve(blocks.cache, blocks.defaultBlock, EntryKey(idsLow, add, data, biomeData, i));
    var biome := EntryBiome(biomes, biomeData, i);
    BlockData(b, biome, ComputeColor(b, biome))
  }

  /** The first `n` entries `process` stores. */
  function Entries(blocks: BlockColors, biomes: BiomeColors, idsLow: seq<JByte>, add: Option<seq<JByte>>,
                   data: seq<JByte>, biomeData: Option<seq<JByte>>, n: nat): (es: seq<BlockData>)
    requires n <= Limit(idsLow, add, data, biomeData)
    ensures |es| == n
  {
    if n == 0 then [] else Entries(blocks, biomes, idsLow, add, data, biomeData, n - 1) + [Entry(blocks, biomes, idsLow, add, data, biomeData, n - 1)]
  }

  lemma {:induction false} EntriesAt(blocks: BlockColors, biomes: BiomeColors, idsLow: seq<JByte>, add: Option<seq<JByte>>,
                                     data: seq<JByte>, biomeData: Option<seq<JByte>>, n: nat)
    requires n <= Limit(idsLow, add, data, biomeData)
    ensures forall i: nat :: i < n ==>
      Entries(blocks, biomes, idsLow, add, data, biomeData, n)[i] == Entry(blocks, biomes, idsLow, add, data, biomeData, i)
  {
    if n > 0 {
      EntriesAt(blocks, biomes, idsLow, add, data, biomeData, n - 1);
    }
  }

  lemma {:induction false} EntriesColored(blocks: BlockColors, biomes: BiomeColors, idsLow: seq<JByte>, add: Option<seq<JByte>>,
                                          data: seq<JByte>, biomeData: Option<seq<JByte>>, n: nat)
    requires n <= Limit(idsLow, add, data, biomeData)
    ensures ComputedColors(Entries(blocks, biomes, idsLow, add, data, biomeData, n))
  {
    if n > 0 {
      EntriesColored(blocks, biomes, idsLow, add, data, biomeData, n - 1);
    }
  }

  /** The block keys of the first `n` entries that the table does not hold. */
  function MissedBlocks(blocks: BlockColors, idsLow: seq<JByte>, add: Option<seq<JByte>>, data: seq<JByte>,
                        biomeData: Option<seq<JByte>>, n: nat): set<BlockId>
  {
    set i: nat | i < n && InRange(idsLow, add, data, biomeData, i) &&
                 EntryKey(idsLow, add, data, biomeData, i) !in blocks.cache :: EntryKey(idsLow, add, data, biomeData, i)
  }

  /** The biome keys of the first `n` entries that the table does not hold. */
  function MissedBiomes(biomes: BiomeColors, biomeData: Option<seq<JByte>>, n: nat): set<BiomeId>
  {
    if biomeData.None? then {}
    else set i: nat | i < n && i % SQUARE_NBLOCKS < |biomeData.value| &&
                      BiomeKey(biomeData.value, i) !in biomes.cache :: BiomeKey(biomeData.value, i)
  }

  /** The highest y below `n` in column (x, z) whose block is fully opaque, or -1. */
  function TopOpaqueBelow(blocks: seq<BlockData>, x: int, z: int, n: int): (y: int)
    requires |blocks| == CUBE_16 && 0 <= x < 16 && 0 <= z < 16 && 0 <= n <= 16
    ensures -1 <= y < n
    ensures y >= 0 ==> blocks[Index(x, y, z)].IsFullyOpaque()
    ensures forall yy :: y < yy < n ==> !blocks[Index(x, yy, z)].IsFullyOpaque()
    decreases n
  {
    IndexInRange(x, if n > 0 then n - 1 else 0, z);
    if n == 0 then -1
    else if blocks[Index(x, n - 1, z)].IsFullyOpaque() then n - 1
    else TopOpaqueBelow(blocks, x, z, n - 1)
  }

  /** Every block's colour is the one computed from its table block and its biome. */
  predicate ComputedColors(bs: seq<BlockData>)
  {
    forall i {:trigger ComputeColor(bs[i].block, bs[i].biome)} :: 0 <= i < |bs| ==> bs[i].computedColor == ComputeColor(bs[i].block, bs[i].biome)
  }

  class ChunkSection {
    /** The entries, filled once by the constructor and only read after. */
    const blockData: seq<BlockData>

    constructor Init(blockData: seq<BlockData>)
      ensures this.blockData == blockData
    {
      this.blockData := blockData;
    }

    /**
     * `new ChunkSection(tag, biomeData)` over the decoded Blocks, Add and Data
     * arrays: entry `i` is the table block for the 12-bit id and data nibble
     * at `i`, in the biome for `i`.  An array too short for the entry being
     * filled raises ArrayIndexOutOfBoundsException; the lookups made before
     * that have already grown the tables' defaulted sets.
     */
    static method New(idsLow: seq<JByte>, add: Option<seq<JByte>>, data: seq<JByte>, biomeData: Option<seq<JByte>>,
                      blocks: BlockColors, biomes: BiomeColors) returns (r: Result<ChunkSection>)
      requires blocks.Valid()
      modifies blocks, biomes
      ensures r.Success? <==> Limit(idsLow, add, data, biomeData) == CUBE_16
      ensures r.Failure? ==> r.error == IndexOutOfBounds
      ensures r.Success? ==> fresh(r.value) && |r.value.blockData| == CUBE_16
      ensures r.Success? ==> forall i: nat :: i < CUBE_16 ==>
        r.value.blockData[i] == Entry(blocks, biomes, idsLow, add, data, biomeData, i)
      ensures r.Success? ==> ComputedColors(r.value.blockData)
      ensures blocks.defaulted ==
        old(blocks.defaulted) + MissedBlocks(blocks, idsLow, add, data, biomeData, Limit(idsLow, add, data, biomeData))
      ensures biomes.defaulted == old(biomes.defaulted) + MissedBiomes(biomes, biomeData, Limit(idsLow, add, data, biomeData))
    {
      var arr := new BlockData[CUBE_16](_ => BlockData(blocks.defaultBlock, biomes.defaultBiome, TRANSPARENT));
      var outcome := Process(arr, idsLow, add, data, biomeData, blocks, biomes);
      if outcome.Fail? {
        return Failure(outcome.error);
      }
      assert arr[..] == Entries(blocks, biomes, idsLow, add, data, biomeData, CUBE_16) by {
        assert arr[..] == arr[..CUBE_16];
      }
      EntriesColored(blocks, biomes, idsLow, add, data, biomeData, CUBE_16);
      EntriesAt(blocks, biomes, idsLow, add, data, biomeData, CUBE_16);
      var section := new ChunkSection.Init(arr[..]);
      return Success(section);
    }

    /** `blockAt(x, y, z)`: the entry at `index(x, y, z)`, which must lie in the array. */
    function BlockAt(x: int, y: int, z: int): (r: Result<BlockData>)
      requires |blockData| == CUBE_16
      ensures r.Success? <==> 0 <= Index(x, y, z) < CUBE_16
      ensures r.Success? ==> r.value == blockData[Index(x, y, z)]
    {
      var i := Index(x, y, z);
      if 0 <= i < CUBE_16 then Success(blockData[i]) else Failure(IndexOutOfBounds)
    }

    /** `highOpaque(x, z)`: the highest y in 0..15 whose block is fully opaque, or -1. */
    method HighOpaque(x: int, z: int) returns (y: int)
      requires |blockData| == CUBE_16 && 0 <= x < 16 && 0 <= z < 16
      ensures -1 <= y < 16
      ensures y >= 0 ==> blockData[Index(x, y, z)].IsFullyOpaque()
      ensures forall yy :: y < yy < 16 ==> !blockData[Index(x, yy, z)].IsFullyOpaque()
      ensures y == TopOpaqueBelow(blockData, x, z, 16)
    {
      y := NBLOCKS - 1;
      while y >= 0
        invariant -1 <= y < 16
        invariant TopOpaqueBelow(blockData, x, z, 16) == TopOpaqueBelow(blockData, x, z, y + 1)
      {
        IndexInRange(x, y, z);
        var block := BlockAt(x, y, z);
        if block.value.IsFullyOpaque() {
          return y;
        }
        y := y - 1;
      }
      return -1;
    }
  }

  /**
   * The first `n` entries of `arr` are those `process` stores, and the tables'
   * defaulted sets have grown, from `blocks0` and `biomes0`, by the keys of
   * those entries they do not hold.
   */
  ghost predicate Filled(arr: array<BlockData>, idsLow: seq<JByte>, add: Option<seq<JByte>>, data: seq<JByte>,
                         biomeData: Option<seq<JByte>>, blocks: BlockColors, biomes: BiomeColors,
                         blocks0: set<BlockId>, biomes0: set<BiomeId>, n: nat)
    reads arr, blocks, biomes
  {
    n <= Limit(idsLow, add, data, biomeData) && n <= arr.Length &&
    arr[..n] == Entries(blocks, biomes, idsLow, add, data, biomeData, n) &&
    blocks.defaulted == blocks0 + MissedBlocks(blocks, idsLow, add, data, biomeData, n) &&
    biomes.defaulted == biomes0 + MissedBiomes(biomes, biomeData, n)
  }

  /**
   * `process`: fills the section's array entry by entry; the first entry one
   * of the byte arrays is too short for stops it with
   * ArrayIndexOutOfBoundsException, the entries before it already stored.
   */
  method Process(arr: array<BlockData>, idsLow: seq<JByte>, add: Option<seq<JByte>>, data: seq<JByte>,
                 biomeData: Option<seq<JByte>>, blocks: BlockColors, biomes: BiomeColors) returns (o: Outcome)
    requires arr.Length == CUBE_16 && blocks.Valid()
    modifies arr, blocks, biomes
    ensures o.Pass? <==> Limit(idsLow, add, data, biomeData) == CUBE_16
    ensures o.Fail? ==> o.error == IndexOutOfBounds
    ensures Filled(arr, idsLow, add, data, biomeData, blocks, biomes, old(blocks.defaulted), old(biomes.defaulted),
                   Limit(idsLow, add, data, biomeData))
  {
    var index := 0;
    while index < CUBE_16
      invariant blocks.Valid()
      invariant Filled(arr, idsLow, add, data, biomeData, blocks, biomes, old(blocks.defaulted), old(biomes.defaulted), index)
    {
      o := FillEntry(arr, idsLow, add, data, biomeData, blocks, biomes, old(blocks.defaulted), old(biomes.defaulted), index);
      if o.Fail? {
        return;
      }
      index := index + 1;
    }
    return Pass;
  }

  /** One pass of the loop in `process`: the entry at `index` decoded and stored. */
  method FillEntry(arr: array<BlockData>, idsLow: seq<JByte>, add: Option<seq<JByte>>, data: seq<JByte>,
                   biomeData: Option<seq<JByte>>, blocks: BlockColors, biomes: BiomeColors,
                   ghost blocks0: set<BlockId>, ghost biomes0: set<BiomeId>, index: nat) returns (o: Outcome)
    requires arr.Length == CUBE_16 && index < CUBE_16 && blocks.Valid()
    requires Filled(arr, idsLow, add, data, biomeData, blocks, biomes, blocks0, biomes0, index)
    modifies arr, blocks, biomes
    ensures blocks.Valid()
    ensures o.Pass? <==> index < Limit(idsLow, add, data, biomeData)
    ensures o.Fail? ==> o.error == IndexOutOfBounds && index == Limit(idsLow, add, data, biomeData)
    ensures o.Pass? ==> Filled(arr, idsLow, add, data, biomeData, blocks, biomes, blocks0, biomes0, index + 1)
    ensures o.Fail? ==> Filled(arr, idsLow, add, data, biomeData, blocks, biomes, blocks0, biomes0, index)
  {
    ghost var blocksBefore, biomesBefore := blocks.defaulted, biomes.defaulted;
    var bd := DecodeEntry(idsLow, add, data, biomeData, blocks, biomes, index);
    LimitFirstGap(idsLow, add, data, biomeData, index);
    if bd.Failure? {
      return Fail(bd.error);
    }
    ghost var done := arr[..index];
    arr[index] := bd.value;
    assert arr[..index + 1] == done + [bd.value];
    assert Entries(blocks, biomes, idsLow, add, data, biomeData, index + 1) ==
      done + [Entry(blocks, biomes, idsLow, add, data, biomeData, index)];
    GrowMissed(blocks, biomes, idsLow, add, data, biomeData, index, blocks0, blocksBefore, blocks.defaulted,
               biomes0, biomesBefore, biomes.defaulted);
    return Pass;
  }

  /**
   * One pass of the loop in `process`: the 12-bit id from the Blocks and Add
   * arrays, the data nibble, the biome, then the table block.  The first array
   * too short for index `index` raises ArrayIndexOutOfBoundsException before
   * any lookup is made.
   */
  method DecodeEntry(idsLow: seq<JByte>, add: Option<seq<JByte>>, data: seq<JByte>, biomeData: Option<seq<JByte>>,
                     blocks: BlockColors, biomes: BiomeColors, index: nat) returns (r: Result<BlockData>)
    requires blocks.Valid()
    modifies blocks, biomes
    ensures r.Success? <==> InRange(idsLow, add, data, biomeData, index)
    ensures r.Failure? ==> r.error == IndexOutOfBounds
    ensures r.Failure? ==> blocks.defaulted == old(blocks.defaulted) && biomes.defaulted == old(biomes.defaulted)
    ensures r.Success? ==> r.value == Entry(blocks, biomes, idsLow, add, data, biomeData, index)
    ensures r.Success? ==> var k := EntryKey(idsLow, add, data, biomeData, index);
      blocks.defaulted == old(blocks.defaulted) + (if k in blocks.cache then {} else {k})
    ensures r.Success? && biomeData.Some? ==> var k := BiomeKey(biomeData.value, index);
      biomes.defaulted == old(biomes.defaulted) + (if k in biomes.cache then {} else {k})
    ensures r.Success? && biomeData.None? ==> biomes.defaulted == old(biomes.defaulted)
  {
    if index >= |idsLow| {
      return Failure(IndexOutOfBounds);
    }
    var blockId := UnsignedByte(idsLow[index]);
    if add.Some? {
      if index / 2 >= |add.value| {
        return Failure(IndexOutOfBounds);
      }
      blockId := blockId + Nybble(add.value, index) * 256;
    }
    if index / 2 >= |data| {
      return Failure(IndexOutOfBounds);
    }
    var datum := Nybble(data, index);
    var biome := BiomeAt(biomeData, index, biomes);
    if biome.Failure? {
      return Failure(biome.error);
    }
    assert blockId == SectionId(idsLow, add, index);
    r := NewBlockData(blocks, blockId, datum, biome.value);
  }

  /** The defaulted sets, as `DecodeEntry` grows them, keep up with the missed sets. */
  lemma GrowMissed(blocks: BlockColors, biomes: BiomeColors, idsLow: seq<JByte>, add: Option<seq<JByte>>,
                   data: seq<JByte>, biomeData: Option<seq<JByte>>, index: nat,
                   blocks0: set<BlockId>, blocksBefore: set<BlockId>, blocksAfter: set<BlockId>,
                   biomes0: set<BiomeId>, biomesBefore: set<BiomeId>, biomesAfter: set<BiomeId>)
    requires InRange(idsLow, add, data, biomeData, index)
    requires blocksBefore == blocks0 + MissedBlocks(blocks, idsLow, add, data, biomeData, index)
    requires var k := EntryKey(idsLow, add, data, biomeData, index);
      blocksAfter == blocksBefore + (if k in blocks.cache then {} else {k})
    requires biomesBefore == biomes0 + MissedBiomes(biomes, biomeData, index)
    requires biomeData.Some? ==> var k := BiomeKey(biomeData.value, index);
      biomesAfter == biomesBefore + (if k in biomes.cache then {} else {k})
    requires biomeData.None? ==> biomesAfter == biomesBefore
    ensures blocksAfter == blocks0 + MissedBlocks(blocks, idsLow, add, data, biomeData, index + 1)
    ensures biomesAfter == biomes0 + MissedBiomes(biomes, biomeData, index + 1)
  {
    MissedStep(blocks, biomes, idsLow, add, data, biomeData, index);
  }

  /** One step of `process` adds at most entry `index`'s keys to the missed sets. */
  lemma MissedStep(blocks: BlockColors, biomes: BiomeColors, idsLow: seq<JByte>, add: Option<seq<JByte>>,
                   data: seq<JByte>, biomeData: Option<seq<JByte>>, index: nat)
    requires InRange(idsLow, add, data, biomeData, index)
    ensures var k := EntryKey(idsLow, add, data, biomeData, index);
      MissedBlocks(blocks, idsLow, add, data, biomeData, index + 1) ==
      MissedBlocks(blocks, idsLow, add, data, biomeData, index) + (if k in blocks.cache then {} else {k})
    ensures biomeData.Some? ==> var k := BiomeKey(biomeData.value, index);
      MissedBiomes(biomes, biomeData, index + 1) ==
      MissedBiomes(biomes, biomeData, index) + (if k in biomes.cache then {} else {k})
    ensures biomeData.None? ==> MissedBiomes(biomes, biomeData, index + 1) == MissedBiomes(biomes, biomeData, index)
  {
  }
}
