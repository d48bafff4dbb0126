/**
 * One block of a chunk as the renderer sees it (`BlockData`): the table
 * block, the biome it stands in and the colour computed from the two; and
 * the per-chunk biome array (`ChunkBiomeData`).  Both look their entries up
 * in the colour tables, which is why building them can grow a table's
 * defaulted set.
 */
module Voxels {
  import opened Wrappers
  import opened JavaInts
  import opened Colors
  import opened Ids
  import opened Materials
  import opened ColorTables

  /** Alpha at or above which a block counts as opaque enough to raise the height marker. */
  const SHADE_OPACITY_CUTOFF: int := 0x20

  /** What a table lookup returns: the indexed entry, or the default. */
  function Resolve<K, V>(cache: map<K, V>, default: V, k: K): (b: V)
    ensures k in cache ==> b == cache[k]
    ensures k !in cache ==> b == default
  {
    if k in cache then cache[k] else default
  }

  datatype BlockData = BlockData(block: Block, biome: Biome, computedColor: Color)
  {
    /** `isFullyOpaque()`: the table block's opacity. */
    predicate IsFullyOpaque() { block.IsFullyOpaque() }

    /** `opaqueEnough()`: the computed colour's alpha reaches the cutoff. */
    predicate OpaqueEnough() { computedColor.alpha >= SHADE_OPACITY_CUTOFF }
  }

  /** `computeColor()`: the table colour tinted by the biome's colour for the block's influence. */
  function ComputeColor(block: Block, biome: Biome): (c: Color)
    ensures c.alpha == block.ColorOf().alpha
    ensures block.record.influence == NONE ==> c == block.ColorOf()
  {
    NoInfluenceKeepsColor(biome, block.ColorOf());
    MultiplySolid(block.ColorOf(), Influence(biome, block.record.influence))
  }

  /** A block whose colour was computed is opaque enough whenever its table block is fully opaque. */
  lemma FullyOpaqueIsOpaqueEnough(bd: BlockData)
    requires bd.computedColor == ComputeColor(bd.block, bd.biome)
    requires bd.IsFullyOpaque()
    ensures bd.OpaqueEnough()
  {
  }

  /** The key `new BlockData(id, data, biome)` looks up: the data byte read unsigned. */
  function DataKey(id: Short, data: JByte): BlockId
  {
    BlockId(id, UnsignedByte(data))
  }

  /**
   * `new BlockData(id, data, biome)`: the block the table gives for
   * `(id, data & 0xff)` and its computed colour; an id the table refuses
   * raises IllegalArgumentException.
   */
  method NewBlockData(blocks: BlockColors, id: Short, data: JByte, biome: Biome) returns (r: Result<BlockData>)
    requires blocks.Valid()
    modifies blocks
    ensures r.Success? <==> ValidBlockId(id, UnsignedByte(data))
    ensures r.Success? ==>
      var b := Resolve(blocks.cache, blocks.defaultBlock, DataKey(id, data));
      r.value == BlockData(b, biome, ComputeColor(b, biome))
    ensures r.Success? && DataKey(id, data) !in blocks.cache ==> blocks.defaulted == old(blocks.defaulted) + {DataKey(id, data)}
    ensures r.Failure? || DataKey(id, data) in blocks.cache ==> blocks.defaulted == old(blocks.defaulted)
  {
    var dv := UnsignedByte(data);
    var block := blocks.GetBlock(id, dv);
    if block.Failure? {
      return Failure(block.error);
    }
    return Success(BlockData(block.value, biome, ComputeColor(block.value, biome)));
  }

  /** The key the air block is looked up under: `getBlock(0)`, that is id 0, data value 0. */
  const AIR_KEY: BlockId := BlockId(0, 0)

  /** `new BlockData()`: the air block, with the default biome and a transparent colour. */
  method AirBlockData(blocks: BlockColors, biomes: BiomeColors) returns (r: BlockData)
    requires blocks.Valid()
    modifies blocks
    ensures r == BlockData(Resolve(blocks.cache, blocks.defaultBlock, AIR_KEY), biomes.defaultBiome, TRANSPARENT)
    ensures blocks.defaulted == old(blocks.defaulted) + (if AIR_KEY in blocks.cache then {} else {AIR_KEY})
  {
    var block := blocks.GetBlockOfId(0);
    r := BlockData(block.value, biomes.defaultBiome, TRANSPARENT);
  }

  /** The air block is never opaque enough: its colour is transparent whatever the table says. */
  lemma AirNotOpaqueEnough(blocks: BlockColors, biomes: BiomeColors)
    ensures !BlockData(Resolve(blocks.cache, blocks.defaultBlock, AIR_KEY), biomes.defaultBiome, TRANSPARENT).OpaqueEnough()
  {
  }

  // ------------------------------------------------------ biome data

  const SQUARE_NBLOCKS: int := 256

  /** The biome id `biomeAt(i)` looks up: the byte at `i % 256`, read unsigned. */
  function BiomeKey(data: seq<JByte>, i: int): (k: BiomeId)
    requires 0 <= i && i % SQUARE_NBLOCKS < |data|
    ensures 0 <= k.id < 256
  {
    BiomeId(UnsignedByte(data[i % SQUARE_NBLOCKS]))
  }

  /** Blocks in the same column, that is indices a multiple of 256 apart, share their biome. */
  lemma BiomeKeyPerColumn(data: seq<JByte>, i: nat, k: nat)
    requires |data| >= SQUARE_NBLOCKS
    ensures BiomeKey(data, i) == BiomeKey(data, i + SQUARE_NBLOCKS * k)
  {
    assert (i + SQUARE_NBLOCKS * k) % SQUARE_NBLOCKS == i % SQUARE_NBLOCKS;
  }

  /**
   * `biomeAt(i)` for a non-negative index: with no biome array, the default
   * biome; otherwise the table's biome for byte `i % 256`, which fails when
   * the array is shorter than that.
   */
  method BiomeAt(biomeData: Option<seq<JByte>>, i: nat, biomes: BiomeColors) returns (r: Result<Biome>)
    modifies biomes
    ensures biomeData.None? ==> r == Success(biomes.defaultBiome) && biomes.defaulted == old(biomes.defaulted)
    ensures biomeData.Some? ==> (r.Success? <==> i % SQUARE_NBLOCKS < |biomeData.value|)
    ensures r.Failure? ==> r.error == IndexOutOfBounds && biomes.defaulted == old(biomes.defaulted)
    ensures biomeData.Some? && r.Success? ==>
      var k := BiomeKey(biomeData.value, i);
      r.value == Resolve(biomes.cache, biomes.defaultBiome, k) &&
      biomes.defaulted == old(biomes.defaulted) + (if k in biomes.cache then {} else {k})
  {
    if biomeData.None? {
      return Success(biomes.defaultBiome);
    }
    var xz := i % SQUARE_NBLOCKS;
    if xz >= |biomeData.value| {
      return Failure(IndexOutOfBounds);
    }
    r := biomes.GetBiome(UnsignedByte(biomeData.value[xz]));
  }
}
