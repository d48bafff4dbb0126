/**
 * The block and biome colour tables.  Each is built once from a list of
 * records; afterwards a lookup either finds an entry or falls back to the
 * table's default, recording the missed id in the table's `defaulted` set,
 * which is the only part of a table that changes after construction.
 */
module ColorTables {
  import opened Wrappers
  import opened JavaInts
  import opened Ids
  import opened Materials

  const NO_DEFAULT_BLOCK: string := "No default block record found"
  const NO_DEFAULT_BIOME: string := "No default biome record found"

  /** What the record parser guarantees: every block id present is in range. */
  predicate ValidBlockRecords(records: seq<BlockRecord>)
  {
    forall i :: 0 <= i < |records| && records[i].blockId.Some? ==>
      ValidBlockId(records[i].blockId.value.id, records[i].blockId.value.dv)
  }

  /** The last record without a block id: the one that becomes the default. */
  function LastDefault(records: seq<BlockRecord>): (r: Option<BlockRecord>)
    ensures r.Some? ==> r.value in records && r.value.blockId.None?
    ensures r.None? ==> forall i :: 0 <= i < |records| ==> records[i].blockId.Some?
  {
    if records == [] then None
    else if records[|records| - 1].blockId.None? then Some(records[|records| - 1])
    else LastDefault(records[..|records| - 1])
  }

  /** `replicateIds` and `indexUnder`: `b` stored under `(id, dv)` for dv = 0 .. n-1. */
  function Replicate(m: map<BlockId, Block>, id: int, b: Block, n: nat): map<BlockId, Block>
  {
    if n == 0 then m else Replicate(m, id, b, n - 1)[BlockId(id, n - 1) := b]
  }

  lemma {:induction false} ReplicateContents(m: map<BlockId, Block>, id: int, b: Block, n: nat, k: BlockId)
    ensures k in Replicate(m, id, b, n) <==> k in m || (k.id == id && 0 <= k.dv < n)
    ensures k.id == id && 0 <= k.dv < n ==> Replicate(m, id, b, n)[k] == b
    ensures !(k.id == id && 0 <= k.dv < n) && k in m ==> Replicate(m, id, b, n)[k] == m[k]
  {
    if n > 0 {
      ReplicateContents(m, id, b, n - 1, k);
    }
  }

  /** `indexBlock`: one record's entries; "not applicable" is replicated over all sixteen data values. */
  function IndexRecord(m: map<BlockId, Block>, r: BlockRecord): map<BlockId, Block>
  {
    if r.blockId.None? then m
    else if r.blockId.value.dv == DV_NA then Replicate(m, r.blockId.value.id, Block(r), 16)
    else m[r.blockId.value := Block(r)]
  }

  /** The block cache after indexing the records in order. */
  function IndexAll(records: seq<BlockRecord>): map<BlockId, Block>
  {
    if records == [] then map[] else IndexRecord(IndexAll(records[..|records| - 1]), records[|records| - 1])
  }

  /** Whether a record is indexed under key `k`. */
  predicate Covers(r: BlockRecord, k: BlockId)
  {
    r.blockId.Some? && r.blockId.value.id == k.id &&
    ((r.blockId.value.dv != DV_NA && r.blockId.value.dv == k.dv) ||
     (r.blockId.value.dv == DV_NA && 0 <= k.dv < 16))
  }

  /** Record `i` is the last one indexed under `k`. */
  predicate LastCover(records: seq<BlockRecord>, i: int, k: BlockId)
  {
    0 <= i < |records| && Covers(records[i], k) && forall j :: i < j < |records| ==> !Covers(records[j], k)
  }

  /**
   * The cache holds a key exactly when some record covers it, and then holds
   * the block of the last record that does: later records overwrite earlier ones.
   */
  lemma {:induction false} IndexAllContents(records: seq<BlockRecord>, k: BlockId)
    ensures k in IndexAll(records) <==> exists i :: 0 <= i < |records| && Covers(records[i], k)
    ensures forall i :: LastCover(records, i, k) ==> IndexAll(records)[k] == Block(records[i])
    decreases |records|
  {
    if records != [] {
      var n := |records| - 1;
      var front, r := records[..n], records[n];
      IndexAllContents(front, k);
      var m := IndexAll(front);
      IndexRecordContents(m, r, k);
      assert IndexAll(records) == IndexRecord(m, r);
      forall i | LastCover(records, i, k)
        ensures IndexAll(records)[k] == Block(records[i])
      {
        if i < n {
          assert front[i] == records[i] && LastCover(front, i, k);
        }
      }
      if k in IndexAll(records) && !Covers(r, k) {
        var i :| 0 <= i < n && Covers(front[i], k);
        assert records[i] == front[i];
      }
      if exists i :: 0 <= i < n && Covers(records[i], k) {
        var i :| 0 <= i < n && Covers(records[i], k);
        assert front[i] == records[i];
      }
    }
  }

  /** One record adds exactly the keys it covers, each holding its block, and keeps every other entry. */
  lemma IndexRecordContents(m: map<BlockId, Block>, r: BlockRecord, k: BlockId)
    ensures k in IndexRecord(m, r) <==> k in m || Covers(r, k)
    ensures Covers(r, k) ==> IndexRecord(m, r)[k] == Block(r)
    ensures !Covers(r, k) && k in m ==> IndexRecord(m, r)[k] == m[k]
  {
    if r.blockId.Some? && r.blockId.value.dv == DV_NA {
      ReplicateContents(m, r.blockId.value.id, Block(r), 16, k);
    }
  }

  /**
   * Every key in the cache has a data value in 0..15: "not applicable" is only
   * ever replicated, so looking a block up with data value -1 always misses.
   */
  lemma IndexAllDataValues(records: seq<BlockRecord>, k: BlockId)
    requires ValidBlockRecords(records)
    requires k in IndexAll(records)
    ensures 0 <= k.dv < 16
  {
    IndexAllContents(records, k);
  }

  class BlockColors {
    const defaultBlock: Block
    const cache: map<BlockId, Block>
    const opacity: map<BlockId, bool>
    var defaulted: set<BlockId>

    ghost predicate Valid()
      reads this
    {
      defaultBlock.record.blockId.None? &&
      opacity.Keys == cache.Keys &&
      (forall k :: k in cache ==> opacity[k] == cache[k].IsFullyOpaque())
    }

    constructor Init(defaultBlock: Block, cache: map<BlockId, Block>, opacity: map<BlockId, bool>)
      ensures this.defaultBlock == defaultBlock && this.cache == cache && this.opacity == opacity
      ensures defaulted == {}
    {
      this.defaultBlock := defaultBlock;
      this.cache := cache;
      this.opacity := opacity;
      defaulted := {};
    }

    /**
     * `new BlockColors()` over already-parsed records: each record is indexed
     * in order, the last record without an id becomes the default, and a list
     * with no such record raises IllegalStateException.
     */
    static method New(records: seq<BlockRecord>) returns (r: Result<BlockColors>)
      requires ValidBlockRecords(records)
      ensures r.Failure? <==> LastDefault(records).None?
      ensures r.Failure? ==> r.error == IllegalState(NO_DEFAULT_BLOCK)
      ensures r.Success? ==> fresh(r.value) && r.value.Valid() && r.value.defaulted == {}
      ensures r.Success? ==> r.value.cache == IndexAll(records) && r.value.defaultBlock == Block(LastDefault(records).value)
    {
      var cache: map<BlockId, Block> := map[];
      var opacity: map<BlockId, bool> := map[];
      var defaultFound: Option<Block> := None;
      for i := 0 to |records|
        invariant cache == IndexAll(records[..i])
        invariant opacity.Keys == cache.Keys && forall k :: k in cache ==> opacity[k] == cache[k].IsFullyOpaque()
        invariant defaultFound.None? <==> LastDefault(records[..i]).None?
        invariant defaultFound.Some? ==> defaultFound == Some(Block(LastDefault(records[..i]).value))
      {
        assert records[..i + 1][..i] == records[..i];
        var b := Block(records[i]);
        if b.record.blockId.None? {
          defaultFound := Some(b);
        } else {
          var blockId := b.record.blockId.value;
          if blockId.dv == DV_NA {
            ghost var before := cache;
            for dv := 0 to 16
              invariant cache == Replicate(before, blockId.id, b, dv)
              invariant opacity.Keys == cache.Keys && forall k :: k in cache ==> opacity[k] == cache[k].IsFullyOpaque()
            {
              cache := cache[BlockId(blockId.id, dv) := b];
              opacity := opacity[BlockId(blockId.id, dv) := b.IsFullyOpaque()];
            }
          } else {
            cache := cache[blockId := b];
            opacity := opacity[blockId := b.IsFullyOpaque()];
          }
        }
      }
      assert records[..|records|] == records;
      if defaultFound.None? {
        return Failure(IllegalState(NO_DEFAULT_BLOCK));
      }
      var bc := new BlockColors.Init(defaultFound.value, cache, opacity);
      return Success(bc);
    }

    /**
     * `getBlock(id, dv)`: the cached block, or the default block with the id
     * recorded as defaulted; an invalid id raises IllegalArgumentException.
     */
    method GetBlock(id: Int32, dv: Int32) returns (r: Result<Block>)
      requires Valid()
      modifies this
      ensures r.Success? <==> ValidBlockId(id, dv)
      ensures r.Failure? ==> r.error.IllegalArgument? && defaulted == old(defaulted)
      ensures r.Success? && BlockId(id, dv) in cache ==> r.value == cache[BlockId(id, dv)] && defaulted == old(defaulted)
      ensures r.Success? && BlockId(id, dv) !in cache ==>
        r.value == defaultBlock && defaulted == old(defaulted) + {BlockId(id, dv)}
    {
      var blockId := NewBlockId(id, dv);
      if blockId.Failure? {
        return Failure(blockId.error);
      }
      if blockId.value !in cache {
        defaulted := defaulted + {blockId.value};
        return Success(defaultBlock);
      }
      return Success(cache[blockId.value]);
    }

    /** `getBlock(id)`: the same as `getBlock(id, 0)`. */
    method GetBlockOfId(id: Int32) returns (r: Result<Block>)
      requires Valid()
      modifies this
      ensures r.Success? <==> 0 <= id <= MAX_BLOCK_ID
      ensures r.Success? && BlockId(id, 0) in cache ==> r.value == cache[BlockId(id, 0)] && defaulted == old(defaulted)
      ensures r.Success? && BlockId(id, 0) !in cache ==>
        r.value == defaultBlock && defaulted == old(defaulted) + {BlockId(id, 0)}
      ensures r.Failure? ==> defaulted == old(defaulted)
    {
      r := GetBlock(id, 0);
    }

    /**
     * `fullyOpaque(id, dv)`: the opacity recorded for an indexed id; an
     * invalid id raises IllegalArgumentException and an id that was never
     * indexed fails when the missing Boolean is unboxed.
     */
    function FullyOpaque(id: Int32, dv: Int32): (r: Result<bool>)
      requires Valid()
      reads this
      ensures r.Success? <==> ValidBlockId(id, dv) && BlockId(id, dv) in cache
      ensures r.Success? ==> r.value == cache[BlockId(id, dv)].IsFullyOpaque()
      ensures !ValidBlockId(id, dv) ==> r.Failure? && r.error.IllegalArgument?
      ensures ValidBlockId(id, dv) && BlockId(id, dv) !in cache ==> r == Failure(NullPointer)
    {
      var blockId := NewBlockId(id, dv);
      if blockId.Failure? then Failure(blockId.error)
      else if blockId.value !in opacity then Failure(NullPointer)
      else Success(opacity[blockId.value])
    }
  }

  // ------------------------------------------------------------ biomes

  predicate ValidBiomeRecords(records: seq<BiomeRecord>)
  {
    forall i :: 0 <= i < |records| && records[i].biomeId.Some? ==> 0 <= records[i].biomeId.value.id <= MAX_BIOME_ID
  }

  function LastDefaultBiome(records: seq<BiomeRecord>): (r: Option<BiomeRecord>)
    ensures r.Some? ==> r.value in records && r.value.biomeId.None?
    ensures r.None? ==> forall i :: 0 <= i < |records| ==> records[i].biomeId.Some?
  {
    if records == [] then None
    else if records[|records| - 1].biomeId.None? then Some(records[|records| - 1])
    else LastDefaultBiome(records[..|records| - 1])
  }

  /** The biome cache after the records are stored in order. */
  function IndexBiomes(records: seq<BiomeRecord>): map<BiomeId, Biome>
  {
    if records == [] then map[]
    else
      var m := IndexBiomes(records[..|records| - 1]);
      var r := records[|records| - 1];
      if r.biomeId.None? then m else m[r.biomeId.value := Biome(r)]
  }

  /** Record `i` is the last one naming biome `k`. */
  predicate LastNamer(records: seq<BiomeRecord>, i: int, k: BiomeId)
  {
    0 <= i < |records| && records[i].biomeId == Some(k) && forall j :: i < j < |records| ==> records[j].biomeId != Some(k)
  }

  /** A biome id is cached iff some record names it, and the last such record wins. */
  lemma {:induction false} IndexBiomesContents(records: seq<BiomeRecord>, k: BiomeId)
    ensures k in IndexBiomes(records) <==> exists i :: 0 <= i < |records| && records[i].biomeId == Some(k)
    ensures forall i :: LastNamer(records, i, k) ==> IndexBiomes(records)[k] == Biome(records[i])
    decreases |records|
  {
    if records != [] {
      var n := |records| - 1;
      IndexBiomesContents(records[..n], k);
      assert forall i :: 0 <= i < n ==> records[..n][i] == records[i];
    }
  }

  class BiomeColors {
    const defaultBiome: Biome
    const cache: map<BiomeId, Biome>
    var defaulted: set<BiomeId>

    constructor Init(defaultBiome: Biome, cache: map<BiomeId, Biome>)
      ensures this.defaultBiome == defaultBiome && this.cache == cache && defaulted == {}
    {
      this.defaultBiome := defaultBiome;
      this.cache := cache;
      defaulted := {};
    }

    /**
     * `new BiomeColors()` over already-parsed records: every record with an id
     * is cached, the last one without becomes the default, and a list with no
     * such record raises IllegalStateException.
     */
    static method New(records: seq<BiomeRecord>) returns (r: Result<BiomeColors>)
      ensures r.Failure? <==> LastDefaultBiome(records).None?
      ensures r.Failure? ==> r.error == IllegalState(NO_DEFAULT_BIOME)
      ensures r.Success? ==> fresh(r.value) && r.value.defaulted == {}
      ensures r.Success? ==> r.value.cache == IndexBiomes(records) && r.value.defaultBiome == Biome(LastDefaultBiome(records).value)
    {
      var cache: map<BiomeId, Biome> := map[];
      var defaultFound: Option<Biome> := None;
      for i := 0 to |records|
        invariant cache == IndexBiomes(records[..i])
        invariant defaultFound.None? <==> LastDefaultBiome(records[..i]).None?
        invariant defaultFound.Some? ==> defaultFound == Some(Biome(LastDefaultBiome(records[..i]).value))
      {
        assert records[..i + 1][..i] == records[..i];
        var b := Biome(records[i]);
        if b.record.biomeId.None? {
          defaultFound := Some(b);
        } else {
          cache := cache[b.record.biomeId.value := b];
        }
      }
      assert records[..|records|] == records;
      if defaultFound.None? {
        return Failure(IllegalState(NO_DEFAULT_BIOME));
      }
      var bc := new BiomeColors.Init(defaultFound.value, cache);
      return Success(bc);
    }

    /**
     * `getBiome(id)`: the cached biome, or the default biome with the id
     * recorded as defaulted; an id outside 0..255 raises IllegalArgumentException.
     */
    method GetBiome(id: Int32) returns (r: Result<Biome>)
      modifies this
      ensures r.Success? <==> 0 <= id <= MAX_BIOME_ID
      ensures r.Failure? ==> r.error.IllegalArgument? && defaulted == old(defaulted)
      ensures r.Success? && BiomeId(id) in cache ==> r.value == cache[BiomeId(id)] && defaulted == old(defaulted)
      ensures r.Success? && BiomeId(id) !in cache ==> r.value == defaultBiome && defaulted == old(defaulted) + {BiomeId(id)}
    {
      var biomeId := NewBiomeId(id);
      if biomeId.Failure? {
        return Failure(biomeId.error);
      }
      if biomeId.value !in cache {
        defaulted := defaulted + {biomeId.value};
        return Success(defaultBiome);
      }
      return Success(cache[biomeId.value]);
    }
  }
}
