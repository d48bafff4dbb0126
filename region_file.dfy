/**
 * A region file (`.mca`) read as bytes: a 4 KiB table of chunk locations, a
 * 4 KiB table of chunk timestamps, then the chunks, each in a run of 4 KiB
 * sectors.  A location word holds the first sector in its top three bytes and
 * the number of sectors in its low byte; a chunk starts with its length
 * (counting the version byte) and a version byte, 1 for gzip and 2 for zlib.
 * Decompressing a chunk's payload is not modelled: a chunk's stream is its
 * compressed bytes, tagged with their compression.
 */
module RegionFiles {
  import opened Wrappers
  import opened JavaInts

  const SECTOR_BYTES: int := 4096
  const SECTOR_INTS: int := 1024
  const NCHUNKS: int := 32
  const VERSION_GZIP: int := 1
  const VERSION_DEFLATE: int := 2

  const E_NO_SUCH_FILE: string := "No such region file: "
  const E_SHORT: string := "length < 4KB"
  const E_NOT_MULTIPLE: string := "length not a multiple of 4KB"
  const E_EOF: string := "EOF"

  /** The buffer size no array can have: 2^31 - 1 bytes is past the virtual machine's array limit. */
  const MAX_ARRAY_BYTES: int := 0x7fff_ffff

  /** A byte of the file, as the unsigned value the stream reads. */
  type UByte = x: int | 0 <= x < 256

  // ------------------------------------------------------------ bytes

  /** `readInt()` at byte `pos`: four bytes, most significant first, read as a signed int; None at end of file. */
  function ReadInt(data: seq<UByte>, pos: nat): (r: Option<Int32>)
    ensures r.Some? <==> pos + 4 <= |data|
  {
    if pos + 4 <= |data| then
      Some(ToInt32(data[pos] as int * 0x100_0000 + data[pos + 1] as int * 0x1_0000 + data[pos + 2] as int * 0x100 + data[pos + 3] as int))
    else None
  }

  /** The four bytes, most significant first, that `writeInt(w)` puts in a file. */
  function IntBytes(w: Int32): (b: seq<UByte>)
    ensures |b| == 4
  {
    var u := Unsigned32(w);
    var q1 := u / 0x100;
    var q2 := q1 / 0x100;
    [q2 / 0x100, q2 % 0x100, q1 % 0x100, u % 0x100]
  }

  /** The bytes of an int, read back most significant first, give its 32-bit pattern. */
  lemma BigEndianIntBytes(w: Int32)
    ensures var b := IntBytes(w); b[0] as int * 0x100_0000 + b[1] as int * 0x1_0000 + b[2] as int * 0x100 + b[3] as int == Unsigned32(w)
  {
    var u := Unsigned32(w);
    var q1 := u / 0x100;
    var q2 := q1 / 0x100;
    assert u == q1 * 0x100 + u % 0x100;
    assert q1 == q2 * 0x100 + q1 % 0x100;
    assert q2 == q2 / 0x100 * 0x100 + q2 % 0x100;
  }

  /** Reading an int where one was written gives it back, whatever surrounds it. */
  lemma ReadIntBytes(pre: seq<UByte>, w: Int32, post: seq<UByte>)
    ensures ReadInt(pre + IntBytes(w) + post, |pre|) == Some(w)
  {
    var b := IntBytes(w);
    var d := pre + b + post;
    assert d[|pre|] == b[0] && d[|pre| + 1] == b[1] && d[|pre| + 2] == b[2] && d[|pre| + 3] == b[3];
    BigEndianIntBytes(w);
  }

  /**
   * What `read(buf)` leaves in a new buffer of `n` bytes when the file
   * pointer is at `pos`: the file's bytes up to its end, then the zeros the
   * buffer was created with.
   */
  function Payload(data: seq<UByte>, pos: nat, n: nat): (b: seq<UByte>)
    ensures |b| == n
  {
    seq(n, k requires 0 <= k < n => if pos + k < |data| then data[pos + k] else 0)
  }

  // ------------------------------------------------------------ location words

  /** `offset >> 8`: the first sector, shifted arithmetically as Java's `>>` does. */
  function SectorOf(word: Int32): int
  {
    word / 256
  }

  /** `offset & 0xff`: the number of sectors. */
  function CountOf(word: Int32): int
  {
    word % 256
  }

  /** A location word splits into its sector and its count; the sector is negative exactly when bit 31 is set. */
  lemma WordParts(word: Int32)
    ensures word == 256 * SectorOf(word) + CountOf(word)
    ensures 0 <= CountOf(word) < 256
    ensures -0x80_0000 <= SectorOf(word) < 0x80_0000
    ensures SectorOf(word) < 0 <==> word < 0
  {
  }

  /** `chunkAvailableAt`'s test on a location word: a chunk is there and its sectors end within the file. */
  predicate WordAvailable(word: Int32, nSectors: int)
  {
    word != 0 && SectorOf(word) + CountOf(word) <= nSectors
  }

  /** `(int) fileLen / SECTOR_BYTES`: the cast applies to the length before the division. */
  function NSectorsOf(fileLen: nat): Int32
  {
    TruncDiv(ToInt32(fileLen), SECTOR_BYTES)
  }

  /** The header is complete and the length a whole number of sectors. */
  predicate Acceptable(fileLen: nat)
  {
    fileLen >= 2 * SECTOR_BYTES && fileLen % SECTOR_BYTES == 0
  }

  /** The `k`-th int of the file, for the header words. */
  function Word(data: seq<UByte>, k: nat): Int32
    requires 4 * k + 4 <= |data|
  {
    ReadInt(data, 4 * k).value
  }

  /** `x + z * 32` for in-bounds chunk coordinates: the location and timestamp tables' index. */
  predicate InBounds(x: int, z: int)
  {
    0 <= x < NCHUNKS && 0 <= z < NCHUNKS
  }

  /** The in-bounds coordinates and the table indices correspond one to one. */
  lemma ChunkIndex(x: int, z: int, i: int)
    ensures InBounds(x, z) && i == x + NCHUNKS * z ==> 0 <= i < SECTOR_INTS && i % NCHUNKS == x && i / NCHUNKS == z
    ensures 0 <= i < SECTOR_INTS && x == i % NCHUNKS && z == i / NCHUNKS ==> InBounds(x, z) && i == x + NCHUNKS * z
  {
  }

  // ------------------------------------------------------------ chunks

  datatype Compression = Gzip | Deflate

  /** A chunk's data stream: its payload, still compressed as `compression` says. */
  datatype ChunkStream = ChunkStream(compression: Compression, data: seq<UByte>)

  function VersionOf(c: Compression): (v: UByte)
    ensures v == VERSION_GZIP || v == VERSION_DEFLATE
  {
    if c == Gzip then VERSION_GZIP else VERSION_DEFLATE
  }

  /**
   * The part of `getChunkDataStream` after the location checks: seek to
   * `sector * 4096`, computed in int arithmetic; read the length and the
   * version; return the `length - 1` bytes that follow.  A negative seek
   * position and reading past the end of the file raise IOExceptions, which
   * give no stream; so does a length over the chunk's sectors or an unknown
   * version.  The buffer size `length - 1` is computed in int arithmetic:
   * a size below 0 raises NegativeArraySizeException, and the size
   * 2^31 - 1, which only the length -2^31 wraps to, is past the largest
   * array the virtual machine allocates and raises OutOfMemoryError.
   * Neither is caught.
   */
  function ReadChunk(data: seq<UByte>, sector: int, count: int): Result<Option<ChunkStream>>
  {
    var pos := ToInt32(sector * SECTOR_BYTES);
    if pos < 0 then Success(None) else ReadChunkFrom(data, pos, count)
  }

  /**
   * The reads of `getChunkDataStream` from the seek position `pos` on: a
   * stream holds the `length - 1` bytes after the version byte, for a length
   * from 1 up to the chunk's sectors; the two exceptions come from lengths
   * that are not positive.
   */
  function ReadChunkFrom(data: seq<UByte>, pos: nat, count: int): (r: Result<Option<ChunkStream>>)
    ensures r.Failure? ==> r.error == NegativeArraySize || r.error == OutOfMemory
    ensures r.Failure? ==> ReadInt(data, pos).Some? && ReadInt(data, pos).value <= 0 && pos + 4 < |data|
    ensures r == Failure(OutOfMemory) <==> r.Failure? && ReadInt(data, pos) == Some(-0x8000_0000)
    ensures r.Success? && r.value.Some? ==> (
      ReadInt(data, pos).Some? &&
      var len := ReadInt(data, pos).value;
      var st := r.value.value;
      1 <= len <= SECTOR_BYTES * count && pos + 4 < |data| &&
      data[pos + 4] == VersionOf(st.compression) && |st.data| == len - 1 &&
      forall k :: 0 <= k < len - 1 && pos + 5 + k < |data| ==> st.data[k] == data[pos + 5 + k])
  {
    var length := ReadInt(data, pos);
    if length.None? then Success(None)
    else if length.value > SECTOR_BYTES * count then Success(None)
    else if pos + 4 >= |data| then Success(None)
    else
      var version := ToJByte(data[pos + 4]);
      if version != VERSION_GZIP && version != VERSION_DEFLATE then Success(None)
      else
        var n := ToInt32(length.value - 1);
        if n < 0 then Failure(NegativeArraySize)
        else if n == MAX_ARRAY_BYTES then Failure(OutOfMemory)
        else
          var c := if version == VERSION_GZIP then Gzip else Deflate;
          Success(Some(ChunkStream(c, Payload(data, pos + 5, n))))
  }

  /**
   * A length word of -2^31 passes the length check and wraps the buffer
   * size round to 2^31 - 1 bytes, which cannot be allocated.
   */
  lemma MinLengthOutOfMemory(pre: seq<UByte>, c: Compression, post: seq<UByte>, count: int)
    requires 0 <= count
    ensures ReadChunkFrom(pre + [0x80, 0, 0, 0, VersionOf(c)] + post, |pre|, count) == Failure(OutOfMemory)
  {
    var d := pre + [0x80, 0, 0, 0, VersionOf(c)] + post;
    assert d[|pre|] == 0x80 && d[|pre| + 1] == 0 && d[|pre| + 2] == 0 && d[|pre| + 3] == 0;
    assert ReadInt(d, |pre|) == Some(-0x8000_0000);
    assert d[|pre| + 4] == VersionOf(c);
  }

  /** A sector that starts below 2 GiB is sought at its own position. */
  lemma SeekPosition(sector: int, pos: int)
    requires 0 <= sector && pos == sector * SECTOR_BYTES <= 0x7fff_ffff
    ensures ToInt32(sector * SECTOR_BYTES) == pos
  {
  }

  /** What a writer puts at a chunk's first sector: the length counting the version byte, the version, the payload. */
  function ChunkBytes(s: ChunkStream): (b: seq<UByte>)
    requires |s.data| < 0x7fff_ffff
    ensures |b| == |s.data| + 5
  {
    IntBytes(|s.data| + 1) + [VersionOf(s.compression)] + s.data
  }

  /**
   * A chunk written at the start of sector `sector`, and fitting in its
   * `count` sectors, is read back as written.
   */
  lemma ReadChunkBytes(pre: seq<UByte>, s: ChunkStream, post: seq<UByte>, sector: int, count: int)
    requires 0 <= sector && |pre| == sector * SECTOR_BYTES <= 0x7fff_ffff
    requires 0 <= count < 256 && |s.data| + 1 <= SECTOR_BYTES * count
    ensures ReadChunk(pre + ChunkBytes(s) + post, sector, count) == Success(Some(s))
  {
    SeekPosition(sector, |pre|);
    var w := |s.data| + 1;
    var v := VersionOf(s.compression);
    var d := pre + ChunkBytes(s) + post;
    assert d == pre + IntBytes(w) + ([v] + s.data + post);
    ReadIntBytes(pre, w, [v] + s.data + post);
    assert d[|pre| + 4] == v;
    assert Payload(d, |pre| + 5, |s.data|) == s.data by {
      forall k | 0 <= k < |s.data|
        ensures Payload(d, |pre| + 5, |s.data|)[k] == s.data[k]
      {
        assert d[|pre| + 5 + k] == s.data[k];
      }
    }
    assert ReadChunkFrom(d, |pre|, count) == Success(Some(s));
  }

  /** A chunk whose length word is 0 makes the reader ask for a buffer of -1 bytes. */
  lemma ZeroLengthChunkThrows(pre: seq<UByte>, c: Compression, post: seq<UByte>, sector: int, count: int)
    requires 0 <= sector && |pre| == sector * SECTOR_BYTES <= 0x7fff_ffff && 0 <= count
    ensures ReadChunk(pre + [0, 0, 0, 0, VersionOf(c)] + post, sector, count) == Failure(NegativeArraySize)
  {
    SeekPosition(sector, |pre|);
    ZeroLengthFrom(pre, c, post, count);
  }

  lemma ZeroLengthFrom(pre: seq<UByte>, c: Compression, post: seq<UByte>, count: int)
    requires 0 <= count
    ensures ReadChunkFrom(pre + [0, 0, 0, 0, VersionOf(c)] + post, |pre|, count) == Failure(NegativeArraySize)
  {
    var d := pre + [0, 0, 0, 0, VersionOf(c)] + post;
    assert d[|pre|] == 0 && d[|pre| + 1] == 0 && d[|pre| + 2] == 0 && d[|pre| + 3] == 0;
    assert ReadInt(d, |pre|) == Some(0);
    assert d[|pre| + 4] == VersionOf(c);
  }

  // ------------------------------------------------------------ counting

  /** The number of location words, among `words`, whose chunk is available. */
  function CountAvailable(words: seq<Int32>, nSectors: int): (n: nat)
    ensures n <= |words|
  {
    if words == [] then 0
    else CountAvailable(words[..|words| - 1], nSectors) + (if WordAvailable(words[|words| - 1], nSectors) then 1 else 0)
  }

  /** The indices whose chunk is available. */
  function AvailableIndices(words: seq<Int32>, nSectors: int): set<int>
  {
    set i | 0 <= i < |words| && WordAvailable(words[i], nSectors)
  }

  /** The count is the number of available chunks' indices. */
  lemma {:induction false} CountAvailableIndices(words: seq<Int32>, nSectors: int)
    ensures CountAvailable(words, nSectors) == |AvailableIndices(words, nSectors)|
  {
    if words != [] {
      var m := |words| - 1;
      var init := words[..m];
      CountAvailableIndices(init, nSectors);
      var below := AvailableIndices(init, nSectors);
      assert AvailableIndices(words, nSectors) ==
        below + (if WordAvailable(words[m], nSectors) then {m} else {});
      assert m !in below;
    }
  }

  /** Counting one more word. */
  lemma CountAvailableStep(words: seq<Int32>, i: nat, nSectors: int)
    requires i < |words|
    ensures CountAvailable(words[..i + 1], nSectors) ==
      CountAvailable(words[..i], nSectors) + (if WordAvailable(words[i], nSectors) then 1 else 0)
  {
    assert words[..i + 1][..i] == words[..i];
  }

  /** A table of zero words has no chunk. */
  lemma {:induction false} CountAvailableZeros(words: seq<Int32>, nSectors: int)
    requires forall k :: 0 <= k < |words| ==> words[k] == 0
    ensures CountAvailable(words, nSectors) == 0
  {
    if words != [] {
      CountAvailableZeros(words[..|words| - 1], nSectors);
    }
  }

  // ------------------------------------------------------------ the file

  /**
   * An open region file.  A mock one has no file, no sectors and tables of
   * zeros.
   */
  class RegionFile {
    const path: string
    const lastModified: int
    const nSectors: Int32
    /** The file's bytes; None for a mock region file. */
    const file: Option<seq<UByte>>
    const offsets: array<Int32>
    const chunkTimestamps: array<Int32>

    ghost predicate Valid()
      reads this
    {
      offsets.Length == SECTOR_INTS && chunkTimestamps.Length == SECTOR_INTS && offsets != chunkTimestamps
    }

    /** The tables and the sector count are those of `contents`, or of a mock file. */
    ghost predicate Loaded(mock: bool, contents: seq<UByte>)
      reads this, offsets, chunkTimestamps
    {
      Valid() &&
      if mock then
        file.None? && nSectors == 0 &&
        (forall k :: 0 <= k < SECTOR_INTS ==> offsets[k] == 0) &&
        (forall k :: 0 <= k < SECTOR_INTS ==> chunkTimestamps[k] == 0)
      else
        file == Some(contents) && Acceptable(|contents|) && nSectors == NSectorsOf(|contents|) &&
        (forall k :: 0 <= k < SECTOR_INTS ==> offsets[k] == Word(contents, k)) &&
        (forall k :: 0 <= k < SECTOR_INTS ==> chunkTimestamps[k] == Word(contents, SECTOR_INTS + k))
    }

    /** The constructor once the file is known to hold a whole header: the two tables read in turn. */
    constructor (path: string, mock: bool, contents: seq<UByte>, lastModified: int)
      requires !mock ==> Acceptable(|contents|)
      ensures Loaded(mock, contents) && fresh(offsets) && fresh(chunkTimestamps)
      ensures this.path == path && this.lastModified == lastModified
    {
      this.path := path;
      this.lastModified := lastModified;
      nSectors := if mock then 0 else NSectorsOf(|contents|);
      file := if mock then None else Some(contents);
      offsets := new Int32[SECTOR_INTS](_ => 0);
      chunkTimestamps := new Int32[SECTOR_INTS](_ => 0);
      new;
      if !mock {
        for i := 0 to SECTOR_INTS
          invariant forall k :: 0 <= k < i ==> offsets[k] == Word(contents, k)
        {
          offsets[i] := ReadInt(contents, 4 * i).value;
        }
        for i := 0 to SECTOR_INTS
          invariant forall k :: 0 <= k < SECTOR_INTS ==> offsets[k] == Word(contents, k)
          invariant forall k :: 0 <= k < i ==> chunkTimestamps[k] == Word(contents, SECTOR_INTS + k)
        {
          chunkTimestamps[i] := ReadInt(contents, 4 * (SECTOR_INTS + i)).value;
        }
      }
    }

    /** `chunkAvailableAt(x, z)`: in bounds, with a location word whose sectors end within the file. */
    predicate ChunkAvailableAt(x: Int32, z: Int32)
      requires Valid()
      reads this, offsets
      ensures !ChunkAvailableAt(x, z) ==> GetChunkDataStream(x, z) == Success(None)
      ensures ChunkAvailableAt(x, z) ==> var w := offsets[x + NCHUNKS * z];
        GetChunkDataStream(x, z) ==
          if file.None? then Failure(NullPointer) else ReadChunk(file.value, SectorOf(w), CountOf(w))
    {
      InBounds(x, z) && WordAvailable(offsets[x + NCHUNKS * z], nSectors)
    }

    /** `timeStampAt(x, z)`: the table's entry, or 0 out of bounds. */
    function TimeStampAt(x: Int32, z: Int32): (t: Int32)
      requires Valid()
      reads this, chunkTimestamps
      ensures !InBounds(x, z) ==> t == 0
      ensures InBounds(x, z) ==> t == chunkTimestamps[x + NCHUNKS * z]
    {
      if InBounds(x, z) then chunkTimestamps[x + NCHUNKS * z] else 0
    }

    /**
     * `getChunkDataStream(x, z)`: no stream out of bounds, for a zero
     * location word or for sectors past the end of the file; otherwise the
     * chunk read from its first sector.
     */
    function GetChunkDataStream(x: Int32, z: Int32): (r: Result<Option<ChunkStream>>)
      requires Valid()
      reads this, offsets
      ensures r != Success(None) ==> InBounds(x, z) && WordAvailable(offsets[x + NCHUNKS * z], nSectors)
      ensures r.Failure? ==> r.error in {NullPointer, NegativeArraySize, OutOfMemory}
      ensures r.Failure? && file.Some? ==> r.error != NullPointer
    {
      if !InBounds(x, z) then Success(None)
      else
        var offset := offsets[x + NCHUNKS * z];
        if offset == 0 then Success(None)
        else if SectorOf(offset) + CountOf(offset) > nSectors then Success(None)
        else if file.None? then Failure(NullPointer)
        else ReadChunk(file.value, SectorOf(offset), CountOf(offset))
    }

    /** `chunkCount()`: the chunks available, scanning row by row. */
    method ChunkCount() returns (n: int)
      requires Valid()
      ensures n == CountAvailable(offsets[..], nSectors)
      ensures n == |set i | 0 <= i < SECTOR_INTS && ChunkAvailableAt(i % NCHUNKS, i / NCHUNKS)|
      ensures 0 <= n <= SECTOR_INTS
    {
      n := 0;
      for cz := 0 to NCHUNKS
        invariant n == CountAvailable(offsets[..NCHUNKS * cz], nSectors)
      {
        for cx := 0 to NCHUNKS
          invariant n == CountAvailable(offsets[..NCHUNKS * cz + cx], nSectors)
        {
          CountAvailableStep(offsets[..], NCHUNKS * cz + cx, nSectors);
          assert offsets[..][NCHUNKS * cz + cx] == offsets[cx + NCHUNKS * cz];
          if ChunkAvailableAt(cx, cz) {
            n := n + 1;
          }
        }
      }
      assert offsets[..NCHUNKS * NCHUNKS] == offsets[..];
      CountAvailableIndices(offsets[..], nSectors);
      assert AvailableIndices(offsets[..], nSectors) ==
        set i | 0 <= i < SECTOR_INTS && ChunkAvailableAt(i % NCHUNKS, i / NCHUNKS);
    }
  }

  /**
   * `new RegionFile(path, mock)`: a missing file that is not a mock raises
   * IllegalArgumentException; a file shorter than a sector, or not a whole
   * number of sectors, is malformed; a file of one sector ends before the
   * timestamp table.  `present`, `contents` and `lastModified` stand for the
   * file system.
   */
  method Open(path: string, mock: bool, present: bool, contents: seq<UByte>, lastModified: int) returns (r: Result<RegionFile>)
    ensures r.Success? <==> mock || (present && Acceptable(|contents|))
    ensures !mock && !present ==> r == Failure(IllegalArgument(E_NO_SUCH_FILE))
    ensures !mock && present && |contents| < SECTOR_BYTES ==> r == Failure(Malformed(E_SHORT))
    ensures !mock && present && |contents| >= SECTOR_BYTES && |contents| % SECTOR_BYTES != 0 ==>
      r == Failure(Malformed(E_NOT_MULTIPLE))
    ensures !mock && present && |contents| == SECTOR_BYTES ==> r == Failure(IOFailure(E_EOF))
    ensures r.Success? ==>
      fresh(r.value) && r.value.Loaded(mock, contents) && r.value.path == path && r.value.lastModified == lastModified
  {
    if !mock && !present {
      return Failure(IllegalArgument(E_NO_SUCH_FILE));
    }
    if !mock {
      var fileLen := |contents|;
      if fileLen < SECTOR_BYTES {
        return Failure(Malformed(E_SHORT));
      }
      if fileLen % SECTOR_BYTES != 0 {
        return Failure(Malformed(E_NOT_MULTIPLE));
      }
      if fileLen < 2 * SECTOR_BYTES {
        return Failure(IOFailure(E_EOF));
      }
    }
    var rf := new RegionFile(path, mock, contents, lastModified);
    return Success(rf);
  }

  // ------------------------------------------------------------ properties

  /** A mock region file has no chunk, no stream and no timestamp. */
  lemma MockIsEmpty(rf: RegionFile, contents: seq<UByte>, x: Int32, z: Int32)
    requires rf.Loaded(true, contents)
    ensures CountAvailable(rf.offsets[..], rf.nSectors) == 0
    ensures !rf.ChunkAvailableAt(x, z) && rf.GetChunkDataStream(x, z) == Success(None)
    ensures rf.TimeStampAt(x, z) == 0
  {
    CountAvailableZeros(rf.offsets[..], rf.nSectors);
  }

  /**
   * An in-bounds chunk's location and timestamp are the big-endian words at
   * bytes `4 (x + 32 z)` and `4096 + 4 (x + 32 z)` of the file.
   */
  lemma TablesFromHeader(rf: RegionFile, contents: seq<UByte>, x: Int32, z: Int32)
    requires rf.Loaded(false, contents) && InBounds(x, z)
    ensures ReadInt(contents, 4 * (x + NCHUNKS * z)) == Some(rf.offsets[x + NCHUNKS * z])
    ensures ReadInt(contents, SECTOR_BYTES + 4 * (x + NCHUNKS * z)) == Some(rf.TimeStampAt(x, z))
  {
    var i := x + NCHUNKS * z;
    assert rf.chunkTimestamps[i] == Word(contents, SECTOR_INTS + i);
    assert 4 * (SECTOR_INTS + i) == SECTOR_BYTES + 4 * i;
  }

  /**
   * Reading the sector count of a whole file: `nSectors` sectors never
   * reach past the file's end.
   */
  lemma SectorsWithinFile(fileLen: nat)
    ensures NSectorsOf(fileLen) * SECTOR_BYTES <= fileLen
  {
    var t := ToInt32(fileLen);
    assert t <= fileLen by {
      assert fileLen % TWO_32 <= fileLen;
    }
  }

  // ------------------------------------------------------------ the signed shift

  /** A location word with bit 31 set: sector `0x800000` as written, one sector long. */
  const HIGH_WORD: Int32 := -0x7fff_ffff

  /**
   * As written, `offset >> 8` reads a word with bit 31 set as a negative
   * sector, which every file is deemed to hold; and the seek position
   * `sector * 4096` wraps to 0, so its chunk is read from the location table.
   */
  lemma SignedSectorDeemedAvailable(fileLen: nat)
    ensures SectorOf(HIGH_WORD) == -0x80_0000 && CountOf(HIGH_WORD) == 1
    ensures WordAvailable(HIGH_WORD, NSectorsOf(fileLen))
    ensures ToInt32(SectorOf(HIGH_WORD) * SECTOR_BYTES) == 0
  {
    assert SectorOf(HIGH_WORD) * SECTOR_BYTES == -8 * TWO_32;
  }

  /** The first sector as the top three bytes read unsigned, `offset >>> 8`. */
  function UnsignedSectorOf(word: Int32): (s: int)
    ensures 0 <= s < 0x100_0000
  {
    Unsigned32(word) / 256
  }

  /** `chunkAvailableAt`'s test with the sector read unsigned. */
  predicate IntendedAvailable(word: Int32, nSectors: int)
  {
    word != 0 && UnsignedSectorOf(word) + CountOf(word) <= nSectors
  }

  /** With the sector read unsigned, an available chunk's sectors lie within the file. */
  lemma IntendedAvailableInFile(word: Int32, fileLen: nat)
    requires IntendedAvailable(word, NSectorsOf(fileLen))
    ensures (UnsignedSectorOf(word) + CountOf(word)) * SECTOR_BYTES <= fileLen
  {
    SectorsWithinFile(fileLen);
    MulMono(UnsignedSectorOf(word) + CountOf(word), NSectorsOf(fileLen), SECTOR_BYTES);
  }

  /** The two readings agree on every word without bit 31; the word above tells them apart. */
  lemma IntendedAgreesBelowBit31(word: Int32, nSectors: int)
    ensures word >= 0 ==> (IntendedAvailable(word, nSectors) <==> WordAvailable(word, nSectors))
    ensures !IntendedAvailable(HIGH_WORD, NSectorsOf(0))
  {
  }
}
