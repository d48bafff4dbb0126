/**
 * The table entries that colour the map: a block's record (id, colour,
 * biome influence, comment), a biome's record (id and the three influence
 * colours), and the kind of biome influence a block is subject to.
 */
module Materials {
  import opened Wrappers
  import opened Colors
  import opened Ids

  /** The four kinds of biome influence. */
  datatype BiomeInfluence = NONE | GRASS | WATER | FOLIAGE

  /**
   * The upper case of one character under `String.toUpperCase`'s
   * locale-independent rules, for every character whose upper case holds an
   * ASCII letter: a-z, the long s and the dotless i; the sharp s and the
   * Latin ligatures, which grow to two or three letters; and the letters
   * without a precomposed capital (n preceded by an apostrophe, j with
   * caron, h with line below, t with diaeresis, w and y with ring above,
   * a with right half ring), which become an ASCII capital and a modifier
   * or combining mark.  Any other character is kept.
   */
  function UpperOf(c: char): (u: string)
    ensures 1 <= |u| <= 3
    ensures forall k :: 0 <= k < |u| ==> !('a' <= u[k] <= 'z')
  {
    if 'a' <= c <= 'z' then [(c as int - 32) as char]
    else if c == '\U{017F}' then "S"
    else if c == '\U{0131}' then "I"
    else if c == '\U{00DF}' then "SS"
    else if c == '\U{FB00}' then "FF"
    else if c == '\U{FB01}' then "FI"
    else if c == '\U{FB02}' then "FL"
    else if c == '\U{FB03}' then "FFI"
    else if c == '\U{FB04}' then "FFL"
    else if c == '\U{FB05}' || c == '\U{FB06}' then "ST"
    else if c == '\U{0149}' then "\U{02BC}N"
    else if c == '\U{01F0}' then "J\U{030C}"
    else if c == '\U{1E96}' then "H\U{0331}"
    else if c == '\U{1E97}' then "T\U{0308}"
    else if c == '\U{1E98}' then "W\U{030A}"
    else if c == '\U{1E99}' then "Y\U{030A}"
    else if c == '\U{1E9A}' then "A\U{02BE}"
    else [c]
  }

  /** `toUpperCase()`: each character's upper case in turn; no lower-case ASCII letter is left. */
  function ToUpper(s: string): (t: string)
    ensures |t| >= |s|
    ensures forall k :: 0 <= k < |t| ==> !('a' <= t[k] <= 'z')
  {
    if s == [] then [] else UpperOf(s[0]) + ToUpper(s[1..])
  }

  /** Where no character grows, the text keeps its length, each character upper-cased in place. */
  lemma {:induction false} ToUpperInPlace(s: string)
    requires forall i :: 0 <= i < |s| ==> |UpperOf(s[i])| == 1
    ensures |ToUpper(s)| == |s|
    ensures forall i :: 0 <= i < |s| ==> ToUpper(s)[i] == UpperOf(s[i])[0]
    decreases |s|
  {
    if s != [] {
      ToUpperInPlace(s[1..]);
      var t := ToUpper(s);
      assert t == UpperOf(s[0]) + ToUpper(s[1..]);
      forall i | 1 <= i < |s|
        ensures t[i] == UpperOf(s[i])[0]
      {
        assert s[i] == s[1..][i - 1];
      }
    }
  }

  /** The enum constant's name, as `name()` gives it. */
  function InfluenceName(b: BiomeInfluence): string
  {
    match b
    case NONE => "NONE"
    case GRASS => "GRASS"
    case WATER => "WATER"
    case FOLIAGE => "FOLIAGE"
  }

  /** `valueOf(name)`: the constant with exactly that name. */
  function ValueOf(name: string): (r: Result<BiomeInfluence>)
    ensures r.Success? ==> InfluenceName(r.value) == name
  {
    if name == "NONE" then Success(NONE)
    else if name == "GRASS" then Success(GRASS)
    else if name == "WATER" then Success(WATER)
    else if name == "FOLIAGE" then Success(FOLIAGE)
    else Failure(IllegalArgument("No enum constant " + name))
  }

  /**
   * `from(s)`: NONE for a null name, otherwise the constant named by the
   * upper-cased text; an unknown name raises IllegalArgumentException.
   */
  function InfluenceFrom(s: Option<string>): (r: Result<BiomeInfluence>)
    ensures s.None? ==> r == Success(NONE)
    ensures s.Some? && r.Success? ==> InfluenceName(r.value) == ToUpper(s.value)
    ensures r.Failure? ==> r.error.IllegalArgument?
  {
    if s.None? then Success(NONE) else ValueOf(ToUpper(s.value))
  }

  /** Every constant is found from its own name and from its name in lower case. */
  lemma InfluenceFromNames(b: BiomeInfluence, lower: string)
    requires |lower| == |InfluenceName(b)|
    requires forall i :: 0 <= i < |lower| ==> UpperOf(lower[i]) == [InfluenceName(b)[i]]
    ensures InfluenceFrom(Some(InfluenceName(b))) == Success(b)
    ensures InfluenceFrom(Some(lower)) == Success(b)
  {
    var n := InfluenceName(b);
    assert forall i :: 0 <= i < |n| ==> 'A' <= n[i] <= 'Z';
    CapitalsKept(n);
    ToUpperInPlace(lower);
    assert ToUpper(lower) == n;
  }

  /** Upper-casing leaves a text of capital letters as it is. */
  lemma {:induction false} CapitalsKept(s: string)
    requires forall i :: 0 <= i < |s| ==> 'A' <= s[i] <= 'Z'
    ensures ToUpper(s) == s
    decreases |s|
  {
    if s != [] {
      CapitalsKept(s[1..]);
      assert UpperOf(s[0]) == [s[0]];
      assert s == [s[0]] + s[1..];
    }
  }

  /** The long s and the sharp s upper-case to ASCII, so both spell GRASS. */
  lemma InfluenceFromSpecialLetters()
    ensures InfluenceFrom(Some("gra\U{017F}\U{017F}")) == Success(GRASS)
    ensures InfluenceFrom(Some("gra\U{00DF}")) == Success(GRASS)
  {
    assert ToUpper("\U{017F}") == "S";
    assert ToUpper("\U{017F}\U{017F}") == "SS";
    assert ToUpper("gra\U{017F}\U{017F}") == "GRASS";
    assert ToUpper("\U{00DF}") == "SS";
    assert ToUpper("gra\U{00DF}") == "GRASS";
  }

  /** A name that upper-cases to none of the four constants is refused. */
  lemma InfluenceFromUnknown(s: string)
    requires forall b: BiomeInfluence :: ToUpper(s) != InfluenceName(b)
    ensures InfluenceFrom(Some(s)).Failure?
  {
    assert ToUpper(s) != InfluenceName(NONE) && ToUpper(s) != InfluenceName(GRASS);
    assert ToUpper(s) != InfluenceName(WATER) && ToUpper(s) != InfluenceName(FOLIAGE);
  }

  // ------------------------------------------------------------ blocks

  /** A parsed block record; the default record has no block id. */
  datatype BlockRecord = BlockRecord(blockId: Option<BlockId>, color: Color, influence: BiomeInfluence, comment: string)

  /** A block: its record, and whether its colour is fully opaque. */
  datatype Block = Block(record: BlockRecord)
  {
    function BlockIdOf(): Option<BlockId> { record.blockId }
    function ColorOf(): Color { record.color }

    /** `isFullyOpaque()`: the record colour's alpha is 0xff. */
    predicate IsFullyOpaque() { record.color.alpha == 0xff }
  }

  /**
   * `equals`: a block equals itself (the identity check comes first);
   * otherwise the block ids are compared, and a block without an id raises
   * NullPointerException.  Value equality stands in for object identity.
   */
  function BlockEquals(a: Block, b: Block): (r: Result<bool>)
    ensures a == b ==> r == Success(true)
    ensures a != b && a.record.blockId.Some? ==> r == Success(a.record.blockId == b.record.blockId)
    ensures a != b && a.record.blockId.None? ==> r == Failure(NullPointer)
  {
    if a == b then Success(true)
    else if a.record.blockId.None? then Failure(NullPointer)
    else Success(a.record.blockId == b.record.blockId)
  }

  /** `hashCode()`: the block id's hash; a block without an id raises NullPointerException. */
  function BlockHashCode(b: Block): (r: Result<int>)
    requires b.record.blockId.Some? ==> ValidBlockId(b.record.blockId.value.id, b.record.blockId.value.dv)
    ensures r.Failure? <==> b.record.blockId.None?
  {
    if b.record.blockId.None? then Failure(NullPointer) else Success(BlockHash(b.record.blockId.value))
  }

  /** Blocks that are equal hash alike: equality and hash both depend on the id only. */
  lemma BlockEqualsHash(a: Block, b: Block)
    requires a.record.blockId.Some? && ValidBlockId(a.record.blockId.value.id, a.record.blockId.value.dv)
    requires b.record.blockId.Some? && ValidBlockId(b.record.blockId.value.id, b.record.blockId.value.dv)
    ensures BlockEquals(a, b) == Success(true) <==> BlockHashCode(a) == BlockHashCode(b)
  {
    BlockHashInjective(a.record.blockId.value, b.record.blockId.value);
  }

  // ------------------------------------------------------------ biomes

  /** A parsed biome record; the default record has no biome id. */
  datatype BiomeRecord = BiomeRecord(biomeId: Option<BiomeId>, grass: Color, foliage: Color, water: Color, comment: Option<string>)

  datatype Biome = Biome(record: BiomeRecord)

  /** `influence(kind)`: the record's grass, water or foliage colour, and WHITE for NONE. */
  function Influence(b: Biome, kind: BiomeInfluence): (c: Color)
    ensures kind == GRASS ==> c == b.record.grass
    ensures kind == WATER ==> c == b.record.water
    ensures kind == FOLIAGE ==> c == b.record.foliage
    ensures kind == NONE ==> c == WHITE
  {
    match kind
    case GRASS => b.record.grass
    case WATER => b.record.water
    case FOLIAGE => b.record.foliage
    case NONE => WHITE
  }

  /** A block without biome influence keeps its table colour when tinted. */
  lemma NoInfluenceKeepsColor(b: Biome, c: Color)
    ensures MultiplySolid(c, Influence(b, NONE)) == c
  {
    MultiplyProperties(c, WHITE);
  }

  /** `equals` of biomes, with the same identity-first rule as blocks. */
  function BiomeEquals(a: Biome, b: Biome): (r: Result<bool>)
    ensures a == b ==> r == Success(true)
    ensures a != b && a.record.biomeId.Some? ==> r == Success(a.record.biomeId == b.record.biomeId)
    ensures a != b && a.record.biomeId.None? ==> r == Failure(NullPointer)
  {
    if a == b then Success(true)
    else if a.record.biomeId.None? then Failure(NullPointer)
    else Success(a.record.biomeId == b.record.biomeId)
  }
}
