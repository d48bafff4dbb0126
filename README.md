# McQuad, modelled in Dafny

McQuad turns the region files of a Minecraft world into map tiles for a
quad-tree viewer. A region file holds up to 32 by 32 chunks. From each chunk
the generator takes the colour and height of the top surface in every block
column. From those it draws a shaded 512 by 512 image per region. It then
cuts and scales the images into square tiles at several zoom levels: the
base level, two levels that enlarge it, and levels that merge 2 by 2 groups
of tiles into one while zooming out. Alongside this pipeline the model
covers the other parts of the core:

- the ledger of region modification times that decides which regions must be redrawn;
- the block and biome colour tables and the colour arithmetic (blending, alpha, shading);
- the text formats the program reads: coordinates, ids, record files, the `{}` format strings;
- the command-line arguments;
- the throughput tracker that counts work against a clock.

Java's 32- and 64-bit integer arithmetic is written out explicitly: wrap-around,
division and remainder truncating toward zero, and arithmetic shifts.
Exceptions become `Result` or `Outcome` values, and null references become
`Option` values or nullable class types. Objects whose fields the Java code
updates are classes with the same fields. Their loops are methods proved
against pure specification functions.

## Model

| member | source | states |
|---|---|---|
| Geometry.HashCode | core/src/main/java/com/meowster/mcquad/Coord.java:39-42 | `hashCode()` is `31 * x + z` whenever that fits an int (it wraps otherwise) |
| Geometry.HashSeparatesZ | core/src/main/java/com/meowster/mcquad/Coord.java:39-42 | two coordinates with the same x and different z never share a hash code, wrap-around included |
| Geometry.Negation | core/src/main/java/com/meowster/mcquad/Coord.java:68-70 | `negation()` flips the sign of both components, except that MIN_VALUE stays MIN_VALUE |
| Geometry.NegationInvolutive | core/src/main/java/com/meowster/mcquad/Coord.java:68-70 | negating twice gives the coordinate back, for every coordinate |
| Geometry.Scale | core/src/main/java/com/meowster/mcquad/Coord.java:79-81 | `scale(s)` multiplies both components by `s` when the products fit an int |
| Geometry.ScaleUnits | core/src/main/java/com/meowster/mcquad/Coord.java:79-81 | scaling by 1 is the identity and scaling by -1 is `negation()` |
| Geometry.Div2 | core/src/main/java/com/meowster/mcquad/Coord.java:89-91 | `div2()` halves each component with a remainder of 0 or ±1 in the sign of the component (rounding toward zero) |
| Geometry.Div2RoundsTowardZero | core/src/main/java/com/meowster/mcquad/Coord.java:89-91 | `[-1,-3]` halves to `[0,-1]`, not to the floor `[-1,-2]` |
| Geometry.CoordOf | core/src/main/java/com/meowster/mcquad/RegionCachedMetaData.java:66-69 | a parsed coordinate text is at least five characters and bracketed |
| Geometry.CoordOfToString | core/src/main/java/com/meowster/mcquad/Coord.java:25-28 | the text `[x,z]` of `toString()` reads back as the same coordinate |
| Geometry.CoordOfPair | core/src/main/java/com/meowster/mcquad/Coord.java:25-28 | any bracketed pair of parseable numbers, the first without a comma, reads back as that coordinate |
| Geometry.Bounds.constructor | core/src/main/java/com/meowster/mcquad/Bounds.java:13-20 | new bounds hold no points |
| Geometry.Bounds.Add | core/src/main/java/com/meowster/mcquad/Bounds.java:28-47 | `add` adds exactly the point to the set the bounds enclose |
| Geometry.Bounds.MinX | core/src/main/java/com/meowster/mcquad/Bounds.java:88-90 | `minX()` is 0 with no data, otherwise the least x of the points added |
| Geometry.Bounds.MaxX | core/src/main/java/com/meowster/mcquad/Bounds.java:97-99 | `maxX()` is 0 with no data, otherwise the greatest x of the points added |
| Geometry.Bounds.MinZ | core/src/main/java/com/meowster/mcquad/Bounds.java:106-108 | `minZ()` is 0 with no data, otherwise the least z of the points added |
| Geometry.Bounds.MaxZ | core/src/main/java/com/meowster/mcquad/Bounds.java:115-117 | `maxZ()` is 0 with no data, otherwise the greatest z of the points added |
| Geometry.Bounds.Nx | core/src/main/java/com/meowster/mcquad/Bounds.java:61-63 | `nx()` is 0 with no data, otherwise a width of at least 1 whose range from `minX()` covers every point (when it fits an int) |
| Geometry.Bounds.Nz | core/src/main/java/com/meowster/mcquad/Bounds.java:70-72 | `nz()` is 0 with no data, otherwise a height of at least 1 whose range from `minZ()` covers every point (when it fits an int) |
| Geometry.Bounds.MaxDim | core/src/main/java/com/meowster/mcquad/Bounds.java:79-81 | `maxDim()` is one of `nx()`, `nz()` and at least both |
| Geometry.ExtremaUnique | core/src/main/java/com/meowster/mcquad/Bounds.java:88-117 | each extremum of a point set is unique, so the four getters are determined by the points |
| Geometry.BoundsDependOnPointsOnly | core/src/main/java/com/meowster/mcquad/Bounds.java:28-117 | two bounds that were given the same points, in any order, answer every query alike |
| Ids.NewBlockId | core/src/main/java/com/meowster/mcquad/BlockId.java:40-50 | `new BlockId(id, dv)` succeeds exactly for id 0..4095 and dv -1..15 and keeps both; otherwise IllegalArgumentException |
| Ids.DvByte | core/src/main/java/com/meowster/mcquad/BlockId.java:44 | `dv & 0xff` is the data value itself, or 255 for "not applicable" |
| Ids.BlockHash | core/src/main/java/com/meowster/mcquad/BlockId.java:44 | the hash code `(id << 8) \| (dv & 0xff)` has the id above the data value byte |
| Ids.BlockHashInjective | core/src/main/java/com/meowster/mcquad/BlockId.java:76-88 | equal hash codes exactly when the ids are equal, so `hashCode` agrees with `equals` |
| Ids.BlockCompare | core/src/main/java/com/meowster/mcquad/BlockId.java:90-93 | `compareTo` is negative exactly when the id is smaller, or equal with a smaller data value, "not applicable" last; zero exactly for equal ids |
| Ids.BlockCompareAntisymmetric | core/src/main/java/com/meowster/mcquad/BlockId.java:90-93 | swapping the operands of `compareTo` negates it |
| Ids.BlockIdStringExamples | core/src/main/java/com/meowster/mcquad/BlockId.java:70-74 | `toString()` prints the id in hex and `-` for "not applicable" |
| Ids.BlockIdString | core/src/main/java/com/meowster/mcquad/BlockId.java:70-74 | `toString()` is `BlockId{` hex `:` dv `}`: the hex part reads back through `hex` as the id, the part after the colon is `-` exactly for "not applicable" and otherwise parses as the data value |
| Ids.NewBiomeId | core/src/main/java/com/meowster/mcquad/BiomeId.java:29-33 | `new BiomeId(id)` succeeds exactly for 0..255; otherwise IllegalArgumentException |
| Ids.BiomeCompare | core/src/main/java/com/meowster/mcquad/BiomeId.java:63-66 | `compareTo` has the sign of the difference of the ids and is zero exactly for equal ids |
| Ids.BiomeHashInjective | core/src/main/java/com/meowster/mcquad/BiomeId.java:49-61 | `hashCode` agrees with `equals` |
| Ids.BiomeIdString | core/src/main/java/com/meowster/mcquad/BiomeId.java:44-47 | `toString()` is `BiomeId{` + hex + `}` and the hex reads back as the id |
| Geometry.ToString | core/src/main/java/com/meowster/mcquad/Coord.java:25-28 | `toString()` is bracketed, and the first comma inside the brackets is the one after x's digits, so the two numbers separate |
| Materials.UpperOf | core/src/main/java/com/meowster/mcquad/BiomeInfluence.java:24-26 | one character's upper case: one to three characters, none of them a lower-case ASCII letter (the sharp s, the ligatures and the letters without a precomposed capital grow) |
| Materials.ToUpper | core/src/main/java/com/meowster/mcquad/BiomeInfluence.java:24-26 | `toUpperCase()` never shortens the text and leaves no lower-case ASCII letter |
| Materials.ToUpperInPlace | core/src/main/java/com/meowster/mcquad/BiomeInfluence.java:24-26 | where no character grows, `toUpperCase()` keeps the length and upper-cases each character in place |
| Materials.CapitalsKept | core/src/main/java/com/meowster/mcquad/BiomeInfluence.java:24-26 | a text of capital letters is its own upper case |
| Materials.InfluenceFromSpecialLetters | core/src/main/java/com/meowster/mcquad/BiomeInfluence.java:24-26 | `from("graſſ")` and `from("graß")` are both GRASS, since the long s and the sharp s upper-case to ASCII |
| Materials.ValueOf | core/src/main/java/com/meowster/mcquad/BiomeInfluence.java:12-16 | `valueOf(name)` returns only the constant whose name is exactly `name` |
| Materials.InfluenceFrom | core/src/main/java/com/meowster/mcquad/BiomeInfluence.java:24-26 | `from(null)` is NONE; otherwise the constant named by the upper-cased text, or IllegalArgumentException |
| Materials.InfluenceFromNames | core/src/main/java/com/meowster/mcquad/BiomeInfluence.java:24-26 | every constant is found from its own name and from any spelling that upper-cases to it |
| Materials.InfluenceFromUnknown | core/src/main/java/com/meowster/mcquad/BiomeInfluence.java:24-26 | a name that upper-cases to no constant always fails |
| Materials.BlockEquals | core/src/main/java/com/meowster/mcquad/Block.java:79-86 | `equals`: true for the same block, otherwise equal block ids; a block without an id throws NullPointerException |
| Materials.BlockHashCode | core/src/main/java/com/meowster/mcquad/Block.java:88-91 | `hashCode()` fails exactly for a block without an id |
| Materials.BlockEqualsHash | core/src/main/java/com/meowster/mcquad/Block.java:79-91 | for blocks with ids, `equals` holds exactly when the hash codes agree |
| Materials.Influence | core/src/main/java/com/meowster/mcquad/Biome.java:40-47 | `influence(kind)` is the grass, water or foliage colour of the record, and white for NONE |
| Materials.NoInfluenceKeepsColor | core/src/main/java/com/meowster/mcquad/Biome.java:40-47 | multiplying a colour by the NONE influence leaves it unchanged |
| Materials.BiomeEquals | core/src/main/java/com/meowster/mcquad/Biome.java:63-70 | `equals`: true for the same biome, otherwise equal biome ids; a biome without an id throws NullPointerException |
| Colors.ClampByte | core/src/main/java/com/meowster/mcquad/Color.java:119-121 | the clamp keeps 0..255, maps anything below to 0 and anything above to 255 |
| Colors.Transparency | core/src/main/java/com/meowster/mcquad/Color.java:154-156 | `transparency()` and `alpha()` add up to 255 |
| Colors.Unpack | core/src/main/java/com/meowster/mcquad/Color.java:78-88 | shifting and masking a packed word, positive or wrapped negative, recovers each of its four bytes |
| Colors.FromIntToInt | core/src/main/java/com/meowster/mcquad/Color.java:78-125 | `new Color(c.toInt())` is `c`: unpacking inverts packing |
| Colors.ToIntFromInt | core/src/main/java/com/meowster/mcquad/Color.java:78-125 | `new Color(v).toInt()` is `v` for every int: packing inverts unpacking |
| Colors.EqualsIffSameComponents | core/src/main/java/com/meowster/mcquad/Color.java:203-215 | `equals` on the raw word holds exactly when all four components agree |
| Colors.ToInt | core/src/main/java/com/meowster/mcquad/Color.java:199-201 | `toInt()`, the packed word, is negative exactly when alpha is 128 or more |
| Colors.Hex | core/src/main/java/com/meowster/mcquad/Color.java:190-192 | `hex()` reads back through `hexAsLong` as the unsigned packed word, and `new Color(c.hex())` is `c` |
| Colors.FromHexString | core/src/main/java/com/meowster/mcquad/Color.java:96-98 | `new Color(String)`: fails with NumberFormatException exactly when `hexAsLong` does; otherwise the colour packs to the low 32 bits of the parsed long, so `new Color(c.hex())` is `c` (Colors.Hex) |
| Colors.Shade | core/src/main/java/com/meowster/mcquad/Color.java:224-226 | `shade(amount)` keeps alpha; each of red, green and blue becomes the component plus the amount clamped to 0..255 when the int sum does not overflow, and 0 when it wraps past the largest int |
| Colors.ShadeWraps | core/src/main/java/com/meowster/mcquad/Color.java:224-226 | the 32-bit wrap: red 1 shaded by the largest int gives 0, by one less gives 255 |
| Colors.ShadeZero | core/src/main/java/com/meowster/mcquad/Color.java:224-226 | shading by 0 changes nothing |
| Colors.ShadeCompose | core/src/main/java/com/meowster/mcquad/Color.java:224-226 | two shades in the same direction are one shade by the sum (clamping saturates), while no sum overflows |
| Colors.CombinedAlpha | core/src/main/java/com/meowster/mcquad/Color.java:329-331 | the combined alpha is at least both alphas |
| Colors.CombinedRgb | core/src/main/java/com/meowster/mcquad/Color.java:333-335 | a combined component lies between the overlay's component and the one beneath |
| Colors.Overlay | core/src/main/java/com/meowster/mcquad/Color.java:235-243 | the alpha of an overlay is at least both alphas |
| Colors.OverlayTransparent | core/src/main/java/com/meowster/mcquad/Color.java:235-243 | overlaying a fully transparent colour changes nothing |
| Colors.OverlayOpaque | core/src/main/java/com/meowster/mcquad/Color.java:235-243 | overlaying a fully opaque colour gives that colour |
| Colors.OverlayRepeat | core/src/main/java/com/meowster/mcquad/Color.java:255-260 | the loop of `overlay(o, repeatCount)` computes `repeatCount` overlays of `o` in turn (none for a count of zero or less) |
| Colors.OverlayTimesAlpha | core/src/main/java/com/meowster/mcquad/Color.java:255-260 | repeated overlays never lower alpha, and after one or more the alpha is at least the overlay's |
| Colors.OverlayTimesTransparent | core/src/main/java/com/meowster/mcquad/Color.java:255-260 | any number of transparent overlays change nothing |
| Colors.OverlayTimesOpaque | core/src/main/java/com/meowster/mcquad/Color.java:255-260 | one or more opaque overlays give the overlay colour |
| Colors.DemultiplyAlpha | core/src/main/java/com/meowster/mcquad/Color.java:268-279 | `demultiplyAlpha()` is TRANSPARENT for alpha 0 and otherwise keeps alpha |
| Colors.DemultiplyOpaque | core/src/main/java/com/meowster/mcquad/Color.java:268-279 | a fully opaque colour is left unchanged |
| Colors.DemultiplyRemultiply | core/src/main/java/com/meowster/mcquad/Color.java:277-279 | a de-multiplied component stays in 0..255 and multiplying back by alpha loses at most one |
| Colors.DemultiplyThenMultiply | core/src/main/java/com/meowster/mcquad/Color.java:268-315 | de-multiplying then multiplying by the alpha gives each component back or one less |
| Colors.MulComponent | core/src/main/java/com/meowster/mcquad/Color.java:313-315 | the component product `c * m / 255` is at most each factor |
| Colors.MultiplySolid | core/src/main/java/com/meowster/mcquad/Color.java:304-311 | `multiplySolid` keeps alpha |
| Colors.MultiplyProperties | core/src/main/java/com/meowster/mcquad/Color.java:288-315 | `multiply` is commutative, white is neutral for both products, and products never raise a component |
| Colors.Decode | core/src/main/java/com/meowster/mcquad/Color.java:364-365 | one colour per word, in order, and each colour packs back to exactly its word |
| Colors.AverageColor | core/src/main/java/com/meowster/mcquad/Color.java:353-373 | `averageColor`: TRANSPARENT for no words, the colour itself for one, otherwise the truncated mean of each channel |
| Colors.AverageUniform | core/src/main/java/com/meowster/mcquad/Color.java:353-373 | the average of copies of one colour is that colour |
| Colors.AverageAlphaBound | core/src/main/java/com/meowster/mcquad/Color.java:353-373 | the average's alpha is at most any bound on the alphas averaged |
| Colors.ChannelSumUniform | core/src/main/java/com/meowster/mcquad/Color.java:364-370 | the channel sum over copies of one colour is the count times the component |
| Colors.ChannelSumBound | core/src/main/java/com/meowster/mcquad/Color.java:364-370 | a channel sum is at most the count times a bound on the components |
| Colors.FromInt | core/src/main/java/com/meowster/mcquad/Color.java:78-90 | `new Color(int)`: alpha is 128 or more exactly when the word is negative |
| Colors.HashCode | core/src/main/java/com/meowster/mcquad/Color.java:213-215 | `hashCode()` determines the colour: unpacking it gives the colour back |
| Colors.Multiply | core/src/main/java/com/meowster/mcquad/Color.java:288-295 | `multiply(m)`: no component of the product exceeds that component of either colour |
| StringUtils.IndexOf | core/src/main/java/com/meowster/util/StringUtils.java:64 | `indexOf("{}", from)` finds the first token at or after `from` and none before it, or gives -1 when there is none |
| StringUtils.Format | core/src/main/java/com/meowster/util/StringUtils.java:50-70 | `format`: a null format string throws NullPointerException; otherwise the loop yields the formatter's result `FormatSpec`, with the format returned as it is when there are no arguments |
| StringUtils.FormatSpecPlainArguments | core/src/main/java/com/meowster/util/StringUtils.java:50-70 | when every argument text is non-empty and free of `{`, `format` replaces each `{}` of the format, left to right, by the next argument |
| StringUtils.FormatEmptyArgumentSkipsToken | core/src/main/java/com/meowster/util/StringUtils.java:64 | as written, `format("{}{}", "", "X")` is `{}` where the documented meaning gives `X` |
| StringUtils.FormatRescansInsertedText | core/src/main/java/com/meowster/util/StringUtils.java:64 | as written, inserted text is searched again: `format("{}", "{{}", "X")` is `{X` |
| StringUtils.IntendedFormatReplacesTokens | core/src/main/java/com/meowster/util/StringUtils.java:50-70 | the formatter that resumes past the inserted text replaces each `{}` of the format by the next argument, for every format and arguments |
| StringUtils.IntendedFromTail | core/src/main/java/com/meowster/util/StringUtils.java:64-68 | from any point of the intended loop, the rest of the format is the token replacement of what remains |
| StringUtils.IntendedStep | core/src/main/java/com/meowster/util/StringUtils.java:64-68 | one turn of the intended loop replaces the found token and resumes after the inserted text |
| StringUtils.IntendedSplit | core/src/main/java/com/meowster/util/StringUtils.java:64-68 | a turn of the intended loop on a format with a replaced prefix continues on the rest |
| StringUtils.IntendedFromTailStep | core/src/main/java/com/meowster/util/StringUtils.java:64-68 | the induction step of `IntendedFromTail` |
| StringUtils.IntendedFromTailDone | core/src/main/java/com/meowster/util/StringUtils.java:64-68 | the intended loop stops when no token remains, leaving the text unchanged |
| StringUtils.FormatFromTail | core/src/main/java/com/meowster/util/StringUtils.java:64-68 | from any point of the loop as written, with plain arguments, the rest of the format is the token replacement of what remains |
| StringUtils.FormatFromTailStep | core/src/main/java/com/meowster/util/StringUtils.java:64-68 | the induction step of `FormatFromTail` |
| StringUtils.FormatFromTailDone | core/src/main/java/com/meowster/util/StringUtils.java:64-68 | the loop as written stops when no token remains |
| StringUtils.FormatSplit | core/src/main/java/com/meowster/util/StringUtils.java:64-68 | with a plain argument, the loop as written resumes where the intended one does |
| StringUtils.FormatResume | core/src/main/java/com/meowster/util/StringUtils.java:64 | two resume points with the same next token give the same result |
| StringUtils.PlainInsertSkipped | core/src/main/java/com/meowster/util/StringUtils.java:64-66 | a plain inserted text holds no token that `indexOf` from `p + 1` could find |
| StringUtils.IndexOfSkip | core/src/main/java/com/meowster/util/StringUtils.java:64 | `indexOf` gives the same answer from anywhere in a token-free stretch |
| StringUtils.ReplaceTokensSkip | core/src/main/java/com/meowster/util/StringUtils.java:50-70 | the documented replacement copies a token-free prefix unchanged |
| StringUtils.ReplaceTokensAt | core/src/main/java/com/meowster/util/StringUtils.java:50-70 | the documented replacement of a text whose first token is at `k` |
| StringUtils.ReplaceTokensSplit | core/src/main/java/com/meowster/util/StringUtils.java:50-70 | the documented replacement of a suffix after its first token |
| StringUtils.TokenFreePrefix | core/src/main/java/com/meowster/util/StringUtils.java:64 | no token starts before the one `indexOf` finds |
| StringUtils.LineEnd | core/src/main/java/com/meowster/util/StringUtils.java:174-175 | the end of a line of `^(.*)$`: the next line terminator at or after `from`, with none before it |
| StringUtils.Lines | core/src/main/java/com/meowster/util/StringUtils.java:174-186 | the lines found in multi-line mode hold no line terminator |
| StringUtils.StripCommentLines | core/src/main/java/com/meowster/util/StringUtils.java:183-193 | `stripCommentLines(s)` is every line of `s` not starting with `#`, in order, each followed by the line separator |
| StringUtils.StripCommentLinesKeepsLines | core/src/main/java/com/meowster/util/StringUtils.java:183-193 | reading the result's lines again gives exactly the kept lines, and none of them is a comment |
| StringUtils.KeptTextLines | core/src/main/java/com/meowster/util/StringUtils.java:183-193 | lines without terminators joined with `\n` split back into those lines |
| StringUtils.LinesOfLine | core/src/main/java/com/meowster/util/StringUtils.java:174-186 | a line followed by `\n` is the first line found |
| StringUtils.LineEndAt | core/src/main/java/com/meowster/util/StringUtils.java:174-186 | the line ends at the first terminator |
| StringUtils.KeptNoComment | core/src/main/java/com/meowster/util/StringUtils.java:188 | no kept line starts with `#` |
| StringUtils.HexDigitValue | core/src/main/java/com/meowster/util/StringUtils.java:207-227 | a hex digit, in either case, has a value below 16 |
| StringUtils.ParseHex | core/src/main/java/com/meowster/util/StringUtils.java:207-227 | `Long.parseLong(h, 16)` / `Integer.parseInt(h, 16)`: a parsed value lies in the type's range |
| StringUtils.HexChar | core/src/main/java/com/meowster/util/StringUtils.java:235-249 | the digit written for `d` reads back as `d` |
| StringUtils.HexDigitsValue | core/src/main/java/com/meowster/util/StringUtils.java:235-249 | `toHexString` of a non-negative value is a non-empty, unsigned, unpadded hex text that reads back as the value |
| StringUtils.HexOfAsHexInt | core/src/main/java/com/meowster/util/StringUtils.java:224-249 | `hex(asHex(v))` is `v` for a non-negative int |
| StringUtils.HexOfAsHexIntNegative | core/src/main/java/com/meowster/util/StringUtils.java:224-249 | `hex(asHex(v))` throws for a negative int: the unsigned pattern overflows `parseInt` |
| StringUtils.HexAsLongOfAsHexInt | core/src/main/java/com/meowster/util/StringUtils.java:207-249 | `hexAsLong(asHex(v))` is the unsigned 32-bit pattern of `v` |
| StringUtils.HexAsLongOfAsHexLong | core/src/main/java/com/meowster/util/StringUtils.java:207-237 | `hexAsLong(asHex(v))` is `v` for a non-negative long |
| StringUtils.HexValueUpperCase | core/src/main/java/com/meowster/util/StringUtils.java:207-227 | upper- and lower-case hex digits read as the same value |
| StringUtils.HexValueLeadingZero | core/src/main/java/com/meowster/util/StringUtils.java:207-227 | a leading zero does not change a hex value |
| StringUtils.Hex | core/src/main/java/com/meowster/util/StringUtils.java:224-227 | `hex(s)` succeeds exactly when `hexAsLong(s)` does with a value in int range, and then agrees with it; otherwise NumberFormatException |
| StringUtils.HexAsLong | core/src/main/java/com/meowster/util/StringUtils.java:207-210 | `hexAsLong(s)` fails only with NumberFormatException; a value needs a digit after the stripped `0x`, and a negative one a leading minus |
| StringUtils.AsHexInt | core/src/main/java/com/meowster/util/StringUtils.java:246-249 | `asHex(int)` is `0x` and unpadded hex digits whose value is the int's unsigned 32-bit pattern |
| StringUtils.AsHexLong | core/src/main/java/com/meowster/util/StringUtils.java:235-238 | `asHex(long)` is `0x` and unpadded hex digits whose value is the long's unsigned 64-bit pattern |
| ColorTables.LastDefault | core/src/main/java/com/meowster/mcquad/BlockColors.java:42-55 | the default block record is the last record without an id; there is none only when every record has an id |
| ColorTables.ReplicateContents | core/src/main/java/com/meowster/mcquad/BlockColors.java:62-79 | replicating a block under `(id, 0..n-1)` adds exactly those keys, each holding the block, and keeps every other entry |
| ColorTables.IndexRecordContents | core/src/main/java/com/meowster/mcquad/BlockColors.java:58-67 | `indexBlock` adds exactly the keys its record covers (all sixteen data values for "not applicable") and keeps every other entry |
| ColorTables.IndexAllContents | core/src/main/java/com/meowster/mcquad/BlockColors.java:36-67 | the cache holds a key exactly when some record covers it, and then the block of the last record that does |
| ColorTables.IndexAllDataValues | core/src/main/java/com/meowster/mcquad/BlockColors.java:62-75 | every cached key has a data value in 0..15, so "not applicable" is never itself a key |
| ColorTables.BlockColors.New | core/src/main/java/com/meowster/mcquad/BlockColors.java:36-56 | `new BlockColors()` over the records: IllegalStateException exactly when no record lacks an id; otherwise the cache is the indexed records, the default the last id-less record, nothing defaulted |
| ColorTables.BlockColors.GetBlock | core/src/main/java/com/meowster/mcquad/BlockColors.java:119-127 | `getBlock(id, dv)`: IllegalArgumentException for an invalid id; the cached block when present; otherwise the default, with the id added to the defaulted set |
| ColorTables.BlockColors.GetBlockOfId | core/src/main/java/com/meowster/mcquad/BlockColors.java:106-108 | `getBlock(id)` is `getBlock(id, 0)` |
| ColorTables.BlockColors.FullyOpaque | core/src/main/java/com/meowster/mcquad/BlockColors.java:137-140 | `fullyOpaque(id, dv)`: the cached block's opacity; IllegalArgumentException for an invalid id; NullPointerException when unboxing the missing entry of an uncached id |
| ColorTables.LastDefaultBiome | core/src/main/java/com/meowster/mcquad/BiomeColors.java:38-51 | the default biome record is the last record without an id; there is none only when every record has an id |
| ColorTables.IndexBiomesContents | core/src/main/java/com/meowster/mcquad/BiomeColors.java:39-47 | the cache holds an id exactly when some record has it, and then the biome of the last such record |
| ColorTables.BiomeColors.New | core/src/main/java/com/meowster/mcquad/BiomeColors.java:32-52 | `new BiomeColors()`: IllegalStateException exactly when no record lacks an id; otherwise the cache is the indexed records and the default the last id-less record |
| ColorTables.BiomeColors.GetBiome | core/src/main/java/com/meowster/mcquad/BiomeColors.java:78-86 | `getBiome(id)`: IllegalArgumentException outside 0..255; the cached biome when present; otherwise the default, with the id added to the defaulted set |
| Voxels.Resolve | core/src/main/java/com/meowster/mcquad/BlockColors.java:119-127 | a table lookup, of blocks or of biomes, yields the cached entry for the key or else the default |
| Voxels.ComputeColor | core/src/main/java/com/meowster/mcquad/BlockData.java:54-58 | `computeColor()` keeps the block colour's alpha, and a block with no biome influence keeps its table colour |
| Voxels.FullyOpaqueIsOpaqueEnough | core/src/main/java/com/meowster/mcquad/BlockData.java:76-89 | a fully opaque block is opaque enough for shading |
| Voxels.NewBlockData | core/src/main/java/com/meowster/mcquad/BlockData.java:33-38 | `new BlockData(id, data, biome)` succeeds exactly for a valid id and unsigned data value; it holds the looked-up block and its computed colour, and a miss adds the key to the defaulted set |
| Voxels.AirBlockData | core/src/main/java/com/meowster/mcquad/BlockData.java:43-47 | `new BlockData()`: the air block, the default biome and a transparent colour; a miss on air is recorded as defaulted |
| Voxels.AirNotOpaqueEnough | core/src/main/java/com/meowster/mcquad/BlockData.java:43-47 | the air block data is never opaque enough |
| Voxels.BiomeKey | core/src/main/java/com/meowster/mcquad/ChunkBiomeData.java:43-47 | the biome id read for an index is the unsigned byte at the index's column, in 0..255 |
| Voxels.BiomeKeyPerColumn | core/src/main/java/com/meowster/mcquad/ChunkBiomeData.java:43-47 | indexes that differ by whole layers of 256 read the same biome |
| Voxels.BiomeAt | core/src/main/java/com/meowster/mcquad/ChunkBiomeData.java:43-47 | `biomeAt(i)`: the default biome without data; otherwise the biome of column `i % 256`, out of bounds when the array is shorter, with a miss added to the defaulted set |
| Chunks.IndexBijection | core/src/main/java/com/meowster/mcquad/ChunkSection.java:111-113 | `index(x, y, z)` lies in the section and gives x, z and y back by remainder and quotient |
| Chunks.IndexOnto | core/src/main/java/com/meowster/mcquad/ChunkSection.java:111-113 | every index of the section is `index` of some position |
| Chunks.Nybble | core/src/main/java/com/meowster/mcquad/ChunkSection.java:75-80 | `nybble(arr, i)` is the low four bits of byte `i / 2` for even `i` and the high four bits for odd `i`, read unsigned |
| Chunks.NybblePacking | core/src/main/java/com/meowster/mcquad/ChunkSection.java:75-80 | a byte packed from two nybbles gives both back |
| Chunks.SectionId | core/src/main/java/com/meowster/mcquad/ChunkSection.java:48-49 | the block id is the unsigned low byte, plus the add nybble above it when there is an add array; below 256 without one |
| Chunks.Limit | core/src/main/java/com/meowster/mcquad/ChunkSection.java:45-63 | the first index at which one of the arrays is too short (4096 when none is): every index before it can be read and it cannot |
| Chunks.LimitFirstGap | core/src/main/java/com/meowster/mcquad/ChunkSection.java:45-63 | an index up to the limit can be read exactly when it is below the limit |
| Chunks.Entry | core/src/main/java/com/meowster/mcquad/ChunkSection.java:48-52 | each entry's computed colour is that of its block and biome |
| Chunks.Entries | core/src/main/java/com/meowster/mcquad/ChunkSection.java:47-53 | the first `n` entries, one per index |
| Chunks.EntriesAt | core/src/main/java/com/meowster/mcquad/ChunkSection.java:47-53 | entry `i` of the first `n` is the block data decoded at index `i` |
| Chunks.EntriesColored | core/src/main/java/com/meowster/mcquad/ChunkSection.java:47-53 | every decoded entry carries its computed colour |
| Chunks.TopOpaqueBelow | core/src/main/java/com/meowster/mcquad/ChunkSection.java:102-109 | the highest fully opaque height below `n` in a column, with none above it, or -1 |
| Chunks.ChunkSection.New | core/src/main/java/com/meowster/mcquad/ChunkSection.java:32-63 | `new ChunkSection`: ArrayIndexOutOfBoundsException exactly when an array is too short for all 4096 indexes; otherwise every entry is the block data decoded at its index; the defaulted sets grow by the ids missed before the limit |
| Chunks.ChunkSection.BlockAt | core/src/main/java/com/meowster/mcquad/ChunkSection.java:90-92 | `blockAt(x, y, z)`: the entry at `index(x, y, z)`, out of bounds outside the section |
| Chunks.ChunkSection.HighOpaque | core/src/main/java/com/meowster/mcquad/ChunkSection.java:102-109 | `highOpaque(x, z)`: the highest fully opaque height in the column, with none above it, or -1 |
| Chunks.Process | core/src/main/java/com/meowster/mcquad/ChunkSection.java:45-63 | the `process` loop fills the array up to the limit and stops there with ArrayIndexOutOfBoundsException when an array is too short |
| Chunks.FillEntry | core/src/main/java/com/meowster/mcquad/ChunkSection.java:47-53 | one turn of the loop stores the decoded entry and extends the filled prefix by one, or fails exactly at the limit |
| Chunks.DecodeEntry | core/src/main/java/com/meowster/mcquad/ChunkSection.java:48-52 | the entry at an index, failing exactly when one of its arrays is too short; the looked-up ids that miss join the defaulted sets |
| Chunks.GrowMissed | core/src/main/java/com/meowster/mcquad/ChunkSection.java:47-53 | the defaulted sets after one more entry are those of the longer prefix |
| Chunks.MissedStep | core/src/main/java/com/meowster/mcquad/ChunkSection.java:47-53 | the ids missed by a prefix grow by the entry's missed ids |
| ChunkColumns.ViewBlockAt | core/src/main/java/com/meowster/mcquad/Chunk.java:170-175 | `blockAt(x, y, z)` with Java's truncating `/` and `%`: the column block for heights 0..255; for -15..-1 the air block when section 0 is absent and ArrayIndexOutOfBoundsException when it is present; out of bounds elsewhere |
| ChunkColumns.InSection | core/src/main/java/com/meowster/mcquad/Chunk.java:170-175 | a height in section `s` divides to `s` with its offset in the section as remainder |
| ChunkColumns.TopOpaque | core/src/main/java/com/meowster/mcquad/Chunk.java:177-190 | the highest fully opaque height found from section `s` down lies in -1 up to the top of `s` |
| ChunkColumns.TopOpaqueMeaning | core/src/main/java/com/meowster/mcquad/Chunk.java:177-190 | that height holds a fully opaque block and nothing above it up to the top of section `s` is fully opaque |
| ChunkColumns.TopOpaqueStep | core/src/main/java/com/meowster/mcquad/Chunk.java:180-185 | one section's `highOpaque`, shifted by the section base, is fully opaque with nothing opaque above it in the section |
| ChunkColumns.OpaqueInSection | core/src/main/java/com/meowster/mcquad/Chunk.java:170-175 | a height in section `s` is fully opaque exactly when the section is present and its block at the local height is |
| ChunkColumns.FoldStep | core/src/main/java/com/meowster/mcquad/Chunk.java:152-160 | one turn of the inner loop overlays the block's colour and moves the height marker when the block is opaque enough |
| ChunkColumns.HeightMarkMeaning | core/src/main/java/com/meowster/mcquad/Chunk.java:152-160 | the height marker ends at the highest opaque-enough block of the range, or stays where it started when there is none |
| ChunkColumns.ColorFoldAlpha | core/src/main/java/com/meowster/mcquad/Chunk.java:152-160 | overlaying the blocks above never lowers the colour's alpha |
| ChunkColumns.ColorFoldClearAbove | core/src/main/java/com/meowster/mcquad/Chunk.java:152-160 | fully transparent blocks above leave the colour unchanged |
| ChunkColumns.ColumnResultOf | core/src/main/java/com/meowster/mcquad/Chunk.java:142-164 | a column's stored values are the de-multiplied fold of its colours and its height marker, unless reading its first block fails |
| ChunkColumns.FirstBlockIsBlockAt | core/src/main/java/com/meowster/mcquad/Chunk.java:144 | the block the column starts from is `blockAt(x, yOpaque, z)` |
| ChunkColumns.ColumnExists | core/src/main/java/com/meowster/mcquad/Chunk.java:139-144 | a column has a result exactly when it holds a fully opaque block or section 0 is absent; otherwise `blockAt(x, -1, z)` throws ArrayIndexOutOfBoundsException (the comment's "always >= 0" does not hold for a column with no opaque block) |
| ChunkColumns.ColumnHeight | core/src/main/java/com/meowster/mcquad/Chunk.java:143-160 | a column's height is at least its top opaque block, below the top of the highest section, opaque enough when above the top opaque block, with nothing opaque enough above it |
| ChunkColumns.ColumnSucceeds | core/src/main/java/com/meowster/mcquad/Chunk.java:142-164 | a column with a fully opaque block always has a result |
| ChunkColumns.ColumnOpaque | core/src/main/java/com/meowster/mcquad/Chunk.java:142-164 | over a fully opaque block the surface colour is fully opaque |
| ChunkColumns.FirstBlockMeaning | core/src/main/java/com/meowster/mcquad/Chunk.java:142-149 | the first block can be read exactly when the column has a fully opaque block or section 0 is absent, and a fully opaque block's colour has alpha 255 |
| ChunkColumns.Results | core/src/main/java/com/meowster/mcquad/Chunk.java:134-166 | the table of every column's result, 16 by 16 |
| ChunkColumns.FirstFailingColumn | core/src/main/java/com/meowster/mcquad/Chunk.java:137-165 | the first failing column of a row from `x` on: all before it succeed |
| ChunkColumns.FirstFailure | core/src/main/java/com/meowster/mcquad/Chunk.java:136-166 | the first failing column in z-major order from row `z` on: every column before it succeeds |
| ChunkColumns.FirstFailureIs | core/src/main/java/com/meowster/mcquad/Chunk.java:136-166 | a failing column with every earlier column succeeding is the first failure |
| ChunkColumns.HighestPresent | core/src/main/java/com/meowster/mcquad/Chunk.java:192-197 | the highest present section with none above it, or -1 |
| ChunkColumns.ViewOf | core/src/main/java/com/meowster/mcquad/Chunk.java:40 | the sections as values: absent exactly where the array holds null, otherwise the section's block data |
| ChunkColumns.Chunk.Load | core/src/main/java/com/meowster/mcquad/Chunk.java:49-97 | `new Chunk`: a root tag that cannot be read (the swallowed IOException) gives an empty chunk with highest section 0; a root without a level tag throws NullPointerException; otherwise the level's sections, failing with ArrayIndexOutOfBoundsException exactly when no section is present; fresh surface arrays |
| ChunkColumns.Chunk.HighestUsedSection | core/src/main/java/com/meowster/mcquad/Chunk.java:192-197 | `highestUsedSection()`: the highest present section; with none the scan runs below index 0 and throws |
| ChunkColumns.Chunk.BlockAt | core/src/main/java/com/meowster/mcquad/Chunk.java:170-175 | `blockAt(x, y, z)` of the chunk is the value-level `ViewBlockAt` |
| ChunkColumns.Chunk.HighestOpaqueBlock | core/src/main/java/com/meowster/mcquad/Chunk.java:177-190 | the loop of `highestOpaqueBlock` returns `TopOpaque` of the highest section |
| ChunkColumns.Chunk.Surface | core/src/main/java/com/meowster/mcquad/Chunk.java:142-164 | one column of `computeColorsAndHeights` yields the column's result, or ArrayIndexOutOfBoundsException |
| ChunkColumns.Chunk.OverlayAbove | core/src/main/java/com/meowster/mcquad/Chunk.java:152-160 | the inner loop yields the colour fold and the height marker over the blocks from `y0` to `maxY` |
| ChunkColumns.Chunk.ComputeColorsAndHeights | core/src/main/java/com/meowster/mcquad/Chunk.java:134-167 | `computeColorsAndHeights()` stores every column before the first failure in z-major order, fails there with ArrayIndexOutOfBoundsException, and leaves every later column untouched |
| ChunkColumns.Chunk.StoreColumn | core/src/main/java/com/meowster/mcquad/Chunk.java:142-164 | one column stores its de-multiplied colour and its height cast to short, and nothing else changes |
| ChunkColumns.Chunk.ComputeRow | core/src/main/java/com/meowster/mcquad/Chunk.java:137-165 | one row stores its columns up to its first failure and leaves the rest untouched |
| Ledger.Decayed | core/src/main/java/com/meowster/mcquad/MetaRegion.java:92-96 | `decTtl()` lowers a positive time-to-live by one, never below zero, and leaves zero or a negative one as it is |
| Ledger.Refreshed | core/src/main/java/com/meowster/mcquad/RegionCachedMetaData.java:139-145 | a region modified after its touch time restarts at the maximum time-to-live with the new time; otherwise it keeps its time and decays |
| Ledger.Updated | core/src/main/java/com/meowster/mcquad/RegionCachedMetaData.java:130-147 | after `update` the ledger holds the old coordinates and every modified region, each modified one refreshed from its previous entry (or a fresh one), every other kept as it was |
| Ledger.StaleOf | core/src/main/java/com/meowster/mcquad/RegionCachedMetaData.java:130-147 | the stale regions are exactly the modified ones whose modification time is later than their previous touch time |
| Ledger.UpdateKeepsTtlsInRange | core/src/main/java/com/meowster/mcquad/RegionCachedMetaData.java:139-145 | times-to-live stay between 0 and 15 across an update |
| Ledger.UpdateAgainNothingStale | core/src/main/java/com/meowster/mcquad/RegionCachedMetaData.java:139 | updating a second time with the same modification times finds nothing stale |
| Ledger.StaleRestarted | core/src/main/java/com/meowster/mcquad/RegionCachedMetaData.java:139-145 | a stale region is set to the maximum time-to-live and its modification time; a region that is not stale keeps its time and decays |
| Ledger.Restrict | core/src/main/java/com/meowster/mcquad/RegionCachedMetaData.java:133 | the modification times of the regions visited so far |
| Ledger.UpdatedStep | core/src/main/java/com/meowster/mcquad/RegionCachedMetaData.java:133-146 | visiting one more region changes only its own entry and adds it to the stale set exactly when it is stale, whatever the order of the visit |
| Ledger.UpdateStepOf | core/src/main/java/com/meowster/mcquad/RegionCachedMetaData.java:133-146 | a ledger and stale set refreshed at one more region are those of the update over the regions visited so far plus that region |
| Ledger.SpaceSpan | core/src/main/java/com/meowster/mcquad/MetaRegion.java:16 | the end of the run of whitespace (`\\s+`) from a position |
| Ledger.DigitSpan | core/src/main/java/com/meowster/mcquad/MetaRegion.java:16 | the end of the run of digits (`\\d+`) from a position |
| Ledger.ParseRecord | core/src/main/java/com/meowster/mcquad/MetaRegion.java:113-125 | a line that does not match the record pattern gives no record (null) |
| Ledger.NatTextDigits | core/src/main/java/com/meowster/mcquad/MetaRegion.java:104 | `%d` of a non-negative number is a non-empty run of digits |
| Ledger.CoordTextMatches | core/src/main/java/com/meowster/mcquad/MetaRegion.java:16 | a coordinate's text matches `\[-?\d+,-?\d+\]` and ends at its only `]` |
| Ledger.DigitSpanOf | core/src/main/java/com/meowster/mcquad/MetaRegion.java:16 | a run of digits followed by a non-digit is exactly one `\\d+` |
| Ledger.SpaceSpanOne | core/src/main/java/com/meowster/mcquad/MetaRegion.java:16 | one space before a non-space is exactly one `\\s+` |
| Ledger.TailOfDigits | core/src/main/java/com/meowster/mcquad/MetaRegion.java:16 | two space-separated runs of digits match the tail of the pattern, giving the two groups |
| Ledger.TailWithSign | core/src/main/java/com/meowster/mcquad/MetaRegion.java:16 | a negative time-to-live or touch time does not match the pattern |
| Ledger.RecordSplits | core/src/main/java/com/meowster/mcquad/MetaRegion.java:16 | a coordinate's text followed by a tail matches exactly when the tail does |
| Ledger.ParseRecordText | core/src/main/java/com/meowster/mcquad/MetaRegion.java:103-125 | the record line of a region with non-negative values parses back to the same region; a negative value makes the line unreadable (null) |
| Ledger.MetaRegion.constructor | core/src/main/java/com/meowster/mcquad/MetaRegion.java:30-32 | a new MetaRegion holds its coordinate with time-to-live 0 and touch time 0 |
| Ledger.MetaRegion.SetTouched | core/src/main/java/com/meowster/mcquad/MetaRegion.java:73-76 | `setTouched` sets the touch time only and returns the region itself |
| Ledger.MetaRegion.SetTtl | core/src/main/java/com/meowster/mcquad/MetaRegion.java:84-87 | `setTtl` sets the time-to-live only and returns the region itself |
| Ledger.MetaRegion.DecTtl | core/src/main/java/com/meowster/mcquad/MetaRegion.java:92-96 | `decTtl()` decays the time-to-live and keeps the touch time |
| Ledger.MetaRegion.StringRecord | core/src/main/java/com/meowster/mcquad/MetaRegion.java:103-105 | `stringRecord()` of a region with non-negative values reads back as that region |
| Ledger.MetaRegionOf | core/src/main/java/com/meowster/mcquad/MetaRegion.java:113-125 | `metaRegion(s)`: null for a line that does not match, a number-format failure for values too large, otherwise a fresh region holding the parsed coordinate, time-to-live and touch time |
| Ledger.CoordsOfAdd | core/src/main/java/com/meowster/mcquad/RegionCachedMetaData.java:142 | adding a region to the set to process adds its coordinate to the stale coordinates |
| Ledger.Refresh | core/src/main/java/com/meowster/mcquad/RegionCachedMetaData.java:139-145 | one region's check against its modification time refreshes its entry and reports whether it was stale |
| Ledger.ValuesUpdate | core/src/main/java/com/meowster/mcquad/RegionCachedMetaData.java:137 | putting a region into the map adds at most that region to its values |
| Ledger.RegionCachedMetaData.Entries | core/src/main/java/com/meowster/mcquad/RegionCachedMetaData.java:32 | the ledger as values: one entry per coordinate in the map |
| Ledger.RegionCachedMetaData.Empty | core/src/main/java/com/meowster/mcquad/RegionCachedMetaData.java:78-83 | a new cache with no cache file holds no regions, no set to process and no quad shift |
| Ledger.RegionCachedMetaData.Size | core/src/main/java/com/meowster/mcquad/RegionCachedMetaData.java:96-98 | `size()` is the number of coordinates held |
| Ledger.RegionCachedMetaData.Lookup | core/src/main/java/com/meowster/mcquad/RegionCachedMetaData.java:134-138 | the region held for a coordinate, or a fresh one put into the map; no entry changes but the new one |
| Ledger.RegionCachedMetaData.Touch | core/src/main/java/com/meowster/mcquad/RegionCachedMetaData.java:134-145 | one turn of the loop of `update`: the coordinate's entry is refreshed against the modification time, nothing else changes, and it reports whether the region was stale |
| Ledger.RegionCachedMetaData.RefreshAt | core/src/main/java/com/meowster/mcquad/RegionCachedMetaData.java:139-145 | refreshing a held region changes only its own entry |
| Ledger.RegionCachedMetaData.UpdateOne | core/src/main/java/com/meowster/mcquad/RegionCachedMetaData.java:133-146 | each turn of the loop keeps the ledger and the set to process equal to the update over the regions visited so far |
| Ledger.RegionCachedMetaData.Update | core/src/main/java/com/meowster/mcquad/RegionCachedMetaData.java:130-147 | `update(regionData)` leaves the ledger `Updated` by the modification times and the set to process the stale regions |
| Ledger.RegionCachedMetaData.Stale | core/src/main/java/com/meowster/mcquad/RegionCachedMetaData.java:154-160 | `stale()` is the coordinates of the set to process; before any update it throws NullPointerException |
| Ledger.RegionCachedMetaData.UpdateQuadShift | core/src/main/java/com/meowster/mcquad/RegionCachedMetaData.java:168-172 | `updateQuadShift` stores the calibration and reports whether it differs from the one held |
| Ledger.RegionCachedMetaData.RegionTtlMap | core/src/main/java/com/meowster/mcquad/RegionCachedMetaData.java:179-185 | `regionTtlMap()` maps every held coordinate to its time-to-live |
| Decimal.IndexOf | core/src/main/java/com/meowster/mcquad/Region.java:96-98 | the first position of a character in a text, or its end: no earlier position holds it |
| Decimal.IntToStringWithout | core/src/main/java/com/meowster/mcquad/Region.java:97 | a number's decimal text holds no character other than digits and the minus sign, so no dot, comma or `]` |
| Regions.SplitAtDot | core/src/main/java/com/meowster/mcquad/Region.java:97 | the text `x.z` splits at its first dot back into the two numbers' texts |
| Regions.TileNameInjective | core/src/main/java/com/meowster/mcquad/Region.java:96-98 | `tileName()` (`t.<x>.<z>.png`) names different coordinates differently |
| Regions.RegionFileMatch | core/src/main/java/com/meowster/mcquad/RegionData.java:26-27 | a name matching `^r\.(-?\d+)\.(-?\d+)\.mca$` is `r.`, two signed decimal groups and `.mca` |
| Regions.ParseRegionFileName | core/src/main/java/com/meowster/mcquad/RegionData.java:95-99 | a name that does not match gives no region (the file is skipped) |
| Decimal.SignedDigitsOfInt | core/src/main/java/com/meowster/mcquad/RegionData.java:27 | a number's decimal text is an optional minus and digits |
| Regions.ParseRegionFileNameRoundTrip | core/src/main/java/com/meowster/mcquad/RegionData.java:95-99 | the region file name of a coordinate matches with its two numbers' texts and parses back to the coordinate |
| Regions.RegionFileMatchExamples | core/src/main/java/com/meowster/mcquad/RegionData.java:26-27 | `r.-1.2.mca` matches; `r.1.2.mcr`, `r.1.mca` and `r.-.2.mca` do not |
| Regions.Region.Mock | core/src/main/java/com/meowster/mcquad/Region.java:50-52 | `new Region(x, z)`: a mock region without a file or a region file |
| Regions.Region.Opened | core/src/main/java/com/meowster/mcquad/Region.java:36-41 | a region holds its coordinate, file, mock flag and region file |
| Regions.Region.GetChunkDataStream | core/src/main/java/com/meowster/mcquad/Region.java:110-112 | `getChunkDataStream` is null without a region file and otherwise the region file's stream |
| Regions.Region.ReleaseResources | core/src/main/java/com/meowster/mcquad/Region.java:119-121 | `releaseResources()` drops the region file |
| Regions.NewRegion | core/src/main/java/com/meowster/mcquad/Region.java:36-41 | `new Region(x, z, f, mock)`: with no file no region file; with a file a fresh region file loaded from its contents, failing when a real file is missing or malformed |
| Regions.RegionEquality | core/src/main/java/com/meowster/mcquad/Region.java:59-71 | `equals` is reflexive, symmetric and transitive, holds exactly for equal coordinates, and equal regions hash alike |
| Regions.ReleasedHasNoStream | core/src/main/java/com/meowster/mcquad/Region.java:110-121 | after `releaseResources()` every chunk stream is null |
| Regions.ByCoord | core/src/main/java/com/meowster/mcquad/RegionData.java:39 | the regions keyed by coordinate: each key maps to a region with that coordinate |
| Regions.ByCoordKeys | core/src/main/java/com/meowster/mcquad/RegionData.java:46-59 | the keys are exactly the regions' coordinates |
| Regions.ByCoordAdd | core/src/main/java/com/meowster/mcquad/RegionData.java:56-59 | adding a region puts it at its coordinate |
| Regions.UnionUpdate | core/src/main/java/com/meowster/mcquad/RegionData.java:58 | putting into a merged map is putting into its second part |
| Regions.RegionData.constructor | core/src/main/java/com/meowster/mcquad/RegionData.java:38-39 | new region data has empty bounds and no regions |
| Regions.RegionData.LoadRegion | core/src/main/java/com/meowster/mcquad/RegionData.java:56-59 | `loadRegion(r)` puts the region at its coordinate, growing the bounds to match |
| Regions.RegionData.Load | core/src/main/java/com/meowster/mcquad/RegionData.java:46-49 | `load(regions)` adds every region at its coordinate, whatever the order of the loop |
| Regions.RegionData.At | core/src/main/java/com/meowster/mcquad/RegionData.java:144-146 | `at(x, z)` is non-null exactly for a loaded coordinate and then has that coordinate |
| Regions.RegionData.Size | core/src/main/java/com/meowster/mcquad/RegionData.java:153-155 | `size()` is the number of coordinates in the bounds |
| Regions.LoadedFromSet | core/src/main/java/com/meowster/mcquad/RegionData.java:46-59 | after loading a set of regions with distinct coordinates the size is the set's size, the bounds hold exactly their coordinates, and each is found at its coordinate |
| Regions.CoordsOfDistinct | core/src/main/java/com/meowster/mcquad/RegionData.java:153-155 | regions with distinct coordinates have as many coordinates as regions |
| Regions.WindowsPartition | core/src/main/java/com/meowster/mcquad/RegionImageData.java:53-55 | every pixel of the region image lies in exactly one of the four 256-pixel windows |
| Regions.RegionImageData.constructor | core/src/main/java/com/meowster/mcquad/RegionImageData.java:28-34 | the quad coordinate is twice the region's plus the delta, and the image is a fresh 512 by 512 grid of the chunks' pixels |
| Regions.RegionImageData.GetImage | core/src/main/java/com/meowster/mcquad/RegionImageData.java:53-55 | `getImage(dx, dz)` holds the pixels of the 256 by 256 window at `(dx, dz)` times 256 (as a new image, where Java's sub-image shares the raster), failing with a raster error when the window does not fit and NullPointerException after release |
| Regions.RegionImageData.ReleaseResources | core/src/main/java/com/meowster/mcquad/RegionImageData.java:60-63 | `releaseResources()` drops the image and the region's region file |
| Regions.WindowFitsExactly | core/src/main/java/com/meowster/mcquad/RegionImageData.java:53-55 | a window fits the region image exactly when its index is 0 or 1 |
| Regions.Region.Equals | core/src/main/java/com/meowster/mcquad/Region.java:59-71 | `equals` holds exactly for another region with the same tile name, hence the same coordinate, whatever the file; equal regions have equal `hashCode` |
| Regions.Region.TileName | core/src/main/java/com/meowster/mcquad/Region.java:96-98 | `tileName()` is `t.` + x + `.` + z + `.png`, the name `TileFileName` gives, which no region at another coordinate shares |
| Decimal.IntToString | core/src/main/java/com/meowster/mcquad/Region.java:96-98 | a number's decimal text is non-empty and starts with a minus exactly for negative numbers |
| Decimal.SignedValueToString | core/src/main/java/com/meowster/mcquad/Region.java:96-98 | the decimal text of a number spells that number |
| Decimal.ParseInt | core/src/main/java/com/meowster/mcquad/RegionData.java:97-98 | `Integer.parseInt` fails only with NumberFormatException, and an int it reads is what `Long.parseLong` reads |
| Decimal.ParseLong | core/src/main/java/com/meowster/mcquad/MetaRegion.java:118 | `Long.valueOf` fails only with NumberFormatException, and a negative value comes from a leading minus |
| Decimal.ParseIntToString | core/src/main/java/com/meowster/mcquad/RegionData.java:97-98 | reading back the decimal text of an int gives the int |
| Decimal.ParseLongToString | core/src/main/java/com/meowster/mcquad/MetaRegion.java:118 | reading back the decimal text of a long gives the long |
| RegionFiles.ReadInt | core/src/main/java/com/meowster/mcquad/RegionFile.java:114-116 | `readInt()` at a position succeeds exactly when four bytes remain |
| RegionFiles.IntBytes | core/src/main/java/com/meowster/mcquad/RegionFile.java:38-39 | the four big-endian bytes of an int |
| RegionFiles.BigEndianIntBytes | core/src/main/java/com/meowster/mcquad/RegionFile.java:38-39 | the four bytes, read as a big-endian number, are the int's unsigned value |
| RegionFiles.ReadIntBytes | core/src/main/java/com/meowster/mcquad/RegionFile.java:114-116 | reading an int from where its four big-endian bytes were placed gives it back |
| RegionFiles.Payload | core/src/main/java/com/meowster/mcquad/RegionFile.java:246-250 | the data stream of a chunk holds exactly the requested number of bytes |
| RegionFiles.WordParts | core/src/main/java/com/meowster/mcquad/RegionFile.java:162-163 | a location word is 256 times its sector (`>> 8`) plus its count (`& 0xff`), the count in 0..255, the sector negative exactly when bit 31 is set |
| RegionFiles.ChunkIndex | core/src/main/java/com/meowster/mcquad/RegionFile.java:238-244 | `x + z * 32` maps the in-bounds chunk coordinates one to one onto the 1024 table entries |
| RegionFiles.VersionOf | core/src/main/java/com/meowster/mcquad/RegionFile.java:67-68 | a chunk is stored gzipped (version 1) or deflated (version 2) |
| RegionFiles.SeekPosition | core/src/main/java/com/meowster/mcquad/RegionFile.java:169 | `sectorNumber * SECTOR_BYTES` in int arithmetic is the true position for a sector below 2 GiB |
| RegionFiles.ChunkBytes | core/src/main/java/com/meowster/mcquad/RegionFile.java:46-55 | a stored chunk takes its data's length plus five bytes (length and version) |
| RegionFiles.ReadChunkBytes | core/src/main/java/com/meowster/mcquad/RegionFile.java:168-180 | a chunk stored at its sector with a length that fits its sectors reads back as the same compression and data |
| RegionFiles.ZeroLengthChunkThrows | core/src/main/java/com/meowster/mcquad/RegionFile.java:170-180 | a chunk whose stored length is 0 throws NegativeArraySizeException, which is not caught |
| RegionFiles.ZeroLengthFrom | core/src/main/java/com/meowster/mcquad/RegionFile.java:246-247 | from the seek position on, a zero length throws NegativeArraySizeException |
| RegionFiles.CountAvailable | core/src/main/java/com/meowster/mcquad/RegionFile.java:194-204 | the number of available chunks among some location words, never more than the words |
| RegionFiles.CountAvailableIndices | core/src/main/java/com/meowster/mcquad/RegionFile.java:194-204 | that number is the size of the set of indices whose words are available |
| RegionFiles.CountAvailableStep | core/src/main/java/com/meowster/mcquad/RegionFile.java:198-200 | one more word adds one exactly when it is available |
| RegionFiles.CountAvailableZeros | core/src/main/java/com/meowster/mcquad/RegionFile.java:217-219 | zero words hold no chunk |
| RegionFiles.RegionFile.constructor | core/src/main/java/com/meowster/mcquad/RegionFile.java:109-117 | the two loops read the 1024 location words and then the 1024 timestamps from the file's header; a mock file has tables of zeros and no sectors |
| RegionFiles.RegionFile.ChunkCount | core/src/main/java/com/meowster/mcquad/RegionFile.java:194-204 | `chunkCount()`: the number of chunk coordinates where `chunkAvailableAt` holds, between 0 and 1024 |
| RegionFiles.Open | core/src/main/java/com/meowster/mcquad/RegionFile.java:88-122 | `new RegionFile(path, mock)`: a missing real file throws IllegalArgumentException, a file under 4 KiB or not a multiple of 4 KiB is malformed, a one-sector file runs out reading the timestamps; otherwise a fresh region file loaded from the contents |
| RegionFiles.RegionFile.ChunkAvailableAt | core/src/main/java/com/meowster/mcquad/RegionFile.java:213-225 | where `chunkAvailableAt` is false `getChunkDataStream` returns null; where it holds the chunk is read from its sector, or a file-less region file throws NullPointerException |
| RegionFiles.MockIsEmpty | core/src/main/java/com/meowster/mcquad/RegionFile.java:105-117 | a mock region file holds no chunk, gives no stream and has timestamp 0 everywhere |
| RegionFiles.TablesFromHeader | core/src/main/java/com/meowster/mcquad/RegionFile.java:113-116 | a chunk's location word and timestamp are the ints at `4 * (x + 32 * z)` in the first and second sector |
| RegionFiles.SectorsWithinFile | core/src/main/java/com/meowster/mcquad/RegionFile.java:109 | `(int) fileLen / 4096` sectors never extend past the file's length |
| RegionFiles.SignedSectorDeemedAvailable | core/src/main/java/com/meowster/mcquad/RegionFile.java:221-224 | as written, the location word 0x80000001 gives sector -8388608 with count 1, which every file is deemed to hold, and its seek position wraps to 0 |
| RegionFiles.UnsignedSectorOf | core/src/main/java/com/meowster/mcquad/RegionFile.java:41 | the sector as the top three bytes, between 0 and 2^24 |
| RegionFiles.IntendedAvailableInFile | core/src/main/java/com/meowster/mcquad/RegionFile.java:221-224 | reading the sector unsigned, an available chunk's sectors always lie within the file |
| RegionFiles.IntendedAgreesBelowBit31 | core/src/main/java/com/meowster/mcquad/RegionFile.java:221-224 | the signed and unsigned readings agree on every word without bit 31, and differ on 0x80000001 |
| RegionFiles.ReadChunkFrom | core/src/main/java/com/meowster/mcquad/RegionFile.java:168-182 | a stream holds the `length - 1` bytes after the version byte, for a length from 1 to the chunk's sectors and a known version; only a non-positive length throws, OutOfMemoryError exactly for -2^31 and NegativeArraySizeException otherwise |
| RegionFiles.MinLengthOutOfMemory | core/src/main/java/com/meowster/mcquad/RegionFile.java:246-247 | the length -2^31 wraps `length - 1` to 2^31 - 1 and throws OutOfMemoryError |
| RegionFiles.RegionFile.TimeStampAt | core/src/main/java/com/meowster/mcquad/RegionFile.java:234-236 | `timeStampAt` is 0 out of bounds and the table entry `x + 32 z` in bounds |
| RegionFiles.RegionFile.GetChunkDataStream | core/src/main/java/com/meowster/mcquad/RegionFile.java:154-182 | a non-null stream or an exception only for an in-bounds chunk whose location word is available; the exceptions are NullPointerException (no file), NegativeArraySizeException and OutOfMemoryError |
| RegionStructures.PixelIndexBijection | core/src/main/java/com/meowster/mcquad/RegionStructure.java:134-138 | `storeData` puts each column of each chunk at its own pixel of the 512 by 512 raster, from which the chunk and column are read back |
| RegionStructures.PixelDecomposition | core/src/main/java/com/meowster/mcquad/RegionStructure.java:134-138 | every pixel of the raster is the place of exactly one chunk column |
| RegionStructures.PixelIndexInjective | core/src/main/java/com/meowster/mcquad/RegionStructure.java:134-138 | no two chunk columns share a pixel |
| RegionStructures.RowSpan | core/src/main/java/com/meowster/mcquad/RegionStructure.java:135-137 | one `arraycopy` of row `z` of chunk `(cx, cz)` covers exactly the 16 pixels of that chunk row, in column order |
| RegionStructures.PrerenderStep | core/src/main/java/com/meowster/mcquad/RegionStructure.java:117-129 | after one more chunk of the loop, every pixel of the chunks done holds its surface values and the rest are untouched |
| RegionStructures.ShadeClip | core/src/main/java/com/meowster/mcquad/RegionStructure.java:105-108 | `shadeClip(v)` lies in -10..10 and keeps any slope already in that range |
| RegionStructures.ShadedPixelMeaning | core/src/main/java/com/meowster/mcquad/RegionStructure.java:60-74 | a transparent pixel (null or alpha 0) is left alone; shading keeps every pixel's alpha and presence |
| RegionStructures.LevelGroundUnshaded | core/src/main/java/com/meowster/mcquad/RegionStructure.java:100-112 | on flat ground at sea level the shade amount is 0 and the colour is kept |
| RegionStructures.ShadeAmountMonotone | core/src/main/java/com/meowster/mcquad/RegionStructure.java:100-103 | a steeper slope never gives a smaller shade amount |
| RegionStructures.TruncDivMonotone | core/src/main/java/com/meowster/mcquad/RegionStructure.java:102 | the cast to int keeps the order of the amounts |
| RegionStructures.DivMonotone | core/src/main/java/com/meowster/mcquad/RegionStructure.java:102 | division by seven keeps the order of non-negative numbers |
| RegionStructures.ShadeAmountFits | core/src/main/java/com/meowster/mcquad/RegionStructure.java:100-108 | for a short height the shade amount is within the int range, so passing it to `shade(int)` loses nothing |
| RegionStructures.ShadeAmountBounds | core/src/main/java/com/meowster/mcquad/RegionStructure.java:100-108 | the shade amount at any slope lies between its values at the clip limits -10 and 10 |
| RegionStructures.ShadeInOrder | core/src/main/java/com/meowster/mcquad/RegionStructure.java:60-74 | shading the pixels in a given visiting order keeps the raster's size |
| RegionStructures.ShadeOrderIrrelevant | core/src/main/java/com/meowster/mcquad/RegionStructure.java:60-74 | since shading reads only heights, every visited pixel ends shaded and every other one unchanged, whatever the order |
| RegionStructures.RasterOrder | core/src/main/java/com/meowster/mcquad/RegionStructure.java:61-64 | the loop visits pixel indices 0, 1, 2, … in order |
| RegionStructures.UnfilledIsTransparent | core/src/main/java/com/meowster/mcquad/RegionStructure.java:52 | a pixel left null stays 0, the ARGB int of a transparent colour |
| RegionStructures.PrerenderedHeights | core/src/main/java/com/meowster/mcquad/RegionStructure.java:115-139 | the heights after `prerender`, one per pixel |
| RegionStructures.MissingChunkTransparent | core/src/main/java/com/meowster/mcquad/RegionStructure.java:119-121 | a chunk with no stream leaves its pixels transparent (0) |
| RegionStructures.RegionStructure.constructor | core/src/main/java/com/meowster/mcquad/RegionStructure.java:44-49 | `new RegionStructure(region)`: the heights are those of the chunks, every colour is the chunk's surface colour shaded, and every int its ARGB value (0 where no chunk) |
| RegionStructures.RegionStructure.Prerender | core/src/main/java/com/meowster/mcquad/RegionStructure.java:115-130 | `prerender()` fills every pixel from its chunk, leaving the pixels of missing chunks empty |
| RegionStructures.RegionStructure.StoreData | core/src/main/java/com/meowster/mcquad/RegionStructure.java:132-139 | `storeData(cx, cz, …)` copies the chunk's colours and heights to its pixels and changes no other pixel |
| RegionStructures.RegionStructure.Shade | core/src/main/java/com/meowster/mcquad/RegionStructure.java:60-74 | `shade()` shades every pixel by its own height and its neighbours' |
| RegionStructures.RegionStructure.ShadePixel | core/src/main/java/com/meowster/mcquad/RegionStructure.java:64-71 | one turn of the inner loop of `shade()`: only pixel `idx` changes, to its colour shaded by its slopes and height, and a transparent pixel stays as it was |
| RegionStructures.RegionStructure.ComputeDyx | core/src/main/java/com/meowster/mcquad/RegionStructure.java:80-86 | `computeDyx`: the slope along x, one-sided at the edges |
| RegionStructures.RegionStructure.ComputeDyz | core/src/main/java/com/meowster/mcquad/RegionStructure.java:88-94 | `computeDyz`: the slope along z, one-sided at the edges |
| RegionStructures.RegionStructure.ConvertColorsToInts | core/src/main/java/com/meowster/mcquad/RegionStructure.java:51-58 | `covertColorsToInts()` stores every pixel's ARGB int, 0 for a null colour |
| RegionStructures.RegionStructure.GetImage | core/src/main/java/com/meowster/mcquad/RegionStructure.java:146-153 | `getImage()`: a fresh 512 by 512 image whose pixel `(x, z)` is int `512 z + x` |
| Quads.Pow2 | core/src/main/java/com/meowster/mcquad/QuadData.java:57-63 | the powers of two the side of the quad runs through, all at least 1 |
| Quads.Log2Pow2 | core/src/main/java/com/meowster/mcquad/QuadData.java:65-73 | halving `2^n` down to 1 takes exactly `n` steps |
| Quads.Log2Below | core/src/main/java/com/meowster/mcquad/QuadData.java:65-73 | the number of halvings of a positive side is smaller than the side |
| Quads.ComputeQuad | core/src/main/java/com/meowster/mcquad/QuadData.java:57-63 | the loop of `computeQuad()` yields the smallest power of two that is at least the bounding box's larger side (1 for an empty box) |
| Quads.ComputeMaxZoom | core/src/main/java/com/meowster/mcquad/QuadData.java:65-73 | the loop of `computeMaxZoom` yields the `n` with `2^n` equal to the quad's side |
| Quads.OffsetCentres | core/src/main/java/com/meowster/mcquad/QuadData.java:75-78 | `computeOffset(n)` centres a span of `n` regions in the quad: the padding on the two sides differs by at most one |
| Quads.TileChar | core/src/main/java/com/meowster/mcquad/QuadData.java:80-83 | `tileChar`: ` .` for no region, ` O` for the region at the origin, ` #` for any other |
| Quads.RegionMarks | core/src/main/java/com/meowster/mcquad/QuadData.java:95 | the loaded coordinates, each marked with whether it is the origin |
| Quads.Derive | core/src/main/java/com/meowster/mcquad/QuadData.java:34-44 | the constructor's derivation of the side, the zoom, the two offsets and the calibration, in 32-bit arithmetic |
| Quads.DerivedUnique | core/src/main/java/com/meowster/mcquad/QuadData.java:34-44 | the derived fields are determined by the bounding box |
| Quads.QuadData.constructor | core/src/main/java/com/meowster/mcquad/QuadData.java:34-44 | `new QuadData(regionData)` holds the fields derived from the region data's bounds |
| Quads.QuadData.At | core/src/main/java/com/meowster/mcquad/QuadData.java:119-133 | `at(a, b)` is the region loaded at `(a + xcc, b + zcc)`, or null when there is none |
| Quads.QuadData.Schematic | core/src/main/java/com/meowster/mcquad/QuadData.java:91-100 | `schematic()` is one line of cells per row of the quad |
| Quads.QuadData.AppendRow | core/src/main/java/com/meowster/mcquad/QuadData.java:93-98 | the inner loop appends one row's cells, x running from 0 |
| Quads.CellIsTileOfAt | core/src/main/java/com/meowster/mcquad/QuadData.java:95 | the schematic's cell at `(x, z)` is `tileChar(at(x, z))`, the region found through the calibration |
| Quads.RegionsInsideQuad | core/src/main/java/com/meowster/mcquad/QuadData.java:34-44 | every loaded region lies inside the quad, at the quad position from which `at` finds it again |
| Quads.CentredInQuad | core/src/main/java/com/meowster/mcquad/QuadData.java:39-42 | a coordinate within the span lies inside the quad once the calibration is taken off |
| Quads.QuadDependsOnPointsOnly | core/src/main/java/com/meowster/mcquad/QuadData.java:34-44 | two quads over the same set of region coordinates have the same side, zoom, offsets and calibration |
| Quads.PowUnique | core/src/main/java/com/meowster/mcquad/QuadData.java:65-73 | equal powers of two have equal exponents |
| Quads.QuadDimUnique | core/src/main/java/com/meowster/mcquad/QuadData.java:57-63 | the side of the quad for a bounding box is unique |
| Quads.PowMono | core/src/main/java/com/meowster/mcquad/QuadData.java:57-63 | powers of two grow with their exponent |
| Schematics.Mark | core/src/main/java/com/meowster/mcquad/QuadData.java:80-83 | a cell is two characters: a space and `.` for an empty position, `O` for the origin, `#` for any other region |
| Schematics.Cell | core/src/main/java/com/meowster/mcquad/QuadData.java:95 | every cell of the drawing is two characters wide |
| Schematics.RowLayout | core/src/main/java/com/meowster/mcquad/QuadData.java:94-96 | a row of `n` cells is `2n` characters, with cell `x` at characters `2x` and `2x + 1` |
| Schematics.RowsLength | core/src/main/java/com/meowster/mcquad/QuadData.java:93-98 | `n` rows of a `dim`-wide drawing take `n(2 dim + 1)` characters |
| Schematics.RowsPrefix | core/src/main/java/com/meowster/mcquad/QuadData.java:93-98 | the drawing grows row by row: the first `k` rows are a prefix of the first `n` |
| Schematics.SchematicLines | core/src/main/java/com/meowster/mcquad/QuadData.java:93-98 | line `z` of the drawing is row `z` followed by a newline, at its place in the text |
| Schematics.RowsStep | core/src/main/java/com/meowster/mcquad/QuadData.java:93-98 | each turn of the outer loop appends one row and a newline |
| Tiles.MakeTag | core/src/main/java/com/meowster/mcquad/FourQTile.java:23-29 | `makeTag`: six characters, brackets around one marker per child in the order tl, tr, bl, br, `#` exactly for a present child and `.` exactly for a missing one |
| Tiles.TagShowsPresentTile | core/src/main/java/com/meowster/mcquad/FourQTile.java:15-24 | with at least one child present the tag shows a `#` |
| Tiles.QuadTile.Subregion | core/src/main/java/com/meowster/mcquad/SubregionQTile.java:16-19 | a subregion tile holds the given coordinate and image and no file |
| Tiles.QuadTile.OfRegion | core/src/main/java/com/meowster/mcquad/RegionQTile.java:15-21 | a region tile's coordinate is the region's plus the delta, in 32-bit arithmetic |
| Tiles.QuadTile.Four | core/src/main/java/com/meowster/mcquad/FourQTile.java:16-21 | `new FourQTile(a, b, …)`: coordinate `(a / 2, b / 2)` with Java's division, the tag of its children, and a fresh 256 by 256 image composed from the children's files |
| Tiles.QuadTile.ReleaseResources | core/src/main/java/com/meowster/mcquad/AbsQuadTile.java:37-40 | `releaseResources()` drops the image and keeps the file location |
| Tiles.QuadTile.SetLocationOnDisk | core/src/main/java/com/meowster/mcquad/AbsQuadTile.java:47-50 | `setLocationOnDisk` records the file |
| Tiles.QuadTile.LoadImageFromDisk | core/src/main/java/com/meowster/mcquad/AbsQuadTile.java:52-55 | `loadImageFromDisk()`: null with no file recorded, the file's picture when it exists, an IOException when it does not |
| Tiles.PngNameInjective | core/src/main/java/com/meowster/mcquad/AbsQuadTile.java:42-45 | `pngName()` (`t.<x>.<z>.png`) names tiles at different coordinates differently |
| Tiles.LoadedImage | core/src/main/java/com/meowster/mcquad/CompositeTile.java:40-48 | a tile's reloaded image exists exactly when the tile is non-null and its file is on disk, and is then that file's picture |
| Tiles.GetAvColor | core/src/main/java/com/meowster/mcquad/CompositeTile.java:65-71 | `getAvColor`: the average colour of the 2 by 2 block at `(x, z)` |
| Tiles.UniformBlockKeepsColor | core/src/main/java/com/meowster/mcquad/CompositeTile.java:50-56 | a 2 by 2 block of one colour shrinks to that colour |
| Tiles.QuadrantsPartition | core/src/main/java/com/meowster/mcquad/CompositeTile.java:32-38 | the four quadrants at offsets 0 and 128 cover the 256 by 256 canvas, each pixel lying in exactly one |
| Tiles.CompositeShowsQuadrant | core/src/main/java/com/meowster/mcquad/CompositeTile.java:32-57 | a composite pixel is the averaged 2 by 2 block of the child whose quadrant holds it, or transparent when that child has no image |
| Tiles.EmptyCompositeTransparent | core/src/main/java/com/meowster/mcquad/CompositeTile.java:33-42 | with no children the composite is transparent everywhere |
| Tiles.StageStep | core/src/main/java/com/meowster/mcquad/CompositeTile.java:34-37 | composing the next child moves the canvas from one stage to the next |
| Tiles.CompositeTile.constructor | core/src/main/java/com/meowster/mcquad/CompositeTile.java:32-38 | `new CompositeTile(tl, tr, bl, br)`: a fresh 256 by 256 image whose every pixel is the composite pixel of the four children's reloaded images |
| Tiles.BlankCanvas | core/src/main/java/com/meowster/mcquad/CompositeTile.java:33 | a new canvas is 256 by 256 and all 0 (transparent) |
| Tiles.ComposeQuadrant | core/src/main/java/com/meowster/mcquad/CompositeTile.java:34-37 | composing the `k`-th child takes the canvas to stage `k + 1`; after the fourth it is the composite |
| Tiles.Compose | core/src/main/java/com/meowster/mcquad/CompositeTile.java:40-63 | `compose(tile, offx, offz)` writes the downsampled image into its quadrant when it loads and leaves the canvas unchanged when the tile is null or has no image |
| Tiles.ComposeImage | core/src/main/java/com/meowster/mcquad/CompositeTile.java:50-57 | the loops of `compose` once the image is read: every pixel of the quadrant becomes its averaged 2 by 2 block of the image, every pixel outside it is left as it was |
| Tiles.ComposeRow | core/src/main/java/com/meowster/mcquad/CompositeTile.java:52-56 | one turn of the outer loop writes one downsampled row of the quadrant and nothing else |
| Tiles.LevelMarks | core/src/main/java/com/meowster/mcquad/QdLvl.java:77-80 | the level's tiles, each marked when it is the origin tile |
| Tiles.DimOfExact | core/src/main/java/com/meowster/mcquad/QdLvl.java:37-43 | up to zoom 30 `setZoom`'s side is exactly `2^zoom`, and halving it back gives the zoom |
| Tiles.Pow2Below | core/src/main/java/com/meowster/mcquad/QdLvl.java:41-42 | up to zoom 30 the doubled side stays within the int range |
| Tiles.Pow2Thirty | core/src/main/java/com/meowster/mcquad/QdLvl.java:41-42 | `2^30` is 0x40000000 |
| Tiles.Pow2Monotone | core/src/main/java/com/meowster/mcquad/QdLvl.java:41-42 | the side grows with the zoom |
| Tiles.QdLvl.constructor | core/src/main/java/com/meowster/mcquad/QdLvl.java:19-26 | a new level has no tiles, zoom 0, side 0, no origin and no output directory |
| Tiles.QdLvl.AddTile | core/src/main/java/com/meowster/mcquad/QdLvl.java:28-35 | `addTile` puts a tile at its coordinate, or counts a blank for null; nothing else changes |
| Tiles.QdLvl.SetZoom | core/src/main/java/com/meowster/mcquad/QdLvl.java:37-43 | `setZoom(z)` records the zoom and sets the side to `2^z` in 32-bit arithmetic (1 for `z <= 0`); nothing else changes |
| Tiles.QdLvl.SetBlocksPerTileSide | core/src/main/java/com/meowster/mcquad/QdLvl.java:87-89 | sets the blocks per tile side only |
| Tiles.QdLvl.SetOriginTile | core/src/main/java/com/meowster/mcquad/QdLvl.java:96-98 | sets the origin tile only |
| Tiles.QdLvl.SetOriginDisplace | core/src/main/java/com/meowster/mcquad/QdLvl.java:120-122 | sets the origin displacement only |
| Tiles.QdLvl.SetOutputDir | core/src/main/java/com/meowster/mcquad/QdLvl.java:110-113 | sets the output directory only |
| Tiles.QdLvl.At | core/src/main/java/com/meowster/mcquad/QdLvl.java:60-63 | `at(a, b)` is the tile held at `(a, b)`, or null when there is none |
| Tiles.QdLvl.Tiles | core/src/main/java/com/meowster/mcquad/QdLvl.java:55-58 | `tiles()` holds every tile of the map |
| Tiles.QdLvl.Name | core/src/main/java/com/meowster/mcquad/QdLvl.java:125-128 | `name()` is `z` followed by digits that read back as the zoom |
| Tiles.QdLvl.Schematic | core/src/main/java/com/meowster/mcquad/QdLvl.java:65-75 | `schematic()` is one line of cells per row of the level, `dim` by `dim` |
| Tiles.QdLvl.AppendRow | core/src/main/java/com/meowster/mcquad/QdLvl.java:69-71 | the inner loop appends one row's cells, a running from 0 |
| Tiles.TileChar | core/src/main/java/com/meowster/mcquad/QdLvl.java:77-80 | `tileChar`: ` .` for no tile, ` O` for the origin tile, ` #` for any other |
| Tiles.TilesOnePerCoord | core/src/main/java/com/meowster/mcquad/QdLvl.java:28-58 | a level holds one tile per coordinate, each found at its own coordinate |
| Tiles.ValuesOfCoordMap | core/src/main/java/com/meowster/mcquad/QdLvl.java:55-58 | a map whose tiles sit at their own coordinates has as many tiles as keys |
| Tiles.AtAfterAdd | core/src/main/java/com/meowster/mcquad/QdLvl.java:28-63 | after `addTile`, `at` finds the new tile at its coordinate and every other answer unchanged |
| Tiles.QuadTile.PngName | core/src/main/java/com/meowster/mcquad/AbsQuadTile.java:42-45 | `pngName()` is `t.` … `.png`, the same name a region's tile at that coordinate gets |
| Tiles.LevelName | core/src/main/java/com/meowster/mcquad/QdLvl.java:126-128 | a level's name is `z` followed by text that parses back as the zoom |
| Tiles.DimOf | core/src/main/java/com/meowster/mcquad/QdLvl.java:37-43 | `setZoom`'s doubling loop gives 2^zoom up to zoom 30, the minimum int at 31 and 0 from 32 on, so the side is positive exactly up to zoom 30 |
| Builders.AxisKept | core/src/main/java/com/meowster/mcquad/QuadLevelBuilderOld.java:152-154 | on one axis, halving the origin tile toward zero, doubling the tile size and moving the odd half-tile into the displacement keeps the origin's block |
| Builders.ZoomOutKeepsOriginBlock | core/src/main/java/com/meowster/mcquad/QuadLevelBuilderOld.java:144-156 | while nothing overflows, zooming out keeps the block at which the world origin sits |
| Builders.ZoomOutTwice | core/src/main/java/com/meowster/mcquad/QuadLevelBuilderOld.java:144-156 | two zoom-out steps from zoom 3, 512 blocks, origin tile (1, 3): zoom 2, 1024 blocks, tile (0, 1), displacement (512, 512); then zoom 1, 2048 blocks, tile (0, 0), displacement (512, 1536) |
| Builders.ToInt32Near | core/src/main/java/com/meowster/mcquad/BaseQuadLevelBuilder.java:167-168 | two ints at most one apart that wrap to the same 32-bit value are equal |
| Builders.BaseTilesDistinct | core/src/main/java/com/meowster/mcquad/BaseQuadLevelBuilder.java:166-170 | a region's four base tiles lie at four different coordinates, even with 32-bit wrap-around, the first at the region image's own coordinate |
| Builders.ChildrenNeverCollide | core/src/main/java/com/meowster/mcquad/BaseQuadLevelBuilder.java:172-174 | zoom-in children of different tiles, or different children of one tile, never share a coordinate |
| Builders.ParentOfChild | core/src/main/java/com/meowster/mcquad/BaseQuadLevelBuilder.java:172-174 | halving a child's coordinate gives back its parent |
| Builders.ChildKeysAdd | core/src/main/java/com/meowster/mcquad/BaseQuadLevelBuilder.java:153-158 | one more tile adds exactly its four children |
| Builders.ChildKeysGrow | core/src/main/java/com/meowster/mcquad/BaseQuadLevelBuilder.java:153-158 | more tiles never give fewer children |
| Builders.InColumnStep | core/src/main/java/com/meowster/mcquad/QuadLevelBuilderOld.java:172-186 | visiting the group at even `(a, b)` adds at most its own parent to the column |
| Builders.ColumnsDoneStep | core/src/main/java/com/meowster/mcquad/QuadLevelBuilderOld.java:171-187 | finishing column `a` adds exactly the parents in that column |
| Builders.ParentSetMembers | core/src/main/java/com/meowster/mcquad/QuadLevelBuilderOld.java:171-187 | a zoomed-out tile exists exactly when its 2 by 2 group starts inside the source grid and holds a source tile |
| Builders.ParentSetBound | core/src/main/java/com/meowster/mcquad/QuadLevelBuilderOld.java:171-187 | the zoomed-out level has at most as many tiles as the source |
| Builders.ZoomOutNeverGrows | core/src/main/java/com/meowster/mcquad/QuadLevelBuilderOld.java:171-187 | the tiles the zoom-out loop makes are exactly the parent set, never more than the source's tiles |
| Builders.AllMergedAdd | core/src/main/java/com/meowster/mcquad/QuadLevelBuilderOld.java:180-185 | adding a correctly merged tile keeps every tile of the level correctly merged |
| Builders.ShiftInjective | core/src/main/java/com/meowster/mcquad/QuadLevelBuilderOld.java:122 | shifting by the region-to-quad delta keeps coordinates apart |
| Builders.ShiftedKeysCount | core/src/main/java/com/meowster/mcquad/QuadLevelBuilderOld.java:121-127 | one region tile per region: as many shifted coordinates as regions |
| Builders.WrapInner | core/src/main/java/com/meowster/mcquad/QuadLevelBuilderOld.java:152-153 | wrapping the int product before the int sum changes nothing |
| Builders.Displace | core/src/main/java/com/meowster/mcquad/QuadLevelBuilderOld.java:152-153 | `sourceDisp.x() + ((sox % 2) * blocksPerTile)` in Java int arithmetic |
| Builders.ComputeAttributes | core/src/main/java/com/meowster/mcquad/QuadLevelBuilderOld.java:144-156 | `computeAttributes`: zoom minus one, twice the blocks per tile, and the zoomed-out origin tile and displacement; a missing origin throws NullPointerException; the tiles are untouched |
| Builders.MergeTiles | core/src/main/java/com/meowster/mcquad/QuadLevelBuilderOld.java:159-164 | `mergeTiles`: null exactly when all four tiles are null, otherwise a fresh four-tile at `(a / 2, b / 2)` tagged with the children present |
| Builders.WriteTileImageToDisk | core/src/main/java/com/meowster/mcquad/QuadLevelBuilderOld.java:131-135 | `writeTileImageToDisk` records the tile's file as its PNG name in the level's directory |
| Builders.ShiftedKeysAdd | core/src/main/java/com/meowster/mcquad/QuadLevelBuilderOld.java:121-127 | one more region adds exactly its shifted coordinate |
| Builders.AddRegionTile | core/src/main/java/com/meowster/mcquad/QuadLevelBuilderOld.java:122-126 | one turn of `generateFromQuadData`: a fresh region tile at the shifted coordinate, written unless suppressed or mock, released, and added; the region's file is released |
| Builders.MergeAt | core/src/main/java/com/meowster/mcquad/QuadLevelBuilderOld.java:174-179 | the group at `(2i, 2j)` merges into a tile exactly when the parent `(i, j)` exists, and then into the right four-tile |
| Builders.MergeGroup | core/src/main/java/com/meowster/mcquad/QuadLevelBuilderOld.java:174-185 | one turn of the inner loop adds the merged tile, written and released, exactly when the parent exists, and nothing otherwise |
| Builders.MergeAssociates | core/src/main/java/com/meowster/mcquad/QuadLevelBuilderOld.java:171-187 | merging maps is associative |
| Builders.MergeColumn | core/src/main/java/com/meowster/mcquad/QuadLevelBuilderOld.java:172-186 | the inner loop adds exactly the parents in column `a`, each correctly merged |
| Builders.AddRegionTiles | core/src/main/java/com/meowster/mcquad/QuadLevelBuilderOld.java:121-127 | the loop of `generateFromQuadData` adds one region tile per region at its shifted coordinate and releases every region's file, whatever the order |
| Builders.MergeColumns | core/src/main/java/com/meowster/mcquad/QuadLevelBuilderOld.java:171-187 | the loops of `generateFromSourceLevel` add exactly the parents of the source's tiles, each correctly merged |
| Builders.QuadLevelBuilderOld.OfQuadData | core/src/main/java/com/meowster/mcquad/QuadLevelBuilderOld.java:33-38 | a builder from the quad data, zooming out, nothing generated yet |
| Builders.QuadLevelBuilderOld.OfLevel | core/src/main/java/com/meowster/mcquad/QuadLevelBuilderOld.java:67-74 | a builder from a source level |
| Builders.QuadLevelBuilderOld.Prepare | core/src/main/java/com/meowster/mcquad/QuadLevelBuilderOld.java:81-85 | `prepare()`: from the quad data a fresh empty level with the quad's attributes; from a source level a fresh empty level one zoom out, failing with NullPointerException when the source has no origin |
| Builders.QuadLevelBuilderOld.PrepareFromQuadData | core/src/main/java/com/meowster/mcquad/QuadLevelBuilderOld.java:109-116 | zoom the quad's maximum zoom, 512 blocks per tile, origin tile the region-to-quad delta, displacement (0, 0) |
| Builders.QuadLevelBuilderOld.PrepareFromSourceLevel | core/src/main/java/com/meowster/mcquad/QuadLevelBuilderOld.java:138-142 | a fresh level with the source's zoomed-out attributes |
| Builders.QuadLevelBuilderOld.GenerateFromQuadData | core/src/main/java/com/meowster/mcquad/QuadLevelBuilderOld.java:118-129 | adds one region tile per region at its shifted coordinate and keeps every other tile; before `prepare` it throws NullPointerException |
| Builders.QuadLevelBuilderOld.GenerateFromSourceLevel | core/src/main/java/com/meowster/mcquad/QuadLevelBuilderOld.java:167-189 | adds exactly the parents of the source's tiles, each correctly merged, and keeps every other tile; before `prepare` it throws NullPointerException |
| Builders.QuadLevelBuilderOld.GenTiles | core/src/main/java/com/meowster/mcquad/QuadLevelBuilderOld.java:99-106 | `genTiles` generates from the quad data or from the source level, failing exactly when nothing was prepared |
| Builders.FromLevel | core/src/main/java/com/meowster/mcquad/QuadLevelBuilderOld.java:67-74 | `new QuadLevelBuilderOld(level, zoomIn)` refuses a level below zoom 2 with IllegalArgumentException |
| BaseBuilder.BaseLevelsNest | core/src/main/java/com/meowster/mcquad/BaseQuadLevelBuilder.java:52-75 | levels +1 and +2 zoom out to levels +0 and +1 exactly, and all three keep the world origin at the same block |
| BaseBuilder.WriteTiles | core/src/main/java/com/meowster/mcquad/BaseQuadLevelBuilder.java:198-202 | `writeTiles(ql)`: every tile of the level records its PNG file in the level's directory |
| BaseBuilder.Enlarge | core/src/main/java/com/meowster/mcquad/BaseQuadLevelBuilder.java:180-193 | the loops of `makeScaledTile`: a fresh 256 by 256 image whose pixel `(x, z)` is source pixel `(ox + x / 2, oz + z / 2)` |
| BaseBuilder.EnlargeColumn | core/src/main/java/com/meowster/mcquad/BaseQuadLevelBuilder.java:184-192 | one turn of the outer loop fills columns `2a` and `2a + 1` from source column `ox + a` and leaves every other pixel |
| BaseBuilder.MakeScaledTile | core/src/main/java/com/meowster/mcquad/BaseQuadLevelBuilder.java:172-196 | `makeScaledTile`: a fresh subregion tile at child `(2x + dx, 2z + dz)` showing the chosen quarter enlarged twice; a null image throws NullPointerException and a quarter outside the image IndexOutOfBounds |
| BaseBuilder.ScaledBlock | core/src/main/java/com/meowster/mcquad/BaseQuadLevelBuilder.java:187-191 | each source pixel becomes a 2 by 2 block of equal pixels |
| BaseBuilder.MakeScaledTiles | core/src/main/java/com/meowster/mcquad/BaseQuadLevelBuilder.java:154-157 | the four children of a 256-pixel tile, each fresh, at its own child coordinate, 256 pixels wide, and each enlarging its own quarter of the tile's image |
| BaseBuilder.ChildrenDistinct | core/src/main/java/com/meowster/mcquad/BaseQuadLevelBuilder.java:172-174 | the four children of a tile have four different coordinates, even where the doubled coordinates wrap |
| BaseBuilder.ChildScaledKept | core/src/main/java/com/meowster/mcquad/BaseQuadLevelBuilder.java:153-158 | a child not replaced by later tiles keeps its enlarged image |
| BaseBuilder.ChildScaledOver | core/src/main/java/com/meowster/mcquad/BaseQuadLevelBuilder.java:153-158 | a child just added wins over the tile the output held at its coordinate |
| BaseBuilder.ChildrenScaledOver | core/src/main/java/com/meowster/mcquad/BaseQuadLevelBuilder.java:153-158 | all four children just added win over the tiles the output held |
| BaseBuilder.ChildrenScaledKept | core/src/main/java/com/meowster/mcquad/BaseQuadLevelBuilder.java:153-158 | the children of another tile, where no coordinate wraps, do not replace a tile's enlarged children |
| BaseBuilder.AddFour | core/src/main/java/com/meowster/mcquad/BaseQuadLevelBuilder.java:153-158 | adding four tiles adds them under their coordinates and keeps the level's other tiles |
| BaseBuilder.AddScaledTiles | core/src/main/java/com/meowster/mcquad/BaseQuadLevelBuilder.java:153-158 | one turn of `tileZoomIn`: the output gains exactly the four children of the tile, all fresh, each showing its quarter of the tile enlarged; the tiles held before, and the input level's tiles, keep their images |
| BaseBuilder.ScaledForAdd | core/src/main/java/com/meowster/mcquad/BaseQuadLevelBuilder.java:153-158 | one more tile's children added: every tile done so far keeps its enlarged children and the new tile has its own |
| BaseBuilder.ScaleOne | core/src/main/java/com/meowster/mcquad/BaseQuadLevelBuilder.java:153-158 | one turn of the loop over input tiles: the output gains the tile's four fresh children, and the tiles done before keep their enlarged children |
| BaseBuilder.ScaleAll | core/src/main/java/com/meowster/mcquad/BaseQuadLevelBuilder.java:153-158 | the loop of `tileZoomIn`: the output gains exactly the children of every input tile; where no doubled coordinate wraps, every input tile has its four enlarged children in the output |
| BaseBuilder.TileZoomIn | core/src/main/java/com/meowster/mcquad/BaseQuadLevelBuilder.java:152-163 | `tileZoomIn`: the children of every input tile added to the output and, where no doubled coordinate wraps, showing their quarters enlarged; every output tile written unless suppressed |
| BaseBuilder.TileZoomInKeeping | core/src/main/java/com/meowster/mcquad/BaseQuadLevelBuilder.java:152-163 | `tileZoomIn` as `TileZoomIn` states it, and besides the images of the input level's tiles and of any other level's tiles are left as they were |
| BaseBuilder.ScaledForKept | core/src/main/java/com/meowster/mcquad/BaseQuadLevelBuilder.java:160-162 | writing tiles leaves their images and pixels alone, so a zoomed-in level stays enlarged from the level above |
| BaseBuilder.ShowsRegionKept | core/src/main/java/com/meowster/mcquad/BaseQuadLevelBuilder.java:139-141 | writing tiles leaves their images alone, so a region shown stays shown |
| BaseBuilder.RegionsShownKept | core/src/main/java/com/meowster/mcquad/BaseQuadLevelBuilder.java:139-141 | writing tiles leaves their images alone, so every region shown stays shown |
| BaseBuilder.BaseKeysDistinct | core/src/main/java/com/meowster/mcquad/BaseQuadLevelBuilder.java:166-170 | a region's four base tiles have four different coordinates |
| BaseBuilder.RegionKeysNone | core/src/main/java/com/meowster/mcquad/BaseQuadLevelBuilder.java:121-125 | no regions, no base tiles |
| BaseBuilder.RegionKeysAdd | core/src/main/java/com/meowster/mcquad/BaseQuadLevelBuilder.java:121-125 | one more region adds exactly its four base tile coordinates |
| BaseBuilder.FourShowRegion | core/src/main/java/com/meowster/mcquad/BaseQuadLevelBuilder.java:132-137 | four tiles, each showing its quarter of the region image, together show the whole region |
| BaseBuilder.MakeBaseQuadTile | core/src/main/java/com/meowster/mcquad/BaseQuadLevelBuilder.java:166-170 | `makeBaseQuadTile`: a fresh subregion tile at `(2rx + delta.x + dx, 2rz + delta.z + dz)` holding the region image's quarter `(dx, dz)`; a null image throws NullPointerException and a quarter outside the image fails as `getSubimage` does |
| BaseBuilder.BaseTile | core/src/main/java/com/meowster/mcquad/BaseQuadLevelBuilder.java:133-134 | a base tile of a rendered region shows the quarter of the region's surface colours |
| BaseBuilder.BaseTiles | core/src/main/java/com/meowster/mcquad/BaseQuadLevelBuilder.java:134-137 | the four base tiles of a rendered region: fresh, at the four base coordinates, each showing its quarter of the region's surface colours, so that together, keyed by coordinate, they show the whole region |
| BaseBuilder.ShowsRegionOver | core/src/main/java/com/meowster/mcquad/BaseQuadLevelBuilder.java:134-137 | a region's base tiles added over a level show the region, whatever the level held |
| BaseBuilder.ShowsRegionApart | core/src/main/java/com/meowster/mcquad/BaseQuadLevelBuilder.java:134-137 | a region whose base tiles the new tiles do not touch still shows |
| BaseBuilder.BaseKeysApart | core/src/main/java/com/meowster/mcquad/BaseQuadLevelBuilder.java:166-170 | two different regions whose base coordinates fit an int share no base tile coordinate |
| BaseBuilder.RegionsShownStep | core/src/main/java/com/meowster/mcquad/BaseQuadLevelBuilder.java:121-137 | one more region's base tiles added: it shows, and so does every region before it, as long as no base coordinate wraps |
| BaseBuilder.AddBaseTiles | core/src/main/java/com/meowster/mcquad/BaseQuadLevelBuilder.java:133-137 | level +0 gains exactly the region's four base tiles, which together show the region rendered from its chunks; every region shown before still shows |
| BaseBuilder.GenerateZoomPlus0Tiles | core/src/main/java/com/meowster/mcquad/BaseQuadLevelBuilder.java:132-142 | `generateZoomPlus0Tiles`: the region's four base tiles added and showing it, every region shown before still showing, every tile of level +0 written unless suppressed |
| BaseBuilder.WriteBaseTiles | core/src/main/java/com/meowster/mcquad/BaseQuadLevelBuilder.java:139-141 | `writeTiles(levelZoomPlus0)`: every base tile written, and every region shown before still shows |
| BaseBuilder.BaseStep | core/src/main/java/com/meowster/mcquad/BaseQuadLevelBuilder.java:122 | the base step keeps the three levels apart, adds exactly the region's base tiles, and level +0 shows the region and every region before it |
| BaseBuilder.ZoomStep | core/src/main/java/com/meowster/mcquad/BaseQuadLevelBuilder.java:144-150 | a zoom step adds the children of every tile of the level above, enlarged where no coordinate wraps; it keeps the other levels' images and written files |
| BaseBuilder.GenerateZoomPlus1Tiles | core/src/main/java/com/meowster/mcquad/BaseQuadLevelBuilder.java:144-146 | `generateZoomPlus1Tiles`: +1 gains the children of every +0 tile, enlarged where no coordinate wraps, written unless suppressed; +0 still shows its regions |
| BaseBuilder.GenerateZoomPlus2Tiles | core/src/main/java/com/meowster/mcquad/BaseQuadLevelBuilder.java:148-150 | `generateZoomPlus2Tiles`: +2 gains the children of every +1 tile, enlarged where no coordinate wraps, written unless suppressed; +0 still shows its regions and +1 still enlarges +0 |
| BaseBuilder.ZoomSteps | core/src/main/java/com/meowster/mcquad/BaseQuadLevelBuilder.java:123-124 | the two zoom steps in turn: +1 enlarges +0 and +2 enlarges +1, both written unless suppressed, and +0 still shows its regions |
| BaseBuilder.GenerateRegion | core/src/main/java/com/meowster/mcquad/BaseQuadLevelBuilder.java:121-125 | one turn of the region loop: base tiles into +0, then the children of all of +0 into +1, then those of +1 into +2, all written unless suppressed; +0 shows this region and every earlier one, +1 enlarges +0 and +2 enlarges +1 |
| BaseBuilder.KeysBuiltStep | core/src/main/java/com/meowster/mcquad/BaseQuadLevelBuilder.java:121-125 | one more region keeps the three levels' keys equal to the base keys of the regions done and their children and grandchildren |
| BaseBuilder.RegionPass | core/src/main/java/com/meowster/mcquad/BaseQuadLevelBuilder.java:121-125 | a pass over one region extends the key sets and the written files by that region, and level +0 still shows every region done, now with this one |
| BaseBuilder.TilesOldOrFresh | core/src/main/java/com/meowster/mcquad/BaseQuadLevelBuilder.java:121-125 | levels that only gained fresh tiles hold no other tiles than before |
| BaseBuilder.BuildLevels | core/src/main/java/com/meowster/mcquad/BaseQuadLevelBuilder.java:121-125 | after the loop, level +0 holds the base tiles of every region and shows each region rendered from its surfaces, +1 their children and +2 their grandchildren, written unless suppressed; no regions leave +1 and +2 alone |
| BaseBuilder.PreparedAreLevels | core/src/main/java/com/meowster/mcquad/BaseQuadLevelBuilder.java:52-75 | the three prepared levels are distinct, valid and empty, as the generator needs |
| BaseBuilder.SetUpLevel | core/src/main/java/com/meowster/mcquad/BaseQuadLevelBuilder.java:55-60 | a level with the given zoom, blocks per tile, origin tile and displacement, and its directory named after the zoom |
| BaseBuilder.BaseQuadLevelBuilder.constructor | core/src/main/java/com/meowster/mcquad/BaseQuadLevelBuilder.java:40-44 | the builder keeps the directory and quad data, with the negated calibration as the region-to-quad delta |
| BaseBuilder.BaseQuadLevelBuilder.Prepare | core/src/main/java/com/meowster/mcquad/BaseQuadLevelBuilder.java:52-75 | `prepare()`: three fresh empty levels at the base zoom and one and two more, 256, 128 and 64 blocks per tile, origin tiles the delta times 1, 2 and 4, origin displacement (0, 0) |
| BaseBuilder.BaseQuadLevelBuilder.GenTiles | core/src/main/java/com/meowster/mcquad/BaseQuadLevelBuilder.java:94-130 | `genTiles`: before `prepare` a NullPointerException; otherwise the three levels hold the base tiles of every region and their children and grandchildren, written unless suppressed, and level +0 shows every region |
| Records.RemoveReturns | core/src/main/java/com/meowster/rec/FileRecordStore.java:78 | `replaceAll("\\r", "")` leaves no carriage return |
| Records.RemoveReturnsNone | core/src/main/java/com/meowster/rec/FileRecordStore.java:78 | text without carriage returns is left as it is |
| Records.RemoveReturnsConcat | core/src/main/java/com/meowster/rec/FileRecordStore.java:78 | removing carriage returns works piece by piece over a concatenation |
| Records.Pieces | core/src/main/java/com/meowster/rec/FileRecordStore.java:79 | the text cut at every newline: at least one piece, none holding a newline |
| Records.NewlineAt | core/src/main/java/com/meowster/rec/FileRecordStore.java:79 | the first newline of a text that has one |
| Records.JoinedPieces | core/src/main/java/com/meowster/rec/FileRecordStore.java:79 | joining the pieces with newlines gives back the text |
| Records.PiecesCount | core/src/main/java/com/meowster/rec/FileRecordStore.java:79 | a text has a newline exactly when it has more than one piece |
| Records.PiecesCons | core/src/main/java/com/meowster/rec/FileRecordStore.java:79 | a line, a newline and the rest cut into the line followed by the pieces of the rest |
| Records.DropTrailingEmpty | core/src/main/java/com/meowster/rec/FileRecordStore.java:79 | a prefix of the pieces that ends in a non-empty piece or is empty, with only empty pieces dropped |
| Records.JavaSplit | core/src/main/java/com/meowster/rec/FileRecordStore.java:79 | `split("\\n")`: a text without newlines is one piece; otherwise the pieces with the trailing empty ones removed, the last one kept non-empty |
| Records.Kept | core/src/main/java/com/meowster/rec/FileRecordStore.java:79-83 | the pieces that become records: at most the pieces, and all of them when blank lines are not suppressed |
| Records.KeptSelects | core/src/main/java/com/meowster/rec/FileRecordStore.java:80-82 | every record is one of the pieces, and none is blank when blank lines are suppressed |
| Records.KeptAppend | core/src/main/java/com/meowster/rec/FileRecordStore.java:79-83 | one more piece adds a record exactly when it is not a suppressed blank line |
| Records.PiecesOfKeptText | core/src/main/java/com/meowster/rec/FileRecordStore.java:74-79 | the text left by comment stripping, with newline endings, cuts into the kept lines and one final empty piece |
| Records.RemoveReturnsOfKeptText | core/src/main/java/com/meowster/rec/FileRecordStore.java:74-78 | with CRLF line endings, removing carriage returns gives the same text as newline endings |
| Records.SplitOfKeptText | core/src/main/java/com/meowster/rec/FileRecordStore.java:74-79 | splitting the comment-stripped text gives the kept lines without their trailing empty ones, or one empty piece when none is kept |
| Records.RecordsOfStripped | core/src/main/java/com/meowster/rec/FileRecordStore.java:74-83 | the records of a file are its non-comment lines, under either line ending, without trailing empty lines, and none of them is a comment |
| Records.FileRecordStore.Init | core/src/main/java/com/meowster/rec/FileRecordStore.java:33-34 | the store holds its path and no records yet |
| Records.FileRecordStore.Process | core/src/main/java/com/meowster/rec/FileRecordStore.java:77-84 | `process(raw, suppressBlankLines)` appends the records of the text to those already held |
| Records.FileRecordStore.AddAll | core/src/main/java/com/meowster/rec/FileRecordStore.java:79-83 | the loop of `process` appends exactly the kept pieces, in order |
| Records.FileRecordStore.GetRecords | core/src/main/java/com/meowster/rec/FileRecordStore.java:123-131 | `getRecords()` holds `size()` records |
| Records.Open | core/src/main/java/com/meowster/rec/FileRecordStore.java:60-75 | `new FileRecordStore(path, suppressBlankLines)`: a null path throws NullPointerException, unreadable contents throw IllegalArgumentException naming the path, otherwise a fresh store with that path holding the records of the comment-stripped contents |
| Records.OpenDefault | core/src/main/java/com/meowster/rec/FileRecordStore.java:45-47 | `new FileRecordStore(path)` is `Open` with blank lines suppressed: NullPointerException for a null path, IllegalArgumentException naming the path for unreadable contents, otherwise the store holds the records of the contents with comment lines stripped, none of them blank |
| Args.CollapseSlashes | core/src/main/java/com/meowster/mcquad/ParsedArgs.java:48 | collapsing leaves no slash followed by another, keeps the first and last characters, and empties only the empty path |
| Args.CollapseNormal | core/src/main/java/com/meowster/mcquad/ParsedArgs.java:48 | a path without doubled slashes is left as it is |
| Args.CollapseSlashAppended | core/src/main/java/com/meowster/mcquad/ParsedArgs.java:48 | one more slash joins a final run of slashes, or ends the collapsed path with a single slash |
| Args.FilePath | core/src/main/java/com/meowster/mcquad/ParsedArgs.java:48 | the path `new File(s)` holds has no doubled slash and no trailing slash except for the root, and is empty only for the empty string |
| Args.FilePathNormal | core/src/main/java/com/meowster/mcquad/ParsedArgs.java:48 | a path already in that form is its own `new File` path |
| Args.FilePathIdempotent | core/src/main/java/com/meowster/mcquad/ParsedArgs.java:48 | taking the `new File` path twice is taking it once |
| Args.TrailingSlashSameFile | core/src/main/java/com/meowster/mcquad/ParsedArgs.java:94 | `d` and `d/` make equal files, for any non-empty `d` |
| Args.SlashesSameFile | core/src/main/java/com/meowster/mcquad/ParsedArgs.java:94 | `a//b/` and `a/b` make the same file `a/b`, and `//` is the root |
| Args.SameDirectoryRefused | core/src/main/java/com/meowster/mcquad/ParsedArgs.java:90-100 | `<dir> -o <dir>/` is never valid, because both name the same file |
| Args.ParseWith | core/src/main/java/com/meowster/mcquad/ParsedArgs.java:45-62 | reading the arguments fails only by reading past the end, and never clears the help flag |
| Args.ParseConcat | core/src/main/java/com/meowster/mcquad/ParsedArgs.java:45-62 | reading two runs of arguments in turn is reading them joined: the second resumes from the first's settings |
| Args.LastRegionWins | core/src/main/java/com/meowster/mcquad/ParsedArgs.java:47-48 | a later plain argument replaces the region directory by its `new File` path and changes nothing else |
| Args.OutputTakesNext | core/src/main/java/com/meowster/mcquad/ParsedArgs.java:51-53 | `-o` makes the next argument, whatever it is, the output directory (as its `new File` path) and changes nothing else |
| Args.TrailingOutputFails | core/src/main/java/com/meowster/mcquad/ParsedArgs.java:52 | a final `-o` reads past the end of the arguments (ArrayIndexOutOfBoundsException) |
| Args.OtherSetsHelp | core/src/main/java/com/meowster/mcquad/ParsedArgs.java:55-59 | any other argument, the empty one, `-help` and `-?` included, sets the help flag and nothing else |
| Args.NoOutputOption | core/src/main/java/com/meowster/mcquad/ParsedArgs.java:45-62 | without `-o` the reading never fails and the output directory stays as it was |
| Args.UsageLine | core/src/main/java/com/meowster/mcquad/ParsedArgs.java:22 | `<region-dir> -o <output-dir>` sets exactly the two directories, as their `new File` paths, and no help |
| Args.UsageLineAcceptable | core/src/main/java/com/meowster/mcquad/ParsedArgs.java:90-100 | the usage line is valid exactly when its two directories' `new File` paths differ, the region directory is a directory and the output is missing or a directory |
| Args.NoOutputNeverAcceptable | core/src/main/java/com/meowster/mcquad/ParsedArgs.java:90-92 | arguments without `-o` are never valid |
| Args.ParsedArgs.constructor | core/src/main/java/com/meowster/mcquad/ParsedArgs.java:24-26 | a new ParsedArgs has no help flag and no directories |
| Args.ParsedArgs.ShowHelp | core/src/main/java/com/meowster/mcquad/ParsedArgs.java:72-76 | `showHelp()` returns the help flag |
| Args.ParsedArgs.Valid | core/src/main/java/com/meowster/mcquad/ParsedArgs.java:90-100 | `valid()` holds exactly when both directories are set and their paths differ (`File.equals`), the region directory is a directory and the output is missing or a directory |
| Args.Build | core/src/main/java/com/meowster/mcquad/ParsedArgs.java:43-64 | the loop of `build` fails exactly when a final `-o` reads past the end, and otherwise yields a fresh ParsedArgs holding the settings read from the front, directories as `new File` paths |
| Trackers.SumAtLeastLength | core/src/main/java/com/meowster/util/Tracker.java:87-92 | increments of at least one add up to at least their number |
| Trackers.DifferenceZero | core/src/main/java/com/meowster/util/Tracker.java:131-133 | a 64-bit difference of two longs is zero exactly when they are equal |
| Trackers.Tracker.constructor | core/src/main/java/com/meowster/util/Tracker.java:33-38 | a new tracker is neither started nor stopped and counts zero |
| Trackers.Tracker.Start | core/src/main/java/com/meowster/util/Tracker.java:64-69 | `start()` throws IllegalStateException when already started, otherwise starts the clock at the given reading |
| Trackers.Tracker.Inc | core/src/main/java/com/meowster/util/Tracker.java:87-93 | `inc(amount)` refuses an amount below one first, then a clock that is not running, otherwise adds the amount to the count in 64-bit arithmetic, keeping the count the wrapped sum of all accepted amounts |
| Trackers.Tracker.IncOne | core/src/main/java/com/meowster/util/Tracker.java:76-78 | `inc()` adds one when the clock runs and throws IllegalStateException otherwise |
| Trackers.Tracker.Stop | core/src/main/java/com/meowster/util/Tracker.java:101-109 | `stop()` throws when not started, then when already stopped, otherwise stops the clock at the given reading; the count is kept |
| Trackers.Tracker.Count | core/src/main/java/com/meowster/util/Tracker.java:116-118 | `count()` is the sum of the accepted amounts, exact while it fits a long, and then at least their number |
| Trackers.Tracker.DurationMs | core/src/main/java/com/meowster/util/Tracker.java:131 | the elapsed time is zero exactly when the readings are equal, and the true difference when that fits a long |
| Trackers.Tracker.PerSecond | core/src/main/java/com/meowster/util/Tracker.java:127-139 | `perSecond()` is "n/a" exactly until stopped, "0.00/s" exactly for a zero duration, and otherwise the rate of the count over the non-zero duration |
| Trackers.Tracker.Duration | core/src/main/java/com/meowster/util/Tracker.java:146-148 | `duration()` ends in "ms" and its digits read back as the elapsed milliseconds |

## Left out

- Reading the NBT tree and decompressing chunk data are not modelled: chunk sections and chunk surfaces are inputs of the model.
- Writing PNG files, creating directories and listing them are I/O. Writing is modelled as the file path a tile records; the pixels are not encoded.
- `File.isDirectory`, `File.exists`, the system clock, file modification times and the line separator are parameters.
- An image reloaded from disk is looked up in a map given as a parameter.
- Shading, which Java computes in floating point, is modelled with exact rational arithmetic truncated as Java's cast truncates. The fraction is always a multiple of 1/7, so the two agree.
- Trackers.Tracker.PerSecond: returns the count and duration of the rate, not the two-decimal text Java formats from a `double`.
- The order in which Java iterates its hash maps and sets is not modelled. Loops over regions and tiles are proved for every order, and their results do not depend on it.
- BaseBuilder.BuildLevels: the `for` loop runs over the set of region coordinates in an arbitrary order, where Java follows the region map's iteration order. Its contract, RegionPass's and GenTiles's state that level +0 shows every region, but not that +1 and +2 hold the enlarged images of the level above. That is stated per region by BaseBuilder.GenerateRegion, which ends each pass; carrying it through the loop makes the proof too costly for the verifier.
- BaseBuilder.RegionsShown: a region is promised to show in level +0 only when no region's base coordinates wrap past 32 bits. Otherwise a later region's tiles can replace an earlier region's at the same wrapped coordinate, as the Java map does.
- BaseBuilder.BaseQuadLevelBuilder.Prepare: the base zoom is a parameter. `QuadData.baseZoom()` is not part of this model, because the Java class has no such method.
- BaseBuilder.BaseQuadLevelBuilder.GenTiles: starting and stopping the level trackers and the level statistics are left out.
- `getLevel` and `createDirectory` of the level builders are left out, because they only return a field or call the file system.
- Builders.ChildrenNeverCollide: holds only for tile coordinates between -2^30 and 2^30, because beyond that 32-bit wrap-around can make two children share a coordinate.
- Builders.ParentOfChild: stated for non-negative coordinates below 2^30 only.
- Builders.QuadLevelBuilderOld.GenerateFromSourceLevel: requires a source side below 2^31 - 1, because with the largest int as the side Java's `a += 2` loop would wrap around and never end.
- Builders.AddRegionTile: the region tile is made without its rendered image, because the region's chunk surfaces are not inputs of this builder. The base-level builder, BaseBuilder, does render each region from its surfaces.
- Builders.PathIn: without a directory, the path is the bare name, as `new File(null, name)` gives.
- Ledger: writing the cache file (`persist`), reading it back (`parseCacheFile`, `load`) and `matchQuadShift` are left out, because they are file I/O. The line format of one entry is modelled.
- Ledger: `Region.modified()` is not part of this model. The modification times are an input map.
- `RegionData.load(File)` lists a directory, which is left out. The parsing of region file names is modelled.
- `toString` methods are left out, except the text and hex forms of block ids, biome ids, coordinates and colours.
- QuadData's calibration is never null in the model.
- Integer parsing accepts ASCII digits only.
- `FileRecordStore.getFileContents` reads a file and is left out; the contents are an input. Subclasses overriding `parseRawRecord` are not modelled.
- `printUsage` prints text and is left out.
- Args.FilePath: follows how `new File` normalises a path on a Unix file system. The Windows rules (backslashes, drive letters, case-insensitive comparison in `File.equals`) are not modelled.
- The setters `setBlocksPerTile` and `setBlocksPerTileSide` are modelled as one field, blocks per tile.
- The blank-tile counter of the level statistics (`incBlanks`) is a counter field of the level.
- `Coord.coord(String)` is not part of this model. Coordinates are read back from their `[x,z]` text form.
- Simple getters of `MetaRegion` and of the tiles carry no rows of their own.
- Materials.ToUpper: the Java method upper-cases in the default locale, which the model takes to be non-Turkish. Under a Turkish locale `i` becomes `İ`, so `from("foliage")` fails there; that case is not modelled.
- Materials.UpperOf: maps every character whose upper case contains an ASCII letter: a-z, ſ, ı, ß, the Latin ligatures ﬀ to ﬆ, and ŉ, ǰ, ẖ, ẗ, ẘ, ẙ and ẚ, which have no precomposed capital. Any other character is kept as it is, although Java may upper-case it to other non-ASCII text (é to É, for instance). A name holding such a character matches no constant either way, so only the text of the exception message differs.
- Materials.InfluenceFrom: the locale caveat of Materials.ToUpper applies.
- Materials.BlockEquals: Java's `this == o` compares object identity; the model compares values. Two distinct blocks with equal records and no block id raise NullPointerException in Java but are equal here. Materials.BiomeEquals differs in the same way.
- Ids: the identity checks in the `equals` methods of `BlockId` and `BiomeId` are modelled as value equality. Both methods then compare the same fields, so their results agree.
- Regions.RegionImageData.GetImage: Java's `getSubimage` returns a view that shares the raster of the region image; the model returns a new array holding the same pixels. Writes through one image are not seen in the other here.
- ChunkColumns.Chunk.Load: decoding the NBT tree is not modelled. The level tag is an input, and a missing level tag stands for the NullPointerException Java raises.
- Quads.ComputeQuad: requires a side of at most 2^30, because beyond that Java's `q *= 2` loop (QuadData.java:57-63) wraps to -2^31 and then 0 and never ends.
- Quads.Derive: requires a side of at most 2^30, for the reason given for Quads.ComputeQuad.
- Quads.QuadData.constructor: requires the bounds' larger side to be at most 2^30, for the reason given for Quads.ComputeQuad.
- Tiles.QdLvl.AddTile: updating the level statistics (`stats.addStats`) is left out; the blank counter is kept.
- Colors.AverageColor: the channel sums are unbounded integers. Java sums in `int`, which overflows only beyond about 8.4 million colours; tiles average four.
- RegionFiles.ReadChunkFrom: the gzip or zlib data is not decompressed. The stream holds the compressed bytes after the version byte, tagged with the compression the version names.

## Findings

| source | as written | input that shows it | evidently intended | confidence | as-written member | corrected member |
|---|---|---|---|---|---|---|
| core/src/main/java/com/meowster/util/StringUtils.java:64 | after a replacement the search for the next `{}` resumes one character past the start of the inserted text, so an empty argument lets the search skip a token that follows directly | `format("{}{}", "", "X")` gives `{}` | each `{}` replaced in turn by the next argument, giving `X` | not executed | StringUtils.FormatEmptyArgumentSkipsToken | StringUtils.IntendedFormatReplacesTokens |
| core/src/main/java/com/meowster/mcquad/RegionFile.java:221-224 | the sector number is taken with the signed shift `offset >> 8` | location word 0x80000001 gives sector -8388608, which passes the bound check in any file | the sector number read as an unsigned 24-bit value, so an entry beyond the file is unavailable | not executed | RegionFiles.SignedSectorDeemedAvailable | RegionFiles.IntendedAvailableInFile |
