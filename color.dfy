/**
 * 32-bit ARGB colours. A colour holds four 8-bit components; its packed word
 * is the Java `int` `(alpha << 24) | (red << 16) | (green << 8) | blue`,
 * which is negative when alpha is 128 or more. Colours are compared and
 * hashed by that word.
 */
module Colors {
  import opened Wrappers
  import opened JavaInts
  import StringUtils

  type Byte = x: int | 0 <= x < 256

  const MAX_BYTE: int := 255

  datatype Color = Color(alpha: Byte, red: Byte, green: Byte, blue: Byte)

  /** The component constructor's clamp of an int into 0..255. */
  function ClampByte(v: int): (r: Byte)
    ensures 0 <= v < 256 ==> r == v
    ensures v < 0 ==> r == 0
    ensures v > 255 ==> r == 255
  {
    if v < 0 then 0 else if v > MAX_BYTE then MAX_BYTE else v
  }

  /** `new Color(alpha, red, green, blue)`: each component clamped into 0..255. */
  function FromComponents(a: int, r: int, g: int, b: int): Color
  {
    Color(ClampByte(a), ClampByte(r), ClampByte(g), ClampByte(b))
  }

  /**
   * `new Color(int val)`: the low byte is blue, then green, red and alpha,
   * each taken by masking with 0xff after an arithmetic right shift. For the
   * positive divisors used here Dafny's `/` and `%` are floor division and a
   * non-negative remainder, which is what `>>` and `& 0xff` compute.
   */
  function FromInt(val: Int32): (c: Color)
    ensures c.alpha >= 128 <==> val < 0
  {
    Color((val / 0x100_0000) % 256, (val / 0x1_0000) % 256, (val / 0x100) % 256, val % 256)
  }

  /**
   * `toInt()`: the packed word, read as a signed 32-bit int, which is negative
   * exactly when the colour is at least half opaque.
   */
  function ToInt(c: Color): (w: Int32)
    ensures w < 0 <==> c.alpha >= 128
  {
    var u := c.alpha * 0x100_0000 + c.red * 0x1_0000 + c.green * 0x100 + c.blue;
    if u >= 0x8000_0000 then u - TWO_32 else u
  }

  /** `hashCode()` is the packed word, from which the colour can be read back. */
  function HashCode(c: Color): (h: Int32)
    ensures FromInt(h) == c
  {
    FromIntToInt(c);
    ToInt(c)
  }

  /** `transparency()`: how much of what lies beneath shows through. */
  function Transparency(c: Color): (t: Byte)
    ensures t + c.alpha == MAX_BYTE
  {
    MAX_BYTE - c.alpha
  }

  /** A colour literal written as the unsigned hex word of the source. */
  function Word(u: int): Color
    requires 0 <= u < TWO_32
  {
    FromInt(ToInt32(u))
  }

  const TRANSPARENT: Color := Word(0x0)
  const BLACK: Color := Word(0xff00_0000)
  const RED: Color := Word(0xffff_0000)
  const GREEN: Color := Word(0xff00_ff00)
  const BLUE: Color := Word(0xff00_00ff)
  const YELLOW: Color := Word(0xffff_ff00)
  const MAGENTA: Color := Word(0xffff_00ff)
  const CYAN: Color := Word(0xff00_ffff)
  const WHITE: Color := Word(0xffff_ffff)

  // ------------------------------------------------------- packed word

  /** The arithmetic behind the packed word: the four bytes of `v`, signed or not. */
  lemma Unpack(v: int, a: Byte, r: Byte, g: Byte, b: Byte)
    requires v == a * 0x100_0000 + r * 0x1_0000 + g * 0x100 + b ||
             v == a * 0x100_0000 + r * 0x1_0000 + g * 0x100 + b - TWO_32
    ensures (v / 0x100_0000) % 256 == a && (v / 0x1_0000) % 256 == r
    ensures (v / 0x100) % 256 == g && v % 256 == b
  {
    var u := a * 0x100_0000 + r * 0x1_0000 + g * 0x100 + b;
    assert u / 0x100 == a * 0x1_0000 + r * 0x100 + g;
    assert u / 0x1_0000 == a * 0x100 + r;
    assert u / 0x100_0000 == a;
    if v != u {
      assert v / 0x100_0000 == u / 0x100_0000 - 256;
      assert v / 0x1_0000 == u / 0x1_0000 - 0x1_0000;
      assert v / 0x100 == u / 0x100 - 0x100_0000;
    }
  }

  /** Unpacking the packed word gives back the four components. */
  lemma FromIntToInt(c: Color)
    ensures FromInt(ToInt(c)) == c
  {
    Unpack(ToInt(c), c.alpha, c.red, c.green, c.blue);
  }

  lemma Repack(v: int)
    requires -0x8000_0000 <= v < 0x8000_0000
    ensures var u := if v < 0 then v + TWO_32 else v;
      u == ((v / 0x100_0000) % 256) * 0x100_0000 + ((v / 0x1_0000) % 256) * 0x1_0000
           + ((v / 0x100) % 256) * 0x100 + v % 256
  {
    var u := if v < 0 then v + TWO_32 else v;
    var q1, b := u / 256, u % 256;
    var q2, g := q1 / 256, q1 % 256;
    var a, r := q2 / 256, q2 % 256;
    assert u == 256 * q1 + b;
    assert q1 == 256 * q2 + g;
    assert q2 == 256 * a + r;
    assert a < 256;
    Unpack(v, a, r, g, b);
  }

  /** Packing the components of an int gives back the int. */
  lemma ToIntFromInt(v: Int32)
    ensures ToInt(FromInt(v)) == v
  {
    Repack(v);
  }

  /** `equals` compares packed words; that is the same as comparing the four components. */
  lemma EqualsIffSameComponents(c: Color, d: Color)
    ensures (ToInt(c) == ToInt(d)) <==> (c == d)
  {
    FromIntToInt(c);
    FromIntToInt(d);
  }

  // ------------------------------------------------------------- hex

  /** `hex()`: `0x` and the packed word as unsigned hex, which reads back as the colour. */
  function Hex(c: Color): (s: string)
    ensures StringUtils.HexAsLong(s) == Success(Unsigned32(ToInt(c)))
    ensures FromHexString(s) == Success(c)
  {
    StringUtils.HexAsLongOfAsHexInt(ToInt(c));
    FromIntToInt(c);
    StringUtils.AsHexInt(ToInt(c))
  }

  /**
   * `new Color(String)`: the string read by `hexAsLong` and narrowed to an int;
   * a string that is not hex raises NumberFormatException.
   */
  function FromHexString(s: string): (r: Result<Color>)
    ensures r.Failure? <==> StringUtils.HexAsLong(s).Failure?
    ensures r.Failure? ==> r.error == NumberFormat(StringUtils.Strip0x(s))
    ensures r.Success? ==> ToInt(r.value) == ToInt32(StringUtils.HexAsLong(s).value)
  {
    var l := StringUtils.HexAsLong(s);
    if l.Failure? then Failure(l.error)
    else
      ToIntFromInt(ToInt32(l.value));
      Success(FromInt(ToInt32(l.value)))
  }

  // ----------------------------------------------------------- shade

  /**
   * `shade(amount)`: the amount added to red, green and blue in 32-bit int
   * arithmetic, then clamped; alpha kept. A sum past the largest int wraps
   * to a negative value, which clamps to 0.
   */
  function Shade(c: Color, amount: Int32): (r: Color)
    ensures r.alpha == c.alpha
    ensures c.red + amount <= 0x7fff_ffff ==> r.red == ClampByte(c.red + amount)
    ensures c.green + amount <= 0x7fff_ffff ==> r.green == ClampByte(c.green + amount)
    ensures c.blue + amount <= 0x7fff_ffff ==> r.blue == ClampByte(c.blue + amount)
    ensures c.red + amount > 0x7fff_ffff ==> r.red == 0
    ensures c.green + amount > 0x7fff_ffff ==> r.green == 0
    ensures c.blue + amount > 0x7fff_ffff ==> r.blue == 0
    ensures 0 <= amount <= 0x7fff_ffff - MAX_BYTE ==> r.red >= c.red && r.green >= c.green && r.blue >= c.blue
    ensures amount <= 0 ==> r.red <= c.red && r.green <= c.green && r.blue <= c.blue
  {
    FromComponents(c.alpha, ToInt32(c.red + amount), ToInt32(c.green + amount), ToInt32(c.blue + amount))
  }

  /** Shading by zero changes nothing. */
  lemma ShadeZero(c: Color)
    ensures Shade(c, 0) == c
  {
  }

  /** Two shades in the same direction are one shade by the sum, while the sums stay below the largest int. */
  lemma ShadeCompose(c: Color, a: Int32, b: Int32)
    requires (0 <= a && 0 <= b && a + b <= 0x7fff_ffff - MAX_BYTE) || (a <= 0 && b <= 0 && -0x8000_0000 <= a + b)
    ensures Shade(Shade(c, a), b) == Shade(c, a + b)
  {
  }

  /** Near the largest int the sum wraps: a red of 1 shaded by the largest int becomes 0, not 255. */
  lemma ShadeWraps()
    ensures Shade(Color(0xff, 1, 0, 0), 0x7fff_ffff).red == 0
    ensures Shade(Color(0xff, 1, 0, 0), 0x7fff_fffe).red == 255
  {
  }

  // --------------------------------------------------------- overlay

  /** `OverlayFilter.combinedAlpha`: the overlay's opacity plus what shows of the base alpha. */
  function CombinedAlpha(o: Color, alpha: Byte): (r: Byte)
    ensures r >= o.alpha && r >= alpha
  {
    OverlayAlphaBounds(alpha, o.alpha);
    o.alpha + alpha * Transparency(o) / MAX_BYTE
  }

  /** `OverlayFilter.combinedRgb`: the overlay component weighted by opacity, the base by transparency. */
  function CombinedRgb(o: Color, overlayComponent: Byte, component: Byte): (r: int)
    ensures overlayComponent <= component ==> overlayComponent <= r <= component
    ensures component <= overlayComponent ==> component <= r <= overlayComponent
  {
    WeightedBetween(overlayComponent, component, o.alpha);
    (overlayComponent * o.alpha + component * Transparency(o)) / MAX_BYTE
  }

  /** A weighted mean of two bytes, weights `a` and `255 - a`, lies between them. */
  lemma WeightedBetween(p: Byte, q: Byte, a: Byte)
    ensures p <= q ==> p <= (p * a + q * (255 - a)) / 255 <= q
    ensures q <= p ==> q <= (p * a + q * (255 - a)) / 255 <= p
  {
    var lo, hi := if p <= q then p else q, if p <= q then q else p;
    var sum := p * a + q * (255 - a);
    MulMono(lo, p, a);
    MulMono(p, hi, a);
    MulMono(lo, q, 255 - a);
    MulMono(q, hi, 255 - a);
    assert lo * a + lo * (255 - a) == 255 * lo;
    assert hi * a + hi * (255 - a) == 255 * hi;
    DivBelow(sum, 255, hi);
    DivAbove(sum, 255, lo);
  }

  /** `overlay(o)`: `o` seen over this colour, weighted by `o`'s opacity. */
  function Overlay(c: Color, o: Color): (r: Color)
    ensures r.alpha >= c.alpha && r.alpha >= o.alpha
  {
    FromComponents(CombinedAlpha(o, c.alpha), CombinedRgb(o, o.red, c.red),
                   CombinedRgb(o, o.green, c.green), CombinedRgb(o, o.blue, c.blue))
  }

  lemma OverlayAlphaBounds(a: Byte, op: Byte)
    ensures op <= op + a * (255 - op) / 255 <= 255
    ensures a <= op + a * (255 - op) / 255
  {
    TransparencyProduct(a, op);
    ScaledBounds(a * (255 - op), a, op);
  }

  /** Linear bounds on the base alpha weighted by the overlay's transparency. */
  lemma TransparencyProduct(a: Byte, op: Byte)
    ensures 0 <= a * (255 - op) <= 255 * (255 - op)
    ensures a > op ==> 255 * (a - op) <= a * (255 - op)
  {
    MulMono(a, 255, 255 - op);
    MulMono(a, 255, op);
    assert a * (255 - op) == 255 * a - a * op;
  }

  lemma ScaledBounds(t: int, a: Byte, op: Byte)
    requires 0 <= t <= 255 * (255 - op)
    requires a > op ==> 255 * (a - op) <= t
    ensures op <= op + t / 255 <= 255
    ensures a <= op + t / 255
  {
    DivBelow(t, 255, 255 - op);
    if a > op {
      DivAbove(t, 255, a - op);
    }
  }

  /** A fully transparent overlay leaves the colour as it is. */
  lemma OverlayTransparent(c: Color, o: Color)
    requires o.alpha == 0
    ensures Overlay(c, o) == c
  {
  }

  /** A fully opaque overlay hides the colour completely. */
  lemma OverlayOpaque(c: Color, o: Color)
    requires o.alpha == 255
    ensures Overlay(c, o) == o
  {
  }

  /** The colour after `n` overlays of `o`. */
  function OverlayTimes(c: Color, o: Color, n: int): Color
    decreases n
  {
    if n <= 0 then c else Overlay(OverlayTimes(c, o, n - 1), o)
  }

  /** `overlay(o, repeatCount)`: `o` laid over the colour `repeatCount` times. */
  method OverlayRepeat(c: Color, o: Color, repeatCount: int) returns (result: Color)
    ensures result == OverlayTimes(c, o, repeatCount)
  {
    result := c;
    var i := 0;
    while i < repeatCount
      invariant 0 <= i <= (if repeatCount < 0 then 0 else repeatCount)
      invariant result == OverlayTimes(c, o, i)
    {
      result := Overlay(result, o);
      i := i + 1;
    }
  }

  /** Repeated overlays never make a colour less opaque. */
  lemma {:induction false} OverlayTimesAlpha(c: Color, o: Color, n: int)
    ensures OverlayTimes(c, o, n).alpha >= c.alpha
    ensures n >= 1 ==> OverlayTimes(c, o, n).alpha >= o.alpha
    decreases n
  {
    if n > 0 {
      OverlayTimesAlpha(c, o, n - 1);
    }
  }

  /** Overlaying a transparent colour any number of times changes nothing. */
  lemma {:induction false} OverlayTimesTransparent(c: Color, o: Color, n: int)
    requires o.alpha == 0
    ensures OverlayTimes(c, o, n) == c
    decreases n
  {
    if n > 0 {
      OverlayTimesTransparent(c, o, n - 1);
      OverlayTransparent(OverlayTimes(c, o, n - 1), o);
    }
  }

  /** Overlaying an opaque colour at least once gives that colour. */
  lemma OverlayTimesOpaque(c: Color, o: Color, n: int)
    requires o.alpha == 255 && n >= 1
    ensures OverlayTimes(c, o, n) == o
  {
    OverlayOpaque(OverlayTimes(c, o, n - 1), o);
  }

  // ------------------------------------------------------ demultiply

  /**
   * `demultiplyAlpha()`: a colour whose components were premultiplied by its
   * alpha, scaled back up; a fully transparent colour becomes TRANSPARENT.
   */
  function DemultiplyAlpha(c: Color): (r: Color)
    ensures c.alpha == 0 ==> r == Color(0, 0, 0, 0)
    ensures c.alpha != 0 ==> r.alpha == c.alpha
  {
    if c.alpha == 0 then TRANSPARENT
    else
      FromComponents(c.alpha, c.red * MAX_BYTE / c.alpha, c.green * MAX_BYTE / c.alpha,
                     c.blue * MAX_BYTE / c.alpha)
  }

  /** A fully opaque colour is left as it is. */
  lemma DemultiplyOpaque(c: Color)
    requires c.alpha == 255
    ensures DemultiplyAlpha(c) == c
  {
  }

  /**
   * For a validly premultiplied component (not above alpha), scaling back up
   * and multiplying by alpha again loses at most one step of rounding.
   */
  lemma DemultiplyRemultiply(comp: Byte, alpha: Byte)
    requires 0 < alpha && comp <= alpha
    ensures 0 <= comp * 255 / alpha <= 255
    ensures comp - 1 <= (comp * 255 / alpha) * alpha / 255 <= comp
  {
    var d := comp * 255 / alpha;
    assert comp * 255 <= alpha * 255;
    assert d * alpha <= comp * 255;
    assert d * alpha > comp * 255 - alpha;
    assert d * alpha > (comp - 1) * 255;
  }

  lemma DemultiplyThenMultiply(c: Color)
    requires c.alpha != 0 && c.red <= c.alpha && c.green <= c.alpha && c.blue <= c.alpha
    ensures MultiplySolid(DemultiplyAlpha(c), Color(c.alpha, c.alpha, c.alpha, c.alpha)).red in {c.red, c.red - 1}
    ensures MultiplySolid(DemultiplyAlpha(c), Color(c.alpha, c.alpha, c.alpha, c.alpha)).green in {c.green, c.green - 1}
    ensures MultiplySolid(DemultiplyAlpha(c), Color(c.alpha, c.alpha, c.alpha, c.alpha)).blue in {c.blue, c.blue - 1}
  {
    DemultiplyRemultiply(c.red, c.alpha);
    DemultiplyRemultiply(c.green, c.alpha);
    DemultiplyRemultiply(c.blue, c.alpha);
  }

  // -------------------------------------------------------- multiply

  function MulComponent(component: Byte, mult: Byte): (r: Byte)
    ensures r <= component && r <= mult
  {
    assert component * mult <= component * 255 && component * mult <= 255 * mult;
    component * mult / MAX_BYTE
  }

  /**
   * `multiply(m)`: every component, alpha included, scaled by `m`'s component
   * / 255, so no component exceeds either colour's.
   */
  function Multiply(c: Color, m: Color): (r: Color)
    ensures r.alpha <= c.alpha && r.red <= c.red && r.green <= c.green && r.blue <= c.blue
    ensures r.alpha <= m.alpha && r.red <= m.red && r.green <= m.green && r.blue <= m.blue
  {
    FromComponents(MulComponent(c.alpha, m.alpha), MulComponent(c.red, m.red),
                   MulComponent(c.green, m.green), MulComponent(c.blue, m.blue))
  }

  /** `multiplySolid(m)`: as `multiply`, but alpha is kept. */
  function MultiplySolid(c: Color, m: Color): (r: Color)
    ensures r.alpha == c.alpha
  {
    FromComponents(c.alpha, MulComponent(c.red, m.red), MulComponent(c.green, m.green),
                   MulComponent(c.blue, m.blue))
  }

  /** Multiplication never brightens a component, is symmetric, and WHITE is its unit. */
  lemma MultiplyProperties(c: Color, m: Color)
    ensures Multiply(c, m) == Multiply(m, c)
    ensures Multiply(c, WHITE) == c && MultiplySolid(c, WHITE) == c
    ensures Multiply(c, m).red <= c.red && Multiply(c, m).alpha <= c.alpha
    ensures MultiplySolid(c, m).green <= c.green && MultiplySolid(c, m).blue <= c.blue
  {
    assert WHITE == Color(255, 255, 255, 255);
  }

  // --------------------------------------------------------- average

  datatype Channel = A | R | G | B

  function Component(c: Color, ch: Channel): Byte
  {
    match ch
    case A => c.alpha
    case R => c.red
    case G => c.green
    case B => c.blue
  }

  /** Every word of `argb` is the packing of the colour it unpacks to. */
  lemma RepackEach(argb: seq<Int32>)
    ensures forall k :: 0 <= k < |argb| ==> ToInt(FromInt(argb[k])) == argb[k]
  {
    forall k | 0 <= k < |argb| {
      ToIntFromInt(argb[k]);
    }
  }

  /**
   * The colours that the given words encode, in order: one colour per word,
   * each of which packs back into its word.
   */
  function Decode(argb: seq<Int32>): (cs: seq<Color>)
    ensures |cs| == |argb|
    ensures forall k :: 0 <= k < |argb| ==> cs[k] == FromInt(argb[k])
    ensures forall k :: 0 <= k < |argb| ==> ToInt(cs[k]) == argb[k]
  {
    RepackEach(argb);
    seq(|argb|, k requires 0 <= k < |argb| => FromInt(argb[k]))
  }

  /** The sum of one channel over a sequence of colours. */
  function ChannelSum(cs: seq<Color>, ch: Channel): nat
    decreases |cs|
  {
    if |cs| == 0 then 0 else ChannelSum(cs[..|cs| - 1], ch) + Component(cs[|cs| - 1], ch)
  }

  /** The average colour: each channel's sum divided by the count (truncated). */
  function Average(argb: seq<Int32>): Color
  {
    var n := |argb|;
    var cs := Decode(argb);
    if n == 0 then TRANSPARENT
    else if n == 1 then FromInt(argb[0])
    else FromComponents(ChannelSum(cs, A) / n, ChannelSum(cs, R) / n,
                        ChannelSum(cs, G) / n, ChannelSum(cs, B) / n)
  }

  /**
   * `averageColor(argb...)`: TRANSPARENT for no colours, the colour itself
   * for one, else the channel-wise truncated mean.
   */
  method AverageColor(argb: seq<Int32>) returns (c: Color)
    ensures c == Average(argb)
  {
    if |argb| == 0 {
      return TRANSPARENT;
    }
    if |argb| == 1 {
      return FromInt(argb[0]);
    }
    ghost var cs := Decode(argb);
    var a, r, g, b := 0, 0, 0, 0;
    var i := 0;
    while i < |argb|
      invariant 0 <= i <= |argb|
      invariant a == ChannelSum(cs[..i], A) && r == ChannelSum(cs[..i], R)
      invariant g == ChannelSum(cs[..i], G) && b == ChannelSum(cs[..i], B)
    {
      var color := FromInt(argb[i]);
      assert cs[..i + 1][..i] == cs[..i] && cs[..i + 1][i] == color;
      a, r, g, b := a + color.alpha, r + color.red, g + color.green, b + color.blue;
      i := i + 1;
    }
    assert cs[..i] == cs;
    var n := |argb|;
    return FromComponents(a / n, r / n, g / n, b / n);
  }

  lemma {:induction false} ChannelSumUniform(cs: seq<Color>, v: Color, ch: Channel)
    requires forall k :: 0 <= k < |cs| ==> cs[k] == v
    ensures ChannelSum(cs, ch) == |cs| * Component(v, ch)
    decreases |cs|
  {
    if |cs| > 0 {
      var n := |cs|;
      ChannelSumUniform(cs[..n - 1], v, ch);
      assert ChannelSum(cs, ch) == (n - 1) * Component(v, ch) + Component(v, ch);
    }
  }

  /** The average of copies of one colour is that colour. */
  lemma AverageUniform(argb: seq<Int32>, v: Int32)
    requires |argb| > 0
    requires forall k :: 0 <= k < |argb| ==> argb[k] == v
    ensures Average(argb) == FromInt(v)
  {
    var n := |argb|;
    var cs, c := Decode(argb), FromInt(v);
    if n > 1 {
      ChannelSumUniform(cs, c, A);
      ChannelSumUniform(cs, c, R);
      ChannelSumUniform(cs, c, G);
      ChannelSumUniform(cs, c, B);
      MulDivCancel(n, c.alpha);
      MulDivCancel(n, c.red);
      MulDivCancel(n, c.green);
      MulDivCancel(n, c.blue);
    }
  }

  /** Every channel sum is at most the count times a bound on that channel. */
  lemma {:induction false} ChannelSumBound(cs: seq<Color>, ch: Channel, m: int)
    requires forall k :: 0 <= k < |cs| ==> Component(cs[k], ch) <= m
    ensures ChannelSum(cs, ch) <= |cs| * m
    decreases |cs|
  {
    if |cs| > 0 {
      var n := |cs|;
      ChannelSumBound(cs[..n - 1], ch, m);
      assert ChannelSum(cs, ch) <= (n - 1) * m + m;
    }
  }

  /** The average is no more opaque than the most opaque colour averaged. */
  lemma AverageAlphaBound(argb: seq<Int32>, m: Byte)
    requires |argb| > 0
    requires forall k :: 0 <= k < |argb| ==> FromInt(argb[k]).alpha <= m
    ensures Average(argb).alpha <= m
  {
    var n := |argb|;
    if n > 1 {
      var cs := Decode(argb);
      ChannelSumBound(cs, A, m);
      DivBelow(ChannelSum(cs, A), n, m);
    }
  }
}
