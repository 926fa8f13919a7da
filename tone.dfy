/** The conversion `rgb` makes from the accumulated sums to displayable pixels:
    the scan for the brightest sum, the per-channel tone curve, the saturating cast
    to u32 and the packing of three bytes into one word. */
module Tone {

  const U32_LIMIT: nat := 0x1_0000_0000

  /** The scan `max = 0; for light in image { if max < light { max = light } }`
      over a prefix of the image, as a recursion on its last element. */
  function Peak(s: seq<real>): (m: real)
    ensures m >= 0.0
    ensures forall j :: 0 <= j < |s| ==> s[j] <= m
    ensures m == 0.0 || exists j :: 0 <= j < |s| && s[j] == m
  {
    if s == [] then 0.0
    else
      var m := Peak(s[..|s| - 1]);
      if m < s[|s| - 1] then s[|s| - 1] else m
  }

  /** Rust's `as u32` on a finite value: truncation toward zero, saturating at both
      ends of the range. */
  function CastU32(v: real): (r: nat)
    ensures r < U32_LIMIT
    ensures 0.0 <= v < U32_LIMIT as real ==> r as real <= v < r as real + 1.0
    ensures v < 0.0 ==> r == 0
    ensures v >= U32_LIMIT as real ==> r == U32_LIMIT - 1
  {
    if v < 0.0 then 0
    else if v >= U32_LIMIT as real then U32_LIMIT - 1
    else v.Floor
  }

  /** One channel of a pixel: `(255 * (v / max).powf(gamma) + 0.5) as u32`. */
  function Channel(v: real, max: real, gamma: real, powf: (real, real) -> real): (r: nat)
    requires max > 0.0
    ensures r < U32_LIMIT
    ensures 0.0 <= powf(v / max, gamma) <= 1.0 ==> r <= 255
  {
    CastU32(255.0 * powf(v / max, gamma) + 0.5)
  }

  /** `(r << 16) + (g << 8) + b` on u32: the shifts drop the bits above bit 31 and
      the sum wraps around. */
  function Pack(r: nat, g: nat, b: nat): (w: nat)
    ensures w < U32_LIMIT
  {
    ((r * 0x1_0000) % U32_LIMIT + (g * 0x100) % U32_LIMIT + b) % U32_LIMIT
  }

  function Red(w: nat): nat {
    (w / 0x1_0000) % 0x100
  }

  function Green(w: nat): nat {
    (w / 0x100) % 0x100
  }

  function Blue(w: nat): nat {
    w % 0x100
  }

  /** Three bytes survive the packing: each can be read back from the word. */
  lemma PackRoundTrip(r: nat, g: nat, b: nat)
    requires r <= 255 && g <= 255 && b <= 255
    ensures Pack(r, g, b) == r * 0x1_0000 + g * 0x100 + b < 0x100_0000
    ensures Red(Pack(r, g, b)) == r && Green(Pack(r, g, b)) == g && Blue(Pack(r, g, b)) == b
  {
    var w := r * 0x1_0000 + g * 0x100 + b;
    assert (r * 0x1_0000) % U32_LIMIT == r * 0x1_0000;
    assert (g * 0x100) % U32_LIMIT == g * 0x100;
    assert Pack(r, g, b) == w;
    assert w / 0x1_0000 == r;
    assert w / 0x100 == r * 0x100 + g;
    assert (r * 0x100 + g) % 0x100 == g;
    assert w % 0x100 == b;
  }

  /** Pixel `i` of the packed buffer; its three channels are read at offsets
      `3 * i`, `3 * i + 1` and `3 * i + 2`. */
  function Pixel(s: seq<real>, i: nat, max: real, gamma: real, powf: (real, real) -> real): (w: nat)
    requires 3 * i + 2 < |s| && max > 0.0
    ensures w < U32_LIMIT
  {
    Pack(Channel(s[3 * i], max, gamma, powf),
         Channel(s[3 * i + 1], max, gamma, powf),
         Channel(s[3 * i + 2], max, gamma, powf))
  }

  /** The tone curve keeps [0, 1] inside [0, 1]. */
  ghost predicate KeepsUnitInterval(powf: (real, real) -> real, gamma: real) {
    forall x :: 0.0 <= x <= 1.0 ==> 0.0 <= powf(x, gamma) <= 1.0
  }

  /** For a non-negative image whose brightest sum is positive, every channel of a
      pixel is a byte and the word decodes back to the three tone-mapped values. */
  lemma PixelDecodes(s: seq<real>, i: nat, gamma: real, powf: (real, real) -> real)
    requires 3 * i + 2 < |s| && Peak(s) > 0.0
    requires forall j :: 0 <= j < |s| ==> s[j] >= 0.0
    requires KeepsUnitInterval(powf, gamma)
    ensures var max := Peak(s);
      && Red(Pixel(s, i, max, gamma, powf)) == Channel(s[3 * i], max, gamma, powf) <= 255
      && Green(Pixel(s, i, max, gamma, powf)) == Channel(s[3 * i + 1], max, gamma, powf) <= 255
      && Blue(Pixel(s, i, max, gamma, powf)) == Channel(s[3 * i + 2], max, gamma, powf) <= 255
  {
    var max := Peak(s);
    forall k | 3 * i <= k <= 3 * i + 2
      ensures 0.0 <= powf(s[k] / max, gamma) <= 1.0
    {
      RatioInUnit(s[k], max);
    }
    PackRoundTrip(Channel(s[3 * i], max, gamma, powf),
                  Channel(s[3 * i + 1], max, gamma, powf),
                  Channel(s[3 * i + 2], max, gamma, powf));
  }

  /** Multiplication by `k`. */
  function Times(k: real): real -> real {
    x => k * x
  }

  /** `f` applied to every sum. */
  function Mapped(s: seq<real>, f: real -> real): (t: seq<real>)
    ensures |t| == |s|
    ensures forall j :: 0 <= j < |s| ==> t[j] == f(s[j])
  {
    if s == [] then [] else Mapped(s[..|s| - 1], f) + [f(s[|s| - 1])]
  }

  /** Every sum multiplied by the same factor `k`. */
  function Scaled(s: seq<real>, k: real): seq<real> {
    Mapped(s, Times(k))
  }

  /** `f` keeps the order of any two values, in both directions. */
  ghost predicate StrictlyIncreasing(f: real -> real) {
    forall a, b :: a < b <==> f(a) < f(b)
  }

  /** The scan for the brightest sum commutes with any strictly increasing map
      that fixes 0 (the scan's starting value). */
  lemma {:induction false} PeakMapped(s: seq<real>, f: real -> real)
    requires StrictlyIncreasing(f) && f(0.0) == 0.0
    ensures Peak(Mapped(s, f)) == f(Peak(s))
    decreases |s|
  {
    if s != [] {
      var n := |s| - 1;
      assert Mapped(s, f)[..n] == Mapped(s[..n], f);
      PeakMapped(s[..n], f);
    }
  }

  /** A positive factor keeps the order of two values. */
  lemma ScaleLess(k: real, a: real, b: real)
    requires k > 0.0
    ensures a < b <==> k * a < k * b
  {
    assert k * b - k * a == k * (b - a);
  }

  lemma ScaleIncreasing(k: real)
    requires k > 0.0
    ensures StrictlyIncreasing(Times(k))
  {
    forall a, b
      ensures a < b <==> Times(k)(a) < Times(k)(b)
    {
      ScaleLess(k, a, b);
    }
  }

  /** Scaling every sum by a positive factor scales the brightest one by it. */
  lemma PeakScale(s: seq<real>, k: real)
    requires k > 0.0
    ensures Peak(Scaled(s, k)) == Times(k)(Peak(s))
  {
    ScaleIncreasing(k);
    PeakMapped(s, Times(k));
  }

  /** A positive factor on both sides of a ratio cancels. */
  lemma ScaleRatio(k: real, v: real, m: real)
    requires k > 0.0 && m > 0.0
    ensures (k * v) / (k * m) == v / m
  {
    var q := v / m;
    assert v == q * m;
    assert k * v == q * (k * m);
  }

  /** A channel depends only on the ratio of its sum to the brightest one. */
  lemma ChannelScale(v: real, m: real, k: real, gamma: real, powf: (real, real) -> real)
    requires k > 0.0 && m > 0.0
    ensures Times(k)(m) > 0.0
    ensures Channel(Times(k)(v), Times(k)(m), gamma, powf) == Channel(v, m, gamma, powf)
  {
    assert Times(k)(v) == k * v && Times(k)(m) == k * m;
    ScaleLess(k, 0.0, m);
    ScaleRatio(k, v, m);
  }

  /** The output of `rgb` is normalized by the brightest sum: multiplying every
      accumulated sum by the same positive factor leaves every packed pixel
      unchanged. */
  lemma PixelScale(s: seq<real>, i: nat, k: real, gamma: real, powf: (real, real) -> real)
    requires k > 0.0 && 3 * i + 2 < |s| && Peak(s) > 0.0
    ensures Peak(Scaled(s, k)) > 0.0
    ensures Pixel(Scaled(s, k), i, Peak(Scaled(s, k)), gamma, powf) == Pixel(s, i, Peak(s), gamma, powf)
  {
    var m := Peak(s);
    PeakScale(s, k);
    ChannelScale(s[3 * i], m, k, gamma, powf);
    ChannelScale(s[3 * i + 1], m, k, gamma, powf);
    ChannelScale(s[3 * i + 2], m, k, gamma, powf);
  }

  lemma RatioInUnit(v: real, max: real)
    requires 0.0 <= v <= max && max > 0.0
    ensures 0.0 <= v / max <= 1.0
  {
  }
}
