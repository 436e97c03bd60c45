/** The colour-balance fragment shader: `color_balance` adds each tonal
    range's offset, scaled by that range's tone weight, to the pixel colour,
    and `main` writes the result back into the colour part of the texel. */
module Kernel {

  import opened Colour
  import opened Tone
  import opened Offsets
  import RealArith

  /** The shader's fixed blend factor `amount`. */
  const Amount: real := 1.0

  /** One channel of `colorization`: the input channel plus the three
      offsets of that channel, each scaled by its range's weight at `i`. */
  function Push(x: real, s: real, m: real, h: real, i: real): real {
    x + s * ShadowsWeight(i) + m * MidtonesWeight(i) + h * HighlightsWeight(i)
  }

  /** `color_balance`: `mix(rgb, colorization, amount)` with the offsets
      taken from the uniforms `u`. No clamping is applied to the result. */
  function ColorBalance(c: Rgb, u: OffsetTable): (out: Rgb)
    ensures forall ch :: out.Get(ch) == Push(c.Get(ch),
      u.shadows.Get(ch), u.midtones.Get(ch), u.highlights.Get(ch), Intensity(c))
  {
    var i := Intensity(c);
    var colorization := Rgb(
      Push(c.r, u.shadows.r, u.midtones.r, u.highlights.r, i),
      Push(c.g, u.shadows.g, u.midtones.g, u.highlights.g, i),
      Push(c.b, u.shadows.b, u.midtones.b, u.highlights.b, i));
    Mix(c, colorization, Amount)
  }

  /** The shader's `main`: the colour part of the texel is replaced by the
      balanced colour, alpha is passed through. */
  function Shade(px: Rgba, u: OffsetTable): (out: Rgba)
    ensures out.a == px.a
    ensures out.rgb == ColorBalance(px.rgb, u)
  {
    px.(rgb := ColorBalance(px.rgb, u))
  }

  /** With all three offsets zero the kernel is the identity, on every pixel. */
  lemma ZeroOffsetsIdentity(px: Rgba)
    ensures ColorBalance(px.rgb, ZeroTable) == px.rgb
    ensures Shade(px, ZeroTable) == px
  {
    var c := px.rgb;
    var out := ColorBalance(c, ZeroTable);
    assert forall ch :: out.Get(ch) == c.Get(ch);
    ExtensionalEquality(out, c);
  }

  /** Output channel `ch` depends only on the input colour and channel `ch`
      of the three offsets. */
  lemma ChannelIndependence(c: Rgb, u: OffsetTable, v: OffsetTable, ch: Channel)
    requires forall t :: SameOn(u.Get(t), v.Get(t), ch)
    ensures SameOn(ColorBalance(c, u), ColorBalance(c, v), ch)
  {
    assert SameOn(u.Get(Shadows), v.Get(Shadows), ch);
    assert SameOn(u.Get(Midtones), v.Get(Midtones), ch);
    assert SameOn(u.Get(Highlights), v.Get(Highlights), ch);
  }

  /** Changing one channel of one range's offset leaves the other two output
      channels and alpha of every pixel unchanged. */
  lemma OneOffsetChannelMovesOneOutputChannel(px: Rgba, u: OffsetTable, t: TonalRange, ch: Channel, x: real)
    ensures forall d :: d != ch ==>
      SameOn(Shade(px, u.With(t, u.Get(t).With(ch, x))).rgb, Shade(px, u).rgb, d)
    ensures Shade(px, u.With(t, u.Get(t).With(ch, x))).a == px.a
  {
    var v := u.With(t, u.Get(t).With(ch, x));
    forall d | d != ch
      ensures SameOn(Shade(px, v).rgb, Shade(px, u).rgb, d)
    {
      forall o
        ensures SameOn(v.Get(o), u.Get(o), d)
      {
        if o == t {
          assert v.Get(o) == u.Get(t).With(ch, x);
        }
      }
      ChannelIndependence(px.rgb, v, u, d);
    }
  }

  /** Black has intensity 0, where only the shadows weight is non-zero: the
      output is exactly the shadows offset, and midtones and highlights have
      no effect. */
  lemma BlackTakesShadowsOffset(u: OffsetTable)
    ensures ColorBalance(Black, u) == u.shadows
  {
    var out := ColorBalance(Black, u);
    var i := Intensity(Black);
    assert i == 0.0;
    forall ch
      ensures out.Get(ch) == u.shadows.Get(ch)
    {
      PushAtZeroIntensity(u.shadows.Get(ch), u.midtones.Get(ch), u.highlights.Get(ch), i);
    }
    ExtensionalEquality(out, u.shadows);
  }

  lemma PushAtZeroIntensity(s: real, m: real, h: real, i: real)
    requires i == 0.0
    ensures Push(0.0, s, m, h, i) == s
  {
    assert InUnit(i);
    var ws, wm, wh := ShadowsWeight(i), MidtonesWeight(i), HighlightsWeight(i);
    assert ws == 1.0;
    assert wm == 0.0;
    assert wh == 0.0;
    assert Push(0.0, s, m, h, i) == 0.0 + s * ws + m * wm + h * wh;
  }

  /** On a normalized pixel every weight is non-negative, so raising one
      channel's offsets never lowers that output channel. */
  lemma OffsetsMonotone(c: Rgb, u: OffsetTable, v: OffsetTable, ch: Channel)
    requires Normalized(c)
    requires forall t :: u.Get(t).Get(ch) <= v.Get(t).Get(ch)
    ensures ColorBalance(c, u).Get(ch) <= ColorBalance(c, v).Get(ch)
  {
    assert u.Get(Shadows).Get(ch) <= v.Get(Shadows).Get(ch);
    assert u.Get(Midtones).Get(ch) <= v.Get(Midtones).Get(ch);
    assert u.Get(Highlights).Get(ch) <= v.Get(Highlights).Get(ch);
    PushMonotone(c.Get(ch), u.shadows.Get(ch), u.midtones.Get(ch), u.highlights.Get(ch),
      v.shadows.Get(ch), v.midtones.Get(ch), v.highlights.Get(ch), Intensity(c));
  }

  lemma PushMonotone(x: real, s: real, m: real, h: real, s': real, m': real, h': real, i: real)
    requires InUnit(i) && s <= s' && m <= m' && h <= h'
    ensures Push(x, s, m, h, i) <= Push(x, s', m', h', i)
  {
    var ws, wm, wh := ShadowsWeight(i), MidtonesWeight(i), HighlightsWeight(i);
    assert 0.0 <= ws && 0.0 <= wm && 0.0 <= wh;
    WeightedSumMonotone(x, s, m, h, s', m', h', ws, wm, wh);
  }

  lemma WeightedSumMonotone(x: real, s: real, m: real, h: real, s': real, m': real, h': real,
                            ws: real, wm: real, wh: real)
    requires s <= s' && m <= m' && h <= h'
    requires 0.0 <= ws && 0.0 <= wm && 0.0 <= wh
    ensures x + s * ws + m * wm + h * wh <= x + s' * ws + m' * wm + h' * wh
  {
    RealArith.MulMono(s, s', ws);
    RealArith.MulMono(m, m', wm);
    RealArith.MulMono(h, h', wh);
  }
}
