/** The offset table: one raw RGB slider triple per tonal range, and the
    remap `getColor` that turns a raw slider value into the signed offset the
    shader receives as a uniform. */
module Offsets {

  import opened Colour

  /** The three tonal ranges; the table keys `shadows`, `midtones`, `highlights`. */
  datatype TonalRange = Shadows | Midtones | Highlights

  /** One RGB triple per tonal range. The session table holds raw slider
      values; the uniforms handed to the shader hold remapped offsets. */
  datatype OffsetTable = OffsetTable(shadows: Rgb, midtones: Rgb, highlights: Rgb) {

    function Get(t: TonalRange): Rgb {
      match t
      case Shadows => shadows
      case Midtones => midtones
      case Highlights => highlights
    }

    /** The table with the triple of range `t` replaced and the others kept. */
    function With(t: TonalRange, c: Rgb): (u: OffsetTable)
      ensures u.Get(t) == c
      ensures forall o :: o != t ==> u.Get(o) == Get(o)
    {
      match t
      case Shadows => OffsetTable(c, midtones, highlights)
      case Midtones => OffsetTable(shadows, c, highlights)
      case Highlights => OffsetTable(shadows, midtones, c)
    }
  }

  /** The table the session starts with: every offset zero. */
  const ZeroTable := OffsetTable(Black, Black, Black)

  /** The largest slider value. */
  const SliderMax: real := 255.0

  /** `getColor`: remaps a slider value. Both branches, the one for values at
      or below zero and the one above, reduce to `v / 255`. */
  function GetColor(v: real): (f: real)
    ensures f == v / SliderMax
  {
    if v <= 0.0 then (255.0 + v) / 255.0 - 1.0
    else 1.0 + ((v - 255.0) / 255.0)
  }

  /** The remap fixes 0, sends the top of the slider to 1 and keeps order. */
  lemma GetColorEndpointsAndOrder(u: real, v: real)
    ensures GetColor(0.0) == 0.0
    ensures GetColor(SliderMax) == 1.0
    ensures u <= v ==> GetColor(u) <= GetColor(v)
    ensures 0.0 <= v <= SliderMax ==> InUnit(GetColor(v))
    ensures -SliderMax <= v <= SliderMax ==> -1.0 <= GetColor(v) <= 1.0
  {
  }

  /** `[c.r, c.g, c.b].map(getColor)`: the remap applied per channel. */
  function RemapRgb(c: Rgb): (f: Rgb)
    ensures forall ch :: f.Get(ch) == GetColor(c.Get(ch))
  {
    Rgb(GetColor(c.r), GetColor(c.g), GetColor(c.b))
  }

  /** The three uniforms `u_shadows`, `u_midtones`, `u_highlights` that
      `render` sets from the raw table: every channel of every range passes
      through the remap, and each range lands in its own uniform. */
  function Uniforms(raw: OffsetTable): (u: OffsetTable)
    ensures forall t, ch :: u.Get(t).Get(ch) == raw.Get(t).Get(ch) / SliderMax
  {
    OffsetTable(RemapRgb(raw.shadows), RemapRgb(raw.midtones), RemapRgb(raw.highlights))
  }

  /** Every raw value lies on the slider, 0..255. */
  predicate OnSlider(raw: OffsetTable) {
    forall t, ch :: 0.0 <= raw.Get(t).Get(ch) <= SliderMax
  }

  /** A table of slider values yields uniforms in [0,1]; the zero table
      yields zero uniforms. */
  lemma UniformsInUnit(raw: OffsetTable)
    ensures OnSlider(raw) ==> forall t, ch :: InUnit(Uniforms(raw).Get(t).Get(ch))
    ensures Uniforms(ZeroTable) == ZeroTable
  {
  }
}
