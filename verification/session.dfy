/** The editing session: the raw offset table `colors` and the tonal range
    `mode` that the sliders currently edit, with the two kinds of input event
    that change them. Every slider event is followed by a render of the
    current image with the uniforms derived from the new table. */
module Session {

  import opened Colour
  import opened Offsets
  import opened Kernel

  /** `colors` holds raw slider values per tonal range; `mode` is the range
      the three sliders edit. */
  datatype Session = Session(colors: OffsetTable, mode: TonalRange)

  /** The state at page load: all offsets zero, the midtones range active. */
  const Initial := Session(ZeroTable, Midtones)

  /** A user input: a tonal-range radio button, or slider `ch` moved to `v`. */
  datatype Event = SelectRange(range: TonalRange) | Slide(ch: Channel, v: real)

  /** A radio-button `change` handler: only `mode` changes. */
  function Select(s: Session, t: TonalRange): (s': Session)
    ensures s'.mode == t
    ensures s'.colors == s.colors
  {
    s.(mode := t)
  }

  /** A slider `input` handler: `colors[mode][ch] = v`. */
  function SetChannel(s: Session, ch: Channel, v: real): (s': Session)
    ensures s'.mode == s.mode
    ensures s'.colors.Get(s.mode).Get(ch) == v
    ensures forall d :: d != ch ==> s'.colors.Get(s.mode).Get(d) == s.colors.Get(s.mode).Get(d)
    ensures forall t :: t != s.mode ==> s'.colors.Get(t) == s.colors.Get(t)
  {
    s.(colors := s.colors.With(s.mode, s.colors.Get(s.mode).With(ch, v)))
  }

  function Step(s: Session, e: Event): Session {
    match e
    case SelectRange(t) => Select(s, t)
    case Slide(ch, v) => SetChannel(s, ch, v)
  }

  /** The session after a sequence of events, applied in order. */
  function Run(s: Session, es: seq<Event>): Session
    decreases |es|
  {
    if es == [] then s else Run(Step(s, es[0]), es[1..])
  }

  /** The slider element only produces values in 0..255. */
  predicate SliderEvents(es: seq<Event>) {
    forall k :: 0 <= k < |es| ==> (es[k].Slide? ==> 0.0 <= es[k].v <= SliderMax)
  }

  /** Selecting a range and then another is the same as selecting the second;
      selecting twice is selecting once. */
  lemma SelectLastWins(s: Session, t: TonalRange, o: TonalRange)
    ensures Select(Select(s, t), o) == Select(s, o)
    ensures Select(Select(s, t), t) == Select(s, t)
  {
  }

  /** A later write to the same slider overwrites an earlier one, and writes
      to two different sliders commute. */
  lemma SetChannelWrites(s: Session, ch: Channel, d: Channel, v: real, w: real)
    ensures SetChannel(SetChannel(s, ch, v), ch, w) == SetChannel(s, ch, w)
    ensures ch != d ==> SetChannel(SetChannel(s, ch, v), d, w) == SetChannel(SetChannel(s, d, w), ch, v)
  {
    var c := s.colors.Get(s.mode);
    assert c.With(ch, v).With(ch, w) == c.With(ch, w) by {
      ExtensionalEquality(c.With(ch, v).With(ch, w), c.With(ch, w));
    }
    if ch != d {
      assert c.With(ch, v).With(d, w) == c.With(d, w).With(ch, v) by {
        ExtensionalEquality(c.With(ch, v).With(d, w), c.With(d, w).With(ch, v));
      }
    }
  }

  /** Writing back the value a slider already holds changes nothing. */
  lemma SetChannelSameValue(s: Session, ch: Channel)
    ensures SetChannel(s, ch, s.colors.Get(s.mode).Get(ch)) == s
  {
    var c := s.colors.Get(s.mode);
    ExtensionalEquality(c.With(ch, c.Get(ch)), c);
    assert s.colors.With(s.mode, c) == s.colors;
  }

  /** As long as every slider event carries a slider value, every raw value
      in the table stays on the slider, whatever the order of events. */
  lemma {:induction false} RunStaysOnSlider(s: Session, es: seq<Event>)
    requires OnSlider(s.colors)
    requires SliderEvents(es)
    ensures OnSlider(Run(s, es).colors)
    decreases |es|
  {
    if es != [] {
      var s1 := Step(s, es[0]);
      assert OnSlider(s1.colors) by {
        if es[0].Slide? {
          forall t, d
            ensures 0.0 <= s1.colors.Get(t).Get(d) <= SliderMax
          {
            if t == s.mode && d == es[0].ch {
              assert s1.colors.Get(t).Get(d) == es[0].v;
            }
          }
        }
      }
      assert SliderEvents(es[1..]) by {
        forall k | 0 <= k < |es| - 1
          ensures es[1..][k].Slide? ==> 0.0 <= es[1..][k].v <= SliderMax
        {
          assert es[1..][k] == es[k + 1];
        }
      }
      RunStaysOnSlider(s1, es[1..]);
    }
  }

  /** The frame rendered right after a slider event differs from the frame
      before it only in the moved channel: the other two colour channels and
      alpha of every pixel are the same. */
  lemma SlideChangesOneChannel(s: Session, ch: Channel, v: real, px: Rgba)
    ensures forall d :: d != ch ==>
      SameOn(Shade(px, Uniforms(SetChannel(s, ch, v).colors)).rgb, Shade(px, Uniforms(s.colors)).rgb, d)
    ensures Shade(px, Uniforms(SetChannel(s, ch, v).colors)).a == px.a
  {
    var u := Uniforms(s.colors);
    var u' := Uniforms(SetChannel(s, ch, v).colors);
    forall d | d != ch
      ensures SameOn(Shade(px, u').rgb, Shade(px, u).rgb, d)
    {
      forall t
        ensures SameOn(u'.Get(t), u.Get(t), d)
      {
        assert u'.Get(t).Get(d) == SetChannel(s, ch, v).colors.Get(t).Get(d) / SliderMax;
        assert u.Get(t).Get(d) == s.colors.Get(t).Get(d) / SliderMax;
      }
      ChannelIndependence(px.rgb, u', u, d);
    }
  }

  /** Before any slider has moved, a render leaves every pixel as it is. */
  lemma InitialRenderIsIdentity(px: Rgba)
    ensures Shade(px, Uniforms(Initial.colors)) == px
  {
    UniformsInUnit(Initial.colors);
    ZeroOffsetsIdentity(px);
  }

  /** Switching ranges, any number of times, never changes the rendered frame. */
  lemma {:induction false} SelectsKeepFrame(s: Session, es: seq<Event>)
    requires forall k :: 0 <= k < |es| ==> es[k].SelectRange?
    ensures Run(s, es).colors == s.colors
    decreases |es|
  {
    if es != [] {
      assert forall k :: 0 <= k < |es| - 1 ==> es[1..][k].SelectRange? by {
        forall k | 0 <= k < |es| - 1
          ensures es[1..][k].SelectRange?
        {
          assert es[1..][k] == es[k + 1];
        }
      }
      SelectsKeepFrame(Step(s, es[0]), es[1..]);
    }
  }
}
