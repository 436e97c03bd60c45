/** Colour values as the fragment shader sees them: `vec3`/`vec4` over exact
    reals, standing in for GLSL floats. The same triple type carries pixel
    colours, raw slider offsets and remapped offsets. */
module Colour {

  import RealArith

  /** One of the three colour channels of a `vec3`. */
  datatype Channel = Red | Green | Blue

  /** An RGB triple. */
  datatype Rgb = Rgb(r: real, g: real, b: real) {

    /** Component `c` of the triple (GLSL `.r`, `.g`, `.b`). */
    function Get(c: Channel): real {
      match c
      case Red => r
      case Green => g
      case Blue => b
    }

    /** The triple with component `c` replaced by `v` and the other two kept. */
    function With(c: Channel, v: real): (t: Rgb)
      ensures t.Get(c) == v
      ensures forall d :: d != c ==> t.Get(d) == Get(d)
    {
      match c
      case Red => Rgb(v, g, b)
      case Green => Rgb(r, v, b)
      case Blue => Rgb(r, g, v)
    }
  }

  /** An RGBA pixel: the colour part and its alpha. */
  datatype Rgba = Rgba(rgb: Rgb, a: real)

  const Black := Rgb(0.0, 0.0, 0.0)
  const White := Rgb(1.0, 1.0, 1.0)

  predicate InUnit(x: real) {
    0.0 <= x <= 1.0
  }

  /** Every channel lies in [0,1], as a decoded 8-bit texel does. */
  predicate Normalized(c: Rgb) {
    InUnit(c.r) && InUnit(c.g) && InUnit(c.b)
  }

  /** Two triples agree on channel `c`. */
  predicate SameOn(x: Rgb, y: Rgb, c: Channel) {
    x.Get(c) == y.Get(c)
  }

  /** Two triples are equal iff they agree channel by channel. */
  lemma ExtensionalEquality(x: Rgb, y: Rgb)
    ensures x == y <==> (SameOn(x, y, Red) && SameOn(x, y, Green) && SameOn(x, y, Blue))
  {
  }

  /** GLSL `mix(x, y, t)` on one float: `x * (1 - t) + y * t`. */
  function MixScalar(x: real, y: real, t: real): (m: real)
    ensures t == 0.0 ==> m == x
    ensures t == 1.0 ==> m == y
    ensures 0.0 <= t <= 1.0 ==> Between(m, x, y)
  {
    var m := x * (1.0 - t) + y * t;
    assert 0.0 <= t <= 1.0 ==> Between(m, x, y) by {
      if 0.0 <= t <= 1.0 {
        MixBetween(x, y, t);
      }
    }
    m
  }

  /** `m` lies in the closed interval spanned by `x` and `y`, in either order. */
  predicate Between(m: real, x: real, y: real) {
    if x <= y then x <= m <= y else y <= m <= x
  }

  /** `mix` with a weight in [0,1] lands between its two ends. */
  lemma MixBetween(x: real, y: real, t: real)
    requires 0.0 <= t <= 1.0
    ensures Between(x * (1.0 - t) + y * t, x, y)
  {
    if x <= y {
      MixBetweenOrdered(x, y, t);
    } else {
      MixBetweenOrdered(y, x, 1.0 - t);
      assert y * (1.0 - (1.0 - t)) + x * (1.0 - t) == x * (1.0 - t) + y * t;
    }
  }

  lemma MixBetweenOrdered(x: real, y: real, t: real)
    requires 0.0 <= t <= 1.0 && x <= y
    ensures x <= x * (1.0 - t) + y * t <= y
  {
    RealArith.LerpAboveLower(x, y, t);
    RealArith.LerpBelowUpper(x, y, t);
  }

  /** GLSL `mix` on a `vec3` with a scalar weight, applied per component. */
  function Mix(x: Rgb, y: Rgb, t: real): (m: Rgb)
    ensures t == 0.0 ==> m == x
    ensures t == 1.0 ==> m == y
  {
    Rgb(MixScalar(x.r, y.r, t), MixScalar(x.g, y.g, t), MixScalar(x.b, y.b, t))
  }
}
