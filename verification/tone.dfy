/** The tone weights of the colour-balance fragment shader: how strongly a
    pixel of intensity `I` belongs to the shadows, the midtones and the
    highlights. Each weight is a cube, which sharpens its fall-off. */
module Tone {

  import opened Colour
  import RealArith

  /** The shader multiplies the channel sum by this literal, a decimal
      approximation of one third; it is kept exactly, not replaced by 1/3. */
  const IntensityScale: real := 0.333333333

  /** Intensity of a colour: the channel sum times `IntensityScale`. */
  function Intensity(c: Rgb): (i: real)
    ensures Normalized(c) ==> 0.0 <= i <= 3.0 * IntensityScale < 1.0
    ensures c == Black ==> i == 0.0
  {
    (c.r + c.g + c.b) * IntensityScale
  }

  /** `x` multiplied by itself `n` times. */
  function Pow(x: real, n: nat): real {
    if n == 0 then 1.0 else x * Pow(x, n - 1)
  }

  /** `x * x * x`, as the shader spells each weight. It goes through `Pow`
      so that the solver expands the product only where a proof asks. */
  function Cube(x: real): real {
    Pow(x, 3)
  }

  lemma CubeExpand(x: real)
    ensures Cube(x) == x * x * x
  {
    assert Pow(x, 1) == x;
    assert Pow(x, 2) == x * x;
    assert Pow(x, 3) == x * (x * x);
  }

  function Abs(x: real): (a: real)
    ensures 0.0 <= a && (a == x || a == -x)
  {
    if x < 0.0 then -x else x
  }

  /** Shadows weight `(1 - I)^3`. */
  function ShadowsWeight(i: real): (w: real)
    ensures InUnit(i) ==> InUnit(w)
    ensures InUnit(i) ==> (w == 1.0 <==> i == 0.0)
    ensures InUnit(i) ==> (w == 0.0 <==> i == 1.0)
  {
    CubeOnUnit(1.0 - i);
    Cube(1.0 - i)
  }

  /** Midtones weight `(1 - |2I - 1|)^3`, written as the shader does,
      `1 - abs(-1 + 2I)`. */
  function MidtonesWeight(i: real): (w: real)
    ensures InUnit(i) ==> InUnit(w)
    ensures InUnit(i) ==> (w == 1.0 <==> i == 0.5)
    ensures InUnit(i) ==> (w == 0.0 <==> i == 0.0 || i == 1.0)
  {
    var base := 1.0 - Abs(-1.0 + i * 2.0);
    CubeOnUnit(base);
    Cube(base)
  }

  /** Highlights weight `I^3`. */
  function HighlightsWeight(i: real): (w: real)
    ensures InUnit(i) ==> InUnit(w)
    ensures InUnit(i) ==> (w == 1.0 <==> i == 1.0)
    ensures InUnit(i) ==> (w == 0.0 <==> i == 0.0)
  {
    CubeOnUnit(i);
    Cube(i)
  }

  /** On [0,1] the cube stays in [0,1], is 0 only at 0 and 1 only at 1. */
  lemma CubeOnUnit(x: real)
    ensures InUnit(x) ==> InUnit(Cube(x))
    ensures InUnit(x) ==> (Cube(x) == 0.0 <==> x == 0.0)
    ensures InUnit(x) ==> (Cube(x) == 1.0 <==> x == 1.0)
  {
    CubeExpand(x);
    if InUnit(x) {
      RealArith.MulByFraction(x, x);
      RealArith.MulByFraction(x, x * x);
      if 0.0 < x {
        assert 0.0 < x * x;
        assert 0.0 < x * x * x;
      }
      if x < 1.0 {
        assert x * x * x <= x;
      }
    }
  }

  /** The cube is monotone on non-negative reals. */
  lemma CubeMonotone(x: real, y: real)
    requires 0.0 <= x <= y
    ensures Cube(x) <= Cube(y)
  {
    CubeExpand(x);
    CubeExpand(y);
    RealArith.ProductMono(x, y, x, y);
    RealArith.MulNonneg(x, x);
    RealArith.ProductMono(x * x, y * y, x, y);
  }

  /** Shadows and highlights mirror each other about the middle intensity. */
  lemma ShadowsMirrorHighlights(i: real)
    ensures ShadowsWeight(i) == HighlightsWeight(1.0 - i)
    ensures MidtonesWeight(i) == MidtonesWeight(1.0 - i)
  {
    assert Abs(-1.0 + (1.0 - i) * 2.0) == Abs(-1.0 + i * 2.0);
  }

  /** Darker pixels get at least as much shadows weight, brighter pixels at
      least as much highlights weight. */
  lemma {:induction false} WeightsMonotone(i: real, j: real)
    requires 0.0 <= i <= j <= 1.0
    ensures ShadowsWeight(j) <= ShadowsWeight(i)
    ensures HighlightsWeight(i) <= HighlightsWeight(j)
    ensures j <= 0.5 ==> MidtonesWeight(i) <= MidtonesWeight(j)
    ensures 0.5 <= i ==> MidtonesWeight(j) <= MidtonesWeight(i)
  {
    CubeMonotone(1.0 - j, 1.0 - i);
    CubeMonotone(i, j);
    if j <= 0.5 {
      assert 1.0 - Abs(-1.0 + i * 2.0) == 2.0 * i;
      assert 1.0 - Abs(-1.0 + j * 2.0) == 2.0 * j;
      CubeMonotone(2.0 * i, 2.0 * j);
    }
    if 0.5 <= i {
      assert 1.0 - Abs(-1.0 + i * 2.0) == 2.0 - 2.0 * i;
      assert 1.0 - Abs(-1.0 + j * 2.0) == 2.0 - 2.0 * j;
      CubeMonotone(2.0 - 2.0 * j, 2.0 - 2.0 * i);
    }
  }

  /** Shadows and highlights together never exceed full coverage:
      `(1 - I)^3 + I^3 = 1 - 3I(1 - I) <= 1`, hence also `<= 2`. */
  lemma ShadowsPlusHighlightsAtMostOne(i: real)
    requires InUnit(i)
    ensures ShadowsWeight(i) + HighlightsWeight(i) <= 1.0
    ensures ShadowsWeight(i) + HighlightsWeight(i) <= 2.0
  {
    var s := 1.0 - i;
    CubeExpand(s);
    CubeExpand(i);
    assert s * s * s + i * i * i == 1.0 - 3.0 * (i * s);
    RealArith.MulNonneg(i, s);
  }

  /** In exact arithmetic, because of the `IntensityScale` literal, pure
      white does not reach intensity 1: it keeps a small but non-zero shadows
      and midtones weight. (Single-precision rounding of the literal gives
      white intensity 1 in the running shader.) */
  lemma WhiteIntensityBelowOne(c: Rgb)
    requires c == White
    ensures Intensity(c) == 0.999999999
    ensures 0.0 < ShadowsWeight(Intensity(c))
    ensures 0.0 < MidtonesWeight(Intensity(c))
    ensures HighlightsWeight(Intensity(c)) < 1.0
  {
    var i := Intensity(c);
    assert i == 0.999999999;
    assert InUnit(i) && i != 0.0 && i != 1.0;
  }
}
