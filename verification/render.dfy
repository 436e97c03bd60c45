/** One frame of `render`: the canvas takes the image's size, every canvas
    pixel is covered by the image rectangle, its fragment samples the texel
    under it (nearest filter, clamp to edge) and the colour-balance shader
    writes the shaded texel. */
module Render {

  import opened Colour
  import opened Offsets
  import opened Kernel
  import Geometry
  import RealArith

  /** A decoded image: `width * height` RGBA pixels, row by row, top row first. */
  datatype Image = Image(width: nat, height: nat, pixels: seq<Rgba>) {
    predicate Valid() {
      |pixels| == width * height
    }
  }

  /** Row-major position of pixel `(col, row)`. */
  function Index(col: nat, row: nat, width: nat): nat {
    row * width + col
  }

  lemma IndexInBounds(col: nat, row: nat, width: nat, height: nat)
    requires col < width && row < height
    ensures Index(col, row, width) < width * height
  {
    assert row * width + width == (row + 1) * width;
    assert (row + 1) * width <= height * width by {
      RealArith.MulMonoNat(row + 1, height, width);
    }
  }

  /** Nearest-neighbour texel along one axis of size `size` for texture
      coordinate `t`, clamped to the edge texels (`CLAMP_TO_EDGE`). */
  function NearestTexel(t: real, size: nat): (k: nat)
    requires 0 < size
    ensures k < size
    ensures 0.0 <= t * size as real < size as real ==>
      k as real <= t * size as real < k as real + 1.0
    ensures t * size as real < 0.0 ==> k == 0
    ensures size as real <= t * size as real ==> k == size - 1
  {
    var f := (t * size as real).Floor;
    if f < 0 then 0 else if f >= size then size - 1 else f
  }

  /** The texture coordinate interpolated at the centre of canvas pixel
      `(col, row)`: the centre divided by the canvas size, since every vertex
      of the image rectangle carries its position divided by that size. */
  function FragmentTexCoord(col: nat, row: nat, width: nat, height: nat): Geometry.Point
    requires 0 < width && 0 < height
  {
    Geometry.Point((col as real + 0.5) / width as real, (row as real + 0.5) / height as real)
  }

  /** Each canvas pixel's fragment samples exactly the texel at the same
      column and row, so the canvas shows the image without shift or blur. */
  lemma FragmentSamplesOwnTexel(col: nat, row: nat, width: nat, height: nat)
    requires col < width && row < height
    ensures NearestTexel(FragmentTexCoord(col, row, width, height).x, width) == col
    ensures NearestTexel(FragmentTexCoord(col, row, width, height).y, height) == row
  {
    CentreFloor(col, width);
    CentreFloor(row, height);
  }

  lemma CentreFloor(k: nat, size: nat)
    requires k < size
    ensures NearestTexel((k as real + 0.5) / size as real, size) == k
  {
    var t := (k as real + 0.5) / size as real;
    assert t * size as real == k as real + 0.5;
  }

  /** `texture(u_image, tc)` with nearest filtering and clamp to edge. */
  function Sample(img: Image, tc: Geometry.Point): Rgba
    requires img.Valid() && 0 < img.width && 0 < img.height
  {
    var col := NearestTexel(tc.x, img.width);
    var row := NearestTexel(tc.y, img.height);
    IndexInBounds(col, row, img.width, img.height);
    img.pixels[Index(col, row, img.width)]
  }

  /** `render`: a canvas the size of the image, each pixel the shaded texel
      under it, the uniforms taken from the raw offset table through the
      remap. With the all-zero table the frame is the image itself. */
  method RenderFrame(img: Image, colors: OffsetTable) returns (out: Image)
    requires img.Valid()
    ensures out.Valid() && out.width == img.width && out.height == img.height
    ensures forall k :: 0 <= k < |img.pixels| ==> out.pixels[k] == Shade(img.pixels[k], Uniforms(colors))
    ensures colors == ZeroTable ==> out == img
  {
    var u := Uniforms(colors);
    var pixels: seq<Rgba> := [];
    var row := 0;
    while row < img.height
      invariant 0 <= row <= img.height
      invariant |pixels| == row * img.width
      invariant forall k :: 0 <= k < |pixels| ==> pixels[k] == Shade(img.pixels[k], u)
    {
      assert (row + 1) * img.width <= img.height * img.width by {
        RealArith.MulMonoNat(row + 1, img.height, img.width);
      }
      var col := 0;
      while col < img.width
        invariant 0 <= col <= img.width
        invariant |pixels| == row * img.width + col
        invariant forall k :: 0 <= k < |pixels| ==> pixels[k] == Shade(img.pixels[k], u)
      {
        var tc := FragmentTexCoord(col, row, img.width, img.height);
        FragmentSamplesOwnTexel(col, row, img.width, img.height);
        assert Sample(img, tc) == img.pixels[Index(col, row, img.width)];
        pixels := pixels + [Shade(Sample(img, tc), u)];
        col := col + 1;
      }
      assert row * img.width + img.width == (row + 1) * img.width;
      row := row + 1;
    }
    out := Image(img.width, img.height, pixels);
    if colors == ZeroTable {
      UniformsInUnit(colors);
      forall k | 0 <= k < |img.pixels|
        ensures out.pixels[k] == img.pixels[k]
      {
        ZeroOffsetsIdentity(img.pixels[k]);
      }
    }
  }
}
