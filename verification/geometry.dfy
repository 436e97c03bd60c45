/** The geometry of the full-image draw: the position buffer filled by
    `setRectangle`, the constant texture-coordinate rectangle, and the vertex
    shader that maps pixel coordinates to clip space. */
module Geometry {

  import RealArith

  datatype Point = Point(x: real, y: real)

  /** Vertex `k` of a flat `[x0, y0, x1, y1, ...]` attribute buffer. */
  function Vertex(v: seq<real>, k: nat): Point
    requires 2 * k + 1 < |v|
  {
    Point(v[2 * k], v[2 * k + 1])
  }

  /** The corners `(x1,y1)`, `(x2,y1)`, `(x1,y2)`, `(x2,y2)` of the rectangle
      with corner `(x,y)`, width `w` and height `h`. */
  function Corners(x: real, y: real, w: real, h: real): set<Point> {
    {Point(x, y), Point(x + w, y), Point(x, y + h), Point(x + w, y + h)}
  }

  /** The three vertices of triangle `k` (0 or 1) of a six-vertex buffer. */
  function Triangle(v: seq<real>, k: nat): seq<Point>
    requires |v| == 12 && k < 2
  {
    [Vertex(v, 3 * k), Vertex(v, 3 * k + 1), Vertex(v, 3 * k + 2)]
  }

  /** `setRectangle`: two triangles, six vertices, twelve floats. The first
      triangle is `(x1,y1) (x2,y1) (x1,y2)`, the second `(x1,y2) (x2,y1) (x2,y2)`:
      they share the diagonal from `(x2,y1)` to `(x1,y2)`, and every vertex is
      a corner of the rectangle and every corner is a vertex. */
  function SetRectangle(x: real, y: real, width: real, height: real): (v: seq<real>)
    ensures |v| == 12
    ensures (set k | 0 <= k < 6 :: Vertex(v, k)) == Corners(x, y, width, height)
    ensures Triangle(v, 0) == [Point(x, y), Point(x + width, y), Point(x, y + height)]
    ensures Triangle(v, 1) == [Point(x, y + height), Point(x + width, y), Point(x + width, y + height)]
  {
    var x1 := x;
    var x2 := x + width;
    var y1 := y;
    var y2 := y + height;
    var v := [x1, y1,
              x2, y1,
              x1, y2,
              x1, y2,
              x2, y1,
              x2, y2];
    assert Vertex(v, 0) == Point(x1, y1);
    assert Vertex(v, 1) == Point(x2, y1);
    assert Vertex(v, 2) == Point(x1, y2);
    assert Vertex(v, 5) == Point(x2, y2);
    assert (set k | 0 <= k < 6 :: Vertex(v, k)) == Corners(x, y, width, height);
    v
  }

  /** The constant texture-coordinate buffer: the same layout over the unit
      square, so that texture space covers the whole image. */
  function TexCoordRect(): (v: seq<real>)
    ensures v == SetRectangle(0.0, 0.0, 1.0, 1.0)
  {
    [0.0, 0.0,
     1.0, 0.0,
     0.0, 1.0,
     0.0, 1.0,
     1.0, 0.0,
     1.0, 1.0]
  }

  /** Every vertex of the image rectangle, divided by the image size, is the
      texture coordinate given to that vertex: the texture coordinate is the
      position scaled to the unit square. */
  lemma TexCoordTracksPosition(w: real, h: real)
    requires 0.0 < w && 0.0 < h
    ensures forall k :: 0 <= k < 6 ==>
      Vertex(TexCoordRect(), k) == Point(Vertex(SetRectangle(0.0, 0.0, w, h), k).x / w,
                                         Vertex(SetRectangle(0.0, 0.0, w, h), k).y / h)
  {
    var pos := SetRectangle(0.0, 0.0, w, h);
    var tex := TexCoordRect();
    assert pos == [0.0, 0.0, w, 0.0, 0.0, h, 0.0, h, w, 0.0, w, h];
    RealArith.DivSelf(w);
    RealArith.DivSelf(h);
    forall k | 0 <= k < 6
      ensures Vertex(tex, k) == Point(Vertex(pos, k).x / w, Vertex(pos, k).y / h)
    {
      assert tex[2 * k] == pos[2 * k] / w;
      assert tex[2 * k + 1] == pos[2 * k + 1] / h;
    }
  }

  /** Signed doubled area of `(a, b, p)`: positive when `p` lies to the left
      of the edge from `a` to `b`. */
  function Edge(a: Point, b: Point, p: Point): real {
    (b.x - a.x) * (p.y - a.y) - (b.y - a.y) * (p.x - a.x)
  }

  /** `p` lies in the closed triangle `t`, whatever its winding. */
  predicate InTriangle(t: seq<Point>, p: Point)
    requires |t| == 3
  {
    (Edge(t[0], t[1], p) >= 0.0 && Edge(t[1], t[2], p) >= 0.0 && Edge(t[2], t[0], p) >= 0.0) ||
    (Edge(t[0], t[1], p) <= 0.0 && Edge(t[1], t[2], p) <= 0.0 && Edge(t[2], t[0], p) <= 0.0)
  }

  predicate InRect(p: Point, x: real, y: real, w: real, h: real) {
    x <= p.x <= x + w && y <= p.y <= y + h
  }

  /** The two triangles of `setRectangle` cover exactly the rectangle: a
      point is in one of them iff it is in `[x, x+w] x [y, y+h]`. */
  lemma RectangleCovered(x: real, y: real, w: real, h: real, p: Point)
    requires 0.0 < w && 0.0 < h
    ensures InRect(p, x, y, w, h) <==>
      InTriangle(Triangle(SetRectangle(x, y, w, h), 0), p) ||
      InTriangle(Triangle(SetRectangle(x, y, w, h), 1), p)
  {
    var v := SetRectangle(x, y, w, h);
    var t0, t1 := Triangle(v, 0), Triangle(v, 1);
    var a, b := p.x - x, p.y - y;
    assert Edge(t0[0], t0[1], p) == w * b;
    assert Edge(t0[1], t0[2], p) == w * h - (w * b + h * a);
    assert Edge(t0[2], t0[0], p) == h * a;
    assert Edge(t1[0], t1[1], p) == (w * b + h * a) - w * h;
    assert Edge(t1[1], t1[2], p) == h * (w - a);
    assert Edge(t1[2], t1[0], p) == w * (h - b);
    HalvesCoverSquare(a, b, w, h);
  }

  /** The coverage argument with the rectangle moved to the origin, in
      terms of the edge values of the two triangles. */
  lemma HalvesCoverSquare(a: real, b: real, w: real, h: real)
    requires 0.0 < w && 0.0 < h
    ensures (0.0 <= a <= w && 0.0 <= b <= h) <==>
      ((w * b >= 0.0 && w * h - (w * b + h * a) >= 0.0 && h * a >= 0.0) ||
       (w * b <= 0.0 && w * h - (w * b + h * a) <= 0.0 && h * a <= 0.0) ||
       ((w * b + h * a) - w * h >= 0.0 && h * (w - a) >= 0.0 && w * (h - b) >= 0.0) ||
       ((w * b + h * a) - w * h <= 0.0 && h * (w - a) <= 0.0 && w * (h - b) <= 0.0))
  {
    RealArith.SignOfProduct(w, b);
    RealArith.SignOfProduct(h, a);
    RealArith.SignOfProduct(h, w - a);
    RealArith.SignOfProduct(w, h - b);
    RealArith.SignOfProduct(w, h);
    assert h * (w - a) == h * w - h * a;
    assert w * (h - b) == w * h - w * b;
  }

  /** The vertex shader: `a_position / u_resolution`, scaled to [0,2],
      shifted to [-1,1], with y flipped so that pixel row 0 is at the top. */
  function ClipSpace(p: Point, resolution: Point): (c: Point)
    requires resolution.x != 0.0 && resolution.y != 0.0
    ensures PixelOf(c, resolution) == p
  {
    var zeroToOne := Point(p.x / resolution.x, p.y / resolution.y);
    var zeroToTwo := Point(zeroToOne.x * 2.0, zeroToOne.y * 2.0);
    var clipSpace := Point(zeroToTwo.x - 1.0, zeroToTwo.y - 1.0);
    Point(clipSpace.x * 1.0, clipSpace.y * -1.0)
  }

  /** The pixel a clip-space point comes from: the inverse of `ClipSpace`. */
  function PixelOf(c: Point, resolution: Point): Point {
    Point((c.x + 1.0) / 2.0 * resolution.x, (1.0 - c.y) / 2.0 * resolution.y)
  }

  /** The top-left pixel corner goes to clip `(-1, 1)` and the bottom-right
      corner `(w, h)` to `(1, -1)`. */
  lemma ClipSpaceCorners(resolution: Point)
    requires 0.0 < resolution.x && 0.0 < resolution.y
    ensures ClipSpace(Point(0.0, 0.0), resolution) == Point(-1.0, 1.0)
    ensures ClipSpace(resolution, resolution) == Point(1.0, -1.0)
  {
    RealArith.DivSelf(resolution.x);
    RealArith.DivSelf(resolution.y);
  }

  /** Every point of the canvas lands in the clip square `[-1,1] x [-1,1]`. */
  lemma ClipSpaceInSquare(resolution: Point, p: Point)
    requires 0.0 < resolution.x && 0.0 < resolution.y
    requires InRect(p, 0.0, 0.0, resolution.x, resolution.y)
    ensures InRect(ClipSpace(p, resolution), -1.0, -1.0, 2.0, 2.0)
  {
    UnitFraction(p.x, resolution.x);
    UnitFraction(p.y, resolution.y);
  }

  lemma UnitFraction(a: real, d: real)
    requires 0.0 < d && 0.0 <= a <= d
    ensures 0.0 <= a / d <= 1.0
  {
    var q := a / d;
    assert q * d == a;
    RealArith.CancelFactor(q, 1.0, d);
    RealArith.SignOfProduct(d, q);
  }

  /** The image rectangle drawn with the canvas size as resolution covers
      the whole clip square: its vertices go to exactly its four corners. */
  lemma ImageRectangleFillsClipSquare(w: real, h: real)
    requires 0.0 < w && 0.0 < h
    ensures (set k | 0 <= k < 6 :: ClipSpace(Vertex(SetRectangle(0.0, 0.0, w, h), k), Point(w, h)))
      == Corners(-1.0, -1.0, 2.0, 2.0)
  {
    var v := SetRectangle(0.0, 0.0, w, h);
    var res := Point(w, h);
    assert v == [0.0, 0.0, w, 0.0, 0.0, h, 0.0, h, w, 0.0, w, h];
    RealArith.DivSelf(w);
    RealArith.DivSelf(h);
    assert ClipSpace(Vertex(v, 0), res) == Point(-1.0, 1.0);
    assert ClipSpace(Vertex(v, 1), res) == Point(1.0, 1.0);
    assert ClipSpace(Vertex(v, 2), res) == Point(-1.0, -1.0);
    assert ClipSpace(Vertex(v, 3), res) == Point(-1.0, -1.0);
    assert ClipSpace(Vertex(v, 4), res) == Point(1.0, 1.0);
    assert ClipSpace(Vertex(v, 5), res) == Point(1.0, -1.0);
    assert (set k | 0 <= k < 6 :: ClipSpace(Vertex(v, k), res)) == Corners(-1.0, -1.0, 2.0, 2.0);
  }
}
