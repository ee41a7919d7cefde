/** The value-level meaning of the rasterizer: edge functions, the clamped
    bounding box, the inside test, depth interpolation and the depth test, and
    what drawing a list of screen-space triangles does to a render target and
    an optional depth buffer. Coordinates and depths are reals. */
module RasterSpec {
  import opened Colors
  import Buffers

  datatype Option<T> = None | Some(value: T)

  datatype Point2 = Point2(x: real, y: real)

  /** The 2-D orientation determinant of a, b and c: twice the signed area. */
  function EdgeFunction(a: Point2, b: Point2, c: Point2): real
  {
    (c.x - a.x) * (b.y - a.y) - (c.y - a.y) * (b.x - a.x)
  }

  /** Swapping the edge's end points negates the edge function. */
  lemma EdgeFunctionSwap(a: Point2, b: Point2, p: Point2)
    ensures EdgeFunction(b, a, p) == -EdgeFunction(a, b, p)
  {
  }

  /** The three edge values of a point add up to the triangle's own edge value. */
  lemma EdgeValuesSum(a: Point2, b: Point2, c: Point2, p: Point2)
    ensures EdgeFunction(a, b, p) + EdgeFunction(b, c, p) + EdgeFunction(c, a, p) == EdgeFunction(a, b, c)
  {
  }

  /** Weighting the corners by the edge values reconstructs the point. */
  lemma EdgeValuesReconstruct(a: Point2, b: Point2, c: Point2, p: Point2)
    ensures EdgeFunction(b, c, p) * a.x + EdgeFunction(c, a, p) * b.x + EdgeFunction(a, b, p) * c.x
            == EdgeFunction(a, b, c) * p.x
    ensures EdgeFunction(b, c, p) * a.y + EdgeFunction(c, a, p) * b.y + EdgeFunction(a, b, p) * c.y
            == EdgeFunction(a, b, c) * p.y
  {
  }

  /** The barycentric weights u, v, w (edge values over the total edge) sum to one. */
  lemma BarycentricSumIsOne(a: Point2, b: Point2, c: Point2, p: Point2)
    requires EdgeFunction(a, b, c) != 0.0
    ensures var e := EdgeFunction(a, b, c);
      EdgeFunction(b, c, p) / e + EdgeFunction(c, a, p) / e + EdgeFunction(a, b, p) / e == 1.0
  {
    var e := EdgeFunction(a, b, c);
    EdgeValuesSum(a, b, c, p);
    assert EdgeFunction(b, c, p) / e + EdgeFunction(c, a, p) / e + EdgeFunction(a, b, p) / e
        == (EdgeFunction(a, b, p) + EdgeFunction(b, c, p) + EdgeFunction(c, a, p)) / e;
  }

  /** (1 - m) * a + m * b: defined in the source but not used by drawing. */
  function LinInterp(a: real, b: real, m: real): (r: real)
    ensures m == 0.0 ==> r == a
    ensures m == 1.0 ==> r == b
  {
    (1.0 - m) * a + m * b
  }

  /** For a weight in [0, 1] the interpolated value lies between the end points, in either order. */
  lemma LinInterpBetween(a: real, b: real, m: real)
    requires 0.0 <= m <= 1.0
    ensures Min(a, b) <= LinInterp(a, b, m) <= Max(a, b)
  {
    if a <= b {
      LinInterpOrdered(a, b, m);
    } else {
      LinInterpOrdered(b, a, 1.0 - m);
      assert LinInterp(b, a, 1.0 - m) == LinInterp(a, b, m);
    }
  }

  lemma LinInterpOrdered(a: real, b: real, m: real)
    requires 0.0 <= m <= 1.0 && a <= b
    ensures a <= LinInterp(a, b, m) <= b
  {
    var c := b - a;
    assert LinInterp(a, b, m) == a + m * c;
    MulMono(m, 0.0, c);
    MulMono(c, m, 1.0);
  }

  /** A triangle after vertex processing: x and y are screen coordinates and z
      is the (perspective-divided) depth of each corner. */
  datatype Triangle = Triangle(a: Vertex, b: Vertex, c: Vertex)

  function Screen(v: Vertex): Point2
  {
    Point2(v.x, v.y)
  }

  function Edge(t: Triangle): real
  {
    EdgeFunction(Screen(t.a), Screen(t.b), Screen(t.c))
  }

  /** The viewport mapping from normalized device coordinates to pixels, with
      y flipped; the other fields of the vertex are kept. */
  function ToScreen(v: Vertex, ndc: Float3, width: nat, height: nat): (s: Vertex)
    ensures s.(x := v.x, y := v.y, z := v.z) == v
    ensures s.z == ndc.z
    ensures -1.0 <= ndc.x <= 1.0 ==> 0.0 <= s.x <= width as real
    ensures -1.0 <= ndc.y <= 1.0 ==> 0.0 <= s.y <= height as real
    ensures ndc.x == -1.0 ==> s.x == 0.0
    ensures ndc.x == 1.0 ==> s.x == width as real
    ensures ndc.y == 1.0 ==> s.y == 0.0
    ensures ndc.y == -1.0 ==> s.y == height as real
  {
    v.(x := ViewportCoord(ndc.x, width), y := ViewportCoord(-ndc.y, height), z := ndc.z)
  }

  /** One axis of the viewport mapping: [-1, 1] onto [0, size], end point to end point. */
  function ViewportCoord(t: real, size: nat): (c: real)
    ensures -1.0 <= t <= 1.0 ==> 0.0 <= c <= size as real
    ensures t == -1.0 ==> c == 0.0
    ensures t == 1.0 ==> c == size as real
  {
    if -1.0 <= t <= 1.0 then
      ViewportRange(t, size as real);
      (t + 1.0) * size as real / 2.0
    else
      (t + 1.0) * size as real / 2.0
  }

  lemma ViewportRange(t: real, s: real)
    requires -1.0 <= t <= 1.0 && s >= 0.0
    ensures 0.0 <= (t + 1.0) * s / 2.0 <= s
  {
    MulMono(s, 0.0, t + 1.0);
    MulMono(s, t + 1.0, 2.0);
  }

  /** The index buffer read in consecutive triples from `offset`. */
  predicate IndicesValid(indices: seq<nat>, vertexCount: nat, count: nat, offset: nat)
  {
    && offset + count <= |indices|
    && forall j :: offset <= j < offset + count ==> indices[j] < vertexCount
  }

  /** The number of indices drawing `count` of them reads: the loop takes whole
      triples until at least `count` are consumed. */
  function ConsumedIndices(count: nat): (consumed: nat)
    ensures consumed % 3 == 0 && count <= consumed < count + 3
  {
    (count + 2) / 3 * 3
  }

  /** Triple k is read exactly when fewer than `count` indices have been consumed
      before it; once the loop stops, every consumed triple has been read. */
  lemma ConsumedTriples(k: nat, count: nat)
    ensures 3 * k < count <==> k < ConsumedIndices(count) / 3
    ensures 3 * k >= count && 3 * k <= ConsumedIndices(count) ==> k == ConsumedIndices(count) / 3
  {
  }

  /** Triangle k is made of the vertices named by indices offset+3k .. offset+3k+2,
      each passed through the vertex stage and the viewport mapping. */
  function Assemble(indices: seq<nat>, vertices: seq<Vertex>, count: nat, offset: nat,
                    stage: Vertex -> Float3, width: nat, height: nat): (tris: seq<Triangle>)
    requires IndicesValid(indices, |vertices|, count, offset)
    ensures |tris| == count / 3
  {
    seq(count / 3, k requires 0 <= k < count / 3 =>
      ScreenTriangle(vertices[indices[offset + 3 * k]], vertices[indices[offset + 3 * k + 1]],
                     vertices[indices[offset + 3 * k + 2]], stage, width, height))
  }

  /** The screen-space triangle of three vertices. */
  function ScreenTriangle(v0: Vertex, v1: Vertex, v2: Vertex, stage: Vertex -> Float3, width: nat, height: nat): Triangle
  {
    Triangle(ToScreen(v0, stage(v0), width, height),
             ToScreen(v1, stage(v1), width, height),
             ToScreen(v2, stage(v2), width, height))
  }

  predicate NonDegenerate(tris: seq<Triangle>)
  {
    forall k :: 0 <= k < |tris| ==> Edge(tris[k]) != 0.0
  }

  function Min(a: real, b: real): real { if b < a then b else a }
  function Max(a: real, b: real): real { if a < b then b else a }

  function Clamp(v: real, lo: real, hi: real): real
  {
    Min(Max(v, lo), hi)
  }

  /** std::round: halfway cases go away from zero. */
  function Round(t: real): int
  {
    if t >= 0.0 then (t + 0.5).Floor else -((-t + 0.5).Floor)
  }

  /** An inclusive pixel rectangle. */
  datatype Box = Box(x0: int, y0: int, x1: int, y1: int)

  predicate InBox(b: Box, x: int, y: int)
  {
    b.x0 <= x <= b.x1 && b.y0 <= y <= b.y1
  }

  /** The triangle's bounding box, clamped to [0, width-1] x [0, height-1] and rounded. */
  function BoundingBox(t: Triangle, width: nat, height: nat): (b: Box)
    requires width > 0 && height > 0
    ensures 0 <= b.x0 <= b.x1 <= width - 1
    ensures 0 <= b.y0 <= b.y1 <= height - 1
  {
    var xMax := (width - 1) as real;
    var yMax := (height - 1) as real;
    var minX := Min(t.a.x, Min(t.b.x, t.c.x));
    var minY := Min(t.a.y, Min(t.b.y, t.c.y));
    var maxX := Max(t.a.x, Max(t.b.x, t.c.x));
    var maxY := Max(t.a.y, Max(t.b.y, t.c.y));
    RoundInRange(Clamp(minX, 0.0, xMax), width - 1);
    RoundInRange(Clamp(minY, 0.0, yMax), height - 1);
    RoundInRange(Clamp(maxX, 0.0, xMax), width - 1);
    RoundInRange(Clamp(maxY, 0.0, yMax), height - 1);
    Box(Round(Clamp(minX, 0.0, xMax)), Round(Clamp(minY, 0.0, yMax)),
        Round(Clamp(maxX, 0.0, xMax)), Round(Clamp(maxY, 0.0, yMax)))
  }

  lemma RoundInRange(t: real, n: nat)
    requires 0.0 <= t <= n as real
    ensures 0 <= Round(t) <= n
  {
  }

  function PixelPoint(x: int, y: int): Point2
  {
    Point2(x as real, y as real)
  }

  /** The inclusive inside test: every edge value is non-negative. */
  predicate Inside(t: Triangle, p: Point2)
  {
    var a, b, c := Screen(t.a), Screen(t.b), Screen(t.c);
    EdgeFunction(a, b, p) >= 0.0 && EdgeFunction(b, c, p) >= 0.0 && EdgeFunction(c, a, p) >= 0.0
  }

  /** The depth at p: the corners' z weighted by u = edge1/edge, v = edge2/edge, w = edge0/edge. */
  function Depth(t: Triangle, p: Point2): real
    requires Edge(t) != 0.0
  {
    var a, b, c := Screen(t.a), Screen(t.b), Screen(t.c);
    var e := Edge(t);
    (EdgeFunction(b, c, p) / e) * t.a.z + (EdgeFunction(c, a, p) / e) * t.b.z + (EdgeFunction(a, b, p) / e) * t.c.z
  }

  /** The vertex handed to the pixel shader: the first corner with x and y set to the pixel. */
  function Fragment(t: Triangle, x: int, y: int): Vertex
  {
    t.a.(x := x as real, y := y as real)
  }

  /** The depth test: passes with no depth buffer, otherwise iff the stored
      depth is strictly greater than the candidate. */
  predicate DepthPasses(depth: Option<seq<real>>, i: nat, z: real)
    requires depth.Some? ==> i < |depth.value|
  {
    depth.None? || depth.value[i] > z
  }

  /** A fragment that ties with the stored depth is rejected, so the earlier one is kept. */
  lemma DepthTieKeepsEarlier(d: seq<real>, i: nat)
    requires i < |d|
    ensures !DepthPasses(Some(d), i, d[i])
  {
  }

  /** The render target and, when bound, the depth buffer. */
  datatype Target<RT> = Target(color: seq<RT>, depth: Option<seq<real>>)

  predicate WellFormed<RT>(t: Target<RT>, width: nat, height: nat)
  {
    |t.color| == width * height && (t.depth.Some? ==> |t.depth.value| == width * height)
  }

  /** The pixel (x, y), stored at flat index i, is written by the triangle. */
  predicate Writes<RT>(t: Target<RT>, tri: Triangle, width: nat, height: nat, x: int, y: int, i: nat)
    requires width > 0 && height > 0 && Edge(tri) != 0.0
    requires WellFormed(t, width, height) && i < width * height
  {
    && InBox(BoundingBox(tri, width, height), x, y)
    && Inside(tri, PixelPoint(x, y))
    && DepthPasses(t.depth, i, Depth(tri, PixelPoint(x, y)))
  }

  /** The colour pixel i holds after the triangle. */
  function PixelColor<RT>(t: Target<RT>, tri: Triangle, width: nat, height: nat,
                          pixelShader: (Vertex, real) -> Color, fromColor: Color -> RT, i: nat): RT
    requires width > 0 && height > 0 && Edge(tri) != 0.0
    requires WellFormed(t, width, height) && i < width * height
  {
    var x, y := i % width, i / width;
    if Writes(t, tri, width, height, x, y, i)
    then fromColor(pixelShader(Fragment(tri, x, y), Depth(tri, PixelPoint(x, y))))
    else t.color[i]
  }

  /** The depth pixel i holds after the triangle, when a depth buffer is bound. */
  function PixelDepth<RT>(t: Target<RT>, tri: Triangle, width: nat, height: nat, i: nat): real
    requires width > 0 && height > 0 && Edge(tri) != 0.0
    requires WellFormed(t, width, height) && i < width * height && t.depth.Some?
  {
    var x, y := i % width, i / width;
    if Writes(t, tri, width, height, x, y, i) then Depth(tri, PixelPoint(x, y)) else t.depth.value[i]
  }

  /** Drawing one triangle: each pixel is tested once against the state before the triangle. */
  function ShadeTriangle<RT>(t: Target<RT>, tri: Triangle, width: nat, height: nat,
                             pixelShader: (Vertex, real) -> Color, fromColor: Color -> RT): (r: Target<RT>)
    requires width > 0 && height > 0 && Edge(tri) != 0.0
    requires WellFormed(t, width, height)
    ensures WellFormed(r, width, height) && r.depth.Some? == t.depth.Some?
  {
    var n := width * height;
    Target(
      seq(n, i requires 0 <= i < n => PixelColor(t, tri, width, height, pixelShader, fromColor, i)),
      if t.depth.None? then None
      else Some(seq(n, i requires 0 <= i < n => PixelDepth(t, tri, width, height, i))))
  }

  lemma ShadeTriangleAt<RT>(t: Target<RT>, tri: Triangle, width: nat, height: nat,
                            pixelShader: (Vertex, real) -> Color, fromColor: Color -> RT, i: nat)
    requires width > 0 && height > 0 && Edge(tri) != 0.0
    requires WellFormed(t, width, height) && i < width * height
    ensures var r := ShadeTriangle(t, tri, width, height, pixelShader, fromColor);
      && r.color[i] == PixelColor(t, tri, width, height, pixelShader, fromColor, i)
      && (t.depth.Some? ==> r.depth.value[i] == PixelDepth(t, tri, width, height, i))
  {
  }

  /** Drawing a list of triangles in order. */
  function DrawSpec<RT>(t: Target<RT>, tris: seq<Triangle>, width: nat, height: nat,
                        pixelShader: (Vertex, real) -> Color, fromColor: Color -> RT): (r: Target<RT>)
    requires width > 0 && height > 0 && NonDegenerate(tris)
    requires WellFormed(t, width, height)
    ensures WellFormed(r, width, height) && r.depth.Some? == t.depth.Some?
    decreases |tris|
  {
    if tris == [] then t
    else
      var prev := DrawSpec(t, tris[..|tris| - 1], width, height, pixelShader, fromColor);
      ShadeTriangle(prev, tris[|tris| - 1], width, height, pixelShader, fromColor)
  }

  /** Drawing one more triangle of a list shades it over the state the earlier ones left. */
  lemma DrawSpecSnoc<RT>(t: Target<RT>, tris: seq<Triangle>, k: nat, width: nat, height: nat,
                         pixelShader: (Vertex, real) -> Color, fromColor: Color -> RT)
    requires width > 0 && height > 0 && NonDegenerate(tris) && k < |tris|
    requires WellFormed(t, width, height)
    ensures NonDegenerate(tris[..k]) && NonDegenerate(tris[..k + 1])
    ensures DrawSpec(t, tris[..k + 1], width, height, pixelShader, fromColor)
         == ShadeTriangle(DrawSpec(t, tris[..k], width, height, pixelShader, fromColor), tris[k],
                          width, height, pixelShader, fromColor)
  {
    assert tris[..k + 1][..k] == tris[..k];
  }

  /** A pixel inside a non-degenerate triangle lies between the corners' extreme coordinates. */
  lemma InsideIsWithinCorners(t: Triangle, p: Point2)
    requires Edge(t) != 0.0 && Inside(t, p)
    ensures Edge(t) > 0.0
    ensures Min(t.a.x, Min(t.b.x, t.c.x)) <= p.x <= Max(t.a.x, Max(t.b.x, t.c.x))
    ensures Min(t.a.y, Min(t.b.y, t.c.y)) <= p.y <= Max(t.a.y, Max(t.b.y, t.c.y))
  {
    var a, b, c := Screen(t.a), Screen(t.b), Screen(t.c);
    var e0, e1, e2 := EdgeFunction(a, b, p), EdgeFunction(b, c, p), EdgeFunction(c, a, p);
    EdgeValuesSum(a, b, c, p);
    EdgeValuesReconstruct(a, b, c, p);
    var e := Edge(t);
    assert e == e0 + e1 + e2;
    WeightedBounds(e1, e2, e0, a.x, b.x, c.x, p.x, e);
    WeightedBounds(e1, e2, e0, a.y, b.y, c.y, p.y, e);
  }

  lemma WeightedBounds(w1: real, w2: real, w3: real, v1: real, v2: real, v3: real, p: real, e: real)
    requires w1 >= 0.0 && w2 >= 0.0 && w3 >= 0.0 && e == w1 + w2 + w3 && e != 0.0
    requires w1 * v1 + w2 * v2 + w3 * v3 == e * p
    ensures e > 0.0
    ensures Min(v1, Min(v2, v3)) <= p <= Max(v1, Max(v2, v3))
  {
    var lo, hi := Min(v1, Min(v2, v3)), Max(v1, Max(v2, v3));
    var sum := w1 * v1 + w2 * v2 + w3 * v3;
    MulMono(w1, lo, v1);
    MulMono(w2, lo, v2);
    MulMono(w3, lo, v3);
    MulMono(w1, v1, hi);
    MulMono(w2, v2, hi);
    MulMono(w3, v3, hi);
    calc {
      e * lo;
      == w1 * lo + w2 * lo + w3 * lo;
      <= sum;
      == e * p;
    }
    calc {
      e * p;
      == sum;
      <= w1 * hi + w2 * hi + w3 * hi;
      == e * hi;
    }
    if p < lo {
      MulMonoStrict(e, p, lo);
    }
    if p > hi {
      MulMonoStrict(e, hi, p);
    }
  }

  lemma MulMono(k: real, u: real, v: real)
    requires k >= 0.0 && u <= v
    ensures k * u <= k * v
  {
  }

  lemma MulMonoStrict(k: real, u: real, v: real)
    requires k > 0.0 && u < v
    ensures k * u < k * v
  {
  }

  /** Every pixel of the viewport inside the triangle lies in its clamped,
      rounded bounding box, so the scan misses none of them. */
  lemma InsideIsInBoundingBox(t: Triangle, width: nat, height: nat, x: int, y: int)
    requires width > 0 && height > 0 && Edge(t) != 0.0
    requires 0 <= x < width && 0 <= y < height
    requires Inside(t, PixelPoint(x, y))
    ensures InBox(BoundingBox(t, width, height), x, y)
  {
    InsideIsWithinCorners(t, PixelPoint(x, y));
    var xMax := (width - 1) as real;
    var yMax := (height - 1) as real;
    RoundBelow(Clamp(Min(t.a.x, Min(t.b.x, t.c.x)), 0.0, xMax), x);
    RoundAbove(Clamp(Max(t.a.x, Max(t.b.x, t.c.x)), 0.0, xMax), x);
    RoundBelow(Clamp(Min(t.a.y, Min(t.b.y, t.c.y)), 0.0, yMax), y);
    RoundAbove(Clamp(Max(t.a.y, Max(t.b.y, t.c.y)), 0.0, yMax), y);
  }

  lemma RoundBelow(t: real, n: int)
    requires 0.0 <= t <= n as real
    ensures Round(t) <= n
  {
  }

  lemma RoundAbove(t: real, n: int)
    requires 0 <= n && n as real <= t
    ensures n <= Round(t)
  {
  }

  /** Completeness of the scan: a viewport pixel inside the triangle whose depth
      passes receives the shaded fragment colour and its interpolated depth. */
  lemma ShadeTriangleWritesInsidePixel<RT>(t: Target<RT>, tri: Triangle, width: nat, height: nat,
                                           pixelShader: (Vertex, real) -> Color, fromColor: Color -> RT,
                                           x: nat, y: nat)
    requires width > 0 && height > 0 && Edge(tri) != 0.0
    requires WellFormed(t, width, height)
    requires x < width && y < height
    requires Inside(tri, PixelPoint(x, y))
    requires y * width + x < width * height
    requires DepthPasses(t.depth, y * width + x, Depth(tri, PixelPoint(x, y)))
    ensures var r := ShadeTriangle(t, tri, width, height, pixelShader, fromColor);
      var z := Depth(tri, PixelPoint(x, y));
      && r.color[y * width + x] == fromColor(pixelShader(Fragment(tri, x, y), z))
      && (r.depth.Some? ==> r.depth.value[y * width + x] == z)
  {
    var i := y * width + x;
    Buffers.GridCoordinates(width, x, y);
    assert i % width == x && i / width == y;
    InsideIsInBoundingBox(tri, width, height, x, y);
    assert Writes(t, tri, width, height, x, y, i);
    ShadeTriangleAt(t, tri, width, height, pixelShader, fromColor, i);
  }

  /** A triangle leaves every pixel outside its clamped bounding box unchanged. */
  lemma ShadeTriangleOutsideBox<RT>(t: Target<RT>, tri: Triangle, width: nat, height: nat,
                                    pixelShader: (Vertex, real) -> Color, fromColor: Color -> RT, i: nat)
    requires width > 0 && height > 0 && Edge(tri) != 0.0
    requires WellFormed(t, width, height) && i < width * height
    requires !InBox(BoundingBox(tri, width, height), i % width, i / width)
    ensures var r := ShadeTriangle(t, tri, width, height, pixelShader, fromColor);
      && r.color[i] == t.color[i]
      && (t.depth.Some? ==> r.depth.value[i] == t.depth.value[i])
  {
    ShadeTriangleAt(t, tri, width, height, pixelShader, fromColor, i);
  }

  /** Drawing never touches a pixel outside every triangle's clamped bounding box. */
  lemma {:induction false} DrawLeavesOutsidePixels<RT>(t: Target<RT>, tris: seq<Triangle>, width: nat, height: nat,
                                                      pixelShader: (Vertex, real) -> Color, fromColor: Color -> RT,
                                                      i: nat)
    requires width > 0 && height > 0 && NonDegenerate(tris)
    requires WellFormed(t, width, height) && i < width * height
    requires forall k :: 0 <= k < |tris| ==> !InBox(BoundingBox(tris[k], width, height), i % width, i / width)
    ensures var r := DrawSpec(t, tris, width, height, pixelShader, fromColor);
      && r.color[i] == t.color[i]
      && (t.depth.Some? ==> r.depth.value[i] == t.depth.value[i])
    decreases |tris|
  {
    if tris != [] {
      var init, last := tris[..|tris| - 1], tris[|tris| - 1];
      var prev := DrawSpec(t, init, width, height, pixelShader, fromColor);
      DrawLeavesOutsidePixels(t, init, width, height, pixelShader, fromColor, i);
      ShadeTriangleAt(prev, last, width, height, pixelShader, fromColor, i);
      assert !Writes(prev, last, width, height, i % width, i / width, i);
    }
  }

  /** With a depth buffer bound, no stored depth ever increases. */
  lemma {:induction false} DrawDepthNonIncreasing<RT>(t: Target<RT>, tris: seq<Triangle>, width: nat, height: nat,
                                                     pixelShader: (Vertex, real) -> Color, fromColor: Color -> RT,
                                                     i: nat)
    requires width > 0 && height > 0 && NonDegenerate(tris)
    requires WellFormed(t, width, height) && i < width * height && t.depth.Some?
    ensures DrawSpec(t, tris, width, height, pixelShader, fromColor).depth.value[i] <= t.depth.value[i]
    decreases |tris|
  {
    if tris != [] {
      var init, last := tris[..|tris| - 1], tris[|tris| - 1];
      var prev := DrawSpec(t, init, width, height, pixelShader, fromColor);
      DrawDepthNonIncreasing(t, init, width, height, pixelShader, fromColor, i);
      ShadeTriangleAt(prev, last, width, height, pixelShader, fromColor, i);
    }
  }

  /** A pixel that a triangle changes was in its box, inside it and passed the
      depth test; it then holds the shaded fragment and the interpolated depth. */
  lemma ShadeTriangleWriteCondition<RT>(t: Target<RT>, tri: Triangle, width: nat, height: nat,
                                        pixelShader: (Vertex, real) -> Color, fromColor: Color -> RT,
                                        x: nat, y: nat)
    requires width > 0 && height > 0 && Edge(tri) != 0.0
    requires WellFormed(t, width, height) && x < width && y < height
    requires y * width + x < width * height
    ensures var r := ShadeTriangle(t, tri, width, height, pixelShader, fromColor);
      var i, p := y * width + x, PixelPoint(x, y);
      if InBox(BoundingBox(tri, width, height), x, y) && Inside(tri, p) && DepthPasses(t.depth, i, Depth(tri, p))
      then r.color[i] == fromColor(pixelShader(Fragment(tri, x, y), Depth(tri, p)))
           && (r.depth.Some? ==> r.depth.value[i] == Depth(tri, p))
      else r.color[i] == t.color[i] && (r.depth.Some? ==> r.depth.value[i] == t.depth.value[i])
  {
    Buffers.GridCoordinates(width, x, y);
    ShadeTriangleAt(t, tri, width, height, pixelShader, fromColor, y * width + x);
  }

  /** With a depth buffer, of two triangles covering a pixel the nearer one's
      colour ends up there, whichever is drawn first. */
  lemma NearerFragmentWins<RT>(t: Target<RT>, near: Triangle, far: Triangle, width: nat, height: nat,
                               pixelShader: (Vertex, real) -> Color, fromColor: Color -> RT,
                               x: nat, y: nat)
    requires width > 0 && height > 0 && Edge(near) != 0.0 && Edge(far) != 0.0
    requires WellFormed(t, width, height) && t.depth.Some?
    requires x < width && y < height && y * width + x < width * height
    requires Inside(near, PixelPoint(x, y)) && Inside(far, PixelPoint(x, y))
    requires Depth(near, PixelPoint(x, y)) < Depth(far, PixelPoint(x, y))
    requires Depth(near, PixelPoint(x, y)) < t.depth.value[y * width + x]
    ensures var shaded := fromColor(pixelShader(Fragment(near, x, y), Depth(near, PixelPoint(x, y))));
      && DrawSpec(t, [near, far], width, height, pixelShader, fromColor).color[y * width + x] == shaded
      && DrawSpec(t, [far, near], width, height, pixelShader, fromColor).color[y * width + x] == shaded
  {
    var i := y * width + x;
    DrawPair(t, near, far, width, height, pixelShader, fromColor);
    DrawPair(t, far, near, width, height, pixelShader, fromColor);
    var n1 := ShadeTriangle(t, near, width, height, pixelShader, fromColor);
    var f1 := ShadeTriangle(t, far, width, height, pixelShader, fromColor);
    ShadeTriangleWritesInsidePixel(t, near, width, height, pixelShader, fromColor, x, y);
    ShadeTriangleWriteCondition(n1, far, width, height, pixelShader, fromColor, x, y);
    ShadeTriangleWriteCondition(t, far, width, height, pixelShader, fromColor, x, y);
    ShadeTriangleWritesInsidePixel(f1, near, width, height, pixelShader, fromColor, x, y);
  }

  lemma DrawPair<RT>(t: Target<RT>, first: Triangle, second: Triangle, width: nat, height: nat,
                     pixelShader: (Vertex, real) -> Color, fromColor: Color -> RT)
    requires width > 0 && height > 0 && Edge(first) != 0.0 && Edge(second) != 0.0
    requires WellFormed(t, width, height)
    ensures DrawSpec(t, [first, second], width, height, pixelShader, fromColor)
         == ShadeTriangle(ShadeTriangle(t, first, width, height, pixelShader, fromColor),
                          second, width, height, pixelShader, fromColor)
  {
    var pair, one: seq<Triangle> := [first, second], [first];
    assert pair[..1] == one && pair[1] == second;
    assert one[..0] == [] && one[0] == first;
    assert DrawSpec(t, [], width, height, pixelShader, fromColor) == t;
    assert DrawSpec(t, one, width, height, pixelShader, fromColor)
        == ShadeTriangle(t, first, width, height, pixelShader, fromColor);
  }

}
