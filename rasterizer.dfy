/** The rasterizer `cg::renderer::rasterizer<VB, RT>`: a small state machine
    (render target, optional depth buffer, vertex and index buffers, viewport)
    and triangle scan conversion. The vertex type is the renderer's Vertex,
    whose x, y and z the algorithm reads; the render-target type RT is generic
    and `fromColor` plays the part of RT::from_color. */
module Rasterizer {
  import opened Buffers
  import opened Colors
  import opened RasterSpec

  /** FLT_MAX, the default clear depth. */
  const FltMax: real := 340282346638528859811704183484516925440.0

  const DefaultWidth: nat := 1920
  const DefaultHeight: nat := 1080

  class Rasterizer<RT(0)> {
    var vertexBuffer: Resource?<Vertex>
    var indexBuffer: Resource?<nat>
    var renderTarget: Resource?<RT>
    var depthBuffer: Resource?<real>
    var width: nat
    var height: nat
    /** The vertex shader followed by the perspective divide: a vertex's
        normalized device coordinates. */
    var vertexShader: Vertex -> Float3
    /** The pixel shader: the colour of a fragment at the given depth. */
    var pixelShader: (Vertex, real) -> Color
    /** RT::from_color. */
    const fromColor: Color -> RT

    constructor (fromColor: Color -> RT, vertexShader: Vertex -> Float3, pixelShader: (Vertex, real) -> Color)
      ensures this.fromColor == fromColor
      ensures this.vertexShader == vertexShader && this.pixelShader == pixelShader
      ensures vertexBuffer == null && indexBuffer == null
      ensures renderTarget == null && depthBuffer == null
      ensures width == DefaultWidth && height == DefaultHeight
    {
      this.fromColor := fromColor;
      this.vertexShader := vertexShader;
      this.pixelShader := pixelShader;
      vertexBuffer, indexBuffer := null, null;
      renderTarget, depthBuffer := null, null;
      width, height := DefaultWidth, DefaultHeight;
    }

    /** The arrays that clearing and drawing write. */
    ghost function Outputs(): set<object>
      reads this
    {
      (if renderTarget == null then {} else {renderTarget.data as object})
      + (if depthBuffer == null then {} else {depthBuffer.data as object})
    }

    /** The arrays that drawing reads. */
    ghost function Inputs(): set<object>
      reads this
    {
      (if vertexBuffer == null then {} else {vertexBuffer.data as object})
      + (if indexBuffer == null then {} else {indexBuffer.data as object})
    }

    /** The render target and the depth buffer do not share storage. */
    ghost predicate OutputsDisjoint()
      reads this
    {
      renderTarget != null && depthBuffer != null ==> renderTarget.data as object != depthBuffer.data as object
    }

    /** The render target and the depth buffer, as values. */
    ghost function Current(): Target<RT>
      reads this, Outputs()
      requires renderTarget != null
    {
      RasterSpec.Target(renderTarget.Elements(), if depthBuffer == null then None else Some(depthBuffer.Elements()))
    }

    /** Both pixel buffers are width x height grids. */
    ghost predicate ViewportTargets()
      reads this
    {
      && width > 0 && height > 0
      && renderTarget != null
      && renderTarget.Stride() == width && renderTarget.NumberOfElements() == width * height
      && (depthBuffer != null ==>
            depthBuffer.Stride() == width && depthBuffer.NumberOfElements() == width * height)
    }

    /** Geometry is bound and shares no storage with the pixel buffers. */
    ghost predicate GeometryBound()
      reads this
    {
      vertexBuffer != null && indexBuffer != null && Inputs() !! Outputs()
    }

    /** The screen-space triangles that drawing `count` indices from `offset` produces. */
    ghost function Triangles(count: nat, offset: nat): seq<Triangle>
      reads this, Inputs()
      requires GeometryBound()
      requires IndicesValid(indexBuffer.Elements(), vertexBuffer.NumberOfElements(), count, offset)
    {
      Assemble(indexBuffer.Elements(), vertexBuffer.Elements(), count, offset, vertexShader, width, height)
    }

    /** Installs a render target and a depth buffer; a null argument keeps the buffer already set. */
    method SetRenderTarget(inRenderTarget: Resource?<RT>, inDepthBuffer: Resource?<real> := null)
      modifies this`renderTarget, this`depthBuffer
      ensures renderTarget == (if inRenderTarget != null then inRenderTarget else old(renderTarget))
      ensures depthBuffer == (if inDepthBuffer != null then inDepthBuffer else old(depthBuffer))
    {
      if inRenderTarget != null {
        renderTarget := inRenderTarget;
      }
      if inDepthBuffer != null {
        depthBuffer := inDepthBuffer;
      }
    }

    method SetViewport(inWidth: nat, inHeight: nat)
      modifies this`width, this`height
      ensures width == inWidth && height == inHeight
    {
      width := inWidth;
      height := inHeight;
    }

    method SetVertexBuffer(inVertexBuffer: Resource?<Vertex>)
      modifies this`vertexBuffer
      ensures vertexBuffer == inVertexBuffer
    {
      vertexBuffer := inVertexBuffer;
    }

    method SetIndexBuffer(inIndexBuffer: Resource?<nat>)
      modifies this`indexBuffer
      ensures indexBuffer == inIndexBuffer
    {
      indexBuffer := inIndexBuffer;
    }

    /** Fills the render target with `clearValue` and, when one is bound, the
        depth buffer with `depth`; nothing else changes. */
    method ClearRenderTarget(clearValue: RT, depth: real := FltMax)
      requires OutputsDisjoint()
      modifies Outputs()
      ensures renderTarget != null ==>
                renderTarget.Elements() == seq(renderTarget.NumberOfElements(), _ => clearValue)
      ensures depthBuffer != null ==>
                depthBuffer.Elements() == seq(depthBuffer.NumberOfElements(), _ => depth)
    {
      if renderTarget != null {
        var i := 0;
        while i < renderTarget.NumberOfElements()
          invariant 0 <= i <= renderTarget.NumberOfElements()
          invariant forall k :: 0 <= k < i ==> renderTarget.Elements()[k] == clearValue
          modifies renderTarget.data
        {
          renderTarget.SetItem(i, clearValue);
          i := i + 1;
        }
      }
      if depthBuffer != null {
        var i := 0;
        while i < depthBuffer.NumberOfElements()
          invariant 0 <= i <= depthBuffer.NumberOfElements()
          invariant forall k :: 0 <= k < i ==> depthBuffer.Elements()[k] == depth
          modifies depthBuffer.data
        {
          depthBuffer.SetItem(i, depth);
          i := i + 1;
        }
      }
    }

    /** The depth test at pixel (x, y): true with no depth buffer, otherwise iff
        the stored depth is strictly greater than z. */
    function DepthTest(z: real, x: nat, y: nat): (passes: bool)
      reads this, Outputs()
      requires depthBuffer != null ==> depthBuffer.Index(x, y) < depthBuffer.NumberOfElements()
      ensures depthBuffer == null ==> passes
      ensures depthBuffer != null ==>
                passes == DepthPasses(Some(depthBuffer.Elements()), depthBuffer.Index(x, y), z)
    {
      if depthBuffer == null then true
      else depthBuffer.data[depthBuffer.Index(x, y)] > z
    }

    /** Draws `numVertexes` indices from `vertexOffset` as consecutive triangles. */
    method Draw(numVertexes: nat, vertexOffset: nat)
      requires ViewportTargets() && OutputsDisjoint() && GeometryBound()
      requires IndicesValid(indexBuffer.Elements(), vertexBuffer.NumberOfElements(), ConsumedIndices(numVertexes),
                            vertexOffset)
      requires NonDegenerate(Triangles(ConsumedIndices(numVertexes), vertexOffset))
      modifies Outputs()
      ensures Current() == DrawSpec(old(Current()), old(Triangles(ConsumedIndices(numVertexes), vertexOffset)),
                                   width, height, pixelShader, fromColor)
    {
      ghost var start := Current();
      ghost var indices, vertices := indexBuffer.Elements(), vertexBuffer.Elements();
      ghost var count := ConsumedIndices(numVertexes);
      ghost var tris := Triangles(count, vertexOffset);
      ghost var k := 0;
      var vertexInd := vertexOffset;
      while vertexInd < numVertexes + vertexOffset
        invariant vertexInd == vertexOffset + 3 * k && 3 * k <= count
        invariant indexBuffer.Elements() == indices && vertexBuffer.Elements() == vertices
        invariant DrawState(start, tris, k)
        decreases numVertexes + vertexOffset - vertexInd
      {
        ConsumedTriples(k, numVertexes);
        DrawTriangle(start, tris, indices, vertices, count, vertexOffset, vertexInd, k);
        k := k + 1;
        vertexInd := vertexInd + 3;
      }
      ConsumedTriples(k, numVertexes);
      assert tris[..k] == tris;
    }

    /** Drawing has shaded the first k of `tris` over `start`. */
    ghost predicate DrawState(start: Target<RT>, tris: seq<Triangle>, k: nat)
      reads this, Outputs()
    {
      && ViewportTargets() && OutputsDisjoint()
      && WellFormed(start, width, height) && start.depth.Some? == (depthBuffer != null)
      && k <= |tris| && NonDegenerate(tris) && NonDegenerate(tris[..k])
      && Current() == DrawSpec(start, tris[..k], width, height, pixelShader, fromColor)
    }

    /** The body of the draw loop: assembles triangle k from the three indices
        at `vertexInd` and rasterizes it. */
    method DrawTriangle(ghost start: Target<RT>, ghost tris: seq<Triangle>, ghost indices: seq<nat>,
                        ghost vertices: seq<Vertex>, ghost count: nat, ghost offset: nat, vertexInd: nat, ghost k: nat)
      requires GeometryBound() && indexBuffer.Elements() == indices && vertexBuffer.Elements() == vertices
      requires IndicesValid(indices, |vertices|, count, offset)
      requires tris == Assemble(indices, vertices, count, offset, vertexShader, width, height)
      requires vertexInd == offset + 3 * k && k < count / 3
      requires DrawState(start, tris, k)
      modifies Outputs()
      ensures DrawState(start, tris, k + 1)
    {
      var i0 := indexBuffer.Item(vertexInd);
      var i1 := indexBuffer.Item(vertexInd + 1);
      var i2 := indexBuffer.Item(vertexInd + 2);
      var v0 := vertexBuffer.Item(i0);
      var v1 := vertexBuffer.Item(i1);
      var v2 := vertexBuffer.Item(i2);
      var tri := ScreenTriangle(v0, v1, v2, vertexShader, width, height);
      assert tri == tris[k];
      DrawSpecSnoc(start, tris, k, width, height, pixelShader, fromColor);
      RasterizeTriangle(tri);
    }

    /** Scans the clamped bounding box of one triangle, column by column. */
    method RasterizeTriangle(tri: Triangle)
      requires ViewportTargets() && OutputsDisjoint() && Edge(tri) != 0.0
      modifies Outputs()
      ensures Current() == ShadeTriangle(old(Current()), tri, width, height, pixelShader, fromColor)
    {
      ghost var before := Current();
      var edge := EdgeFunction(Screen(tri.a), Screen(tri.b), Screen(tri.c));
      var box := BoundingBox(tri, width, height);
      var x := box.x0;
      while x <= box.x1
        invariant box.x0 <= x <= box.x1 + 1
        invariant ScanState(before, tri, edge, box, x, box.y0)
      {
        var y := box.y0;
        while y <= box.y1
          invariant box.y0 <= y <= box.y1 + 1
          invariant ScanState(before, tri, edge, box, x, y)
        {
          ScanPixel(before, tri, edge, box, x, y);
          y := y + 1;
        }
        ScanStateNextColumn(before, tri, edge, box, x);
        x := x + 1;
      }
      ScanStateDone(before, tri, edge, box);
    }

    /** Scan conversion of `tri` has reached pixel (x, y) of its box: the pixels
        scanned so far hold the values that the triangle drawn over `before`
        gives them, and every other pixel still holds its `before` value. */
    ghost predicate ScanState(before: Target<RT>, tri: Triangle, edge: real, box: Box,
                              x: int, y: int)
      reads this, Outputs()
    {
      && ViewportTargets() && OutputsDisjoint()
      && edge == Edge(tri) && edge != 0.0
      && box == BoundingBox(tri, width, height)
      && WellFormed(before, width, height) && before.depth.Some? == (depthBuffer != null)
      && var goal := ShadeTriangle(before, tri, width, height, pixelShader, fromColor);
      && ScannedPrefix(renderTarget.Elements(), before.color, goal.color, box, x, y, width)
      && (depthBuffer != null ==>
            ScannedPrefix(depthBuffer.Elements(), before.depth.value, goal.depth.value, box, x, y, width))
    }

    /** The body of the inner scan loop: shades pixel (x, y) and moves past it. */
    method ScanPixel(ghost before: Target<RT>, tri: Triangle, edge: real, box: Box,
                     x: nat, y: nat)
      requires ScanState(before, tri, edge, box, x, y)
      requires box.x0 <= x <= box.x1 && box.y0 <= y <= box.y1
      modifies Outputs()
      ensures ScanState(before, tri, edge, box, x, y + 1)
    {
      ghost var goal := ShadeTriangle(before, tri, width, height, pixelShader, fromColor);
      ghost var i := y * width + x;
      ghost var colors := renderTarget.Elements();
      ghost var depths := if depthBuffer == null then [] else depthBuffer.Elements();
      GridIndexInBounds(width, height, x, y);
      ScanPending(colors, before.color, goal.color, box, x, y, width);
      if depthBuffer != null {
        ScanPending(depths, before.depth.value, goal.depth.value, box, x, y, width);
      }
      ShadeTriangleAt(before, tri, width, height, pixelShader, fromColor, i);
      ShadePixel(before, tri, edge, x, y);
      ScanAdvance(colors, renderTarget.Elements(), before.color, goal.color, box, x, y, width);
      if depthBuffer != null {
        ScanAdvance(depths, depthBuffer.Elements(), before.depth.value, goal.depth.value, box, x, y, width);
      }
    }

    lemma ScanStateNextColumn(before: Target<RT>, tri: Triangle, edge: real, box: Box, x: int)
      requires ScanState(before, tri, edge, box, x, box.y1 + 1)
      ensures ScanState(before, tri, edge, box, x + 1, box.y0)
    {
      var goal := ShadeTriangle(before, tri, width, height, pixelShader, fromColor);
      ScanNextColumn(renderTarget.Elements(), before.color, goal.color, box, x, width);
      if depthBuffer != null {
        ScanNextColumn(depthBuffer.Elements(), before.depth.value, goal.depth.value, box, x, width);
      }
    }

    /** Once every column of the box is scanned the buffers hold the triangle drawn over `before`. */
    lemma ScanStateDone(before: Target<RT>, tri: Triangle, edge: real, box: Box)
      requires ScanState(before, tri, edge, box, box.x1 + 1, box.y0)
      ensures Current() == ShadeTriangle(before, tri, width, height, pixelShader, fromColor)
    {
      var goal := ShadeTriangle(before, tri, width, height, pixelShader, fromColor);
      forall i | 0 <= i < width * height && !InBox(box, i % width, i / width)
        ensures goal.color[i] == before.color[i]
        ensures before.depth.Some? ==> goal.depth.value[i] == before.depth.value[i]
      {
        ShadeTriangleOutsideBox(before, tri, width, height, pixelShader, fromColor, i);
      }
      ScanDone(renderTarget.Elements(), before.color, goal.color, box, width);
      if depthBuffer != null {
        ScanDone(depthBuffer.Elements(), before.depth.value, goal.depth.value, box, width);
      }
    }

    /** Tests and, if it passes, shades pixel (x, y) of the triangle; `before` is
        the state before the triangle, which this pixel still holds. */
    method ShadePixel(ghost before: Target<RT>, tri: Triangle, edge: real, x: nat, y: nat)
      requires ViewportTargets() && OutputsDisjoint()
      requires edge == Edge(tri) && edge != 0.0
      requires x < width && y < height && InBox(BoundingBox(tri, width, height), x, y)
      requires WellFormed(before, width, height) && before.depth.Some? == (depthBuffer != null)
      requires y * width + x < width * height
      requires renderTarget.Elements()[y * width + x] == before.color[y * width + x]
      requires depthBuffer != null ==> depthBuffer.Elements()[y * width + x] == before.depth.value[y * width + x]
      modifies Outputs()
      ensures renderTarget.Elements()
           == old(renderTarget.Elements())[y * width + x := PixelColor(before, tri, width, height, pixelShader, fromColor, y * width + x)]
      ensures depthBuffer != null ==>
                depthBuffer.Elements()
                == old(depthBuffer.Elements())[y * width + x := PixelDepth(before, tri, width, height, y * width + x)]
    {
      ghost var i := y * width + x;
      GridCoordinates(width, x, y);
      ShadeTriangleWriteCondition(before, tri, width, height, pixelShader, fromColor, x, y);
      ShadeTriangleAt(before, tri, width, height, pixelShader, fromColor, i);
      var vertexA, vertexB, vertexC := Screen(tri.a), Screen(tri.b), Screen(tri.c);
      var point := PixelPoint(x, y);
      var edge0 := EdgeFunction(vertexA, vertexB, point);
      var edge1 := EdgeFunction(vertexB, vertexC, point);
      var edge2 := EdgeFunction(vertexC, vertexA, point);
      if edge0 >= 0.0 && edge1 >= 0.0 && edge2 >= 0.0 {
        var u := edge1 / edge;
        var v := edge2 / edge;
        var w := edge0 / edge;
        var depth := u * tri.a.z + v * tri.b.z + w * tri.c.z;
        assert depth == Depth(tri, point);
        if DepthTest(depth, x, y) {
          var pixelResult := pixelShader(Fragment(tri, x, y), depth);
          renderTarget.SetItemAt(x, y, fromColor(pixelResult));
          if depthBuffer != null {
            depthBuffer.SetItemAt(x, y, depth);
          }
        }
      }
    }
  }


  /** Pixel (px, py) of `box` comes before (x, y) in the column-by-column scan. */
  predicate Scanned(box: Box, x: int, y: int, px: int, py: int)
  {
    InBox(box, px, py) && (px < x || (px == x && py < y))
  }

  /** The pixels of `box` scanned before (x, y) hold their `goal` values; every
      other pixel holds its `before` value. */
  ghost predicate ScannedPrefix<T>(cur: seq<T>, before: seq<T>, goal: seq<T>, box: Box, x: int, y: int, width: nat)
  {
    && width > 0 && |cur| == |before| == |goal|
    && forall i :: 0 <= i < |cur| ==>
         cur[i] == if Scanned(box, x, y, i % width, i / width) then goal[i] else before[i]
  }

  lemma ScanAdvance<T>(cur: seq<T>, next: seq<T>, before: seq<T>, goal: seq<T>, box: Box, x: nat, y: nat, width: nat)
    requires ScannedPrefix(cur, before, goal, box, x, y, width)
    requires x < width && y * width + x < |cur| && InBox(box, x, y)
    requires next == cur[y * width + x := goal[y * width + x]]
    ensures ScannedPrefix(next, before, goal, box, x, y + 1, width)
  {
    GridCoordinates(width, x, y);
    forall i | 0 <= i < |next|
      ensures next[i] == if Scanned(box, x, y + 1, i % width, i / width) then goal[i] else before[i]
    {
      GridIndexOf(width, i);
    }
  }

  /** The pixel the scan is at still holds its `before` value. */
  lemma ScanPending<T>(cur: seq<T>, before: seq<T>, goal: seq<T>, box: Box, x: nat, y: nat, width: nat)
    requires ScannedPrefix(cur, before, goal, box, x, y, width)
    requires x < width && y * width + x < |cur|
    ensures cur[y * width + x] == before[y * width + x]
  {
    GridCoordinates(width, x, y);
  }

  /** Once the whole box is scanned, every pixel holds its `goal` value, given
      that the goal leaves the pixels outside the box as they were. */
  lemma ScanDone<T>(cur: seq<T>, before: seq<T>, goal: seq<T>, box: Box, width: nat)
    requires ScannedPrefix(cur, before, goal, box, box.x1 + 1, box.y0, width)
    requires forall i :: 0 <= i < |cur| && !InBox(box, i % width, i / width) ==> goal[i] == before[i]
    ensures cur == goal
  {
  }

  lemma ScanNextColumn<T>(cur: seq<T>, before: seq<T>, goal: seq<T>, box: Box, x: int, width: nat)
    requires ScannedPrefix(cur, before, goal, box, x, box.y1 + 1, width)
    ensures ScannedPrefix(cur, before, goal, box, x + 1, box.y0, width)
  {
  }
}
