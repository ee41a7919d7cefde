# cggd rasterizer core in Dafny

This project models the core of a small educational CPU renderer:

- the typed buffer `cg::resource<T>` and the colour types of `resource.h`;
- the triangle rasterizer `cg::renderer::rasterizer<VB, RT>`;
- the part of `cg::world::model` that turns an already-parsed OBJ mesh into per-shape vertex and index buffers.

Each part is proved against a specification written as pure functions.

- **Buffers** (`buffers.dfy`): `Resource<T>` is a class over a fixed `array<T>` with a row stride and an element size. It has the flat and the grid constructor, flat and `(x, y)` reads and writes, and lemmas that the row-major layout `y * stride + x` is in bounds and a bijection.
- **Colors** (`colors.dfy`): the float colour, the packed 8-bit colour and the vertex record. Floats are reals, and `static_cast<uint8_t>` is truncation toward zero.
- **Rasterizer specification** (`raster_spec.dfy`): this file states what drawing means.
  - It defines the edge function, the clamped and rounded bounding box, the inclusive inside test, the barycentric depth and the strict depth test.
  - `ShadeTriangle` says what one triangle does to a render target and an optional depth buffer; `DrawSpec` says what a list of triangles does.
  - The lemmas cover the edge-function identities, and show that the scan misses no pixel inside the triangle and touches nothing outside the box.
  - They also show that stored depth never increases and that the nearer of two fragments wins in either drawing order.
- **Rasterizer** (`rasterizer.dfy`): class `Rasterizer<RT>` with the setters, `ClearRenderTarget`, `DepthTest` and `Draw`.
  - `Draw` is proved to leave exactly `DrawSpec` of the triangles it assembles.
  - The loop bodies of `draw` are extracted into `DrawTriangle`, `RasterizeTriangle`, `ScanPixel` and `ShadePixel`. Each carries its own contract.
- **Mesh specification** (`mesh_spec.dfy`): index tuples, meshes, attributes and materials.
  - `Slots` is the tuple-to-slot map the loader builds. `Order` lists the distinct tuples in first-occurrence order. `FaceIds` gives each corner's face.
  - `FillVertexData` builds one vertex. `Filled` describes the expected contents of one shape's buffers.
- **Model** (`model.dfy`): class `Model`. `AllocateBuffers` is proved to size each new buffer pair by the number of distinct index tuples (`Order`) and the number of tuples; `FillBuffers` and `LoadBuffers` are proved against `Filled`. The allocation loop body becomes `AppendBuffers`, and the nested loops of `fill_buffers` become `FillRound`, `FillShapeStep`, `FillShape`, `FillFace` and `FillCorner`.
  - A face's normal is computed only when the face's first corner has none; otherwise it is the zero vector that linalg's default constructor gives.
  - A corner of such a face that has no normal of its own therefore gets the zero normal, as in the code.

The renderer passes the whole length of an index buffer to `draw` (src/renderer/rasterizer/rasterizer_renderer.cpp:43). `draw` does not check that the count is a multiple of three: its loop reads whole triples until at least `num_vertexes` indices are consumed. The model follows the code (`ConsumedIndices`).

The vertex shader returns a pair of a position and a vertex, and `draw` reads only the position (src/renderer/rasterizer/rasterizer.h:114-117). The model therefore takes the shader as a function from a vertex to a position; the vertex half of the pair has no effect on drawing.

## Model

| member | source | states |
|---|---|---|
| Buffers.Resource.Linear | src/resource.h:40-42 | a flat buffer has `size` elements, stride 0 and `sizeof(T) * size` bytes |
| Buffers.Resource.Grid | src/resource.h:44-47 | a grid buffer has `x_size * y_size` elements, stride `x_size`, and byte size element size times element count |
| Buffers.Resource.SizeInBytes | src/resource.h:68-71 | the byte size is the element size times the element count; the constructor rows state its value |
| Buffers.Resource.NumberOfElements | src/resource.h:73-76 | the element count is the length of the storage; the constructor rows state its value |
| Buffers.Resource.Stride | src/resource.h:78-81 | the row stride as stored; the constructor rows state its value and ItemAt uses it |
| Buffers.Resource.Item | src/resource.h:58-61 | reading element i yields the i-th element of the contents |
| Buffers.Resource.SetItem | src/resource.h:58-61 | writing through `item(i)` replaces element i and no other element |
| Buffers.Resource.ItemAt | src/resource.h:63-66 | reading cell (x, y) yields element `y * stride + x` |
| Buffers.Resource.SetItemAt | src/resource.h:63-66 | writing cell (x, y) replaces element `y * stride + x` and no other |
| Buffers.GridIndexInBounds | src/resource.h:63-66 | every cell of a width x height grid has a flat index below width * height |
| Buffers.GridCoordinates | src/resource.h:63-66 | the flat index of (x, y) gives back y as quotient and x as remainder by the width |
| Buffers.GridIndexInjective | src/resource.h:63-66 | distinct cells of a grid have distinct flat indices |
| Colors.Color.FromFloat3 | src/resource.h:84-86 | the colour built from a vector converts back to that vector |
| Colors.Color.ToFloat3 | src/resource.h:88-90 | the colour's three channels as a vector; ColorRoundTrip and Color.FromFloat3 state the round trip |
| Colors.ColorRoundTrip | src/resource.h:83-90 | vector conversion and back is the identity on colours |
| Colors.TruncateToByte | src/resource.h:99-101 | the cast to uint8_t truncates toward zero: the byte is the floor of a non-negative value, and 0 for a value in (-1, 0) |
| Colors.UnsignedColor.FromColor | src/resource.h:98-102 | packing a colour is packing its vector, channel by channel |
| Colors.UnsignedColor.FromFloat3 | src/resource.h:104-108 | for a unit-range channel the byte is floor(c * 255) |
| Colors.UnsignedColor.ToFloat3 | src/resource.h:110-112 | each channel becomes byte / 255, which lies in [0, 1] |
| Colors.ByteRoundTrip | src/resource.h:104-112 | unpacking and packing again gives back the same bytes |
| Colors.QuantizationError | src/resource.h:104-112 | packing then unpacking a unit-range vector loses less than 1/255 per channel and never rounds up |
| RasterSpec.EdgeFunction | src/renderer/rasterizer/rasterizer.h:176-180 | the signed area of (a, b, c); its properties are stated by EdgeFunctionSwap, EdgeValuesSum and EdgeValuesReconstruct |
| RasterSpec.EdgeFunctionSwap | src/renderer/rasterizer/rasterizer.h:176-180 | swapping the edge's end points negates the edge function |
| RasterSpec.EdgeValuesSum | src/renderer/rasterizer/rasterizer.h:137-139 | the three edge values of any point sum to the triangle's edge value |
| RasterSpec.EdgeValuesReconstruct | src/renderer/rasterizer/rasterizer.h:153-156 | weighting the corners by the edge values reconstructs the point |
| RasterSpec.BarycentricSumIsOne | src/renderer/rasterizer/rasterizer.h:153-155 | u + v + w = 1 for a non-degenerate triangle |
| RasterSpec.Inside | src/renderer/rasterizer/rasterizer.h:137-140 | the inclusive test that all three edge values are non-negative; InsideIsWithinCorners and InsideIsInBoundingBox state what it implies |
| RasterSpec.Depth | src/renderer/rasterizer/rasterizer.h:153-156 | the barycentric depth u * z0 + v * z1 + w * z2; BarycentricSumIsOne states that the weights sum to one |
| RasterSpec.InsideIsWithinCorners | src/renderer/rasterizer/rasterizer.h:137-140 | a point passing the inside test lies within the corners' extent, and the triangle winds positively |
| RasterSpec.LinInterp | src/renderer/rasterizer/rasterizer.h:100-103 | weight 0 gives a, weight 1 gives b |
| RasterSpec.LinInterpBetween | src/renderer/rasterizer/rasterizer.h:100-103 | for a weight in [0, 1] the result lies between min(a, b) and max(a, b), whichever end point is larger |
| RasterSpec.ToScreen | src/renderer/rasterizer/rasterizer.h:119-120 | the viewport map keeps the vertex's other fields and takes z from NDC. It maps [-1, 1] into [0, width] and [0, height], sending x = -1 to 0 and x = 1 to width, and flipping y so that y = 1 goes to 0 and y = -1 to height |
| RasterSpec.ViewportCoord | src/renderer/rasterizer/rasterizer.h:119-120 | one axis of the viewport map: [-1, 1] lands in [0, size], with -1 at 0 and 1 at size |
| RasterSpec.ConsumedIndices | src/renderer/rasterizer/rasterizer.h:107-111 | the draw loop consumes a multiple of three indices, at least the count asked for and fewer than three more |
| RasterSpec.ConsumedTriples | src/renderer/rasterizer/rasterizer.h:107-111 | triple k is read iff fewer than the requested count were consumed before it; when the loop stops all consumed triples were read |
| RasterSpec.Assemble | src/renderer/rasterizer/rasterizer.h:107-124 | the indices yield one triangle per consumed triple |
| RasterSpec.BoundingBox | src/renderer/rasterizer/rasterizer.h:128-133 | the clamped, rounded box lies inside the viewport |
| RasterSpec.InsideIsInBoundingBox | src/renderer/rasterizer/rasterizer.h:128-140 | every viewport pixel inside the triangle is in its box, so the scan tests it |
| RasterSpec.DepthPasses | src/renderer/rasterizer/rasterizer.h:182-188 | passes without a depth buffer, otherwise iff the stored depth is strictly greater; Rasterizer.Rasterizer.DepthTest and DepthTieKeepsEarlier state it |
| RasterSpec.DepthTieKeepsEarlier | src/renderer/rasterizer/rasterizer.h:182-188 | a candidate equal to the stored depth fails the strict test |
| RasterSpec.ShadeTriangle | src/renderer/rasterizer/rasterizer.h:134-172 | one triangle keeps the target's shape and whether it has a depth buffer |
| RasterSpec.ShadeTriangleAt | src/renderer/rasterizer/rasterizer.h:134-172 | each pixel after the triangle is its pixel colour and depth from the state before it |
| RasterSpec.ShadeTriangleWriteCondition | src/renderer/rasterizer/rasterizer.h:140-168 | a pixel is written iff it is in the box, inside and passes the depth test; it then holds the shaded colour and interpolated depth, and otherwise keeps its colour and depth |
| RasterSpec.ShadeTriangleWritesInsidePixel | src/renderer/rasterizer/rasterizer.h:134-168 | every viewport pixel inside the triangle whose depth passes is shaded |
| RasterSpec.ShadeTriangleOutsideBox | src/renderer/rasterizer/rasterizer.h:128-135 | pixels outside the box keep colour and depth |
| RasterSpec.DrawSpec | src/renderer/rasterizer/rasterizer.h:105-174 | drawing a list keeps the target's shape |
| RasterSpec.DrawSpecSnoc | src/renderer/rasterizer/rasterizer.h:105-174 | drawing one more triangle shades it over the state the earlier ones left |
| RasterSpec.DrawLeavesOutsidePixels | src/renderer/rasterizer/rasterizer.h:105-174 | a pixel outside every triangle's box is never changed by drawing |
| RasterSpec.DrawDepthNonIncreasing | src/renderer/rasterizer/rasterizer.h:159-167 | no stored depth increases during drawing |
| RasterSpec.NearerFragmentWins | src/renderer/rasterizer/rasterizer.h:159-168 | with a depth buffer, of two fragments covering a pixel, the nearer one ends up there in either drawing order when it beats the stored depth; the farther one may or may not beat it |
| Rasterizer.Rasterizer.constructor | src/renderer/rasterizer/rasterizer.h:40-46 | no buffers are bound and the viewport is 1920 x 1080 |
| Rasterizer.Rasterizer.SetRenderTarget | src/renderer/rasterizer/rasterizer.h:55-65 | a null argument keeps the buffer already set; a non-null one replaces it |
| Rasterizer.Rasterizer.SetViewport | src/renderer/rasterizer/rasterizer.h:67-71 | the viewport becomes the given width and height |
| Rasterizer.Rasterizer.SetVertexBuffer | src/renderer/rasterizer/rasterizer.h:88-92 | the vertex buffer becomes the argument |
| Rasterizer.Rasterizer.SetIndexBuffer | src/renderer/rasterizer/rasterizer.h:94-98 | the index buffer becomes the argument |
| Rasterizer.Rasterizer.ClearRenderTarget | src/renderer/rasterizer/rasterizer.h:73-86 | every render-target element becomes the clear value and every depth element the clear depth, each only when that buffer is bound |
| Rasterizer.Rasterizer.DepthTest | src/renderer/rasterizer/rasterizer.h:182-188 | the test passes with no depth buffer, otherwise iff the stored depth is strictly greater |
| Rasterizer.Rasterizer.Draw | src/renderer/rasterizer/rasterizer.h:105-174 | the render target and depth buffer end as DrawSpec of the assembled triangles over their state before |
| Rasterizer.Rasterizer.DrawTriangle | src/renderer/rasterizer/rasterizer.h:107-172 | one round of the draw loop assembles triangle k and shades it over the first k |
| Rasterizer.Rasterizer.RasterizeTriangle | src/renderer/rasterizer/rasterizer.h:122-172 | scanning the box leaves exactly ShadeTriangle of the state before |
| Rasterizer.Rasterizer.ScanPixel | src/renderer/rasterizer/rasterizer.h:135-171 | one step of the column scan shades its pixel and keeps the scan state |
| Rasterizer.Rasterizer.ShadePixel | src/renderer/rasterizer/rasterizer.h:136-170 | one pixel's colour and depth become their values from ShadeTriangle; nothing else changes |
| Model.Resize | src/world/model.cpp:49 | resizing keeps the first n paths and pads with empty ones |
| Model.CountVertices | src/world/model.cpp:36-45 | the count is the number of distinct (vertex, normal, texcoord) tuples |
| MeshSpec.SlotsFacts | src/world/model.cpp:37-44 | exactly the tuples of the mesh get slots, the slots are below their count, and no two tuples share one |
| MeshSpec.OrderFacts | src/world/model.cpp:37-44 | the first-occurrence order lists every tuple exactly once |
| MeshSpec.SlotsOrder | src/world/model.cpp:121-137 | slot k holds the k-th distinct tuple in first-occurrence order |
| MeshSpec.SlotCountIsDistinctCount | src/world/model.cpp:36-46 | the vertex-buffer length equals the number of distinct tuples |
| MeshSpec.SlotsPrefix | src/world/model.cpp:132-139 | reading further never renumbers a tuple |
| MeshSpec.OrderPrefix | src/world/model.cpp:132-137 | the distinct tuples of a prefix come first, in the same order |
| MeshSpec.FirstIndex | src/world/model.cpp:132-137 | the first occurrence of a tuple is where it first appears |
| MeshSpec.NewTupleSlot | src/world/model.cpp:132-137 | a tuple met for the first time takes the next slot, its place in first-occurrence order |
| MeshSpec.FaceStartNext | src/world/model.cpp:123-142 | the next face starts where this face's corners end |
| MeshSpec.FaceIds | src/world/model.cpp:123-142 | there is one face id per corner, each naming an existing face |
| MeshSpec.FaceIdsAt | src/world/model.cpp:129-130 | corner j of face f sits at its face start plus j and belongs to face f |
| MeshSpec.FillVertexData | src/world/model.cpp:74-107 | builds one vertex from a tuple, a face normal and a material; FillVertexDataFields states each field |
| MeshSpec.FillVertexDataFields | src/world/model.cpp:74-107 | a filled vertex carries the tuple's position, its own normal or the computed one, its texcoord or (0, 0), and the material colours verbatim |
| MeshSpec.FillVertexDataIgnoresComputedNormal | src/world/model.cpp:80-88 | the computed normal matters only to a tuple without its own normal |
| MeshSpec.IndexedVertexMatches | src/world/model.cpp:109-148 | after filling, every index names a filled slot whose vertex carries that corner's own attributes |
| MeshSpec.SharedSlotIffSameTuple | src/world/model.cpp:131-139 | two corners share an index exactly when they carry the same tuple |
| Model.ShapeTexture | src/world/model.cpp:144-146 | the first face's diffuse texture joined to the base folder, or the current path when it has none; Model.Model.SetTexture and Model.Model.FillBuffers state it |
| Model.TexturesStep | src/world/model.cpp:115-146 | handling one more shape sets one more texture entry |
| Model.FillCorner | src/world/model.cpp:129-141 | a new tuple gets the next slot with its expected vertex, and the corner's index is its slot |
| Model.IndicesStep | src/world/model.cpp:139-140 | writing a corner's slot extends the written index prefix |
| Model.NewSlotIsExpected | src/world/model.cpp:132-137 | the vertex built where a tuple first appears is that slot's expected vertex |
| Model.NewSlotStep | src/world/model.cpp:132-140 | a new tuple extends the filled vertices and indices by one |
| Model.VerticesStep | src/world/model.cpp:133-137 | filling the next slot extends the filled vertices |
| Model.SeenSlotStep | src/world/model.cpp:139-140 | a known tuple only writes the corner's index |
| Model.ComputeFaceNormal | src/world/model.cpp:125-128 | the face normal is computed only when the face's first corner has no normal, and is otherwise the zero vector |
| Model.FillFace | src/world/model.cpp:123-142 | one face's corners are filled in order with the face's normal |
| Model.FilledUpToEnd | src/world/model.cpp:123-143 | after the last corner a shape's buffers are Filled, and elements beyond the needed sizes are untouched |
| Model.FillShape | src/world/model.cpp:116-143 | one shape's buffers become Filled; elements past the needed sizes keep their old values |
| Model.FillShapeStep | src/world/model.cpp:115-143 | one round of the shape loop fills buffer pair n and leaves the others as they were |
| Model.Model.constructor | src/world/model.cpp:14 | a new model has no buffers and no texture paths |
| Model.Model.AppendBuffers | src/world/model.cpp:36-47 | one round of allocation appends a fresh vertex buffer with one element per distinct tuple and a fresh index buffer with one element per tuple, keeping the buffers distinct |
| Model.Model.AllocateBuffers | src/world/model.cpp:34-50 | appends one fresh buffer pair per shape, sized by distinct tuples and by tuples, and resizes the texture list to the number of shapes |
| Model.Model.FillBuffers | src/world/model.cpp:109-148 | buffer pair i holds shape i's Filled contents, and its elements past the sizes shape i needs keep their old values. Later buffers are unchanged, and texture i is the shape's texture path |
| Model.Model.FillRound | src/world/model.cpp:115-146 | one round of the shape loop fills buffer pair i and sets texture path i, keeping the loop state |
| Model.Model.SetTexture | src/world/model.cpp:144-146 | sets texture path i when the first face's material has a diffuse texture |
| Model.Model.LoadBuffers | src/world/model.cpp:29-30 | allocating then filling gives, per shape, buffers of exactly the needed sizes, completely filled, plus the shape's texture path |

## Left out

- `load_obj`: OBJ parsing (tinyobjloader), its error and warning reporting, and the parent-path computation are not modelled. `LoadBuffers` takes the parsed shapes, attributes and materials as values.
- `compute_normal` is a parameter `computeNormal`, because it normalises a cross product, which needs a floating-point square root.
- Joining paths (`std::filesystem::path operator/`) is a parameter `join`.
- `get_vertex_buffers`, `get_index_buffers` and `get_per_shape_texture_files` return the fields unchanged. The model exposes those fields directly (`vertexBuffers`, `indexBuffers`, `textures`).
- `get_world_matrix` (a constant identity matrix), `resource::get_data` (a raw pointer) and the destructors are not modelled.
- The raytracer, the renderer drivers, and everything outside `resource.h`, `rasterizer.h` and `model.cpp` are not part of this model.
- Floating point: `float` is modelled as real. Rounding, infinities and NaN are not modelled.
- The scan's float loop counters are integers in the model, which is exact for viewports under 2^24 pixels per side.
- The vertex shader and the perspective divide are one function from a vertex to normalized device coordinates. A zero `w` is not modelled.
- Rasterizer.Rasterizer.Draw: requires every assembled triangle to have a non-zero edge value. The source divides by it, and a degenerate triangle's NaN weights are outside a real-number model.
- Rasterizer.Rasterizer.Draw: requires bound, non-aliased buffers and viewport-sized pixel buffers. The source dereferences and indexes them without checks, and `shared_ptr` aliasing between them is not modelled.
- The vertex-buffer type `VB` is fixed to the vertex record. The render-target type stays generic; `RT::from_color` is the parameter `fromColor`.
- Indices (`unsigned int`) and sizes (`size_t`) are unbounded naturals; 32-bit and 64-bit wrap-around is not modelled.
- Colors.TruncateToByte: requires `c * 255` in (-1, 256), because the cast of any other value to `uint8_t` is undefined behaviour.
- Buffers.Resource.Linear: does not state that new elements are value-initialised, because `T` is generic here.
- Buffers.Resource.Grid: does not state that new elements are value-initialised, because `T` is generic here.
- Model.Model.LoadBuffers: requires an empty model. On a second load the source appends new buffers but fills from index 0; `AllocateBuffers` and `FillBuffers` model that sequence separately.
- Model.Model.FillBuffers: requires that the meshes are well formed (face sizes add up, material ids and attribute indices in range) and that the buffers are large enough. The source reads and writes without checks.
- A vertex shared by several faces takes its normal and material from the face where its tuple first appears, as in the code. This per-tuple first-face rule is stated in `ExpectedVertex`.
