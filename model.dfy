/** The model `cg::world::model`: per-shape vertex and index buffers and
    per-shape texture paths, built from a loaded mesh in two passes
    (allocate, then fill). */
module Model {
  import opened Buffers
  import opened Colors
  import opened MeshSpec

  /** sizeof(cg::vertex): seventeen 4-byte floats. */
  const VertexSize: nat := 68
  /** sizeof(unsigned int). */
  const IndexSize: nat := 4

  /** `textures.resize(n)`: truncates, or pads with empty paths. */
  function Resize(paths: seq<string>, n: nat): (r: seq<string>)
    ensures |r| == n
    ensures forall i :: 0 <= i < n ==> r[i] == if i < |paths| then paths[i] else ""
  {
    if n <= |paths| then paths[..n] else paths + seq(n - |paths|, _ => "")
  }

  /** The mesh's first face names an existing material. */
  predicate HasFirstMaterial(mesh: Mesh, materialCount: nat)
  {
    |mesh.materialIds| > 0 && 0 <= mesh.materialIds[0] < materialCount
  }

  /** The texture path of one shape after filling: the first face's diffuse
      texture joined to the base folder, or the path already there when that
      material has no texture. */
  function ShapeTexture(current: string, mesh: Mesh, materials: seq<Material>, baseFolder: string,
                        join: (string, string) -> string): string
    requires HasFirstMaterial(mesh, |materials|)
  {
    var name := materials[mesh.materialIds[0]].diffuseTexname;
    if name != "" then join(baseFolder, name) else current
  }

  /** The texture paths after filling: entry i is shape i's texture path
      computed from the current entry i, for each of the given shapes; the
      entries past the last shape are kept. */
  function Textures(current: seq<string>, shapes: seq<Shape>, materials: seq<Material>, baseFolder: string,
                    join: (string, string) -> string): seq<string>
    requires |shapes| <= |current|
    requires forall k :: 0 <= k < |shapes| ==> HasFirstMaterial(shapes[k].mesh, |materials|)
  {
    seq(|current|, k requires 0 <= k < |current| =>
          if k < |shapes| then ShapeTexture(current[k], shapes[k].mesh, materials, baseFolder, join) else current[k])
  }

  /** Handling one more shape sets one more texture entry. */
  lemma TexturesStep(current: seq<string>, shapes: seq<Shape>, materials: seq<Material>, baseFolder: string,
                     join: (string, string) -> string, i: nat)
    requires i < |shapes| <= |current|
    requires forall k :: 0 <= k < |shapes| ==> HasFirstMaterial(shapes[k].mesh, |materials|)
    ensures Textures(current, shapes[..i + 1], materials, baseFolder, join)
            == Textures(current, shapes[..i], materials, baseFolder, join)
                 [i := ShapeTexture(current[i], shapes[i].mesh, materials, baseFolder, join)]
  {
  }

  /** Every shape's mesh is well formed against the same attributes and
      materials. The second conjunct follows from the first; it is spelled out
      so that it is available without unfolding a whole mesh's well-formedness. */
  ghost predicate WellFormedShapes(shapes: seq<Shape>, attrib: Attrib, materialCount: nat)
  {
    && (forall i {:trigger WellFormedMesh(shapes[i].mesh, attrib, materialCount)} ::
          0 <= i < |shapes| ==> WellFormedMesh(shapes[i].mesh, attrib, materialCount))
    && (forall i :: 0 <= i < |shapes| ==> HasFirstMaterial(shapes[i].mesh, materialCount))
  }

  /** Counts the distinct index tuples of a mesh, numbering them as it goes. */
  method CountVertices(indices: seq<IndexTuple>) returns (vertexBufferSize: nat)
    ensures vertexBufferSize == |Order(indices)| == |set t | t in indices|
  {
    vertexBufferSize := 0;
    var indexMap: map<IndexTuple, nat> := map[];
    var q := 0;
    while q < |indices|
      invariant q <= |indices|
      invariant indexMap == Slots(indices[..q]) && vertexBufferSize == |indexMap|
    {
      assert indices[..q + 1][..q] == indices[..q];
      var t := indices[q];
      if t !in indexMap {
        indexMap := indexMap[t := vertexBufferSize];
        vertexBufferSize := vertexBufferSize + 1;
      }
      q := q + 1;
    }
    assert indices[..q] == indices;
    SlotsOrder(indices);
    SlotCountIsDistinctCount(indices);
  }

  /** Fills the buffers of one shape: walks the faces, gives each new tuple the
      next vertex slot and writes every corner's slot to the index buffer. */
  method FillShape(vertexBuffer: Resource<Vertex>, indexBuffer: Resource<nat>, mesh: Mesh, attrib: Attrib,
                   materials: seq<Material>, computeNormal: (Attrib, Mesh, nat) -> Float3)
    requires WellFormedMesh(mesh, attrib, |materials|)
    requires |Order(mesh.indices)| <= vertexBuffer.NumberOfElements()
    requires |mesh.indices| <= indexBuffer.NumberOfElements()
    modifies vertexBuffer.data, indexBuffer.data
    ensures Filled(vertexBuffer.Elements(), indexBuffer.Elements(), mesh, attrib, materials, computeNormal)
    ensures forall k :: |Order(mesh.indices)| <= k < vertexBuffer.NumberOfElements() ==>
              vertexBuffer.Elements()[k] == old(vertexBuffer.Elements())[k]
    ensures forall q :: |mesh.indices| <= q < indexBuffer.NumberOfElements() ==>
              indexBuffer.Elements()[q] == old(indexBuffer.Elements())[q]
  {
    ghost var oldVertices, oldIndices := vertexBuffer.Elements(), indexBuffer.Elements();
    SlotsOrder(mesh.indices);
    var vertexBufferOffset: nat := 0;
    var indexMap: map<IndexTuple, nat> := map[];
    var indexOffset: nat := 0;
    var f := 0;
    while f < |mesh.numFaceVertices|
      invariant f <= |mesh.numFaceVertices| && indexOffset == FaceStart(mesh.numFaceVertices, f)
      invariant FilledUpTo(vertexBuffer.Elements(), indexBuffer.Elements(), oldVertices, oldIndices, mesh, attrib,
                           materials, computeNormal, indexMap, vertexBufferOffset, indexOffset)
    {
      indexMap, vertexBufferOffset := FillFace(vertexBuffer, indexBuffer, mesh, attrib, materials, computeNormal, f,
                                               indexOffset, indexMap, vertexBufferOffset, oldVertices, oldIndices);
      FaceStartNext(mesh.numFaceVertices, f);
      indexOffset := indexOffset + mesh.numFaceVertices[f];
      f := f + 1;
    }
    assert mesh.numFaceVertices[..f] == mesh.numFaceVertices;
    FilledUpToEnd(vertexBuffer.Elements(), indexBuffer.Elements(), oldVertices, oldIndices, mesh, attrib, materials,
                  computeNormal, indexMap, vertexBufferOffset);
  }

  /** The body of the face loop: computes the face normal when the face's first
      corner has none, then handles the face's corners in order. */
  method FillFace(vertexBuffer: Resource<Vertex>, indexBuffer: Resource<nat>, mesh: Mesh, attrib: Attrib,
                  materials: seq<Material>, computeNormal: (Attrib, Mesh, nat) -> Float3, f: nat, indexOffset: nat,
                  indexMap: map<IndexTuple, nat>, vertexBufferOffset: nat,
                  ghost oldVertices: seq<Vertex>, ghost oldIndices: seq<nat>)
    returns (indexMap': map<IndexTuple, nat>, vertexBufferOffset': nat)
    requires f < |mesh.numFaceVertices| && indexOffset == FaceStart(mesh.numFaceVertices, f)
    requires FilledUpTo(vertexBuffer.Elements(), indexBuffer.Elements(), oldVertices, oldIndices, mesh, attrib,
                        materials, computeNormal, indexMap, vertexBufferOffset, indexOffset)
    modifies vertexBuffer.data, indexBuffer.data
    ensures FilledUpTo(vertexBuffer.Elements(), indexBuffer.Elements(), oldVertices, oldIndices, mesh, attrib,
                       materials, computeNormal, indexMap', vertexBufferOffset', indexOffset + mesh.numFaceVertices[f])
  {
    indexMap', vertexBufferOffset' := indexMap, vertexBufferOffset;
    var fv := mesh.numFaceVertices[f];
    var normal := ComputeFaceNormal(mesh, attrib, computeNormal, f, indexOffset);
    var indexBufferOffset := indexOffset;
    var j := 0;
    while j < fv
      invariant j <= fv && indexBufferOffset == indexOffset + j
      invariant FilledUpTo(vertexBuffer.Elements(), indexBuffer.Elements(), oldVertices, oldIndices, mesh, attrib,
                           materials, computeNormal, indexMap', vertexBufferOffset', indexBufferOffset)
    {
      indexMap', vertexBufferOffset', indexBufferOffset :=
        FillCorner(vertexBuffer, indexBuffer, mesh, attrib, materials, computeNormal, f, j, normal,
                   indexBufferOffset, indexMap', vertexBufferOffset', oldVertices, oldIndices);
      j := j + 1;
    }
  }

  /** The normal of face f: computed when the face's first corner has no
      normal, otherwise linalg's zero-initialised default. */
  method ComputeFaceNormal(mesh: Mesh, attrib: Attrib, computeNormal: (Attrib, Mesh, nat) -> Float3, f: nat,
                           indexOffset: nat)
    returns (normal: Float3)
    requires f < |mesh.numFaceVertices| && indexOffset == FaceStart(mesh.numFaceVertices, f) < |mesh.indices|
    ensures normal == FaceNormal(mesh, attrib, computeNormal, f)
    ensures mesh.indices[indexOffset].normalIndex >= 0 ==> normal == Float3(0.0, 0.0, 0.0)
  {
    normal := Float3(0.0, 0.0, 0.0);
    if mesh.indices[indexOffset].normalIndex < 0 {
      normal := computeNormal(attrib, mesh, indexOffset);
    }
  }

  /** The body of the corner loop: a tuple not seen before gets the next vertex
      slot, filled from the face's normal and material; either way the corner's
      slot is written to the index buffer. */
  method FillCorner(vertexBuffer: Resource<Vertex>, indexBuffer: Resource<nat>, mesh: Mesh, attrib: Attrib,
                    materials: seq<Material>, computeNormal: (Attrib, Mesh, nat) -> Float3, f: nat, j: nat,
                    normal: Float3, pos: nat, indexMap: map<IndexTuple, nat>, vertexBufferOffset: nat,
                    ghost oldVertices: seq<Vertex>, ghost oldIndices: seq<nat>)
    returns (indexMap': map<IndexTuple, nat>, vertexBufferOffset': nat, next: nat)
    requires f < |mesh.numFaceVertices| && j < mesh.numFaceVertices[f]
    requires pos == FaceStart(mesh.numFaceVertices, f) + j
    requires FilledUpTo(vertexBuffer.Elements(), indexBuffer.Elements(), oldVertices, oldIndices, mesh, attrib,
                        materials, computeNormal, indexMap, vertexBufferOffset, pos)
    requires normal == FaceNormal(mesh, attrib, computeNormal, f)
    modifies vertexBuffer.data, indexBuffer.data
    ensures FilledUpTo(vertexBuffer.Elements(), indexBuffer.Elements(), oldVertices, oldIndices, mesh, attrib,
                       materials, computeNormal, indexMap', vertexBufferOffset', next)
    ensures next == pos + 1
  {
    FaceIdsAt(mesh.numFaceVertices, f, j);
    ghost var vertices, indices := vertexBuffer.Elements(), indexBuffer.Elements();
    var idx := mesh.indices[pos];
    if idx !in indexMap {
      var material := materials[mesh.materialIds[f]];
      var vertex := FillVertexData(attrib, idx, normal, material);
      NewSlotStep(vertices, indices, oldVertices, oldIndices, mesh, attrib, materials, computeNormal,
                  indexMap, vertexBufferOffset, pos, vertex);
      vertexBuffer.SetItem(vertexBufferOffset, vertex);
      indexMap', vertexBufferOffset' := indexMap[idx := vertexBufferOffset], vertexBufferOffset + 1;
    } else {
      SeenSlotStep(vertices, indices, oldVertices, oldIndices, mesh, attrib, materials, computeNormal,
                   indexMap, vertexBufferOffset, pos);
      indexMap', vertexBufferOffset' := indexMap, vertexBufferOffset;
    }
    indexBuffer.SetItem(pos, indexMap'[idx]);
    next := pos + 1;
  }

  /** The state of FillShape after the first `pos` corners: the slot map of
      that prefix, a vertex in each of its slots, the prefix's index entries
      written, and every other element as it was. */
  ghost predicate FilledUpTo(vertices: seq<Vertex>, indexBuffer: seq<nat>,
                             oldVertices: seq<Vertex>, oldIndices: seq<nat>,
                             mesh: Mesh, attrib: Attrib, materials: seq<Material>,
                             computeNormal: (Attrib, Mesh, nat) -> Float3,
                             indexMap: map<IndexTuple, nat>, vertexCount: nat, pos: nat)
  {
    && WellFormedMesh(mesh, attrib, |materials|)
    && pos <= |mesh.indices|
    && |Slots(mesh.indices)| == |Order(mesh.indices)| <= |vertices| == |oldVertices|
    && |mesh.indices| <= |indexBuffer| == |oldIndices|
    && indexMap == Slots(mesh.indices[..pos]) && vertexCount == |indexMap|
    && vertexCount <= |Slots(mesh.indices)|
    && VerticesUpTo(vertices, oldVertices, mesh, attrib, materials, computeNormal, vertexCount)
    && IndicesUpTo(indexBuffer, oldIndices, mesh.indices, pos)
  }

  /** Slots below `vertexCount` hold their expected vertex, the others their old value. */
  ghost predicate VerticesUpTo(vertices: seq<Vertex>, oldVertices: seq<Vertex>, mesh: Mesh, attrib: Attrib,
                               materials: seq<Material>, computeNormal: (Attrib, Mesh, nat) -> Float3,
                               vertexCount: nat)
    requires WellFormedMesh(mesh, attrib, |materials|)
    requires vertexCount <= |Order(mesh.indices)| <= |vertices| == |oldVertices|
  {
    && (forall k :: 0 <= k < vertexCount ==>
          vertices[k] == ExpectedVertex(mesh, attrib, materials, computeNormal, k))
    && (forall k :: vertexCount <= k < |oldVertices| ==> vertices[k] == oldVertices[k])
  }

  /** Index entries below `pos` hold their tuple's slot, the others their old value. */
  ghost predicate IndicesUpTo(indexBuffer: seq<nat>, oldIndices: seq<nat>, s: seq<IndexTuple>, pos: nat)
    requires pos <= |s| <= |indexBuffer| == |oldIndices|
  {
    && (forall q :: 0 <= q < pos ==> s[q] in Slots(s) && indexBuffer[q] == Slots(s)[s[q]])
    && (forall q :: pos <= q < |oldIndices| ==> indexBuffer[q] == oldIndices[q])
  }

  /** Writing the slot of corner `pos` extends the written prefix by one. */
  lemma IndicesStep(indexBuffer: seq<nat>, oldIndices: seq<nat>, s: seq<IndexTuple>, pos: nat, slot: nat)
    requires pos < |s| <= |indexBuffer| == |oldIndices|
    requires IndicesUpTo(indexBuffer, oldIndices, s, pos)
    requires s[pos] in Slots(s) && slot == Slots(s)[s[pos]]
    ensures IndicesUpTo(indexBuffer[pos := slot], oldIndices, s, pos + 1)
  {
  }

  /** A corner whose tuple is new: its vertex goes to the next slot, and the
      corner's index entry is that slot. */
  lemma NewSlotStep(vertices: seq<Vertex>, indexBuffer: seq<nat>, oldVertices: seq<Vertex>, oldIndices: seq<nat>,
                    mesh: Mesh, attrib: Attrib, materials: seq<Material>, computeNormal: (Attrib, Mesh, nat) -> Float3,
                    indexMap: map<IndexTuple, nat>, vertexCount: nat, pos: nat, v: Vertex)
    requires FilledUpTo(vertices, indexBuffer, oldVertices, oldIndices, mesh, attrib, materials, computeNormal,
                        indexMap, vertexCount, pos)
    requires pos < |mesh.indices| && mesh.indices[pos] !in indexMap
    requires var f := FaceIds(mesh.numFaceVertices)[pos];
      v == FillVertexData(attrib, mesh.indices[pos], FaceNormal(mesh, attrib, computeNormal, f),
                          materials[mesh.materialIds[f]])
    ensures vertexCount < |vertices| && pos < |indexBuffer|
    ensures FilledUpTo(vertices[vertexCount := v], indexBuffer[pos := vertexCount], oldVertices, oldIndices, mesh,
                       attrib, materials, computeNormal, indexMap[mesh.indices[pos] := vertexCount], vertexCount + 1,
                       pos + 1)
  {
    var s := mesh.indices;
    var t := s[pos];
    assert s[..pos + 1][..pos] == s[..pos];
    assert Slots(s[..pos + 1]) == indexMap[t := vertexCount];
    NewSlotIsExpected(mesh, attrib, materials, computeNormal, pos);
    VerticesStep(vertices, oldVertices, mesh, attrib, materials, computeNormal, vertexCount, v);
    IndicesStep(indexBuffer, oldIndices, s, pos, vertexCount);
  }

  /** The tuple first met at position `pos` takes the next slot, and the vertex
      built from it there is the expected vertex of that slot. */
  lemma NewSlotIsExpected(mesh: Mesh, attrib: Attrib, materials: seq<Material>,
                          computeNormal: (Attrib, Mesh, nat) -> Float3, pos: nat)
    requires WellFormedMesh(mesh, attrib, |materials|)
    requires pos < |mesh.indices| && mesh.indices[pos] !in Slots(mesh.indices[..pos])
    ensures var s, k := mesh.indices, |Slots(mesh.indices[..pos])|;
      && k < |Order(s)| && s[pos] in Slots(s) && Slots(s)[s[pos]] == k
      && var f := FaceIds(mesh.numFaceVertices)[pos];
         ExpectedVertex(mesh, attrib, materials, computeNormal, k)
         == FillVertexData(attrib, s[pos], FaceNormal(mesh, attrib, computeNormal, f), materials[mesh.materialIds[f]])
  {
    var s := mesh.indices;
    assert s[..pos + 1][..pos] == s[..pos];
    SlotsPrefix(s, pos + 1);
    NewTupleSlot(s, pos);
    SlotsOrder(s[..pos]);
  }

  /** Filling the next slot with its expected vertex extends the filled slots by one. */
  lemma VerticesStep(vertices: seq<Vertex>, oldVertices: seq<Vertex>, mesh: Mesh, attrib: Attrib,
                     materials: seq<Material>, computeNormal: (Attrib, Mesh, nat) -> Float3,
                     vertexCount: nat, v: Vertex)
    requires WellFormedMesh(mesh, attrib, |materials|)
    requires vertexCount < |Order(mesh.indices)| <= |vertices| == |oldVertices|
    requires VerticesUpTo(vertices, oldVertices, mesh, attrib, materials, computeNormal, vertexCount)
    requires v == ExpectedVertex(mesh, attrib, materials, computeNormal, vertexCount)
    ensures VerticesUpTo(vertices[vertexCount := v], oldVertices, mesh, attrib, materials, computeNormal, vertexCount + 1)
  {
  }

  /** A corner whose tuple already has a slot: only its index entry is written. */
  lemma SeenSlotStep(vertices: seq<Vertex>, indexBuffer: seq<nat>, oldVertices: seq<Vertex>, oldIndices: seq<nat>,
                     mesh: Mesh, attrib: Attrib, materials: seq<Material>, computeNormal: (Attrib, Mesh, nat) -> Float3,
                     indexMap: map<IndexTuple, nat>, vertexCount: nat, pos: nat)
    requires FilledUpTo(vertices, indexBuffer, oldVertices, oldIndices, mesh, attrib, materials, computeNormal,
                        indexMap, vertexCount, pos)
    requires pos < |mesh.indices| && mesh.indices[pos] in indexMap
    ensures pos < |indexBuffer|
    ensures FilledUpTo(vertices, indexBuffer[pos := indexMap[mesh.indices[pos]]], oldVertices, oldIndices, mesh, attrib,
                       materials, computeNormal, indexMap, vertexCount, pos + 1)
  {
    var s := mesh.indices;
    assert s[..pos + 1][..pos] == s[..pos];
    assert Slots(s[..pos + 1]) == indexMap;
    SlotsPrefix(s, pos);
    IndicesStep(indexBuffer, oldIndices, s, pos, indexMap[s[pos]]);
  }

  /** After the last corner the buffers hold exactly what Filled describes. */
  lemma FilledUpToEnd(vertices: seq<Vertex>, indexBuffer: seq<nat>, oldVertices: seq<Vertex>, oldIndices: seq<nat>,
                      mesh: Mesh, attrib: Attrib, materials: seq<Material>, computeNormal: (Attrib, Mesh, nat) -> Float3,
                      indexMap: map<IndexTuple, nat>, vertexCount: nat)
    requires FilledUpTo(vertices, indexBuffer, oldVertices, oldIndices, mesh, attrib, materials, computeNormal,
                        indexMap, vertexCount, Sum(mesh.numFaceVertices))
    ensures Filled(vertices, indexBuffer, mesh, attrib, materials, computeNormal)
    ensures forall k :: |Order(mesh.indices)| <= k < |vertices| ==> vertices[k] == oldVertices[k]
    ensures forall q :: |mesh.indices| <= q < |indexBuffer| ==> indexBuffer[q] == oldIndices[q]
  {
    assert mesh.indices[..|mesh.indices|] == mesh.indices;
  }

  /** No two vertex buffers and no two index buffers share storage. */
  ghost predicate Distinct(vertexBuffers: seq<Resource<Vertex>>, indexBuffers: seq<Resource<nat>>)
  {
    && (forall i, j :: 0 <= i < j < |vertexBuffers| ==> vertexBuffers[i].data != vertexBuffers[j].data)
    && (forall i, j :: 0 <= i < j < |indexBuffers| ==> indexBuffers[i].data != indexBuffers[j].data)
  }

  /** The storage of the given buffers. */
  ghost function StorageOf(vertexBuffers: seq<Resource<Vertex>>, indexBuffers: seq<Resource<nat>>): set<object>
  {
    (set i | 0 <= i < |vertexBuffers| :: vertexBuffers[i].data as object)
    + (set i | 0 <= i < |indexBuffers| :: indexBuffers[i].data as object)
  }

  /** The buffers hold the given contents, buffer by buffer. */
  ghost predicate Holds(vertexBuffers: seq<Resource<Vertex>>, indexBuffers: seq<Resource<nat>>,
                        vertexContents: seq<seq<Vertex>>, indexContents: seq<seq<nat>>)
    reads StorageOf(vertexBuffers, indexBuffers)
  {
    && |vertexContents| == |vertexBuffers| && |indexContents| == |indexBuffers|
    && (forall k :: 0 <= k < |vertexBuffers| ==> vertexBuffers[k].Elements() == vertexContents[k])
    && (forall k :: 0 <= k < |indexBuffers| ==> indexBuffers[k].Elements() == indexContents[k])
  }

  /** Buffer pair i is at least as large as shape i needs. */
  ghost predicate BuffersFit(vertexBuffers: seq<Resource<Vertex>>, indexBuffers: seq<Resource<nat>>, shapes: seq<Shape>)
  {
    && |shapes| <= |vertexBuffers| && |shapes| <= |indexBuffers|
    && forall i :: 0 <= i < |shapes| ==>
         && |Order(shapes[i].mesh.indices)| <= vertexBuffers[i].NumberOfElements()
         && |shapes[i].mesh.indices| <= indexBuffers[i].NumberOfElements()
  }

  /** The elements of `now` from position `from` on are those of `before`. */
  ghost predicate TailKept<T>(now: seq<T>, before: seq<T>, from: nat)
  {
    |now| == |before| && forall j :: from <= j < |now| ==> now[j] == before[j]
  }

  /** The first n shapes' buffer pairs are filled, with the elements past the
      sizes their shapes need left as they were, and every later buffer still
      holds its initial contents; all stated on the contents as values. */
  ghost predicate FilledPrefix(vertexContents: seq<seq<Vertex>>, indexContents: seq<seq<nat>>,
                               initialVertices: seq<seq<Vertex>>, initialIndices: seq<seq<nat>>,
                               shapes: seq<Shape>, attrib: Attrib, materials: seq<Material>,
                               computeNormal: (Attrib, Mesh, nat) -> Float3, n: nat)
    requires WellFormedShapes(shapes, attrib, |materials|)
  {
    && n <= |shapes| <= |vertexContents| && |shapes| <= |indexContents|
    && |vertexContents| == |initialVertices| && |indexContents| == |initialIndices|
    && (forall k {:trigger Filled(vertexContents[k], indexContents[k], shapes[k].mesh, attrib, materials, computeNormal)}
          :: 0 <= k < n ==>
               && Filled(vertexContents[k], indexContents[k], shapes[k].mesh, attrib, materials, computeNormal)
               && TailKept(vertexContents[k], initialVertices[k], |Order(shapes[k].mesh.indices)|)
               && TailKept(indexContents[k], initialIndices[k], |shapes[k].mesh.indices|))
    && (forall k :: n <= k < |vertexContents| ==> vertexContents[k] == initialVertices[k])
    && (forall k :: n <= k < |indexContents| ==> indexContents[k] == initialIndices[k])
  }

  /** The state of the shape loop after n rounds: distinct buffers large
      enough for their shapes, holding the contents FilledPrefix describes. */
  ghost predicate BuffersFilledUpTo(vertexBuffers: seq<Resource<Vertex>>, indexBuffers: seq<Resource<nat>>,
                                    vertexContents: seq<seq<Vertex>>, indexContents: seq<seq<nat>>,
                                    initialVertices: seq<seq<Vertex>>, initialIndices: seq<seq<nat>>,
                                    shapes: seq<Shape>, attrib: Attrib, materials: seq<Material>,
                                    computeNormal: (Attrib, Mesh, nat) -> Float3, n: nat)
    reads StorageOf(vertexBuffers, indexBuffers)
  {
    && Distinct(vertexBuffers, indexBuffers) && BuffersFit(vertexBuffers, indexBuffers, shapes)
    && WellFormedShapes(shapes, attrib, |materials|)
    && Holds(vertexBuffers, indexBuffers, vertexContents, indexContents)
    && FilledPrefix(vertexContents, indexContents, initialVertices, initialIndices, shapes, attrib, materials,
                    computeNormal, n)
  }

  /** The buffer work of one round of the shape loop: fills buffer pair n
      from shape n and leaves every other buffer as it was. */
  method FillShapeStep(vertexBuffers: seq<Resource<Vertex>>, indexBuffers: seq<Resource<nat>>,
                       shapes: seq<Shape>, attrib: Attrib, materials: seq<Material>,
                       computeNormal: (Attrib, Mesh, nat) -> Float3, n: nat,
                       ghost vertexContents: seq<seq<Vertex>>, ghost indexContents: seq<seq<nat>>,
                       ghost initialVertices: seq<seq<Vertex>>, ghost initialIndices: seq<seq<nat>>)
    returns (ghost vertexContents': seq<seq<Vertex>>, ghost indexContents': seq<seq<nat>>)
    requires n < |shapes|
    requires BuffersFilledUpTo(vertexBuffers, indexBuffers, vertexContents, indexContents, initialVertices,
                               initialIndices, shapes, attrib, materials, computeNormal, n)
    modifies vertexBuffers[n].data, indexBuffers[n].data
    ensures BuffersFilledUpTo(vertexBuffers, indexBuffers, vertexContents', indexContents', initialVertices,
                              initialIndices, shapes, attrib, materials, computeNormal, n + 1)
  {
    FillShape(vertexBuffers[n], indexBuffers[n], shapes[n].mesh, attrib, materials, computeNormal);
    assert TailKept(vertexBuffers[n].Elements(), initialVertices[n], |Order(shapes[n].mesh.indices)|);
    assert TailKept(indexBuffers[n].Elements(), initialIndices[n], |shapes[n].mesh.indices|);
    vertexContents' := vertexContents[n := vertexBuffers[n].Elements()];
    indexContents' := indexContents[n := indexBuffers[n].Elements()];
    assert Holds(vertexBuffers, indexBuffers, vertexContents', indexContents');
    forall k | 0 <= k < n + 1
      ensures && Filled(vertexContents'[k], indexContents'[k], shapes[k].mesh, attrib, materials, computeNormal)
              && TailKept(vertexContents'[k], initialVertices[k], |Order(shapes[k].mesh.indices)|)
              && TailKept(indexContents'[k], initialIndices[k], |shapes[k].mesh.indices|)
    {
      if k < n {
        assert vertexContents'[k] == vertexContents[k] && indexContents'[k] == indexContents[k];
      }
    }
    assert FilledPrefix(vertexContents', indexContents', initialVertices, initialIndices, shapes, attrib, materials,
                        computeNormal, n + 1);
  }

  class Model {
    var vertexBuffers: seq<Resource<Vertex>>
    var indexBuffers: seq<Resource<nat>>
    var textures: seq<string>

    constructor ()
      ensures vertexBuffers == [] && indexBuffers == [] && textures == []
    {
      vertexBuffers, indexBuffers, textures := [], [], [];
    }

    /** The buffers come in pairs, and no two buffers share storage. */
    ghost predicate Valid()
      reads this`vertexBuffers, this`indexBuffers
    {
      && |vertexBuffers| == |indexBuffers| && Distinct(vertexBuffers, indexBuffers)
      && this !in StorageOf(vertexBuffers, indexBuffers)
    }

    /** The storage of every buffer. */
    ghost function Storage(): set<object>
      reads this`vertexBuffers, this`indexBuffers
    {
      StorageOf(vertexBuffers, indexBuffers)
    }

    /** From position `first` on, there is a buffer pair per shape, sized as
        the shape needs: one vertex per distinct tuple, one index per tuple. */
    ghost predicate Sized(shapes: seq<Shape>, first: nat)
      reads this`vertexBuffers, this`indexBuffers
    {
      && first + |shapes| <= |vertexBuffers| && first + |shapes| <= |indexBuffers|
      && forall i :: 0 <= i < |shapes| ==>
           && vertexBuffers[first + i].NumberOfElements() == |Order(shapes[i].mesh.indices)|
           && indexBuffers[first + i].NumberOfElements() == |shapes[i].mesh.indices|
    }

    /** Buffer pair i is at least as large as shape i needs. */
    ghost predicate Fits(shapes: seq<Shape>)
      reads this`vertexBuffers, this`indexBuffers
    {
      BuffersFit(vertexBuffers, indexBuffers, shapes)
    }

    /** Appends, per shape, a vertex buffer with one element per distinct
        index tuple and an index buffer with one element per tuple, then
        resizes the texture list to the number of shapes. */
    method AllocateBuffers(shapes: seq<Shape>)
      requires Valid()
      modifies this`vertexBuffers, this`indexBuffers, this`textures
      ensures Valid()
      ensures |vertexBuffers| == |old(vertexBuffers)| + |shapes| && vertexBuffers[..|old(vertexBuffers)|] == old(vertexBuffers)
      ensures |indexBuffers| == |old(indexBuffers)| + |shapes| && indexBuffers[..|old(indexBuffers)|] == old(indexBuffers)
      ensures Sized(shapes, |old(vertexBuffers)|)
      ensures forall i :: |old(vertexBuffers)| <= i < |vertexBuffers| ==> fresh(vertexBuffers[i].data)
      ensures forall i :: |old(indexBuffers)| <= i < |indexBuffers| ==> fresh(indexBuffers[i].data)
      ensures textures == Resize(old(textures), |shapes|)
    {
      ghost var vertexStart, indexStart := |vertexBuffers|, |indexBuffers|;
      var i := 0;
      while i < |shapes|
        invariant i <= |shapes| && Valid()
        invariant |vertexBuffers| == vertexStart + i && vertexBuffers[..vertexStart] == old(vertexBuffers)
        invariant |indexBuffers| == indexStart + i && indexBuffers[..indexStart] == old(indexBuffers)
        invariant forall k :: 0 <= k < i ==>
                    && vertexBuffers[vertexStart + k].NumberOfElements() == |Order(shapes[k].mesh.indices)|
                    && indexBuffers[indexStart + k].NumberOfElements() == |shapes[k].mesh.indices|
        invariant forall k :: vertexStart <= k < |vertexBuffers| ==> fresh(vertexBuffers[k].data)
        invariant forall k :: indexStart <= k < |indexBuffers| ==> fresh(indexBuffers[k].data)
        invariant textures == old(textures)
      {
        var vertexBuffer, indexBuffer := AppendBuffers(shapes[i].mesh);
        i := i + 1;
      }
      textures := Resize(textures, |shapes|);
    }

    /** One round of the shape loop of allocation: appends a vertex buffer
        with one element per distinct index tuple of the mesh and an index
        buffer with one element per tuple. */
    method AppendBuffers(mesh: Mesh) returns (vertexBuffer: Resource<Vertex>, indexBuffer: Resource<nat>)
      requires Valid()
      modifies this`vertexBuffers, this`indexBuffers
      ensures Valid()
      ensures vertexBuffers == old(vertexBuffers) + [vertexBuffer] && indexBuffers == old(indexBuffers) + [indexBuffer]
      ensures fresh(vertexBuffer.data) && fresh(indexBuffer.data)
      ensures vertexBuffer.NumberOfElements() == |Order(mesh.indices)|
      ensures indexBuffer.NumberOfElements() == |mesh.indices|
    {
      var vertexBufferSize := CountVertices(mesh.indices);
      vertexBuffer := new Resource<Vertex>.Linear(vertexBufferSize, VertexSize);
      indexBuffer := new Resource<nat>.Linear(|mesh.indices|, IndexSize);
      vertexBuffers := vertexBuffers + [vertexBuffer];
      indexBuffers := indexBuffers + [indexBuffer];
    }

    /** Fills buffer pair i from shape i and, when the material of the shape's
        first face has a diffuse texture, sets texture path i. */
    method FillBuffers(shapes: seq<Shape>, attrib: Attrib, materials: seq<Material>, baseFolder: string,
                       computeNormal: (Attrib, Mesh, nat) -> Float3, join: (string, string) -> string)
      requires Valid() && Fits(shapes) && |shapes| <= |textures|
      requires WellFormedShapes(shapes, attrib, |materials|)
      modifies this`textures, Storage()
      ensures forall i :: 0 <= i < |shapes| ==>
                Filled(vertexBuffers[i].Elements(), indexBuffers[i].Elements(), shapes[i].mesh, attrib,
                       materials, computeNormal)
      ensures forall i :: 0 <= i < |shapes| ==>
                && (forall k :: |Order(shapes[i].mesh.indices)| <= k < vertexBuffers[i].NumberOfElements() ==>
                      vertexBuffers[i].Elements()[k] == old(vertexBuffers[i].Elements())[k])
                && (forall q :: |shapes[i].mesh.indices| <= q < indexBuffers[i].NumberOfElements() ==>
                      indexBuffers[i].Elements()[q] == old(indexBuffers[i].Elements())[q])
      ensures forall i :: |shapes| <= i < |vertexBuffers| ==>
                vertexBuffers[i].Elements() == old(vertexBuffers[i].Elements())
                && indexBuffers[i].Elements() == old(indexBuffers[i].Elements())
      ensures |textures| == |old(textures)|
      ensures forall i :: 0 <= i < |textures| ==>
                textures[i] == if i < |shapes| then ShapeTexture(old(textures)[i], shapes[i].mesh, materials, baseFolder, join)
                               else old(textures)[i]
    {
      var vertexBuffers, indexBuffers := this.vertexBuffers, this.indexBuffers;
      // The contents of every buffer, as values: the loop state is described
      // on these, and Holds ties them to the buffers.
      ghost var vertexContents := seq(|vertexBuffers|, k requires 0 <= k < |vertexBuffers|
                                        reads StorageOf(vertexBuffers, indexBuffers) => vertexBuffers[k].Elements());
      ghost var indexContents := seq(|indexBuffers|, k requires 0 <= k < |indexBuffers|
                                       reads StorageOf(vertexBuffers, indexBuffers) => indexBuffers[k].Elements());
      ghost var initialVertices, initialIndices := vertexContents, indexContents;
      var i := 0;
      while i < |shapes|
        invariant i <= |shapes| && this.vertexBuffers == vertexBuffers && this.indexBuffers == indexBuffers
        invariant BuffersFilledUpTo(vertexBuffers, indexBuffers, vertexContents, indexContents, initialVertices,
                                    initialIndices, shapes, attrib, materials, computeNormal, i)
        invariant textures == Textures(old(textures), shapes[..i], materials, baseFolder, join)
      {
        vertexContents, indexContents := FillRound(shapes, attrib, materials, baseFolder, computeNormal, join, i,
                                                   vertexContents, indexContents, initialVertices, initialIndices,
                                                   old(textures));
        i := i + 1;
      }
      assert shapes[..i] == shapes;
    }

    /** One round of the shape loop of FillBuffers: fills buffer pair i and
        sets texture path i. */
    method FillRound(shapes: seq<Shape>, attrib: Attrib, materials: seq<Material>, baseFolder: string,
                     computeNormal: (Attrib, Mesh, nat) -> Float3, join: (string, string) -> string, i: nat,
                     ghost vertexContents: seq<seq<Vertex>>, ghost indexContents: seq<seq<nat>>,
                     ghost initialVertices: seq<seq<Vertex>>, ghost initialIndices: seq<seq<nat>>,
                     ghost initialTextures: seq<string>)
      returns (ghost vertexContents': seq<seq<Vertex>>, ghost indexContents': seq<seq<nat>>)
      requires i < |shapes| <= |initialTextures|
      requires BuffersFilledUpTo(vertexBuffers, indexBuffers, vertexContents, indexContents, initialVertices,
                                 initialIndices, shapes, attrib, materials, computeNormal, i)
      requires textures == Textures(initialTextures, shapes[..i], materials, baseFolder, join)
      modifies this`textures, vertexBuffers[i].data, indexBuffers[i].data
      ensures BuffersFilledUpTo(vertexBuffers, indexBuffers, vertexContents', indexContents', initialVertices,
                                initialIndices, shapes, attrib, materials, computeNormal, i + 1)
      ensures textures == Textures(initialTextures, shapes[..i + 1], materials, baseFolder, join)
    {
      vertexContents', indexContents' := FillShapeStep(vertexBuffers, indexBuffers, shapes, attrib, materials,
                                                       computeNormal, i, vertexContents, indexContents,
                                                       initialVertices, initialIndices);
      assert textures[i] == initialTextures[i];
      SetTexture(i, shapes[i].mesh, materials, baseFolder, join);
      TexturesStep(initialTextures, shapes, materials, baseFolder, join, i);
    }

    /** Sets texture path i to the diffuse texture of the mesh's first
        material, joined to the base folder, when that material has one. */
    method SetTexture(i: nat, mesh: Mesh, materials: seq<Material>, baseFolder: string,
                      join: (string, string) -> string)
      requires i < |textures| && HasFirstMaterial(mesh, |materials|)
      modifies this`textures
      ensures textures == old(textures)[i := ShapeTexture(old(textures)[i], mesh, materials, baseFolder, join)]
    {
      var name := materials[mesh.materialIds[0]].diffuseTexname;
      if name != "" {
        textures := textures[i := join(baseFolder, name)];
      }
    }

    /** Loading an already-parsed mesh into an empty model: allocation followed
        by filling yields, per shape, completely filled buffers of exactly the
        sizes the shape needs, and its texture path. */
    method LoadBuffers(shapes: seq<Shape>, attrib: Attrib, materials: seq<Material>, baseFolder: string,
                       computeNormal: (Attrib, Mesh, nat) -> Float3, join: (string, string) -> string)
      requires vertexBuffers == [] && indexBuffers == [] && textures == []
      requires WellFormedShapes(shapes, attrib, |materials|)
      modifies this
      ensures Valid() && Sized(shapes, 0)
      ensures |vertexBuffers| == |indexBuffers| == |textures| == |shapes|
      ensures forall i :: 0 <= i < |shapes| ==>
                && Filled(vertexBuffers[i].Elements(), indexBuffers[i].Elements(), shapes[i].mesh, attrib,
                          materials, computeNormal)
                && textures[i] == ShapeTexture("", shapes[i].mesh, materials, baseFolder, join)
    {
      AllocateBuffers(shapes);
      FillBuffers(shapes, attrib, materials, baseFolder, computeNormal, join);
    }
  }
}
