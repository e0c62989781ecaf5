/** Meshes and models (src/model.rs): `Model::draw`, which cuts each mesh's index list into
    triangles and draws them with the mesh's material, and `Model::load` / `process_node`,
    which build the material list and the meshes from an imported scene. */
module Scene {
  import opened Numeric
  import opened Linear
  import opened Textures
  import opened Geometry
  import opened Raster
  import opened Window
  import opened SeqFacts

  /** A mesh: its vertices, an index list read three at a time, and the index of its material
      in the model's material list. */
  datatype Mesh = Mesh(vertices: seq<Vertex>, indices: seq<U32>, materialIdx: nat)

  datatype Model = Model(meshes: seq<Mesh>, materials: seq<Material>)

  /** The number of triangles `Model::draw` takes from a mesh: `indices.len() / 3`; indices past
      the last full triple are never read. */
  function TriangleCount(m: Mesh): nat
  {
    |m.indices| / 3
  }

  /** `Model::draw` does not panic on this mesh: every index it reads names a vertex, and the
      material exists if at least one triangle reads it. */
  predicate MeshDrawable(m: Mesh, materials: seq<Material>)
  {
    (forall j :: 0 <= j < 3 * TriangleCount(m) ==> m.indices[j] < |m.vertices|) &&
    (0 < TriangleCount(m) ==> m.materialIdx < |materials|)
  }

  predicate ModelDrawable(model: Model)
  {
    forall i :: 0 <= i < |model.meshes| ==> MeshDrawable(model.meshes[i], model.materials)
  }

  /** Triangle `i` of a mesh: the vertices named by indices `3i`, `3i + 1` and `3i + 2`. */
  function TriangleAt(m: Mesh, i: nat): Triangle
    requires i < TriangleCount(m)
    requires forall j :: 0 <= j < 3 * TriangleCount(m) ==> m.indices[j] < |m.vertices|
  {
    Triangle(m.vertices[m.indices[3 * i]], m.vertices[m.indices[3 * i + 1]], m.vertices[m.indices[3 * i + 2]])
  }

  /** The calls of `Triangle::draw` one mesh makes, in order: one per triangle, each with the
      mesh's material and the frame's matrices. */
  function MeshPasses(m: Mesh, materials: seq<Material>, mvp: Mat4, invTrans: Mat4, normalize: Vec3 -> Vec3): seq<Pass>
    requires MeshDrawable(m, materials)
  {
    seq(TriangleCount(m), i requires 0 <= i < TriangleCount(m) =>
      Pass(TriangleAt(m, i), mvp, invTrans, materials[m.materialIdx], normalize))
  }

  /** The calls of `Triangle::draw` a whole model makes: the meshes' passes one mesh after another. */
  function ModelPasses(meshes: seq<Mesh>, materials: seq<Material>, mvp: Mat4, invTrans: Mat4, normalize: Vec3 -> Vec3): seq<Pass>
    requires forall i :: 0 <= i < |meshes| ==> MeshDrawable(meshes[i], materials)
  {
    if meshes == [] then []
    else
      ModelPasses(meshes[..|meshes| - 1], materials, mvp, invTrans, normalize)
        + MeshPasses(meshes[|meshes| - 1], materials, mvp, invTrans, normalize)
  }

  /** The number of triangles of all the meshes together. */
  function TotalTriangles(meshes: seq<Mesh>): nat
  {
    if meshes == [] then 0 else TotalTriangles(meshes[..|meshes| - 1]) + TriangleCount(meshes[|meshes| - 1])
  }

  predicate AllDrawable(passes: seq<Pass>)
  {
    forall i :: 0 <= i < |passes| ==> Drawable(passes[i])
  }

  /** The buffers after drawing `passes` in order: every cell's depth only goes down, and a
      cell whose depth ends where it started keeps its colour too. */
  function DrawnAll(passes: seq<Pass>, w: nat, h: nat, b: Buffers): (r: Buffers)
    requires AllDrawable(passes) && Sized(b, w, h)
    ensures Sized(r, w, h)
    ensures forall k :: 0 <= k < w * h ==> r.depth[k] <= b.depth[k]
    ensures forall k :: 0 <= k < w * h && r.depth[k] == b.depth[k] ==> r.color[k] == b.color[k]
  {
    if passes == [] then b
    else
      var before := DrawnAll(passes[..|passes| - 1], w, h, b);
      Drawn(passes[|passes| - 1], w, h, before)
  }

  /** The position of mesh `m`'s first triangle among all the model's draws. */
  lemma {:induction false} ModelPassesAt(meshes: seq<Mesh>, materials: seq<Material>, mvp: Mat4, invTrans: Mat4,
                                         normalize: Vec3 -> Vec3, m: nat, i: nat)
    requires forall j :: 0 <= j < |meshes| ==> MeshDrawable(meshes[j], materials)
    requires m < |meshes| && i < TriangleCount(meshes[m])
    ensures |ModelPasses(meshes, materials, mvp, invTrans, normalize)| == TotalTriangles(meshes)
    ensures TotalTriangles(meshes[..m]) + i < TotalTriangles(meshes)
    ensures ModelPasses(meshes, materials, mvp, invTrans, normalize)[TotalTriangles(meshes[..m]) + i]
         == Pass(TriangleAt(meshes[m], i), mvp, invTrans, materials[meshes[m].materialIdx], normalize)
  {
    var n := |meshes|;
    var init := meshes[..n - 1];
    PassesLength(init, materials, mvp, invTrans, normalize);
    if m < n - 1 {
      assert init[m] == meshes[m];
      assert init[..m] == meshes[..m];
      ModelPassesAt(init, materials, mvp, invTrans, normalize, m, i);
    } else {
      assert meshes[..m] == init;
    }
  }

  /** A model makes exactly as many draws as it has triangles. */
  lemma {:induction false} PassesLength(meshes: seq<Mesh>, materials: seq<Material>, mvp: Mat4, invTrans: Mat4,
                                        normalize: Vec3 -> Vec3)
    requires forall j :: 0 <= j < |meshes| ==> MeshDrawable(meshes[j], materials)
    ensures |ModelPasses(meshes, materials, mvp, invTrans, normalize)| == TotalTriangles(meshes)
  {
    if meshes != [] {
      PassesLength(meshes[..|meshes| - 1], materials, mvp, invTrans, normalize);
    }
  }

  /** Up to two indices past the last full triple change nothing: they are never read. */
  lemma LeftoverIndicesIgnored(m: Mesh, extra: seq<U32>, materials: seq<Material>, mvp: Mat4, invTrans: Mat4,
                               normalize: Vec3 -> Vec3)
    requires |m.indices| % 3 == 0 && |extra| < 3 && MeshDrawable(m, materials)
    ensures MeshDrawable(m.(indices := m.indices + extra), materials)
    ensures MeshPasses(m.(indices := m.indices + extra), materials, mvp, invTrans, normalize)
         == MeshPasses(m, materials, mvp, invTrans, normalize)
  {
    var m' := m.(indices := m.indices + extra);
    assert TriangleCount(m') == TriangleCount(m);
    forall j | 0 <= j < 3 * TriangleCount(m)
      ensures m'.indices[j] == m.indices[j]
    {
    }
  }

  /** Drawing a list of passes followed by one more is drawing that one on the result. */
  lemma DrawnAllSnoc(passes: seq<Pass>, p: Pass, w: nat, h: nat, b: Buffers)
    requires AllDrawable(passes) && Drawable(p) && Sized(b, w, h)
    ensures AllDrawable(passes + [p])
    ensures DrawnAll(passes + [p], w, h, b) == Drawn(p, w, h, DrawnAll(passes, w, h, b))
  {
    assert (passes + [p])[..|passes|] == passes;
  }

  /** Drawing two lists of passes one after the other is drawing their concatenation. */
  lemma {:induction false} DrawnAllAppend(first: seq<Pass>, second: seq<Pass>, w: nat, h: nat, b: Buffers)
    requires AllDrawable(first) && AllDrawable(second) && Sized(b, w, h)
    ensures AllDrawable(first + second)
    ensures DrawnAll(first + second, w, h, b) == DrawnAll(second, w, h, DrawnAll(first, w, h, b))
  {
    if second == [] {
      assert first + second == first;
    } else {
      var init, last := second[..|second| - 1], second[|second| - 1];
      DrawnAllAppend(first, init, w, h, b);
      AppendSnoc(first, second);
      DrawnAllSnoc(first + init, last, w, h, b);
    }
  }

  /** Pass `i` of a mesh draws its triangle `i` with the mesh's material. */
  lemma MeshPassAt(m: Mesh, materials: seq<Material>, mvp: Mat4, invTrans: Mat4, normalize: Vec3 -> Vec3, i: nat)
    requires MeshDrawable(m, materials) && i < TriangleCount(m)
    ensures |MeshPasses(m, materials, mvp, invTrans, normalize)| == TriangleCount(m)
    ensures MeshPasses(m, materials, mvp, invTrans, normalize)[i]
         == Pass(Triangle(m.vertices[m.indices[i * 3]], m.vertices[m.indices[i * 3 + 1]], m.vertices[m.indices[i * 3 + 2]]),
                 mvp, invTrans, materials[m.materialIdx], normalize)
  {
  }

  /** The triangle loop of `Model::draw` for one mesh: each full index triple drawn in turn. */
  method DrawMesh(mesh: Mesh, materials: seq<Material>, framebuffer: Framebuffer<Vec3>, depthBuffer: Framebuffer<real>,
                  mvp: Mat4, invTrans: Mat4, normalize: Vec3 -> Vec3)
    requires MeshDrawable(mesh, materials) && AllDrawable(MeshPasses(mesh, materials, mvp, invTrans, normalize))
    requires framebuffer.Valid() && depthBuffer.Valid()
    requires depthBuffer.width == framebuffer.width && depthBuffer.height == framebuffer.height
    modifies framebuffer.data, depthBuffer.data
    ensures Buffers(depthBuffer.data[..], framebuffer.data[..])
         == DrawnAll(MeshPasses(mesh, materials, mvp, invTrans, normalize),
                     framebuffer.width, framebuffer.height, old(Buffers(depthBuffer.data[..], framebuffer.data[..])))
  {
    var w, h := framebuffer.width, framebuffer.height;
    ghost var b0 := Buffers(depthBuffer.data[..], framebuffer.data[..]);
    ghost var mine := MeshPasses(mesh, materials, mvp, invTrans, normalize);
    for i := 0 to |mesh.indices| / 3
      invariant AllDrawable(mine[..i])
      invariant Buffers(depthBuffer.data[..], framebuffer.data[..]) == DrawnAll(mine[..i], w, h, b0)
    {
      var triangle := Triangle(mesh.vertices[mesh.indices[i * 3]], mesh.vertices[mesh.indices[i * 3 + 1]],
                               mesh.vertices[mesh.indices[i * 3 + 2]]);
      var material := materials[mesh.materialIdx];
      var pass := Pass(triangle, mvp, invTrans, material, normalize);
      MeshPassAt(mesh, materials, mvp, invTrans, normalize, i);
      TakeSnoc(mine, i);
      DrawnAllSnoc(mine[..i], pass, w, h, b0);
      DrawTriangle(pass, framebuffer, depthBuffer);
    }
    TakeAll(mine);
  }

  /** `Model::draw`: every mesh in order, and in it every full index triple, drawn with the
      mesh's material. The buffers afterwards are the model's passes drawn in order. */
  method DrawModel(model: Model, framebuffer: Framebuffer<Vec3>, depthBuffer: Framebuffer<real>,
                   mvp: Mat4, invTrans: Mat4, normalize: Vec3 -> Vec3)
    requires ModelDrawable(model) && AllDrawable(ModelPasses(model.meshes, model.materials, mvp, invTrans, normalize))
    requires framebuffer.Valid() && depthBuffer.Valid()
    requires depthBuffer.width == framebuffer.width && depthBuffer.height == framebuffer.height
    modifies framebuffer.data, depthBuffer.data
    ensures Buffers(depthBuffer.data[..], framebuffer.data[..])
         == DrawnAll(ModelPasses(model.meshes, model.materials, mvp, invTrans, normalize),
                     framebuffer.width, framebuffer.height, old(Buffers(depthBuffer.data[..], framebuffer.data[..])))
  {
    var w, h := framebuffer.width, framebuffer.height;
    ghost var b0 := Buffers(depthBuffer.data[..], framebuffer.data[..]);
    for mi := 0 to |model.meshes|
      invariant AllDrawable(ModelPasses(model.meshes[..mi], model.materials, mvp, invTrans, normalize))
      invariant Buffers(depthBuffer.data[..], framebuffer.data[..])
             == DrawnAll(ModelPasses(model.meshes[..mi], model.materials, mvp, invTrans, normalize), w, h, b0)
    {
      MeshStep(model.meshes, model.materials, mvp, invTrans, normalize, mi, w, h, b0);
      DrawMesh(model.meshes[mi], model.materials, framebuffer, depthBuffer, mvp, invTrans, normalize);
    }
    TakeAll(model.meshes);
  }

  /** Drawing the meshes before mesh `n` and then mesh `n` is drawing the meshes up to and
      including `n`. */
  lemma MeshStep(meshes: seq<Mesh>, materials: seq<Material>, mvp: Mat4, invTrans: Mat4,
                 normalize: Vec3 -> Vec3, n: nat, w: nat, h: nat, b0: Buffers)
    requires forall j :: 0 <= j < |meshes| ==> MeshDrawable(meshes[j], materials)
    requires n < |meshes| && AllDrawable(ModelPasses(meshes, materials, mvp, invTrans, normalize)) && Sized(b0, w, h)
    ensures MeshDrawable(meshes[n], materials)
    ensures AllDrawable(MeshPasses(meshes[n], materials, mvp, invTrans, normalize))
    ensures AllDrawable(ModelPasses(meshes[..n], materials, mvp, invTrans, normalize))
    ensures AllDrawable(ModelPasses(meshes[..n + 1], materials, mvp, invTrans, normalize))
    ensures DrawnAll(ModelPasses(meshes[..n + 1], materials, mvp, invTrans, normalize), w, h, b0)
         == DrawnAll(MeshPasses(meshes[n], materials, mvp, invTrans, normalize), w, h,
                     DrawnAll(ModelPasses(meshes[..n], materials, mvp, invTrans, normalize), w, h, b0))
  {
    PrefixDrawable(meshes, materials, mvp, invTrans, normalize, n);
    ModelPassesStep(meshes, materials, mvp, invTrans, normalize, n);
    DrawnAllAppend(ModelPasses(meshes[..n], materials, mvp, invTrans, normalize),
                   MeshPasses(meshes[n], materials, mvp, invTrans, normalize), w, h, b0);
  }

  /** One more mesh adds its own passes after those of the meshes before it. */
  lemma ModelPassesStep(meshes: seq<Mesh>, materials: seq<Material>, mvp: Mat4, invTrans: Mat4,
                        normalize: Vec3 -> Vec3, n: nat)
    requires forall j :: 0 <= j < |meshes| ==> MeshDrawable(meshes[j], materials)
    requires n < |meshes| && AllDrawable(ModelPasses(meshes, materials, mvp, invTrans, normalize))
    ensures MeshDrawable(meshes[n], materials)
    ensures ModelPasses(meshes[..n + 1], materials, mvp, invTrans, normalize)
         == ModelPasses(meshes[..n], materials, mvp, invTrans, normalize) + MeshPasses(meshes[n], materials, mvp, invTrans, normalize)
    ensures AllDrawable(ModelPasses(meshes[..n + 1], materials, mvp, invTrans, normalize))
    ensures AllDrawable(MeshPasses(meshes[n], materials, mvp, invTrans, normalize))
  {
    assert meshes[..n + 1][..n] == meshes[..n];
    PrefixDrawable(meshes, materials, mvp, invTrans, normalize, n + 1);
    var all := ModelPasses(meshes[..n + 1], materials, mvp, invTrans, normalize);
    var pre := ModelPasses(meshes[..n], materials, mvp, invTrans, normalize);
    forall j | 0 <= j < |all| - |pre|
      ensures Drawable(MeshPasses(meshes[n], materials, mvp, invTrans, normalize)[j])
    {
      assert all[|pre| + j] == MeshPasses(meshes[n], materials, mvp, invTrans, normalize)[j];
    }
  }

  /** The passes of a prefix of the meshes are a prefix of all the passes. */
  lemma {:induction false} PrefixDrawable(meshes: seq<Mesh>, materials: seq<Material>, mvp: Mat4, invTrans: Mat4,
                                          normalize: Vec3 -> Vec3, n: nat)
    requires forall j :: 0 <= j < |meshes| ==> MeshDrawable(meshes[j], materials)
    requires n <= |meshes| && AllDrawable(ModelPasses(meshes, materials, mvp, invTrans, normalize))
    ensures AllDrawable(ModelPasses(meshes[..n], materials, mvp, invTrans, normalize))
  {
    if n < |meshes| {
      var init := meshes[..|meshes| - 1];
      var all, pre := ModelPasses(meshes, materials, mvp, invTrans, normalize), ModelPasses(init, materials, mvp, invTrans, normalize);
      assert all == pre + MeshPasses(meshes[|meshes| - 1], materials, mvp, invTrans, normalize);
      forall j | 0 <= j < |pre|
        ensures Drawable(pre[j])
      {
        assert all[j] == pre[j];
      }
      assert init[..n] == meshes[..n];
      PrefixDrawable(init, materials, mvp, invTrans, normalize, n);
    } else {
      assert meshes[..n] == meshes;
    }
  }

  // --- Loading

  /** Where a material's base-colour texture comes from: an image file named by URI (decoded
      by the image library), or data embedded in a buffer, which the loader ignores. */
  datatype TextureSource = Uri(image: Texture) | BufferView

  /** A primitive of the imported mesh, as the asset reader yields it. */
  datatype Primitive = Primitive(
    triangles: bool,
    positions: Option<seq<Vec3>>,
    normals: Option<seq<Vec3>>,
    texCoords: Option<seq<Vec2>>,
    indices: Option<seq<U32>>,
    material: Option<nat>,
    baseColorFactor: Vec4,
    baseColorTexture: Option<TextureSource>)

  /** An imported scene: the number of materials it declares, and for each node the primitives
      of its mesh, if it has one. */
  datatype Document = Document(materialCount: nat, nodes: seq<Option<seq<Primitive>>>)

  /** The loader's fatal errors: a triangle primitive without positions or without indices. */
  datatype LoadError = MissingPositions | MissingIndices

  datatype Result<T> = Ok(value: T) | Err(error: LoadError)

  /** What the importer guarantees of a primitive: its material index names a declared material;
      without one it carries the format's default material (white, untextured); no attribute
      list is longer than the position list. */
  predicate PrimitiveWellFormed(p: Primitive, materialCount: nat)
  {
    (p.material.Some? ==> p.material.value < materialCount) &&
    (p.material.None? ==> p.baseColorFactor == OneVec4 && p.baseColorTexture.None?) &&
    (p.positions.Some? && p.normals.Some? ==> |p.normals.value| <= |p.positions.value|) &&
    (p.positions.Some? && p.texCoords.Some? ==> |p.texCoords.value| <= |p.positions.value|)
  }

  predicate PrimitivesWellFormed(prims: seq<Primitive>, materialCount: nat)
  {
    forall i :: 0 <= i < |prims| ==> PrimitiveWellFormed(prims[i], materialCount)
  }

  predicate DocumentWellFormed(doc: Document)
  {
    forall i :: 0 <= i < |doc.nodes| && doc.nodes[i].Some? ==> PrimitivesWellFormed(doc.nodes[i].value, doc.materialCount)
  }

  /** Element `i` of an optional attribute list, or `default` where there is none. */
  function AttributeOr<T>(a: Option<seq<T>>, i: nat, default: T): T
  {
    if a.Some? && i < |a.value| then a.value[i] else default
  }

  /** The vertices of a primitive: one per position, with the normal and texture coordinate of
      the same index where those are given and zero otherwise. */
  function AssembledVertices(positions: seq<Vec3>, normals: Option<seq<Vec3>>, texCoords: Option<seq<Vec2>>): seq<Vertex>
  {
    seq(|positions|, i requires 0 <= i < |positions| =>
      Vertex(positions[i], AttributeOr(normals, i, ZeroVec3), AttributeOr(texCoords, i, ZeroVec2)))
  }

  /** The vertex assembly of `process_node`: default vertices at the positions, then the normals
      and the texture coordinates written in by index. */
  method AssembleVertices(positions: seq<Vec3>, normals: Option<seq<Vec3>>, texCoords: Option<seq<Vec2>>)
    returns (vertices: seq<Vertex>)
    requires normals.Some? ==> |normals.value| <= |positions|
    requires texCoords.Some? ==> |texCoords.value| <= |positions|
    ensures vertices == AssembledVertices(positions, normals, texCoords)
  {
    vertices := seq(|positions|, i requires 0 <= i < |positions| => DefaultVertex.(position := positions[i]));
    if normals.Some? {
      for i := 0 to |normals.value|
        invariant |vertices| == |positions|
        invariant forall j :: 0 <= j < |positions| ==>
                    vertices[j] == Vertex(positions[j], if j < i then normals.value[j] else ZeroVec3, ZeroVec2)
      {
        vertices := vertices[i := vertices[i].(normal := normals.value[i])];
      }
    }
    if texCoords.Some? {
      for i := 0 to |texCoords.value|
        invariant |vertices| == |positions|
        invariant forall j :: 0 <= j < |positions| ==>
                    vertices[j] == Vertex(positions[j], AttributeOr(normals, j, ZeroVec3),
                                          if j < i then texCoords.value[j] else ZeroVec2)
      {
        vertices := vertices[i := vertices[i].(texCoord := texCoords.value[i])];
      }
    }
  }

  /** Each vertex keeps `Vertex::default()`'s normal when the primitive has no normals, and its
      texture coordinate when it has no texture coordinates. */
  lemma MissingAttributesDefault(positions: seq<Vec3>, normals: Option<seq<Vec3>>, texCoords: Option<seq<Vec2>>)
    ensures |AssembledVertices(positions, normals, texCoords)| == |positions|
    ensures forall i :: 0 <= i < |positions| ==>
              var v := AssembledVertices(positions, normals, texCoords)[i];
              v.position == positions[i] &&
              (normals.None? ==> v.normal == DefaultVertex.normal) &&
              (texCoords.None? ==> v.texCoord == DefaultVertex.texCoord)
  {
  }

  /** `material.index().unwrap_or(0)`. */
  function MaterialIndex(p: Primitive): nat
  {
    if p.material.Some? then p.material.value else 0
  }

  /** A material after a primitive that uses it is read: the primitive's base colour factor,
      and its texture when that is given by URI (otherwise the texture already there stays). */
  function ApplyMaterial(m: Material, p: Primitive): Material
  {
    Material(p.baseColorFactor,
             if p.baseColorTexture.Some? && p.baseColorTexture.value.Uri? then Some(p.baseColorTexture.value.image)
             else m.texture)
  }

  /** `process_node` from the remaining primitives on, given the meshes and materials built so
      far: primitives that are not triangle lists are skipped, the first triangle primitive
      without positions or indices is fatal. */
  function Processed(prims: seq<Primitive>, meshes: seq<Mesh>, materials: seq<Material>): Result<Model>
    requires 0 < |materials| && PrimitivesWellFormed(prims, |materials|)
    decreases |prims|
  {
    if prims == [] then Ok(Model(meshes, materials))
    else
      var p := prims[0];
      if !p.triangles then Processed(prims[1..], meshes, materials)
      else if p.positions.None? then Err(MissingPositions)
      else if p.indices.None? then Err(MissingIndices)
      else
        var idx := MaterialIndex(p);
        var mesh := Mesh(AssembledVertices(p.positions.value, p.normals, p.texCoords), p.indices.value, idx);
        Processed(prims[1..], meshes + [mesh], materials[idx := ApplyMaterial(materials[idx], p)])
  }

  /** `process_node`: one mesh per triangle primitive, pushed in order; the primitive's
      material entry is overwritten in place. */
  method ProcessNode(prims: seq<Primitive>, materials0: seq<Material>) returns (r: Result<Model>)
    requires 0 < |materials0| && PrimitivesWellFormed(prims, |materials0|)
    ensures r == Processed(prims, [], materials0)
  {
    var meshes: seq<Mesh> := [];
    var materials := materials0;
    for i := 0 to |prims|
      invariant |materials| == |materials0|
      invariant Processed(prims[i..], meshes, materials) == Processed(prims, [], materials0)
    {
      assert prims[i..][1..] == prims[i + 1..];
      var p := prims[i];
      if p.triangles {
        if p.positions.None? {
          return Err(MissingPositions);
        }
        var vertices := AssembleVertices(p.positions.value, p.normals, p.texCoords);
        if p.indices.None? {
          return Err(MissingIndices);
        }
        var idx := if p.material.Some? then p.material.value else 0;
        var material := materials[idx];
        material := material.(baseColor := p.baseColorFactor);
        if p.baseColorTexture.Some? && p.baseColorTexture.value.Uri? {
          material := material.(texture := Some(p.baseColorTexture.value.image));
        }
        materials := materials[idx := material];
        meshes := meshes + [Mesh(vertices, p.indices.value, idx)];
      }
    }
    assert prims[|prims|..] == [];
    return Ok(Model(meshes, materials));
  }

  /** The material list before any primitive is read: one default per declared material, or a
      single default when none is declared. */
  function InitialMaterials(materialCount: nat): seq<Material>
  {
    if materialCount == 0 then [DefaultMaterial] else seq(materialCount, _ => DefaultMaterial)
  }

  /** `Model::load` on an imported scene: the initial materials, then `process_node` on the
      first node, if there is one. */
  function Loaded(doc: Document): Result<Model>
    requires DocumentWellFormed(doc)
  {
    var materials := InitialMaterials(doc.materialCount);
    if 0 < |doc.nodes| && doc.nodes[0].Some? then Processed(doc.nodes[0].value, [], materials)
    else Ok(Model([], materials))
  }

  /** `Model::load`. */
  method Load(doc: Document) returns (r: Result<Model>)
    requires DocumentWellFormed(doc)
    ensures r == Loaded(doc)
  {
    var materials := seq(doc.materialCount, _ => DefaultMaterial);
    if |materials| == 0 {
      materials := materials + [DefaultMaterial];
    }
    assert materials == InitialMaterials(doc.materialCount);
    if 0 < |doc.nodes| && doc.nodes[0].Some? {
      r := ProcessNode(doc.nodes[0].value, materials);
    } else {
      r := Ok(Model([], materials));
    }
  }

  /** Every mesh's material index names a material. */
  predicate MaterialsResolve(model: Model)
  {
    forall i :: 0 <= i < |model.meshes| ==> model.meshes[i].materialIdx < |model.materials|
  }

  /** The number of triangle primitives. */
  function TriangleListCount(prims: seq<Primitive>): nat
  {
    if prims == [] then 0 else (if prims[0].triangles then 1 else 0) + TriangleListCount(prims[1..])
  }

  /** Reading primitives keeps the material list's length and adds, after the meshes already
      built, one mesh per triangle primitive whose material index resolves. */
  lemma {:induction false} ProcessedShape(prims: seq<Primitive>, meshes: seq<Mesh>, materials: seq<Material>)
    requires 0 < |materials| && PrimitivesWellFormed(prims, |materials|)
    requires Processed(prims, meshes, materials).Ok?
    ensures var m := Processed(prims, meshes, materials).value;
            |m.materials| == |materials| && |m.meshes| == |meshes| + TriangleListCount(prims) &&
            m.meshes[..|meshes|] == meshes &&
            forall i :: |meshes| <= i < |m.meshes| ==> m.meshes[i].materialIdx < |materials|
  {
    if prims != [] {
      var p := prims[0];
      if !p.triangles {
        ProcessedShape(prims[1..], meshes, materials);
      } else {
        var idx := MaterialIndex(p);
        var mesh := Mesh(AssembledVertices(p.positions.value, p.normals, p.texCoords), p.indices.value, idx);
        var mats := materials[idx := ApplyMaterial(materials[idx], p)];
        ProcessedShape(prims[1..], meshes + [mesh], mats);
        var m := Processed(prims, meshes, materials).value;
        assert m.meshes[..|meshes| + 1][..|meshes|] == m.meshes[..|meshes|];
      }
    }
  }

  /** Loading fails exactly when some triangle primitive lacks positions or indices. */
  lemma {:induction false} ProcessedFailsIff(prims: seq<Primitive>, meshes: seq<Mesh>, materials: seq<Material>)
    requires 0 < |materials| && PrimitivesWellFormed(prims, |materials|)
    ensures Processed(prims, meshes, materials).Err? <==>
            exists i :: 0 <= i < |prims| && prims[i].triangles && (prims[i].positions.None? || prims[i].indices.None?)
  {
    if prims != [] {
      var p := prims[0];
      if !p.triangles || (p.positions.Some? && p.indices.Some?) {
        var idx := MaterialIndex(p);
        var mats := if p.triangles then materials[idx := ApplyMaterial(materials[idx], p)] else materials;
        var ms := if p.triangles then meshes + [Mesh(AssembledVertices(p.positions.value, p.normals, p.texCoords), p.indices.value, idx)] else meshes;
        ProcessedFailsIff(prims[1..], ms, mats);
        if exists i :: 0 <= i < |prims| && prims[i].triangles && (prims[i].positions.None? || prims[i].indices.None?) {
          var i :| 0 <= i < |prims| && prims[i].triangles && (prims[i].positions.None? || prims[i].indices.None?);
          assert prims[1..][i - 1] == prims[i];
        }
      } else {
        assert prims[0].triangles && (prims[0].positions.None? || prims[0].indices.None?);
      }
    }
  }

  /** After loading, the material list is never empty: one entry per declared material, or a
      single synthesized default; every mesh's material index resolves. */
  lemma LoadedMaterials(doc: Document)
    requires DocumentWellFormed(doc) && Loaded(doc).Ok?
    ensures var m := Loaded(doc).value;
            |m.materials| == (if doc.materialCount == 0 then 1 else doc.materialCount) && MaterialsResolve(m)
  {
    var materials := InitialMaterials(doc.materialCount);
    if 0 < |doc.nodes| && doc.nodes[0].Some? {
      ProcessedShape(doc.nodes[0].value, [], materials);
    }
  }

  /** With no declared materials every primitive carries the default material, so the one
      synthesized material stays the default and every mesh uses it. */
  lemma {:induction false} ProcessedKeepsDefault(prims: seq<Primitive>, meshes: seq<Mesh>)
    requires PrimitivesWellFormed(prims, 0)
    requires forall i :: 0 <= i < |meshes| ==> meshes[i].materialIdx == 0
    requires Processed(prims, meshes, [DefaultMaterial]).Ok?
    ensures var m := Processed(prims, meshes, [DefaultMaterial]).value;
            m.materials == [DefaultMaterial] && forall i :: 0 <= i < |m.meshes| ==> m.meshes[i].materialIdx == 0
  {
    if prims != [] {
      var p := prims[0];
      assert PrimitiveWellFormed(p, 0);
      if !p.triangles {
        ProcessedKeepsDefault(prims[1..], meshes);
      } else {
        assert p.material.None? && MaterialIndex(p) == 0;
        assert ApplyMaterial(DefaultMaterial, p) == DefaultMaterial;
        assert [DefaultMaterial][0 := DefaultMaterial] == [DefaultMaterial];
        var mesh := Mesh(AssembledVertices(p.positions.value, p.normals, p.texCoords), p.indices.value, 0);
        assert Processed(prims, meshes, [DefaultMaterial]) == Processed(prims[1..], meshes + [mesh], [DefaultMaterial]);
        ProcessedKeepsDefault(prims[1..], meshes + [mesh]);
      }
    }
  }

  /** A scene that declares no material loads with exactly one material, opaque white and
      untextured, and every mesh references it. */
  lemma LoadedWithoutMaterials(doc: Document)
    requires DocumentWellFormed(doc) && doc.materialCount == 0 && Loaded(doc).Ok?
    ensures Loaded(doc).value.materials == [Material(OneVec4, None)]
    ensures forall i :: 0 <= i < |Loaded(doc).value.meshes| ==> Loaded(doc).value.meshes[i].materialIdx == 0
  {
    if 0 < |doc.nodes| && doc.nodes[0].Some? {
      ProcessedKeepsDefault(doc.nodes[0].value, []);
    }
  }
}
