/** The records the rasterizer draws (src/model.rs): vertices, triangles and materials,
    with their `Default` values. */
module Geometry {
  import opened Linear
  import opened Textures

  datatype Option<T> = None | Some(value: T)

  /** A mesh vertex: model-space position, normal and texture coordinate. */
  datatype Vertex = Vertex(position: Vec3, normal: Vec3, texCoord: Vec2)

  /** `Vertex::default()`: every component zero. */
  const DefaultVertex: Vertex := Vertex(ZeroVec3, ZeroVec3, ZeroVec2)

  /** Three vertices, in the order the index buffer gives them. */
  datatype Triangle = Triangle(v0: Vertex, v1: Vertex, v2: Vertex)

  /** A material: a base colour factor, optionally multiplied by a texture. */
  datatype Material = Material(baseColor: Vec4, texture: Option<Texture>)

  /** `Material::default()`: opaque white and no texture. */
  const DefaultMaterial: Material := Material(OneVec4, None)
}
