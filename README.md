# software-graphics rasterizer, modelled in Dafny

This project models the core of a small CPU triangle rasterizer written in Rust. The core has five parts:

- **`Framebuffer<T>`**: a row-major grid of `width * height` cells, written in place.
- **`Triangle::draw`**: projects the three vertices and maps them to the screen. It then visits every pixel centre of a clamped bounding box. A centre strictly inside all three edges, with an interpolated depth below the stored one, gets a new depth and then a shaded colour.
- **`Model::draw`**: cuts each mesh's index list into triangles and draws them with the mesh's material. **`Model::load` / `process_node`** build the meshes and the material list from an imported scene.
- **`Texture`**: wrapped integer texel addressing (`get_pixel`) and a four-tap bilinear blend (`sample_pixel`).
- **The body of `main`'s render loop**: re-creates the depth buffer at the colour buffer's size, clears both buffers and draws the model.

How the Rust types are represented:

- `f32` values are Dafny `real`s.
- Rust's float-to-integer casts are written out in module `Numeric`. They truncate toward zero and saturate.
- `glam`'s vectors and the column-major `Mat4` are small datatypes in module `Linear`.

What the model proves:

- **The framebuffer** is a class over an array. `set_pixel` and `clear` are methods proved against their whole new state. `set_pixel` and `get_pixel` name the same cell, and a column past the row's end aliases into the next row.
- **`Triangle::draw`** is a method with the source's two nested loops. It is proved equal to a specification function `Drawn` of the buffers before the draw, and the properties of the draw are proved about `Drawn`:
  - depth never increases;
  - colour changes only where depth changes;
  - a changed cell is covered and holds the fragment's depth and colour;
  - uncovered cells are untouched;
  - drawing the same triangle twice is idempotent;
  - the depth result does not depend on draw order;
  - the nearer fragment wins.
- **`Model::draw`** is proved to draw exactly the model's triangles in order. These are all full index triples of every mesh, each with its mesh's material and the frame's matrices.
- **Loading** is modelled on an already-imported scene description. It is proved to:
  - keep the material list non-empty;
  - resolve every mesh's material index;
  - fail exactly on a triangle primitive without positions or indices.
- **Texture sampling** is proved to be the bilinear combination of its four taps. For non-negative coordinates the weights are convex. For negative ones the fractional offset is negative, but both taps it weighs read texel 0, so the blend is flat on that axis. Every sample of a unit-range texture is therefore in the unit range, for all coordinates below the `i32` cast limit. Sampling never reads the texture's last column or row.

Modules and files:

| file | module(s) | source |
|---|---|---|
| numeric.dfy | `Numeric`, `RealArith`, `IntArith`, `SeqFacts` | Rust scalar casts; arithmetic and sequence facts used by the proofs |
| linear.dfy | `Linear` | the `glam` vector and matrix operations the renderer calls |
| geometry.dfy | `Geometry` | `Vertex`, `Triangle`, `Material` and their `Default`s (src/model.rs) |
| projection.dfy | `Projection` | `project`, `clip_to_screen_space`, `edge_function` (src/main.rs; identical copies in src/triangle.rs) |
| window.dfy | `Window` | `Framebuffer<T>` and `as_buffer` (src/window.rs) |
| texture.dfy | `Textures` | `Texture::get_pixel`, `Texture::sample_pixel` (src/texture.rs) |
| raster.dfy | `Raster` | `Triangle::draw` (src/model.rs; the uncompiled copy in src/triangle.rs is the same code) |
| scene.dfy | `Scene` | `Mesh`, `Model`, `Model::draw`, `Model::load`, `process_node` (src/model.rs) |
| frame.dfy | `Frame` | the render loop body of `main` (src/main.rs) |

## Model

| member | source | states |
|---|---|---|
| Numeric.Min | src/model.rs:48-50 | `f32::min`: the result is one of the operands and at most both |
| Numeric.Max | src/model.rs:51-52 | `f32::max`: the result is one of the operands and at least both |
| Numeric.ToUsize | src/texture.rs:41 | `as usize`: 0 for non-positive values, otherwise the integer part (the floor) |
| Numeric.ToI32 | src/texture.rs:32-33 | `as i32`: truncation toward zero within the `i32` range (the floor for non-negative values, the ceiling for non-positive ones), saturating outside it (`I32Max` at or above `2^31 - 1`, `I32Min` at or below `-2^31`) |
| Numeric.ToU8 | src/window.rs:97 | `as u8`: saturates to 0 and 255; truncates in between |
| Window.Framebuffer.constructor | src/window.rs:57-63 | `new(w, h)` records `w` and `h` and holds exactly `w * h` cells, all the default value |
| Window.Framebuffer.GetPixel | src/window.rs:79-81 | `get_pixel(x, y)` reads index `y * width + x`, which is the cell `x + y * width` that `set_pixel` writes; defined exactly when that flat index is in range |
| Window.Framebuffer.SetPixel | src/window.rs:75-77 | `set_pixel` replaces flat cell `x + y * width` and no other cell; `get_pixel` at the same `(x, y)` then returns the value written; the size is unchanged |
| Window.Framebuffer.Clear | src/window.rs:83-87 | after `clear(v)` every cell holds `v` and the length is unchanged, so a second `clear(v)` changes nothing; the loop keeps cells `[0, i)` equal to `v` |
| Window.RowAliasing | src/window.rs:75-81 | the bound is on the flat index only: a column `x >= width` is accepted exactly when `(x - width, y + 1)` is, and names the same cell |
| Window.CellOfIndex | src/window.rs:76 | for `x < width`, flat index `x + y * width` decodes back to column `x` and row `y` |
| Window.BeBytesRoundTrip | src/window.rs:98 | `u32::from_be_bytes` loses nothing: splitting the word gives back its four bytes |
| Window.PackColor | src/window.rs:94-98 | one cell's word is below `2^24`; its big-endian bytes are `[0, r, g, b]`, each channel `(c * 255) as u8` |
| Window.AsBuffer | src/window.rs:91-101 | `as_buffer` yields one word per cell, in cell order, each with leading byte 0 and the cell's three channel bytes |
| Projection.PerspectiveDivide | src/main.rs:20-22 | the divide by `w` gives `rec` with `rec * w == 1`; scaling `(ndc, 1)` back by `w` recovers the clip-space point |
| Projection.ClipToScreenSpace | src/main.rs:25-27 | definition: `(ndc * -0.5 + 0.5) * screen_size` on each axis; its meaning is stated by the corner, flip and inverse lemmas below |
| Projection.EdgeFunction | src/main.rs:14-16 | definition: `(c.x - a.x) * (b.y - a.y) - (c.y - a.y) * (b.x - a.x)`, with the source's `(a, c, b)` parameter order; its meaning is stated by the edge lemmas below |
| Projection.Project | src/main.rs:18-23 | `project` returns `rec = 1/w` of `mvp * (p, 1)` and the `xyz` scaled by `rec`: `(ndc, 1) * w` is `mvp * (p, 1)` |
| Projection.ProjectIdentity | src/main.rs:18-23 | under the identity matrix a point projects to itself with `rec == 1` |
| Projection.ClipToScreenCorners | src/main.rs:25-27 | on each axis NDC −1 maps to `screen_size`, +1 to 0, and 0 to `screen_size / 2` |
| Projection.ClipToScreenFlips | src/triangle.rs:15-17 | both axes are flipped: a larger NDC coordinate lands on a smaller pixel coordinate |
| Projection.ClipToScreenInverse | src/main.rs:25-27 | the viewport mapping is invertible on a non-empty screen: `1 - 2 * (s / size)` recovers the NDC coordinate |
| Projection.EdgeAntisymmetric | src/main.rs:14-16 | `edge_function(a, c, b) == -edge_function(a, b, c)` |
| Projection.EdgeDegenerate | src/triangle.rs:19-21 | `edge_function` is 0 whenever two of its points coincide |
| Projection.EdgeIsTwiceArea | src/main.rs:14-16 | the edge function of a triangle's own vertices is twice its signed (shoelace) area |
| Projection.EdgeSum | src/main.rs:14-16 | at any point, the three edge values the draw computes sum to the edge value of the whole triangle |
| Projection.BarycentricWeights | src/model.rs:58-66 | when all three edge values are positive the triangle's area is positive, each weight lies in (0, 1), and the weights sum to 1 |
| Projection.BarycentricPoint | src/model.rs:58-66 | the edge values weight the vertices into the point itself, scaled by the area |
| Textures.Wrap | src/texture.rs:41-42 | the wrapped column (row) `trunc(u * width) % (width - 1)` is below `width - 1`; it needs `width >= 2` |
| Textures.WrapNegative | src/texture.rs:41-42 | the saturating cast sends every non-positive coordinate to column (row) 0 |
| Textures.WrapShift | src/texture.rs:41-42 | a unit step of a non-negative coordinate moves the texel by one modulo `dim - 1`: the wrap period is not one texture width |
| Textures.Channel | src/texture.rs:47 | a channel is `byte / 255`, in [0, 1] |
| Textures.Texel | src/texture.rs:44-47 | the texel at `(col, row)` is chunk `col + row * width`; all its channels are in [0, 1] |
| Textures.GetPixel | src/texture.rs:40-48 | `get_pixel` reads the texel at the wrapped column and row; every channel is in [0, 1] |
| Textures.GetPixelInBounds | src/texture.rs:44-45 | the chunk read is below `width * height`; its four bytes lie in a buffer of `4 * width * height` bytes |
| Textures.GetPixelIgnoresLastColumnAndRow | src/texture.rs:41-45 | two textures that differ only in their last column and row give the same `get_pixel` everywhere |
| Textures.Fraction | src/texture.rs:30-33 | `v - (v as i32) as f32` is in [0, 1) for non-negative `v` and in (−1, 0] for non-positive `v`, within the `i32` range |
| Textures.SamplePixel | src/texture.rs:22-38 | definition: the four taps blended first along `x` by the fractional offset `dx`, then along `y` by `dy`; its meaning is stated by the sampling lemmas below |
| Textures.Taps | src/texture.rs:23-28 | the four taps are `get_pixel` one texel to either side on each axis; all in the unit range |
| Textures.BlendIsBilinear | src/texture.rs:35-37 | lerping the two pairs by `dx` and then top to bottom by `dy` weights the four taps with the bilinear weights |
| Textures.BilinearWeightsConvex | src/texture.rs:30-37 | with offsets in [0, 1] the four bilinear weights are non-negative and sum to 1 |
| Textures.BlendUnitRange | src/texture.rs:35-37 | blending unit-range colours with offsets in [0, 1] stays in the unit range |
| Textures.SampleIsBilinear | src/texture.rs:22-38 | `sample_pixel` is the bilinear combination of its four taps with the fractional offsets of `(x * width, y * height)` |
| Textures.SampleInUnitRange | src/texture.rs:30-37 | for every coordinate whose scaled value is below the `i32` cast limit, negative ones included, a texture in the unit range samples to a colour in the unit range |
| Textures.TapsAtZero | src/texture.rs:25-28 | when the scaled coordinate is negative, the taps one texel before and one texel after it both wrap to texel 0 |
| Textures.BlendUnitRangeOrFlat | src/texture.rs:35-37 | the blend of unit-range colours stays in the unit range when each offset is in [0, 1] or the two taps it weighs are equal |
| Textures.SampleUniform | src/texture.rs:22-48 | a texture whose readable texels all hold one colour samples to that colour at every coordinate, negative ones included |
| Raster.BoundingBox | src/model.rs:48-55 | the box's maximum is clamped by the screen size, so the loops never leave the screen |
| Raster.AxisInRange | src/model.rs:48-55 | along one axis, a pixel whose centre lies between the vertices' extremes is inside the clamped, truncated loop range |
| Raster.CentreBetweenVertices | src/triangle.rs:57-64 | a covered pixel centre lies within the vertices' range on each axis |
| Raster.CoveredInBox | src/model.rs:48-63 | every on-screen pixel the triangle covers is visited by the loops |
| Raster.Weights | src/model.rs:64-66 | at a covered pixel the weights `a_i / area` each lie in (0, 1) and sum to 1 |
| Raster.DepthBetweenVertices | src/triangle.rs:65-75 | a covered pixel's interpolated `z` lies between the smallest and the largest vertex depth |
| Raster.Recip | src/model.rs:67-70 | the perspective correction `1 / denom` satisfies `r * denom == 1` for non-zero `denom` |
| Raster.ToScreen | src/model.rs:39-46 | definition: each vertex projected by the pass's `mvp`, then mapped to the screen by `clip_to_screen_space` at `(width, height)` |
| Raster.ColorAt | src/model.rs:80-105 | definition: the perspective-corrected normal (transformed by the inverse transpose and normalised) and texture coordinate, the material's base colour times its texture sample, scaled by the diffuse intensity `normal . -light_dir` |
| Raster.DefaultMaterialGrey | src/model.rs:263-269 | with `Material::default()` (white, no texture), every shaded pixel has three equal channels |
| Raster.PixelDepth | src/model.rs:72-78 | a pixel's depth never increases; it decreases exactly when the centre is covered and `z` is below the stored depth |
| Raster.PixelDepthIsMin | src/triangle.rs:76-79 | the depth test keeps the smaller of the stored depth and a covering fragment's `z`; an uncovered pixel keeps its depth |
| Raster.PixelColor | src/model.rs:77-105 | colour is written only in the iteration that writes depth |
| Raster.Drawn | src/model.rs:54-109 | after one draw every cell's depth is at most its old depth. A cell whose depth is unchanged keeps its colour. A changed cell is covered and holds the fragment's depth and colour. An uncovered cell is unchanged in both buffers |
| Raster.DrawnIdempotent | src/model.rs:75-79 | drawing the same triangle twice leaves both buffers as one draw did (the test is strict) |
| Raster.DrawnDepthCommutes | src/model.rs:75-79 | the depth buffer after two draws does not depend on their order |
| Raster.NearerWins | src/model.rs:75-105 | where two triangles cover a pixel, the nearer one's colour remains whichever is drawn first (when it is nearer than the stored depth) |
| Raster.IdentityScreen | src/model.rs:39-46 | untransformed vertices land at `w = 1`, project to themselves and reach the screen through the viewport mapping alone |
| Raster.CornerScreen | src/model.rs:43-46 | the NDC triangle (−1,−1), (1,−1), (−1,1) lands on an `n` by `n` screen at (n,n), (0,n), (n,0) |
| Raster.CornerTriangleCoverage | src/model.rs:56-63 | that triangle covers pixel `(x, y)` exactly when `x + y >= n`: the pixels whose centre lies on the diagonal are not covered (strict coverage) |
| Raster.CornerCovers | src/model.rs:56-63 | a drawable pass whose screen vertices sit at those corners covers pixel `(x, y)` exactly when `x + y >= n` |
| Raster.CornerInside | src/main.rs:14-16 | the three edge values of the right triangle (m,m), (0,m), (m,0) are all positive exactly inside it |
| Raster.VisitPixel | src/model.rs:56-106 | one iteration of the pixel loop replaces cell `x + y * width` of each buffer by its `PixelDepth` / `PixelColor` and changes nothing else |
| Raster.DrawTriangle | src/model.rs:27-110 | `Triangle::draw` (and its copy at src/triangle.rs:28-111) leaves exactly `Drawn` of the buffers before it; the loop invariant says visited cells are final and the others untouched |
| Scene.DrawnAll | src/model.rs:156-176 | after a sequence of draws every cell's depth is at most its old depth, and a cell with unchanged depth keeps its colour |
| Scene.PassesLength | src/model.rs:156-157 | a model makes one draw per full index triple of each mesh |
| Scene.ModelPassesAt | src/model.rs:156-175 | the draw for triangle `i` of mesh `m` uses vertices `indices[3i..3i+3]`, the mesh's material and the frame's matrices, at position (triangles of earlier meshes) + `i` |
| Scene.MeshPassAt | src/model.rs:157-166 | within a mesh, draw `i` uses `vertices[indices[3i]]`, `vertices[indices[3i+1]]`, `vertices[indices[3i+2]]` and `materials[material_idx]` |
| Scene.LeftoverIndicesIgnored | src/model.rs:157-160 | up to two indices past the last full triple change neither the drawability nor the draws |
| Scene.DrawnAllAppend | src/model.rs:156-176 | drawing one sequence after another is drawing their concatenation |
| Scene.ModelPassesStep | src/model.rs:156 | one more mesh appends its own draws after those of the meshes before it |
| Scene.DrawMesh | src/model.rs:157-175 | the triangle loop for one mesh leaves the buffers as the mesh's draws applied in order |
| Scene.DrawModel | src/model.rs:149-177 | `Model::draw` leaves the buffers as all the model's draws applied in order, mesh by mesh |
| Scene.AssembleVertices | src/model.rs:201-219 | one vertex per position, with the normal and texture coordinate of the same index where given and zero (the `Vertex` default) otherwise |
| Scene.MissingAttributesDefault | src/model.rs:12-20 | a primitive without normals (texture coordinates) gives every vertex `Vertex::default()`'s zero normal (texture coordinate), at its own position |
| Scene.ProcessNode | src/model.rs:180-255 | `process_node` pushes one mesh per triangle primitive in order and overwrites that primitive's material entry; it fails at the first triangle primitive without positions or indices |
| Scene.Load | src/model.rs:127-147 | `Model::load` starts from one default material per declared material (a single default if there are none) and processes the first node only |
| Scene.ProcessedShape | src/model.rs:247-251 | processing keeps the material list's length and appends exactly one mesh per triangle primitive, each with a material index that resolves |
| Scene.ProcessedFailsIff | src/model.rs:192-224 | processing fails exactly when some triangle primitive lacks positions or indices |
| Scene.LoadedMaterials | src/model.rs:131-134 | after loading the material list has `max(count, 1)` entries and every mesh's material index, `unwrap_or(0)` included, names one |
| Scene.LoadedWithoutMaterials | src/model.rs:263-269 | a scene with no materials loads with exactly `[Material::default()]` (white, untextured), and every mesh uses index 0 |
| Frame.Cleared | src/main.rs:47-48 | a cleared frame has every colour cell 0.1 and every depth cell 1.0 |
| Frame.RenderFrame | src/main.rs:41-66 | the depth buffer is kept when it matches the colour buffer's size and re-created at that size otherwise. Afterwards both buffers hold the model drawn over a cleared frame, so no depth from an earlier frame or size survives |

## Left out

- Windowing (`Window::new`, `should_close`, `display`, and the resize of the colour buffer in `display`): these call into the `minifb` library. The colour buffer's size is an input of `Frame.RenderFrame`.
- The `width()` and `height()` accessors of `Framebuffer<T>` are the class's constant fields `width` and `height`.
- Asset and image I/O: `gltf::import`, the primitive readers and the texture path joining. They become the `Scene.Document` and `Scene.Primitive` values handed to `Scene.Load`. `Texture::load` becomes a decoded `Textures.Texture` value (`Valid`: four bytes per texel).
- Scene.Load: the `expect` panics of `process_node` on a triangle primitive without positions or indices are the `Err` results `MissingPositions` and `MissingIndices`.
- Scene.Load: `Scene.DocumentWellFormed` is a precondition. It states what the importer guarantees: material indices are below the material count, a primitive without a material carries the default colour factor and no texture, and no attribute list is longer than the position list.
- Scene.Load: the other panics of the source (a vertex index out of range, a material index out of range) are preconditions.
- Raster.DrawTriangle: `Drawable` is a precondition. No vertex may land on `w = 0`, where `f32` gives infinities, and a texture must be at least 2 by 2. With a dimension of 1, `get_pixel` computes `% 0` and panics; with 0 the `u32` subtraction underflows.
- Raster.DrawTriangle: the depth buffer must have the colour buffer's size, which `main` guarantees.
- Scene.DrawModel: every index must name a vertex, and the mesh's material must exist. The source panics otherwise.
- Raster.Recip: a zero perspective-correction denominator gives 0, where `f32` would give an infinity. The depth and the coverage do not depend on it.
- IEEE floating point is not modelled: rounding, NaN and infinities. Every `f32` is a `real`, so results that rounding would change (a centre exactly on an edge, ties in the depth test) are decided exactly.
- Shading: `Vec3::normalize` needs a square root and is the `normalize` parameter of a `Raster.Pass`. The normal transform, the perspective-correct interpolation, the texture sample, the dot product with the light direction `(0.3, -0.8, -0.4)` and the colour product are computed exactly over reals.
- Matrix construction in `main` (`from_axis_angle`, `perspective_rh`, `inverse().transpose()`) and the `SystemTime` timer: the two matrices are inputs of `Frame.RenderFrame`.
- The outer `while !window.should_close()` loop of `main`: one iteration is `Frame.RenderFrame`.
- Numeric.ToUsize: does not saturate at `usize::MAX`, because indices are unbounded integers here. Pixel and texel indices are never near that bound.
- Window.AsBuffer: the channel bytes are stated through `Numeric.ToU8`; nothing beyond the cast is claimed about the colour of a pixel outside [0, 1].
- Integer overflow of `usize` and `u32` arithmetic (`x + y * width`, `width * height`, `i * 3`) is not modelled.
- src/triangle.rs is an uncompiled copy of `project`, `clip_to_screen_space`, `edge_function` and `Triangle::draw`. It is the same code, so the one model covers both copies.
- Only the document's first node is processed (node 0 of its node list, `document.nodes().next()`), which need not be a root of any scene. Its children are not visited, as in `Model::load`.
