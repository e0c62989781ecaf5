/** The body of the render loop in `main` (src/main.rs): bring the depth buffer to the colour
    buffer's size, clear both buffers, and draw the model with the frame's matrices. */
module Frame {
  import opened Linear
  import opened Raster
  import opened Scene
  import opened Window

  /** The background colour every frame starts from. */
  const ClearColor: Vec3 := Splat3(0.1)

  /** The depth every frame starts from: the far end of the device depth range. */
  const FarDepth: real := 1.0

  /** The buffers of a freshly cleared `w` by `h` frame. */
  function Cleared(w: nat, h: nat): (b: Buffers)
    ensures Sized(b, w, h)
    ensures forall k :: 0 <= k < w * h ==> b.depth[k] == FarDepth && b.color[k] == ClearColor
  {
    Buffers(seq(w * h, _ => FarDepth), seq(w * h, _ => ClearColor))
  }

  /** One frame of `main`. The depth buffer is re-created at the colour buffer's size when the
      sizes differ and kept otherwise; the returned depth buffer is the one to use from now on.
      Both buffers then hold the model drawn over a cleared frame, whatever they held before:
      no depth from an earlier frame, or from before a resize, survives. */
  method RenderFrame(model: Model, framebuffer: Framebuffer<Vec3>, depthBuffer: Framebuffer<real>,
                     mvp: Mat4, invTrans: Mat4, normalize: Vec3 -> Vec3)
    returns (depth: Framebuffer<real>)
    requires ModelDrawable(model) && AllDrawable(ModelPasses(model.meshes, model.materials, mvp, invTrans, normalize))
    requires framebuffer.Valid() && depthBuffer.Valid()
    modifies framebuffer.data, depthBuffer.data
    ensures depth.Valid() && depth.width == framebuffer.width && depth.height == framebuffer.height
    ensures depthBuffer.width == framebuffer.width && depthBuffer.height == framebuffer.height ==> depth == depthBuffer
    ensures depth != depthBuffer ==> fresh(depth.data)
    ensures Buffers(depth.data[..], framebuffer.data[..])
         == DrawnAll(ModelPasses(model.meshes, model.materials, mvp, invTrans, normalize),
                     framebuffer.width, framebuffer.height, Cleared(framebuffer.width, framebuffer.height))
  {
    depth := depthBuffer;
    if framebuffer.width != depth.width || framebuffer.height != depth.height {
      depth := new Framebuffer(framebuffer.width, framebuffer.height, 0.0);
    }
    framebuffer.Clear(ClearColor);
    depth.Clear(FarDepth);
    assert Buffers(depth.data[..], framebuffer.data[..]) == Cleared(framebuffer.width, framebuffer.height);
    DrawModel(model, framebuffer, depth, mvp, invTrans, normalize);
  }
}
