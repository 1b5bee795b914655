/**
 * Framebuffer objects: a set of texture attachments, the colour attachment
 * points handed to the driver, the binding state and the validity flag.
 *
 * The driver is not modelled: whether a framebuffer is complete is a
 * parameter, and a GL call that only has an effect on the GPU is modelled by
 * the value it is given (a blit command, the texture a layer is cleared on).
 */
module FrameBuffers {
  import opened Wrappers

  const GL_FRAMEBUFFER: nat := 0x8D40
  const GL_COLOR_ATTACHMENT0: nat := 0x8CE0
  const GL_COLOR_BUFFER_BIT: bv32 := 0x4000
  const GL_DEPTH_BUFFER_BIT: bv32 := 0x100
  const GL_STENCIL_BUFFER_BIT: bv32 := 0x400
  const GL_NEAREST: nat := 0x2600
  const GL_LINEAR: nat := 0x2601

  /** The largest value of a 64-bit size_t, plus one. */
  const SIZE_T_RANGE: int := 0x1_0000_0000_0000_0000

  datatype TextureFormat = Red | Rg | Rgb | Rgba | Srgb | SrgbAlpha | Depth | DepthStencil

  /** A texture that exists on the GPU (the renderer's empty texture is modelled by Option.None). */
  datatype Texture = Texture(id: nat, format: TextureFormat)

  predicate IsDepthLike(t: Texture) {
    t.format == Depth || t.format == DepthStencil
  }

  datatype FrameBufferError =
    | SetAttachmentsCalledTwice
    | MoreThanOneDepthAttachment
    | MoreThanOneDepthStencilAttachment
    | ColorIndexOutOfRange
    | AttachmentNumberOutOfRange
    | NullDepthStencilAttachment

  /** What setAttachments records: colour textures in order, their attachment points, the depth texture. */
  datatype Attachments = Attachments(colors: seq<Texture>, glColors: seq<nat>, depthStencil: Option<Texture>)

  /** Colour attachment k is bound at GL_COLOR_ATTACHMENT0 + k, and the depth slot holds a depth texture. */
  predicate WellNumbered(a: Attachments) {
    && |a.glColors| == |a.colors|
    && (forall k :: 0 <= k < |a.glColors| ==> a.glColors[k] == GL_COLOR_ATTACHMENT0 + k)
    && (forall k :: 0 <= k < |a.colors| ==> !IsDepthLike(a.colors[k]))
    && (a.depthStencil.Some? ==> IsDepthLike(a.depthStencil.value))
  }

  /** One iteration of the attachment loop; a second depth or depth-stencil texture throws. */
  function AttachOne(a: Attachments, t: Texture): (r: Result<Attachments, FrameBufferError>)
    ensures r.Failure? <==> IsDepthLike(t) && a.depthStencil.Some?
    ensures WellNumbered(a) && r.Success? ==> WellNumbered(r.value)
  {
    if t.format == Depth then
      if a.depthStencil.Some? then Failure(MoreThanOneDepthAttachment)
      else Success(a.(depthStencil := Some(t)))
    else if t.format == DepthStencil then
      if a.depthStencil.Some? then Failure(MoreThanOneDepthStencilAttachment)
      else Success(a.(depthStencil := Some(t)))
    else
      Success(a.(colors := a.colors + [t], glColors := a.glColors + [GL_COLOR_ATTACHMENT0 + |a.glColors|]))
  }

  /**
   * The attachment loop over ts, starting from no attachments: the attachments
   * recorded and, if it threw, the error; a throw ends the loop with what was
   * recorded so far.
   */
  function AttachAll(ts: seq<Texture>): (r: (Attachments, Option<FrameBufferError>))
    ensures WellNumbered(r.0)
    decreases |ts|
  {
    if ts == [] then (Attachments([], [], None), None)
    else
      var prev := AttachAll(ts[..|ts| - 1]);
      if prev.1.Some? then prev
      else
        match AttachOne(prev.0, ts[|ts| - 1])
        case Success(a) => (a, None)
        case Failure(e) => (prev.0, Some(e))
  }

  /** The textures of ts that are not depth or depth-stencil textures, in order. */
  function ColorTextures(ts: seq<Texture>): (r: seq<Texture>)
    ensures |r| <= |ts|
    ensures forall t :: t in r <==> t in ts && !IsDepthLike(t)
    decreases |ts|
  {
    if ts == [] then []
    else
      var init := ColorTextures(ts[..|ts| - 1]);
      assert ts == ts[..|ts| - 1] + [ts[|ts| - 1]];
      if IsDepthLike(ts[|ts| - 1]) then init else init + [ts[|ts| - 1]]
  }

  /** How many depth or depth-stencil textures ts holds. */
  function DepthCount(ts: seq<Texture>): (n: nat)
    ensures n <= |ts|
    decreases |ts|
  {
    if ts == [] then 0
    else DepthCount(ts[..|ts| - 1]) + (if IsDepthLike(ts[|ts| - 1]) then 1 else 0)
  }

  /**
   * setAttachments throws exactly when ts holds two or more depth-like
   * textures; otherwise it attaches every colour texture in order and the one
   * depth-like texture, if there is one.
   */
  lemma {:induction false} AttachAllSpec(ts: seq<Texture>)
    ensures AttachAll(ts).1.None? <==> DepthCount(ts) <= 1
    ensures AttachAll(ts).1.None? ==> AttachAll(ts).0.colors == ColorTextures(ts)
    ensures AttachAll(ts).1.None? ==> (AttachAll(ts).0.depthStencil.Some? <==> DepthCount(ts) == 1)
    ensures AttachAll(ts).0.depthStencil.Some? ==> AttachAll(ts).0.depthStencil.value in ts
    decreases |ts|
  {
    if ts != [] {
      var init, last := ts[..|ts| - 1], ts[|ts| - 1];
      AttachAllSpec(init);
      assert forall t :: t in init ==> t in ts;
      if AttachAll(init).1.None? && AttachAll(init).0.depthStencil.Some? {
        assert DepthCount(init) == 1;
      }
    }
  }

  /** Once the loop has thrown, later textures change nothing. */
  lemma {:induction false} AttachAllStopsAtThrow(ts: seq<Texture>, i: nat)
    requires i <= |ts| && AttachAll(ts[..i]).1.Some?
    ensures AttachAll(ts) == AttachAll(ts[..i])
    decreases |ts| - i
  {
    if i < |ts| {
      assert ts[..i + 1][..i] == ts[..i];
      AttachAllStopsAtThrow(ts, i + 1);
    } else {
      assert ts[..i] == ts;
    }
  }

  /** One more colour texture after a prefix that did not throw. */
  lemma AttachAllColor(ts: seq<Texture>, i: nat)
    requires i < |ts| && AttachAll(ts[..i]).1.None? && !IsDepthLike(ts[i])
    ensures AttachAll(ts[..i + 1]).1.None?
    ensures AttachAll(ts[..i + 1]).0 ==
              var a := AttachAll(ts[..i]).0;
              a.(colors := a.colors + [ts[i]], glColors := a.glColors + [GL_COLOR_ATTACHMENT0 + |a.glColors|])
  {
    assert ts[..i + 1][..i] == ts[..i];
  }

  /** The first depth-like texture after a prefix that did not throw. */
  lemma AttachAllDepth(ts: seq<Texture>, i: nat)
    requires i < |ts| && AttachAll(ts[..i]).1.None? && IsDepthLike(ts[i])
    requires AttachAll(ts[..i]).0.depthStencil.None?
    ensures AttachAll(ts[..i + 1]).1.None?
    ensures AttachAll(ts[..i + 1]).0 == AttachAll(ts[..i]).0.(depthStencil := Some(ts[i]))
  {
    assert ts[..i + 1][..i] == ts[..i];
  }

  /** A second depth-like texture: the loop throws, keeping what the prefix attached. */
  lemma AttachAllThrows(ts: seq<Texture>, i: nat)
    requires i < |ts| && AttachAll(ts[..i]).1.None? && IsDepthLike(ts[i])
    requires AttachAll(ts[..i]).0.depthStencil.Some?
    ensures AttachAll(ts).0 == AttachAll(ts[..i]).0
    ensures AttachAll(ts).1 == Some(if ts[i].format == Depth then MoreThanOneDepthAttachment
                                    else MoreThanOneDepthStencilAttachment)
  {
    assert ts[..i + 1][..i] == ts[..i];
    AttachAllStopsAtThrow(ts, i + 1);
  }

  /** The attachment mask of a blit, as chosen by the caller. */
  datatype BufferBits = BufferBits(color: bool, depth: bool, stencil: bool)

  datatype BufferFilter = Nearest | Linear

  datatype BufferBounds = BufferBounds(startX: int, startY: int, endX: int, endY: int)

  /** The GL mask that copyFrom passes to the blit. */
  function BlitMask(bits: BufferBits): (mask: bv32)
    ensures (mask & GL_COLOR_BUFFER_BIT != 0) == bits.color
    ensures (mask & GL_DEPTH_BUFFER_BIT != 0) == bits.depth
    ensures (mask & GL_STENCIL_BUFFER_BIT != 0) == bits.stencil
    ensures mask & !(GL_COLOR_BUFFER_BIT | GL_DEPTH_BUFFER_BIT | GL_STENCIL_BUFFER_BIT) == 0
  {
    (if bits.color then GL_COLOR_BUFFER_BIT else 0)
    | (if bits.depth then GL_DEPTH_BUFFER_BIT else 0)
    | (if bits.stencil then GL_STENCIL_BUFFER_BIT else 0)
  }

  /** The GL filter that copyFrom passes to the blit: nearest only when asked for. */
  function BlitFilter(filter: BufferFilter): (f: nat)
    ensures f == GL_NEAREST <==> filter == Nearest
    ensures f == GL_NEAREST || f == GL_LINEAR
  {
    if filter == Nearest then GL_NEAREST else GL_LINEAR
  }

  /** The one blit command copyFrom issues. */
  datatype BlitCommand = BlitCommand(readFbo: nat, drawFbo: nat, from: BufferBounds, to: BufferBounds,
                                     mask: bv32, filter: nat)

  /** The unsigned value an int argument takes when the source compares it with a size_t. */
  function ToSize(n: int): (r: nat)
    requires -0x8000_0000 <= n < 0x8000_0000
    ensures 0 <= n ==> r == n
    ensures n < 0 ==> r >= SIZE_T_RANGE - 0x8000_0000
  {
    if n >= 0 then n else SIZE_T_RANGE + n
  }

  /** The range check of ClearColorLayer and SetColorTextureLayer as written: only an index above the count throws. */
  predicate ColorIndexRejectedAsWritten(count: nat, index: nat) {
    count < index
  }

  /**
   * The as-written check lets the index equal to the count through, one past
   * the last attachment, and that is the only index it wrongly lets through.
   */
  lemma AsWrittenCheckAdmitsOnePastEnd(count: nat)
    ensures !ColorIndexRejectedAsWritten(count, count)
    ensures forall i: nat :: !ColorIndexRejectedAsWritten(count, i) && !(i < count) <==> i == count
  {
  }

  /** The check the code evidently means: every index that is not an attachment throws. */
  predicate ColorIndexRejected(count: nat, index: nat) {
    count <= index
  }

  lemma ColorIndexCheckIsExact(count: nat, index: nat)
    ensures !ColorIndexRejected(count, index) <==> index < count
    ensures ColorIndexRejectedAsWritten(count, index) ==> ColorIndexRejected(count, index)
  {
  }

  class FrameBufferImpl {
    const fbo: nat                                 // the GL name of the framebuffer object
    var colorAttachments: seq<Texture>
    var glColorAttachments: seq<nat>
    var depthStencilAttachment: Option<Texture>
    var currentBindingPoint: nat
    var valid: bool

    ghost predicate Valid()
      reads this
    {
      && WellNumbered(Attachments(colorAttachments, glColorAttachments, depthStencilAttachment))
      && (currentBindingPoint == 0 || currentBindingPoint == GL_FRAMEBUFFER)
    }

    function Recorded(): Attachments
      reads this
    {
      Attachments(colorAttachments, glColorAttachments, depthStencilAttachment)
    }

    /** A new framebuffer object: nothing attached, unbound, not valid. */
    constructor (name: nat)
      ensures Valid() && fbo == name
      ensures colorAttachments == [] && glColorAttachments == [] && depthStencilAttachment.None?
      ensures currentBindingPoint == 0 && !valid
    {
      fbo := name;
      colorAttachments := [];
      glColorAttachments := [];
      depthStencilAttachment := None;
      currentBindingPoint := 0;
      valid := false;
    }

    method Bind()
      requires Valid()
      modifies this`currentBindingPoint
      ensures Valid() && currentBindingPoint == GL_FRAMEBUFFER
    {
      currentBindingPoint := GL_FRAMEBUFFER;
    }

    /** Unbinds; the early return for binding point -1 (0xFFFFFFFF as a GLenum) never fires. */
    method Unbind()
      requires Valid()
      modifies this`currentBindingPoint
      ensures Valid() && currentBindingPoint == 0
    {
      if currentBindingPoint == 0xFFFF_FFFF {
        assert false;
        return;
      }
      currentBindingPoint := 0;
    }

    /**
     * Clears colour, depth and stencil. It binds and unbinds itself only when
     * it was not bound, so the binding is the same afterwards.
     */
    method Clear() returns (mask: bv32, boundItself: bool)
      requires Valid()
      modifies this`currentBindingPoint
      ensures Valid() && currentBindingPoint == old(currentBindingPoint)
      ensures boundItself <==> old(currentBindingPoint) == 0
      ensures mask == BlitMask(BufferBits(true, true, true))
    {
      boundItself := true;
      if currentBindingPoint != 0 {
        boundItself := false;
      }
      if boundItself {
        Bind();
      }
      mask := GL_COLOR_BUFFER_BIT | GL_DEPTH_BUFFER_BIT | GL_STENCIL_BUFFER_BIT;
      if boundItself {
        Unbind();
      }
    }

    /** The colour texture whose layer is cleared; an index that is not an attachment throws. */
    method ClearColorLayer(colorIndex: nat, layer: int) returns (r: Result<Texture, FrameBufferError>)
      requires Valid()
      ensures r.Success? <==> colorIndex < |colorAttachments|
      ensures r.Success? ==> r.value == colorAttachments[colorIndex]
      ensures r.Failure? ==> r.error == ColorIndexOutOfRange
    {
      if ColorIndexRejected(|colorAttachments|, colorIndex) {
        return Failure(ColorIndexOutOfRange);
      }
      r := Success(colorAttachments[colorIndex]);
    }

    /**
     * ClearColorLayer with its range check as written. The check throws only
     * for an index above the count, so the index equal to the count reaches
     * the read of colorAttachments one past its end; that input is the one
     * this method cannot be called with. Every other index behaves as in
     * ClearColorLayer.
     */
    method ClearColorLayerAsWritten(colorIndex: nat, layer: int) returns (r: Result<Texture, FrameBufferError>)
      requires Valid()
      requires colorIndex != |colorAttachments|
      ensures r.Success? <==> colorIndex < |colorAttachments|
      ensures r.Success? ==> r.value == colorAttachments[colorIndex]
      ensures r.Failure? ==> r.error == ColorIndexOutOfRange
    {
      if ColorIndexRejectedAsWritten(|colorAttachments|, colorIndex) {
        return Failure(ColorIndexOutOfRange);
      }
      r := Success(colorAttachments[colorIndex]);
    }

    /** The depth-stencil texture whose layer is cleared; without one it throws. */
    method ClearDepthStencilLayer(layer: int) returns (r: Result<Texture, FrameBufferError>)
      requires Valid()
      ensures r.Success? <==> depthStencilAttachment.Some?
      ensures r.Success? ==> r.value == depthStencilAttachment.value && IsDepthLike(r.value)
      ensures r.Failure? ==> r.error == NullDepthStencilAttachment
    {
      if depthStencilAttachment.None? {
        return Failure(NullDepthStencilAttachment);
      }
      r := Success(depthStencilAttachment.value);
    }

    /**
     * The attachment point and texture a colour layer is attached from. The
     * int argument is compared as a size_t, so a negative number throws.
     */
    method SetColorTextureLayer(attachmentNum: int, mipLevel: int, layer: int)
      returns (r: Result<(nat, Texture), FrameBufferError>)
      requires Valid()
      requires -0x8000_0000 <= attachmentNum < 0x8000_0000
      requires |colorAttachments| < SIZE_T_RANGE - 0x8000_0000   // no vector fills the address space
      ensures r.Success? <==> 0 <= attachmentNum < |colorAttachments|
      ensures r.Success? ==>
                && r.value.0 == GL_COLOR_ATTACHMENT0 + attachmentNum
                && r.value.0 == glColorAttachments[attachmentNum]
                && r.value.1 == colorAttachments[attachmentNum]
      ensures r.Failure? ==> r.error == AttachmentNumberOutOfRange
    {
      if ColorIndexRejected(|colorAttachments|, ToSize(attachmentNum)) {
        return Failure(AttachmentNumberOutOfRange);
      }
      r := Success((GL_COLOR_ATTACHMENT0 + attachmentNum, colorAttachments[attachmentNum]));
    }

    /** The depth texture a layer is attached from; without one it throws. */
    method SetDepthTextureLayer(layer: int) returns (r: Result<Texture, FrameBufferError>)
      requires Valid()
      ensures r.Success? <==> depthStencilAttachment.Some?
      ensures r.Success? ==> r.value == depthStencilAttachment.value
      ensures r.Failure? ==> r.error == NullDepthStencilAttachment
    {
      if depthStencilAttachment.None? {
        return Failure(NullDepthStencilAttachment);
      }
      r := Success(depthStencilAttachment.value);
    }

    /**
     * Attaches ts in order. complete is the driver's verdict on the finished
     * framebuffer. A second call throws and changes nothing; a second depth
     * texture throws mid-way, leaving what was attached so far, the valid flag
     * set and the framebuffer bound.
     */
    method SetAttachments(ts: seq<Texture>, complete: bool) returns (r: Outcome<FrameBufferError>)
      requires Valid()
      modifies this
      ensures Valid()
      ensures old(|colorAttachments| > 0 || depthStencilAttachment.Some?) ==>
                r == Fail(SetAttachmentsCalledTwice)
                && Recorded() == old(Recorded()) && valid == old(valid)
                && currentBindingPoint == old(currentBindingPoint)
      ensures !old(|colorAttachments| > 0 || depthStencilAttachment.Some?) ==>
                && Recorded() == AttachAll(ts).0
                && (AttachAll(ts).1.None? ==> r == Pass && valid == complete && currentBindingPoint == 0)
                && (AttachAll(ts).1.Some? ==>
                      r == Fail(AttachAll(ts).1.value) && valid && currentBindingPoint == GL_FRAMEBUFFER)
    {
      if |colorAttachments| > 0 || depthStencilAttachment.Some? {
        return Fail(SetAttachmentsCalledTwice);
      }
      valid := true;
      Bind();
      var numDepthStencilAttachments := 0;
      var drawBuffers: seq<nat> := [];
      var i := 0;
      while i < |ts|
        invariant 0 <= i <= |ts|
        invariant Valid() && currentBindingPoint == GL_FRAMEBUFFER && valid
        invariant AttachAll(ts[..i]).1.None? && Recorded() == AttachAll(ts[..i]).0
        invariant drawBuffers == glColorAttachments
        invariant numDepthStencilAttachments == if depthStencilAttachment.Some? then 1 else 0
      {
        var tex := ts[i];
        if tex.format == Depth {
          if numDepthStencilAttachments > 0 {
            AttachAllThrows(ts, i);
            return Fail(MoreThanOneDepthAttachment);
          }
          AttachAllDepth(ts, i);
          numDepthStencilAttachments := numDepthStencilAttachments + 1;
          depthStencilAttachment := Some(tex);
        } else if tex.format == DepthStencil {
          if numDepthStencilAttachments > 0 {
            AttachAllThrows(ts, i);
            return Fail(MoreThanOneDepthStencilAttachment);
          }
          AttachAllDepth(ts, i);
          numDepthStencilAttachments := numDepthStencilAttachments + 1;
          depthStencilAttachment := Some(tex);
        } else {
          AttachAllColor(ts, i);
          var color := GL_COLOR_ATTACHMENT0 + |drawBuffers|;
          glColorAttachments := glColorAttachments + [color];
          drawBuffers := drawBuffers + [color];
          colorAttachments := colorAttachments + [tex];
        }
        i := i + 1;
      }
      assert ts[..i] == ts;
      if !complete {
        valid := false;
      }
      Unbind();
      r := Pass;
    }

    /** The blit from other into this framebuffer. */
    function CopyFrom(other: FrameBufferImpl, from: BufferBounds, to: BufferBounds,
                      bits: BufferBits, filter: BufferFilter): (b: BlitCommand)
      ensures b.readFbo == other.fbo && b.drawFbo == fbo && b.from == from && b.to == to
      ensures (b.mask & GL_COLOR_BUFFER_BIT != 0) == bits.color
      ensures (b.mask & GL_DEPTH_BUFFER_BIT != 0) == bits.depth
      ensures (b.mask & GL_STENCIL_BUFFER_BIT != 0) == bits.stencil
      ensures b.filter == GL_NEAREST <==> filter == Nearest
    {
      BlitCommand(other.fbo, fbo, from, to, BlitMask(bits), BlitFilter(filter))
    }
  }

  /** A handle on a shared framebuffer object; the default one has none and is never valid. */
  class FrameBuffer {
    var impl: FrameBufferImpl?

    ghost predicate Valid()
      reads this, impl
    {
      impl != null ==> impl.Valid()
    }

    /** The default framebuffer: no object behind it. */
    constructor Empty()
      ensures Valid() && impl == null && !IsValid()
    {
      impl := null;
    }

    /** A handle on an existing object. */
    constructor Wrap(fbImpl: FrameBufferImpl)
      ensures impl == fbImpl
    {
      impl := fbImpl;
    }

    function IsValid(): (b: bool)
      reads this, impl
      ensures b ==> impl != null
    {
      impl != null && impl.valid
    }
  }

  /**
   * The constructor taking attachments: a new object with ts attached, or the
   * error that setAttachments threw (the handle is then never constructed).
   */
  method NewFrameBuffer(ts: seq<Texture>, complete: bool, name: nat)
    returns (r: Result<FrameBuffer, FrameBufferError>)
    ensures r.Failure? <==> DepthCount(ts) > 1
    ensures r.Failure? ==> AttachAll(ts).1 == Some(r.error)
    ensures r.Success? ==>
              && fresh(r.value) && fresh(r.value.impl) && r.value.Valid()
              && r.value.impl.fbo == name
              && r.value.impl.colorAttachments == ColorTextures(ts)
              && (r.value.impl.depthStencilAttachment.Some? <==> DepthCount(ts) == 1)
              && (r.value.IsValid() <==> complete)
  {
    AttachAllSpec(ts);
    var fbImpl := new FrameBufferImpl(name);
    var outcome := fbImpl.SetAttachments(ts, complete);
    if outcome.Fail? {
      return Failure(outcome.error);
    }
    var fb := new FrameBuffer.Wrap(fbImpl);
    r := Success(fb);
  }
}
