/** The CPU renderer: in-place loops over a framebuffer array, proved against the
    pixelwise composition. */
module Renderer {
  import opened Machine
  import opened SceneTypes
  import opened Geometry
  import opened Blend
  import opened Composition

  const SIMD_XRGB_MIN_PIXELS := 64

  // ------------------------------------------------- pixels of a framebuffer index

  function Col(o: OutputState, k: nat): int
    requires o.Valid()
  {
    o.originX + k % o.Pitch()
  }

  function Row(o: OutputState, k: nat): int
    requires o.Valid()
  {
    o.originY + k / o.Pitch()
  }

  ghost predicate RectIn(rect: Rect, o: OutputState)
  {
    && o.originX <= rect.x0 < rect.x1 <= o.originX + o.width
    && o.originY <= rect.y0 < rect.y1 <= o.originY + o.height
  }

  predicate InRect(o: OutputState, rect: Rect, k: nat)
    requires o.Valid()
  {
    rect.Contains(Col(o, k), Row(o, k))
  }

  lemma AtPosition(o: OutputState, x: int, y: int)
    requires o.Valid() && o.OnScreen(x, y)
    ensures 0 <= o.At(x, y) < o.Words() && Col(o, o.At(x, y)) == x && Row(o, o.At(x, y)) == y
  {
    AtInRange(o, x, y);
    RowAndColumn(o, x, y);
  }

  lemma PositionAt(o: OutputState, k: nat)
    requires o.Valid() && k < o.Words()
    ensures o.At(Col(o, k), Row(o, k)) == k
    ensures Row(o, k) < o.originY + o.height && o.originX <= Col(o, k) && o.originY <= Row(o, k)
    ensures Col(o, k) < o.originX + o.width ==> o.OnScreen(Col(o, k), Row(o, k))
  {
    WordPosition(o, k);
    DivModDefinition(k, o.Pitch());
  }

  /** The words of one rectangle row are a contiguous slice. */
  lemma RowSlice(o: OutputState, rect: Rect, y: int, k: nat)
    requires o.Valid() && RectIn(rect, o) && rect.y0 <= y < rect.y1 && k < o.Words()
    ensures InRect(o, rect, k) && Row(o, k) == y
       <==> o.At(rect.x0, y) <= k < o.At(rect.x0, y) + (rect.x1 - rect.x0)
  {
    PositionAt(o, k);
    if o.At(rect.x0, y) <= k < o.At(rect.x0, y) + (rect.x1 - rect.x0) {
      AtPosition(o, rect.x0 + (k - o.At(rect.x0, y)), y);
    }
  }

  // ------------------------------------------------------------------- background

  /** `fill_framebuffer_rect`. */
  method FillFramebufferRect(fb: array<Word>, o: OutputState, rect: Rect, pixel: Word)
    requires o.Valid() && fb.Length == o.Words() && RectIn(rect, o)
    modifies fb
    ensures forall k :: 0 <= k < fb.Length ==> fb[k] == if InRect(o, rect, k) then pixel else old(fb[k])
  {
    var width := rect.x1 - rect.x0;
    for y := rect.y0 to rect.y1
      invariant forall k :: 0 <= k < fb.Length ==>
        fb[k] == if InRect(o, rect, k) && Row(o, k) < y then pixel else old(fb[k])
    {
      AtPosition(o, rect.x0, y);
      AtPosition(o, rect.x1 - 1, y);
      var start := o.At(rect.x0, y);
      ghost var before := fb[..];
      for i := start to start + width
        invariant forall k :: 0 <= k < fb.Length ==> fb[k] == if start <= k < i then pixel else before[k]
      {
        fb[i] := pixel;
      }
      forall k | 0 <= k < fb.Length
        ensures fb[k] == if InRect(o, rect, k) && Row(o, k) < y + 1 then pixel else old(fb[k])
      {
        RowSlice(o, rect, y, k);
      }
    }
  }

  // ------------------------------------------------------------ one surface, one rect

  /** `validate_surface_pixel_rect`. */
  predicate ValidateSurfacePixelRect(layer: Layer, rect: Rect)
  {
    layer.surface.transport.None? ||
    (layer.payload.Some? &&
     var p := layer.payload.value;
     var (x0, y0) := (rect.x0 - layer.surface.placement.x, rect.y0 - layer.surface.placement.y);
     var (x1, y1) := (rect.x1 - layer.surface.placement.x, rect.y1 - layer.surface.placement.y);
     && (p.format == FORMAT_ARGB8888 || p.format == FORMAT_XRGB8888)
     && p.width != 0 && p.height != 0
     && p.stride >= Min(p.width * 4, U32_MAX)
     && x1 <= I32_MAX && y1 <= I32_MAX
     && 0 <= x0 < x1 <= p.width && 0 <= y0 < y1 <= p.height
     && (y1 - 1) * p.stride + x1 * 4 <= |p.pixels|)
  }

  lemma RowOffset(ly: int, y1: int, lx: int, x1: int, stride: int, len: int)
    requires 0 <= ly < y1 && 0 <= lx < x1 && 0 <= stride
    requires (y1 - 1) * stride + x1 * 4 <= len
    ensures 0 <= ly * stride && ly * stride + lx * 4 + 4 <= len
  {
    assert (y1 - 1 - ly) * stride >= 0;
    assert (y1 - 1) * stride == ly * stride + (y1 - 1 - ly) * stride;
  }

  /** Validation puts every source access of the rectangle inside the payload. */
  lemma ValidatedAccess(layer: Layer, rect: Rect, x: int, y: int)
    requires layer.surface.transport.Some? && ValidateSurfacePixelRect(layer, rect) && rect.Contains(x, y)
    ensures var p := layer.payload.value;
            var lx, ly := x - layer.surface.placement.x, y - layer.surface.placement.y;
            && 0 <= lx < p.width && 0 <= ly < p.height && 0 <= ly * p.stride
            && ly * p.stride + lx * 4 + 4 <= |p.pixels|
            && SourceAt(layer, x, y) == Decode(PayloadWord(p, ly * p.stride + lx * 4), p.format)
  {
    hide Decode, PayloadWord;
    var p, placement := layer.payload.value, layer.surface.placement;
    RowOffset(y - placement.y, rect.y1 - placement.y, x - placement.x, rect.x1 - placement.x, p.stride, |p.pixels|);
  }

  /** What both paths of `copy_surface_rect` must do: blend the surface onto every pixel of
      the rectangle and leave every other word alone. Determines `after`. */
  ghost predicate BlendedRect(before: seq<Word>, after: seq<Word>, o: OutputState, layer: Layer, rect: Rect)
    requires o.Valid()
  {
    && |before| == |after|
    && forall k :: 0 <= k < |after| ==>
         after[k] == if InRect(o, rect, k) then Over(SourceAt(layer, Col(o, k), Row(o, k)), before[k]) else before[k]
  }

  /** One vector step: eight words ORed with the alpha mask and stored together. */
  method StoreLanes(fb: array<Word>, at: nat, src: seq<U8>, index: nat)
    requires at + 8 <= fb.Length && 4 * (index + 8) <= |src|
    modifies fb
    ensures forall k :: 0 <= k < fb.Length ==>
      fb[k] == if at <= k < at + 8 then OpaqueWord(SourceWord(src, index + k - at)) else old(fb[k])
  {
    hide OrAlpha, OpaqueWord, SourceWord;
    var lanes := seq(8, lane requires 0 <= lane < 8 => OrAlpha(SourceWord(src, index + lane)));
    forall lane | 0 <= lane < 8
      ensures lanes[lane] == OpaqueWord(SourceWord(src, index + lane))
    {
      MaskIsRedundant(SourceWord(src, index + lane));
    }
    forall k | at <= k < at + 8 {
      fb[k] := lanes[k - at];
    }
  }

  /** `copy_xrgb_row_avx2`: eight lanes at a time, then a scalar tail. */
  method CopyXrgbRowAvx2(fb: array<Word>, start: nat, end: nat, src: seq<U8>)
    requires start <= end <= fb.Length && |src| == 4 * (end - start)
    modifies fb
    ensures forall k :: 0 <= k < fb.Length ==>
      fb[k] == if start <= k < end then OpaqueWord(SourceWord(src, k - start)) else old(fb[k])
  {
    hide OpaqueWord, SourceWord;
    var index := 0;
    while index + 8 <= end - start
      invariant 0 <= index <= end - start
      invariant forall k :: 0 <= k < fb.Length ==>
        fb[k] == if start <= k < start + index then OpaqueWord(SourceWord(src, k - start)) else old(fb[k])
    {
      StoreLanes(fb, start + index, src, index);
      index := index + 8;
    }
    for i := index to end - start
      invariant forall k :: 0 <= k < fb.Length ==>
        fb[k] == if start <= k < start + i then OpaqueWord(SourceWord(src, k - start)) else old(fb[k])
    {
      StoreScalar(fb, start + i, src, i);
    }
  }

  /** One scalar step. */
  method StoreScalar(fb: array<Word>, at: nat, src: seq<U8>, i: nat)
    requires at < fb.Length && 4 * (i + 1) <= |src|
    modifies fb
    ensures forall k :: 0 <= k < fb.Length ==>
      fb[k] == if k == at then OpaqueWord(SourceWord(src, i)) else old(fb[k])
  {
    fb[at] := OpaqueWord(FromLittleEndian(src[4 * i], src[4 * i + 1], src[4 * i + 2], src[4 * i + 3]));
  }

  /** The `i`-th little-endian word of a byte row; zero past its end. */
  function SourceWord(src: seq<U8>, i: int): Word
  {
    if 0 <= 4 * i && 4 * i + 4 <= |src|
    then FromLittleEndian(src[4 * i], src[4 * i + 1], src[4 * i + 2], src[4 * i + 3])
    else 0
  }

  /** `copy_xrgb_row`; `avx2` is the processor's answer. */
  method CopyXrgbRow(fb: array<Word>, start: nat, end: nat, src: seq<U8>, avx2: bool) returns (ok: bool)
    requires start <= end <= fb.Length
    modifies fb
    ensures ok <==> |src| == 4 * (end - start)
    ensures ok ==> forall k :: 0 <= k < fb.Length ==>
      fb[k] == if start <= k < end then OpaqueWord(SourceWord(src, k - start)) else old(fb[k])
    ensures !ok ==> fb[..] == old(fb[..])
  {
    if |src| != 4 * (end - start) {
      return false;
    }
    if end - start >= SIMD_XRGB_MIN_PIXELS && avx2 {
      CopyXrgbRowAvx2(fb, start, end, src);
      return true;
    }
    for i := 0 to end - start
      invariant forall k :: 0 <= k < fb.Length ==>
        fb[k] == if start <= k < start + i then OpaqueWord(SourceWord(src, k - start)) else old(fb[k])
    {
      StoreScalar(fb, start + i, src, i);
    }
    return true;
  }

  /** The word the row-slice path stores for a pixel: the payload's bytes at its offset, the
      alpha byte set, nothing decoded and nothing blended. */
  function CopiedWord(layer: Layer, x: int, y: int): Word
    requires layer.payload.Some?
  {
    var p := layer.payload.value;
    var offset := (y - layer.surface.placement.y) * p.stride + (x - layer.surface.placement.x) * 4;
    if 0 <= offset && offset + 4 <= |p.pixels| then OpaqueWord(PayloadWord(p, offset)) else 0
  }

  /** What the row-slice path does to a rectangle. */
  ghost predicate CopiedRect(before: seq<Word>, after: seq<Word>, o: OutputState, layer: Layer, rect: Rect)
    requires o.Valid() && layer.payload.Some?
  {
    && |before| == |after|
    && forall k :: 0 <= k < |after| ==>
         after[k] == if InRect(o, rect, k) then CopiedWord(layer, Col(o, k), Row(o, k)) else before[k]
  }

  /** The source bytes of one row of the rectangle. */
  lemma SourceRow(layer: Layer, rect: Rect, y: int, src: seq<U8>, i: nat)
    requires layer.surface.transport.Some? && layer.payload.Some? && ValidateSurfacePixelRect(layer, rect)
    requires rect.y0 <= y < rect.y1 && i < rect.x1 - rect.x0
    requires var p := layer.payload.value;
             var at := (y - layer.surface.placement.y) * p.stride + (rect.x0 - layer.surface.placement.x) * 4;
             0 <= at && at + 4 * (rect.x1 - rect.x0) <= |p.pixels| && src == p.pixels[at..at + 4 * (rect.x1 - rect.x0)]
    ensures CopiedWord(layer, rect.x0 + i, y) == OpaqueWord(SourceWord(src, i))
  {
    hide FromLittleEndian, OpaqueWord, SourceAt, ValidateSurfacePixelRect;
    ValidatedAccess(layer, rect, rect.x0 + i, y);
  }

  /** One row of the row-slice path. */
  method CopySurfaceRowXrgb(fb: array<Word>, o: OutputState, layer: Layer, rect: Rect, y: int, avx2: bool)
    requires o.Valid() && fb.Length == o.Words() && RectIn(rect, o)
    requires layer.surface.transport.Some? && layer.payload.Some? && ValidateSurfacePixelRect(layer, rect)
    requires layer.payload.value.format == FORMAT_XRGB8888
    requires rect.y0 <= y < rect.y1
    modifies fb
    ensures forall k :: 0 <= k < fb.Length ==>
      fb[k] == if InRect(o, rect, k) && Row(o, k) == y then CopiedWord(layer, Col(o, k), y) else old(fb[k])
  {
    hide OpaqueWord, SourceWord, SourceAt, CopiedWord, ValidateSurfacePixelRect, InRect, Row, Col;
    var payload, placement := layer.payload.value, layer.surface.placement;
    var width := rect.x1 - rect.x0;
    var localX0, localY := rect.x0 - placement.x, y - placement.y;
    ValidatedAccess(layer, rect, rect.x0, y);
    ValidatedAccess(layer, rect, rect.x1 - 1, y);
    var srcStart := localY * payload.stride + localX0 * 4;
    var src := payload.pixels[srcStart..srcStart + width * 4];
    AtPosition(o, rect.x0, y);
    AtPosition(o, rect.x1 - 1, y);
    var dstStart := o.At(rect.x0, y);
    ghost var before := fb[..];
    var ok := CopyXrgbRow(fb, dstStart, dstStart + width, src, avx2);
    assert ok;
    forall k | 0 <= k < fb.Length
      ensures fb[k] == if InRect(o, rect, k) && Row(o, k) == y then CopiedWord(layer, Col(o, k), y) else before[k]
    {
      RowSlice(o, rect, y, k);
      if dstStart <= k < dstStart + width {
        RowColumn(o, rect, y, k);
        SourceRow(layer, rect, y, src, k - dstStart);
      }
    }
  }

  lemma RowColumn(o: OutputState, rect: Rect, y: int, k: nat)
    requires o.Valid() && RectIn(rect, o) && rect.y0 <= y < rect.y1
    requires o.At(rect.x0, y) <= k < o.At(rect.x0, y) + (rect.x1 - rect.x0)
    ensures Col(o, k) == rect.x0 + (k - o.At(rect.x0, y))
  {
    AtPosition(o, rect.x0 + (k - o.At(rect.x0, y)), y);
  }

  /** Blending an already opaque word stores it as it is. */
  lemma OpaqueOnce(word: Word)
    ensures OpaqueWord(OpaqueWord(word)) == OpaqueWord(word)
  {
  }

  /** The row-slice path of `copy_surface_rect`, for opaque payloads. */
  method CopySurfaceRectXrgb(fb: array<Word>, o: OutputState, layer: Layer, rect: Rect, avx2: bool) returns (ok: bool)
    requires o.Valid() && fb.Length == o.Words() && RectIn(rect, o)
    requires layer.surface.transport.Some? && layer.payload.Some? && ValidateSurfacePixelRect(layer, rect)
    requires layer.payload.value.format == FORMAT_XRGB8888
    modifies fb
    ensures ok && CopiedRect(old(fb[..]), fb[..], o, layer, rect)
  {
    hide CopiedWord, ValidateSurfacePixelRect, Row, Col;
    for y := rect.y0 to rect.y1
      invariant forall k :: 0 <= k < fb.Length ==>
        fb[k] == if InRect(o, rect, k) && Row(o, k) < y then CopiedWord(layer, Col(o, k), Row(o, k)) else old(fb[k])
    {
      CopySurfaceRowXrgb(fb, o, layer, rect, y, avx2);
    }
    ok := true;
  }

  /** Every source pixel of the rectangle decodes. */
  ghost predicate RectDecodable(layer: Layer, rect: Rect)
  {
    forall x, y :: rect.Contains(x, y) ==> SourceAt(layer, x, y).Some?
  }

  /** The per-pixel path of `copy_surface_rect`. */
  method CopySurfaceRectGeneric(fb: array<Word>, o: OutputState, layer: Layer, rect: Rect) returns (ok: bool)
    requires o.Valid() && fb.Length == o.Words() && RectIn(rect, o)
    modifies fb
    ensures ok <==> RectDecodable(layer, rect)
    ensures ok ==> BlendedRect(old(fb[..]), fb[..], o, layer, rect)
  {
    for y := rect.y0 to rect.y1
      invariant forall x', y' :: rect.Contains(x', y') && y' < y ==> SourceAt(layer, x', y').Some?
      invariant forall k :: 0 <= k < fb.Length ==>
        fb[k] == if InRect(o, rect, k) && Row(o, k) < y
                 then Over(SourceAt(layer, Col(o, k), Row(o, k)), old(fb[k])) else old(fb[k])
    {
      for x := rect.x0 to rect.x1
        invariant forall x', y' :: rect.Contains(x', y') && (y' < y || (y' == y && x' < x)) ==> SourceAt(layer, x', y').Some?
        invariant forall k :: 0 <= k < fb.Length ==>
          fb[k] == if InRect(o, rect, k) && (Row(o, k) < y || (Row(o, k) == y && Col(o, k) < x))
                   then Over(SourceAt(layer, Col(o, k), Row(o, k)), old(fb[k])) else old(fb[k])
      {
        AtPosition(o, x, y);
        var index := o.At(x, y);
        var src := SourceAt(layer, x, y);
        if src.None? {
          assert rect.Contains(x, y);
          return false;
        }
        ghost var before := fb[..];
        fb[index] := SourceOver(src.value, fb[index]);
        forall k | 0 <= k < fb.Length
          ensures fb[k] == if InRect(o, rect, k) && (Row(o, k) < y || (Row(o, k) == y && Col(o, k) < x + 1))
                           then Over(SourceAt(layer, Col(o, k), Row(o, k)), old(fb[k])) else old(fb[k])
        {
          PositionAt(o, k);
          assert k != index ==> fb[k] == before[k];
        }
      }
    }
    ok := true;
  }

  /** `copy_surface_rect`. */
  method CopySurfaceRect(fb: array<Word>, o: OutputState, layer: Layer, rect: Rect, avx2: bool) returns (ok: bool)
    requires o.Valid() && fb.Length == o.Words() && RectIn(rect, o)
    requires ValidateSurfacePixelRect(layer, rect)
    modifies fb
    ensures ok <==> RectDecodable(layer, rect)
    ensures ok ==> BlendedRect(old(fb[..]), fb[..], o, layer, rect)
  {
    if layer.surface.transport.Some? && layer.payload.value.format == FORMAT_XRGB8888 {
      forall x, y | rect.Contains(x, y)
        ensures SourceAt(layer, x, y).Some?
      {
        ValidatedAccess(layer, rect, x, y);
      }
      ok := CopySurfaceRectXrgb(fb, o, layer, rect, avx2);
      PathsAgree(old(fb[..]), fb[..], o, layer, rect);
    } else {
      ok := CopySurfaceRectGeneric(fb, o, layer, rect);
    }
  }

  /** Storing the bytes is blending the decoded pixel, inside a validated rectangle. */
  lemma CopiedIsBlended(layer: Layer, rect: Rect, x: int, y: int, dst: Word)
    requires layer.surface.transport.Some? && layer.payload.Some? && ValidateSurfacePixelRect(layer, rect)
    requires layer.payload.value.format == FORMAT_XRGB8888 && rect.Contains(x, y)
    ensures CopiedWord(layer, x, y) == Over(SourceAt(layer, x, y), dst)
  {
    hide PayloadWord, OpaqueWord, SourceAt, ValidateSurfacePixelRect;
    ValidatedAccess(layer, rect, x, y);
    var p := layer.payload.value;
    OpaqueOnce(PayloadWord(p, (y - layer.surface.placement.y) * p.stride + (x - layer.surface.placement.x) * 4));
  }

  /** The row-slice path and the per-pixel path do the same: on every rectangle validation
      accepts, whatever stride and origin, copying rows of bytes is decoding and blending
      pixel by pixel. */
  lemma PathsAgree(before: seq<Word>, after: seq<Word>, o: OutputState, layer: Layer, rect: Rect)
    requires o.Valid() && layer.surface.transport.Some? && layer.payload.Some? && ValidateSurfacePixelRect(layer, rect)
    requires layer.payload.value.format == FORMAT_XRGB8888
    ensures CopiedRect(before, after, o, layer, rect) <==> BlendedRect(before, after, o, layer, rect)
  {
    hide CopiedWord, SourceAt, ValidateSurfacePixelRect, Over, Row, Col;
    forall k | 0 <= k < |before| && InRect(o, rect, k)
      ensures CopiedWord(layer, Col(o, k), Row(o, k)) == Over(SourceAt(layer, Col(o, k), Row(o, k)), before[k])
    {
      CopiedIsBlended(layer, rect, Col(o, k), Row(o, k), before[k]);
    }
  }

  // -------------------------------------------------------------------- whole frames

  /** The part of a damage rectangle a layer is copied into. */
  function CopyRect(layer: Layer, damage: Rect): Option<Rect>
  {
    if SurfaceBounds(layer.surface).None? then None
    else SurfaceBounds(layer.surface).value.Intersect(damage)
  }

  /** `validate_surface_pixels_for_damage`. */
  ghost predicate ValidatedForDamage(layers: seq<Layer>, damage: seq<Rect>)
  {
    forall d, i :: 0 <= d < |damage| && 0 <= i < |layers| && CopyRect(layers[i], damage[d]).Some?
      ==> ValidateSurfacePixelRect(layers[i], CopyRect(layers[i], damage[d]).value)
  }

  /** The two loops of `validate_surface_pixels_for_damage`. */
  method ValidateSurfacePixelsForDamage(layers: seq<Layer>, damage: seq<Rect>) returns (ok: bool)
    ensures ok <==> ValidatedForDamage(layers, damage)
  {
    for d := 0 to |damage|
      invariant forall e, i :: (0 <= e < d && 0 <= i < |layers| && CopyRect(layers[i], damage[e]).Some?
        ==> ValidateSurfacePixelRect(layers[i], CopyRect(layers[i], damage[e]).value))
    {
      for i := 0 to |layers|
        invariant forall j :: (0 <= j < i && CopyRect(layers[j], damage[d]).Some?
          ==> ValidateSurfacePixelRect(layers[j], CopyRect(layers[j], damage[d]).value))
      {
        var copy := CopyRect(layers[i], damage[d]);
        if copy.Some? && !ValidateSurfacePixelRect(layers[i], copy.value) {
          return false;
        }
      }
    }
    ok := true;
  }

  /** One damage rectangle of `compose_damage_rects`. */
  method ComposeDamageRect(fb: array<Word>, o: OutputState, layers: seq<Layer>, damage: Rect, avx2: bool) returns (ok: bool)
    requires o.Valid() && fb.Length == o.Words() && RectIn(damage, o)
    requires ValidatedForDamage(layers, [damage])
    modifies fb
    ensures ok <==> Decodable(layers, [damage])
    ensures ok ==> forall k :: 0 <= k < fb.Length ==>
      fb[k] == if InRect(o, damage, k) then PixelOf(layers, Col(o, k), Row(o, k)) else old(fb[k])
  {
    FillFramebufferRect(fb, o, damage, BACKGROUND);
    for i := 0 to |layers|
      invariant Decodable(layers[..i], [damage])
      invariant forall k :: 0 <= k < fb.Length ==>
        fb[k] == if InRect(o, damage, k) then PixelOf(layers[..i], Col(o, k), Row(o, k)) else old(fb[k])
    {
      var layer := layers[i];
      assert layers[..i + 1] == layers[..i] + [layer];
      assert [damage][0] == damage;
      ghost var before := fb[..];
      var copied := true;
      var copy := CopyRect(layer, damage);
      if copy.Some? {
        copied := CopySurfaceRect(fb, o, layer, copy.value, avx2);
      }
      CopyRectPixels(layer, damage);
      if !copied {
        UndecodableLayer(layers, i, damage);
        return false;
      }
      DecodableStep(layers[..i], layer, damage);
      forall k | 0 <= k < fb.Length
        ensures fb[k] == if InRect(o, damage, k) then PixelOf(layers[..i + 1], Col(o, k), Row(o, k)) else old(fb[k])
      {
        PixelOfStep(layers[..i], layer, Col(o, k), Row(o, k));
        assert fb[..][k] == fb[k] && before[k] == if InRect(o, damage, k) then PixelOf(layers[..i], Col(o, k), Row(o, k)) else old(fb[k]);
      }
    }
    assert layers[..|layers|] == layers;
    ok := true;
  }

  lemma CopyRectPixels(layer: Layer, damage: Rect)
    ensures forall x, y :: damage.Contains(x, y) && SurfaceAt(layer.surface, x, y)
                      <==> CopyRect(layer, damage).Some? && CopyRect(layer, damage).value.Contains(x, y)
  {
  }

  lemma UndecodableLayer(layers: seq<Layer>, i: nat, damage: Rect)
    requires i < |layers| && CopyRect(layers[i], damage).Some?
    requires !RectDecodable(layers[i], CopyRect(layers[i], damage).value)
    ensures !Decodable(layers, [damage])
  {
    var copy := CopyRect(layers[i], damage).value;
    var x, y :| copy.Contains(x, y) && SourceAt(layers[i], x, y).None?;
    CopyRectPixels(layers[i], damage);
    assert [damage][0].Contains(x, y);
    assert Covers([damage], x, y) && SurfaceAt(layers[i].surface, x, y);
  }

  lemma DecodableStep(layers: seq<Layer>, top: Layer, damage: Rect)
    requires Decodable(layers, [damage])
    requires CopyRect(top, damage).Some? ==> RectDecodable(top, CopyRect(top, damage).value)
    ensures Decodable(layers + [top], [damage])
  {
    CopyRectPixels(top, damage);
    var all := layers + [top];
    forall x, y, i | Covers([damage], x, y) && 0 <= i < |all| && SurfaceAt(all[i].surface, x, y)
      ensures SourceAt(all[i], x, y).Some?
    {
      assert damage.Contains(x, y);
      if i < |layers| {
        assert all[i] == layers[i];
      }
    }
  }

  /** `compose_damage_rects`: for any in-bounds damage list, overlapping or repeated, it
      recomposes exactly the damaged pixels; it fails exactly when one does not decode. */
  method ComposeDamageRects(fb: array<Word>, o: OutputState, store: Store, surfaces: seq<Surface>, damage: seq<Rect>, avx2: bool)
    returns (ok: bool)
    requires o.Valid() && fb.Length == o.Words()
    requires forall d :: 0 <= d < |damage| ==> RectIn(damage[d], o)
    requires ValidatedForDamage(StoreLayers(store, Canonicalize(surfaces)), damage)
    modifies fb
    ensures ok <==> Decodable(StoreLayers(store, Canonicalize(surfaces)), damage)
    ensures ok ==> Repainted(old(fb[..]), fb[..], o, StoreLayers(store, Canonicalize(surfaces)), damage)
  {
    hide Decodable, ValidatedForDamage, Covers, Repainted, Col, Row, InRect, PixelOf, Canonicalize;
    var layers := StoreLayers(store, Canonicalize(surfaces));
    NothingToDecode(layers);
    CoversNothing();
    assert damage[..0] == [];
    for d := 0 to |damage|
      invariant Decodable(layers, damage[..d])
      invariant forall k :: 0 <= k < fb.Length ==>
        fb[k] == if Covers(damage[..d], Col(o, k), Row(o, k)) then PixelOf(layers, Col(o, k), Row(o, k)) else old(fb[k])
    {
      ValidatedSingle(layers, damage, d);
      CoversStep(damage, d);
      var composed := ComposeDamageRect(fb, o, layers, damage[d], avx2);
      DecodableSplit(layers, damage, d);
      if !composed {
        if Decodable(layers, damage) {
          DecodableMonotone(layers, damage[..d + 1], damage);
          assert false;
        }
        return false;
      }
      forall k
        ensures InRect(o, damage[d], k) <==> damage[d].Contains(Col(o, k), Row(o, k))
      {
        InRectMeaning(o, damage[d], k);
      }
    }
    assert damage[..|damage|] == damage;
    WordsToPixels(old(fb[..]), fb[..], o, layers, damage);
    ok := true;
  }

  lemma InRectMeaning(o: OutputState, rect: Rect, k: nat)
    requires o.Valid()
    ensures InRect(o, rect, k) <==> rect.Contains(Col(o, k), Row(o, k))
  {
  }

  lemma NothingToDecode(layers: seq<Layer>)
    ensures Decodable(layers, [])
  {
  }

  lemma CoversNothing()
    ensures forall x, y :: !Covers([], x, y)
  {
  }

  lemma CoversStep(damage: seq<Rect>, d: nat)
    requires d < |damage|
    ensures forall x, y :: Covers(damage[..d + 1], x, y) <==> Covers(damage[..d], x, y) || damage[d].Contains(x, y)
  {
    forall x, y
      ensures Covers(damage[..d + 1], x, y) <==> Covers(damage[..d], x, y) || damage[d].Contains(x, y)
    {
      if damage[d].Contains(x, y) { assert damage[..d + 1][d].Contains(x, y); }
      if Covers(damage[..d], x, y) {
        var i :| 0 <= i < d && damage[..d][i].Contains(x, y);
        assert damage[..d + 1][i].Contains(x, y);
      }
      if Covers(damage[..d + 1], x, y) {
        var i :| 0 <= i < d + 1 && damage[..d + 1][i].Contains(x, y);
        if i < d { assert damage[..d][i].Contains(x, y); }
      }
    }
  }

  lemma ValidatedSingle(layers: seq<Layer>, damage: seq<Rect>, d: nat)
    requires d < |damage| && ValidatedForDamage(layers, damage)
    ensures ValidatedForDamage(layers, [damage[d]])
  {
    forall e, i | 0 <= e < 1 && 0 <= i < |layers| && CopyRect(layers[i], [damage[d]][e]).Some?
      ensures ValidateSurfacePixelRect(layers[i], CopyRect(layers[i], [damage[d]][e]).value)
    {
      assert [damage[d]][e] == damage[d];
    }
  }

  lemma DecodableSplit(layers: seq<Layer>, damage: seq<Rect>, d: nat)
    requires d < |damage| && Decodable(layers, damage[..d])
    ensures Decodable(layers, damage[..d + 1]) <==> Decodable(layers, [damage[d]])
  {
    CoversStep(damage, d);
    forall x, y
      ensures Covers([damage[d]], x, y) <==> damage[d].Contains(x, y)
    {
      assert [damage[d]][0] == damage[d];
    }
    if Decodable(layers, damage[..d + 1]) {
      forall x, y | Covers([damage[d]], x, y)
        ensures Covers(damage[..d + 1], x, y)
      {
      }
    } else {
      var x, y, i :| Covers(damage[..d + 1], x, y) && 0 <= i < |layers| && SurfaceAt(layers[i].surface, x, y)
                  && SourceAt(layers[i], x, y).None?;
      assert damage[d].Contains(x, y);
      assert Covers([damage[d]], x, y);
    }
  }

  lemma DecodableMonotone(layers: seq<Layer>, some: seq<Rect>, all: seq<Rect>)
    requires some <= all && Decodable(layers, all)
    ensures Decodable(layers, some)
  {
    forall x, y | Covers(some, x, y)
      ensures Covers(all, x, y)
    {
      var i :| 0 <= i < |some| && some[i].Contains(x, y);
      assert all[i].Contains(x, y);
    }
  }

  lemma WordsToPixels(before: seq<Word>, after: seq<Word>, o: OutputState, layers: seq<Layer>, damage: seq<Rect>)
    requires o.Valid() && |before| == |after| == o.Words()
    requires forall d :: 0 <= d < |damage| ==> RectIn(damage[d], o)
    requires forall k :: 0 <= k < |after| ==>
      after[k] == if Covers(damage, Col(o, k), Row(o, k)) then PixelOf(layers, Col(o, k), Row(o, k)) else before[k]
    ensures Repainted(before, after, o, layers, damage)
  {
    forall x, y | o.OnScreen(x, y)
      ensures WordAt(after, o, x, y) == if Covers(damage, x, y) then PixelOf(layers, x, y) else WordAt(before, o, x, y)
    {
      AtPosition(o, x, y);
    }
  }
}
