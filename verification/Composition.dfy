/** What a pixel of the screen should be: the back-to-front source-over fold of the
    surfaces covering it, from the background. */
module Composition {
  import opened Machine
  import opened Ordering
  import opened SceneTypes
  import opened Geometry
  import opened Blend

  /** A surface together with the payload its transport handle resolves to. */
  datatype Layer = Layer(surface: Surface, payload: Option<Payload>)

  type Store = map<Handle, Payload>

  function Resolve(store: Store, s: Surface): Layer
  {
    Layer(s, if s.transport.Some? && s.transport.value in store then Some(store[s.transport.value]) else None)
  }

  /** The layers the renderer sees: every surface with its resident payload, if any. */
  function StoreLayers(store: Store, surfaces: seq<Surface>): (r: seq<Layer>)
    ensures |r| == |surfaces| && forall i :: 0 <= i < |r| ==> r[i] == Resolve(store, surfaces[i])
  {
    seq(|surfaces|, i requires 0 <= i < |surfaces| => Resolve(store, surfaces[i]))
  }

  /** `surface_output_bounds`. */
  function SurfaceBounds(s: Surface): (r: Option<Rect>)
    ensures r.Some? ==> r.value.x0 == s.placement.x && r.value.y0 == s.placement.y
  {
    if !s.placement.visible then None
    else FromOriginSize(s.placement.x, s.placement.y, s.placement.width, s.placement.height)
  }

  predicate SurfaceAt(s: Surface, x: int, y: int)
  {
    SurfaceBounds(s).Some? && SurfaceBounds(s).value.Contains(x, y)
  }

  /** `id.contains("panel")`. */
  predicate ContainsPanel(id: string)
  {
    "panel" <= id || (id != [] && ContainsPanel(id[1..]))
  }

  function FallbackPixel(s: Surface): Word
  {
    if ContainsPanel(s.id) then 0xFF00_00FF else 0xFFFF_0000
  }

  /** `decode_source_pixel`; `None` is its error. */
  function Decode(word: Word, format: U32): (r: Option<SourcePixel>)
    ensures r.Some? ==> WellFormed(r.value)
  {
    if format == FORMAT_XRGB8888 then
      Some(Opaque(OpaqueWord(word)))
    else if format == FORMAT_ARGB8888 then
      var a, r, g, b := Alpha(word), Red(word), Green(word), Blue(word);
      if r > a || g > a || b > a then None else Some(Premultiplied(a, r, g, b))
    else
      None
  }

  function PayloadWord(p: Payload, offset: nat): Word
    requires offset + 4 <= |p.pixels|
  {
    FromLittleEndian(p.pixels[offset], p.pixels[offset + 1], p.pixels[offset + 2], p.pixels[offset + 3])
  }

  /** The generic path's source pixel (`pixel_for_surface` with the caller's fallback);
      `None` is one of its errors. */
  function SourceAt(layer: Layer, x: int, y: int): (r: Option<SourcePixel>)
    ensures r.Some? ==> WellFormed(r.value)
  {
    var s := layer.surface;
    if s.transport.None? then
      Some(Opaque(FallbackPixel(s)))
    else if layer.payload.None? then
      None
    else
      var p := layer.payload.value;
      var lx, ly := Max(x - s.placement.x, 0), Max(y - s.placement.y, 0);
      if lx >= p.width || ly >= p.height then
        Some(Opaque(FallbackPixel(s)))
      else
        assert ly * p.stride >= 0;
        var offset := ly * p.stride + lx * 4;
        if offset + 4 > |p.pixels| then None else Decode(PayloadWord(p, offset), p.format)
  }

  /** A covering surface at one pixel: its stacking key and its source pixel there. */
  datatype Entry = Entry(key: StackKey, src: Option<SourcePixel>)

  /** The covering surfaces at a pixel, back to front. */
  function Stack(layers: seq<Layer>, x: int, y: int): seq<Entry>
  {
    if layers == [] then
      []
    else
      var below := Stack(layers[..|layers| - 1], x, y);
      var top := layers[|layers| - 1];
      if SurfaceAt(top.surface, x, y) then below + [Entry(KeyOf(top.surface), SourceAt(top, x, y))] else below
  }

  /** An undecodable source makes composition fail; it is given no effect here. */
  function Over(src: Option<SourcePixel>, dst: Word): Word
  {
    if src.Some? then SourceOver(src.value, dst) else dst
  }

  function BlendStack(entries: seq<Entry>): Word
  {
    if entries == [] then BACKGROUND
    else Over(entries[|entries| - 1].src, BlendStack(entries[..|entries| - 1]))
  }

  /** The canonical colour of a pixel. */
  function PixelOf(layers: seq<Layer>, x: int, y: int): Word
  {
    BlendStack(Stack(layers, x, y))
  }

  /** Every composed pixel is opaque. */
  lemma {:induction false} BlendStackOpaque(entries: seq<Entry>)
    ensures Alpha(BlendStack(entries)) == 0xFF
  {
    if entries != [] {
      BlendStackOpaque(entries[..|entries| - 1]);
      var src := entries[|entries| - 1].src;
      if src.Some? {
        OverKeepsOpaque(src.value, BlendStack(entries[..|entries| - 1]));
      }
    }
  }

  /** Adding the layer above. */
  lemma PixelOfStep(layers: seq<Layer>, top: Layer, x: int, y: int)
    ensures PixelOf(layers + [top], x, y)
         == if SurfaceAt(top.surface, x, y) then Over(SourceAt(top, x, y), PixelOf(layers, x, y)) else PixelOf(layers, x, y)
  {
    assert (layers + [top])[..|layers|] == layers;
    var below := Stack(layers, x, y);
    if SurfaceAt(top.surface, x, y) {
      assert (below + [Entry(KeyOf(top.surface), SourceAt(top, x, y))])[..|below|] == below;
    }
  }

  /** The four bytes of an ARGB payload pixel are blue, green, red, alpha; a colour above its
      alpha is an error. */
  lemma ArgbBytes(p: Payload, offset: nat)
    requires offset + 4 <= |p.pixels|
    ensures var b, g, r, a := p.pixels[offset], p.pixels[offset + 1], p.pixels[offset + 2], p.pixels[offset + 3];
      Decode(PayloadWord(p, offset), FORMAT_ARGB8888) == if r <= a && g <= a && b <= a then Some(Premultiplied(a, r, g, b)) else None
  {
    PackChannels(p.pixels[offset + 3], p.pixels[offset + 2], p.pixels[offset + 1], p.pixels[offset]);
    hide Alpha, Red, Green, Blue, Pack;
  }

  /** Those of an XRGB pixel are blue, green, red and nothing; the pixel is opaque. */
  lemma XrgbBytes(p: Payload, offset: nat)
    requires offset + 4 <= |p.pixels|
    ensures var src := Decode(PayloadWord(p, offset), FORMAT_XRGB8888);
      && src.Some? && src.value.Opaque? && Alpha(src.value.pixel) == 0xFF
      && Blue(src.value.pixel) == p.pixels[offset] && Green(src.value.pixel) == p.pixels[offset + 1] && Red(src.value.pixel) == p.pixels[offset + 2]
  {
    hide Alpha, Red, Green, Blue, Pack, OpaqueWord;
    var word := PayloadWord(p, offset);
    PackChannels(p.pixels[offset + 3], p.pixels[offset + 2], p.pixels[offset + 1], p.pixels[offset]);
    OpaqueChannels(word);
  }

  /** Any other format is an error, and a surface without a payload shows its fallback. */
  lemma OtherSources(word: Word, format: U32, layer: Layer, x: int, y: int)
    ensures format != FORMAT_XRGB8888 && format != FORMAT_ARGB8888 ==> Decode(word, format) == None
    ensures layer.surface.transport.None? ==>
      SourceAt(layer, x, y) == Some(Opaque(if ContainsPanel(layer.surface.id) then 0xFF00_00FF else 0xFFFF_0000))
  {
  }

  ghost predicate EntryLess(a: Entry, b: Entry)
  {
    KeyLess(a.key, b.key)
  }

  ghost function Surfaces(layers: seq<Layer>): (r: seq<Surface>)
    ensures |r| == |layers| && forall i :: 0 <= i < |r| ==> r[i] == layers[i].surface
  {
    seq(|layers|, i requires 0 <= i < |layers| => layers[i].surface)
  }

  /** The stack consists of exactly the covering layers' entries. */
  lemma {:induction false} StackMembers(layers: seq<Layer>, x: int, y: int, e: Entry)
    ensures e in Stack(layers, x, y)
       <==> exists i :: 0 <= i < |layers| && SurfaceAt(layers[i].surface, x, y)
                     && e == Entry(KeyOf(layers[i].surface), SourceAt(layers[i], x, y))
  {
    if layers != [] {
      var front := layers[..|layers| - 1];
      StackMembers(front, x, y, e);
      assert forall i :: 0 <= i < |front| ==> front[i] == layers[i];
    }
  }

  /** ... and is strictly sorted whenever the layers are. */
  lemma {:induction false} StackSorted(layers: seq<Layer>, x: int, y: int)
    requires StrictlySorted(SurfaceLess, Surfaces(layers))
    ensures StrictlySorted(EntryLess, Stack(layers, x, y))
  {
    if layers != [] {
      var front, top := layers[..|layers| - 1], layers[|layers| - 1];
      assert Surfaces(front) == Surfaces(layers)[..|front|];
      StackSorted(front, x, y);
      var below := Stack(front, x, y);
      forall k | 0 <= k < |below|
        ensures KeyLess(below[k].key, KeyOf(top.surface))
      {
        StackMembers(front, x, y, below[k]);
        var i :| 0 <= i < |front| && SurfaceAt(front[i].surface, x, y)
              && below[k] == Entry(KeyOf(front[i].surface), SourceAt(front[i], x, y));
        assert SurfaceLess(Surfaces(layers)[i], Surfaces(layers)[|layers| - 1]);
      }
    }
  }

  /** `a`'s covering layers at a pixel all occur in `b` with the same key and source. */
  ghost predicate StackIncluded(a: seq<Layer>, b: seq<Layer>, x: int, y: int)
  {
    forall i :: 0 <= i < |a| && SurfaceAt(a[i].surface, x, y) ==>
      exists j :: 0 <= j < |b| && SameContribution(a[i], b[j], x, y)
  }

  predicate SameContribution(a: Layer, b: Layer, x: int, y: int)
  {
    && SurfaceAt(b.surface, x, y)
    && KeyOf(b.surface) == KeyOf(a.surface)
    && SourceAt(b, x, y) == SourceAt(a, x, y)
  }

  lemma StackIncludedMembers(a: seq<Layer>, b: seq<Layer>, x: int, y: int, e: Entry)
    requires StackIncluded(a, b, x, y) && e in Stack(a, x, y)
    ensures e in Stack(b, x, y)
  {
    StackMembers(a, x, y, e);
    StackMembers(b, x, y, e);
    var i :| 0 <= i < |a| && SurfaceAt(a[i].surface, x, y) && e == Entry(KeyOf(a[i].surface), SourceAt(a[i], x, y));
    var j :| 0 <= j < |b| && SameContribution(a[i], b[j], x, y);
    assert e == Entry(KeyOf(b[j].surface), SourceAt(b[j], x, y));
  }

  /** Two canonical layer lists with the same contributions at a pixel give it one colour. */
  lemma SameContributionsSamePixel(a: seq<Layer>, b: seq<Layer>, x: int, y: int)
    requires StrictlySorted(SurfaceLess, Surfaces(a)) && StrictlySorted(SurfaceLess, Surfaces(b))
    requires StackIncluded(a, b, x, y) && StackIncluded(b, a, x, y)
    ensures PixelOf(a, x, y) == PixelOf(b, x, y)
  {
    KeyOrder();
    assert Asymmetric(EntryLess) by {
      forall e, f | EntryLess(e, f)
        ensures !EntryLess(f, e)
      {
        assert KeyLess(e.key, f.key);
      }
    }
    StackSorted(a, x, y);
    StackSorted(b, x, y);
    forall e
      ensures e in Stack(a, x, y) <==> e in Stack(b, x, y)
    {
      if e in Stack(a, x, y) { StackIncludedMembers(a, b, x, y, e); }
      if e in Stack(b, x, y) { StackIncludedMembers(b, a, x, y, e); }
    }
    SortedUnique(EntryLess, Stack(a, x, y), Stack(b, x, y));
  }

  // ---------------------------------------------------------------- repainting

  /** Framebuffer `fb` shows the colours of `layers` on every pixel outside `except`. */
  ghost predicate ShowsOutside(fb: seq<Word>, o: OutputState, layers: seq<Layer>, except: seq<Rect>)
    requires o.Valid()
  {
    && |fb| == o.Words()
    && forall x, y :: o.OnScreen(x, y) && !Covers(except, x, y) ==> WordAt(fb, o, x, y) == PixelOf(layers, x, y)
  }

  /** The word of an on-screen pixel. */
  function WordAt(fb: seq<Word>, o: OutputState, x: int, y: int): Word
    requires o.Valid() && |fb| == o.Words() && o.OnScreen(x, y)
  {
    AtInRange(o, x, y);
    fb[o.At(x, y)]
  }

  /** `after` is `before` with every pixel of `damage` recomposed, and nothing else touched. */
  ghost predicate Repainted(before: seq<Word>, after: seq<Word>, o: OutputState, layers: seq<Layer>, damage: seq<Rect>)
    requires o.Valid()
  {
    && |before| == |after| == o.Words()
    && (forall x, y :: o.OnScreen(x, y) && Covers(damage, x, y) ==> WordAt(after, o, x, y) == PixelOf(layers, x, y))
    && (forall x, y :: o.OnScreen(x, y) && !Covers(damage, x, y) ==> WordAt(after, o, x, y) == WordAt(before, o, x, y))
    && (forall k :: 0 <= k < o.Words() && k % o.Pitch() >= o.width ==> after[k] == before[k])
  }

  /** The unique framebuffer `Repainted` describes. */
  ghost function Repaint(before: seq<Word>, o: OutputState, layers: seq<Layer>, damage: seq<Rect>): seq<Word>
    requires o.Valid() && |before| == o.Words()
  {
    seq(|before|, k requires 0 <= k < |before| =>
      var x, y := o.originX + k % o.Pitch(), o.originY + k / o.Pitch();
      if o.OnScreen(x, y) && Covers(damage, x, y) then PixelOf(layers, x, y) else before[k])
  }

  lemma RowAndColumn(o: OutputState, x: int, y: int)
    requires o.Valid() && o.OnScreen(x, y)
    ensures o.At(x, y) / o.Pitch() == y - o.originY && o.At(x, y) % o.Pitch() == x - o.originX
  {
    var p, row, col := o.Pitch(), y - o.originY, x - o.originX;
    DivModUnique(p, row, col);
  }

  lemma DivModUnique(p: nat, row: nat, col: int)
    requires 0 <= col < p
    ensures (row * p + col) / p == row && (row * p + col) % p == col
  {
    MulNonNegative(row, p);
    var k := row * p + col;
    DivModDefinition(k, p);
    RowsDoNotOverlap(p, k / p, row);
    RowsDoNotOverlap(p, row, k / p);
  }

  /** A word is either an on-screen pixel or stride padding. */
  lemma WordPosition(o: OutputState, k: nat)
    requires o.Valid() && k < o.Words()
    ensures var x, y := o.originX + k % o.Pitch(), o.originY + k / o.Pitch();
            o.At(x, y) == k && 0 <= k / o.Pitch() < o.height && (k % o.Pitch() < o.width ==> o.OnScreen(x, y))
  {
    DivModDefinition(k, o.Pitch());
    WordRow(o, k);
  }

  lemma WordRow(o: OutputState, k: nat)
    requires o.Valid() && k < o.Words()
    ensures 0 <= k / o.Pitch() < o.height
  {
    DivModDefinition(k, o.Pitch());
    if o.height <= k / o.Pitch() {
      MulMonotone(o.height, k / o.Pitch(), o.Pitch());
      assert false;
    }
  }

  lemma RepaintIsRepainted(before: seq<Word>, o: OutputState, layers: seq<Layer>, damage: seq<Rect>)
    requires o.Valid() && |before| == o.Words()
    ensures Repainted(before, Repaint(before, o, layers, damage), o, layers, damage)
  {
    forall x, y | o.OnScreen(x, y)
      ensures WordAt(Repaint(before, o, layers, damage), o, x, y)
           == if Covers(damage, x, y) then PixelOf(layers, x, y) else WordAt(before, o, x, y)
    {
      AtInRange(o, x, y);
      RowAndColumn(o, x, y);
    }
  }

  lemma RepaintedIsUnique(before: seq<Word>, after: seq<Word>, o: OutputState, layers: seq<Layer>, damage: seq<Rect>)
    requires o.Valid() && Repainted(before, after, o, layers, damage)
    ensures after == Repaint(before, o, layers, damage)
  {
    var r := Repaint(before, o, layers, damage);
    forall k | 0 <= k < |after|
      ensures after[k] == r[k]
    {
      WordPosition(o, k);
      var x, y := o.originX + k % o.Pitch(), o.originY + k / o.Pitch();
      if k % o.Pitch() < o.width {
        assert after[k] == WordAt(after, o, x, y);
        assert before[k] == WordAt(before, o, x, y);
      }
    }
  }

  /** Which list of rectangles names the damage does not matter, only the pixels do:
      so sorting, deduplicating and overlapping rectangles are harmless. */
  lemma RepaintDependsOnCoverOnly(before: seq<Word>, o: OutputState, layers: seq<Layer>, a: seq<Rect>, b: seq<Rect>)
    requires o.Valid() && |before| == o.Words()
    requires forall x, y :: Covers(a, x, y) <==> Covers(b, x, y)
    ensures Repaint(before, o, layers, a) == Repaint(before, o, layers, b)
  {
  }

  /** Repainting more than necessary is harmless where the framebuffer was right already:
      so collapsing a long damage list to the full bounds is sound. */
  lemma RepaintMoreIsHarmless(fb: seq<Word>, o: OutputState, layers: seq<Layer>, a: seq<Rect>, b: seq<Rect>)
    requires o.Valid() && ShowsOutside(fb, o, layers, a)
    requires forall x, y :: Covers(a, x, y) ==> Covers(b, x, y)
    ensures ShowsOutside(Repaint(fb, o, layers, a), o, layers, [])
    ensures ShowsOutside(Repaint(fb, o, layers, b), o, layers, [])
    ensures Repaint(fb, o, layers, a) == Repaint(fb, o, layers, b)
  {
    RepaintIsRepainted(fb, o, layers, a);
    RepaintIsRepainted(fb, o, layers, b);
    forall k | 0 <= k < |fb|
      ensures Repaint(fb, o, layers, a)[k] == Repaint(fb, o, layers, b)[k]
    {
      WordPosition(o, k);
      var x, y := o.originX + k % o.Pitch(), o.originY + k / o.Pitch();
      if o.OnScreen(x, y) {
        assert fb[k] == WordAt(fb, o, x, y);
      }
    }
  }

  /** Every source pixel needed inside `damage` decodes. */
  ghost predicate Decodable(layers: seq<Layer>, damage: seq<Rect>)
  {
    forall x, y, i :: Covers(damage, x, y) && 0 <= i < |layers| && SurfaceAt(layers[i].surface, x, y)
      ==> SourceAt(layers[i], x, y).Some?
  }

  // ------------------------------------------------------------------- what one sees

  lemma {:induction false} NothingAboveCovers(layers: seq<Layer>, top: nat, n: nat, x: int, y: int)
    requires top < n <= |layers| && SurfaceAt(layers[top].surface, x, y)
    requires forall i :: top < i < n ==> !SurfaceAt(layers[i].surface, x, y)
    ensures PixelOf(layers[..n], x, y) == Over(SourceAt(layers[top], x, y), PixelOf(layers[..top], x, y))
    decreases n
  {
    assert layers[..n] == layers[..n - 1] + [layers[n - 1]];
    PixelOfStep(layers[..n - 1], layers[n - 1], x, y);
    if top < n - 1 {
      NothingAboveCovers(layers, top, n - 1, x, y);
    }
  }

  /** The surface stacked highest at a pixel is blended over everything below it, and hides it
      all when it is opaque there; where no surface is, the background shows. */
  lemma TopmostShows(layers: seq<Layer>, top: nat, x: int, y: int)
    requires top < |layers| && SurfaceAt(layers[top].surface, x, y)
    requires forall i :: top < i < |layers| ==> !SurfaceAt(layers[i].surface, x, y)
    ensures PixelOf(layers, x, y) == Over(SourceAt(layers[top], x, y), PixelOf(layers[..top], x, y))
    ensures SourceAt(layers[top], x, y).Some? && SourceAt(layers[top], x, y).value.Opaque? ==>
      && Red(PixelOf(layers, x, y)) == Red(SourceAt(layers[top], x, y).value.pixel)
      && Green(PixelOf(layers, x, y)) == Green(SourceAt(layers[top], x, y).value.pixel)
      && Blue(PixelOf(layers, x, y)) == Blue(SourceAt(layers[top], x, y).value.pixel)
  {
    hide PixelOf, SourceAt, SourceOver, Red, Green, Blue;
    NothingAboveCovers(layers, top, |layers|, x, y);
    assert layers[..|layers|] == layers;
    var src := SourceAt(layers[top], x, y);
    if src.Some? {
      SourceOverExtremes(src.value, PixelOf(layers[..top], x, y));
    }
  }

  lemma {:induction false} BackgroundShows(layers: seq<Layer>, x: int, y: int)
    requires forall i :: 0 <= i < |layers| ==> !SurfaceAt(layers[i].surface, x, y)
    ensures PixelOf(layers, x, y) == BACKGROUND
    decreases |layers|
  {
    if layers != [] {
      var below := layers[..|layers| - 1];
      assert layers == below + [layers[|layers| - 1]];
      PixelOfStep(below, layers[|layers| - 1], x, y);
      BackgroundShows(below, x, y);
    }
  }
}
