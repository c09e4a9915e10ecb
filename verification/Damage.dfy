/** From two scenes to the rectangles that must be repainted, and why that is enough. */
module Damage {
  import opened Machine
  import opened Ordering
  import opened SceneTypes
  import opened Geometry
  import opened Composition

  // ------------------------------------------------------------------ computing it

  /** One step of `surface_damage_rects`: a declared rectangle, in output coordinates. */
  function SurfaceDamageRect(s: Surface, d: DamageRect, bounds: Rect): (r: Option<Rect>)
    ensures r.Some? ==> Within([r.value], bounds)
  {
    match (SurfaceBounds(s), FromOriginSize(0, 0, s.placement.width, s.placement.height),
           FromOriginSize(d.x, d.y, d.width, d.height))
    case (Some(onOutput), Some(localBounds), Some(declared)) =>
      var local := declared.Intersect(localBounds);
      if local.None? then None
      else
        assert localBounds.Contains(local.value.x0, local.value.y0) by {
          assert local.value.Contains(local.value.x0, local.value.y0);
        }
        var r := Rect(s.placement.x + local.value.x0, s.placement.y + local.value.y0,
                      s.placement.x + local.value.x1, s.placement.y + local.value.y1);
        var clipped := r.Intersect(onOutput);
        if clipped.None? then None else clipped.value.Intersect(bounds)
    case _ => None
  }

  function SurfaceDamageRects(s: Surface, rects: seq<DamageRect>, bounds: Rect): (r: seq<Rect>)
  {
    if rects == [] then
      []
    else
      var last := SurfaceDamageRect(s, rects[|rects| - 1], bounds);
      SurfaceDamageRects(s, rects[..|rects| - 1], bounds) + if last.Some? then [last.value] else []
  }

  /** `surface_exposes_or_occupies_different_region`. */
  predicate Differs(was: Surface, now: Surface)
  {
    was.placement != now.placement || was.bufferGeneration != now.bufferGeneration
  }

  /** The id-keyed map of the surfaces of one scene. */
  function ById(surfaces: seq<Surface>, id: string): Option<Surface>
  {
    if surfaces == [] then None
    else if surfaces[|surfaces| - 1].id == id then Some(surfaces[|surfaces| - 1])
    else ById(surfaces[..|surfaces| - 1], id)
  }

  lemma {:induction false} ByIdFound(surfaces: seq<Surface>, id: string)
    ensures ById(surfaces, id).Some? ==> ById(surfaces, id).value in surfaces && ById(surfaces, id).value.id == id
  {
    if surfaces != [] && surfaces[|surfaces| - 1].id != id {
      ByIdFound(surfaces[..|surfaces| - 1], id);
    }
  }

  /** The visible part of a surface, as damage. */
  function Footprint(s: Surface, bounds: Rect): seq<Rect>
  {
    if SurfaceBounds(s).None? then []
    else match SurfaceBounds(s).value.Intersect(bounds)
      case Some(r) => [r]
      case None => []
  }

  predicate Arrives(previous: seq<Surface>, s: Surface)
  {
    var was := ById(previous, s.id);
    was.None? || Differs(was.value, s)
  }

  predicate Leaves(was: Surface, current: seq<Surface>)
  {
    var now := ById(current, was.id);
    now.None? || Differs(was, now.value)
  }

  /** The loop over the new surfaces. */
  function ArrivalDamage(previous: seq<Surface>, surfaces: seq<Surface>, bounds: Rect): seq<Rect>
  {
    if surfaces == [] then
      []
    else
      var s := surfaces[|surfaces| - 1];
      ArrivalDamage(previous, surfaces[..|surfaces| - 1], bounds)
      + (if Arrives(previous, s) then Footprint(s, bounds) else [])
      + SurfaceDamageRects(s, s.damageRects, bounds)
  }

  /** The loop over the old surfaces. */
  function DepartureDamage(previous: seq<Surface>, current: seq<Surface>, bounds: Rect): seq<Rect>
  {
    if previous == [] then
      []
    else
      var was := previous[|previous| - 1];
      DepartureDamage(previous[..|previous| - 1], current, bounds)
      + if Leaves(was, current) then Footprint(was, bounds) else []
  }

  /** `effective_damage_rects`. */
  function EffectiveDamage(previous: Option<seq<Surface>>, surfaces: seq<Surface>, framebufferReady: bool, bounds: Rect): (r: seq<Rect>)
    ensures |r| <= MAX_DAMAGE_RECTS
  {
    if previous.None? || !framebufferReady then
      [bounds]
    else
      NormalizeDamage(ArrivalDamage(previous.value, surfaces, bounds) + DepartureDamage(previous.value, surfaces, bounds), bounds)
  }

  // ------------------------------------------------- the loops, as the source writes them

  method ComputeSurfaceDamage(s: Surface, bounds: Rect) returns (r: seq<Rect>)
    ensures r == SurfaceDamageRects(s, s.damageRects, bounds)
  {
    hide SurfaceDamageRect;
    r := [];
    for i := 0 to |s.damageRects|
      invariant r == SurfaceDamageRects(s, s.damageRects[..i], bounds)
    {
      assert s.damageRects[..i + 1][..i] == s.damageRects[..i];
      var clipped := SurfaceDamageRect(s, s.damageRects[i], bounds);
      if clipped.Some? {
        r := r + [clipped.value];
      }
    }
    assert s.damageRects[..|s.damageRects|] == s.damageRects;
  }

  method ComputeEffectiveDamage(previous: Option<seq<Surface>>, surfaces: seq<Surface>, framebufferReady: bool, bounds: Rect)
    returns (damage: seq<Rect>)
    ensures damage == EffectiveDamage(previous, surfaces, framebufferReady, bounds)
  {
    if previous.None? || !framebufferReady {
      return [bounds];
    }
    damage := [];
    for i := 0 to |surfaces|
      invariant damage == ArrivalDamage(previous.value, surfaces[..i], bounds)
    {
      assert surfaces[..i + 1][..i] == surfaces[..i];
      if Arrives(previous.value, surfaces[i]) {
        damage := damage + Footprint(surfaces[i], bounds);
      }
      var declared := ComputeSurfaceDamage(surfaces[i], bounds);
      damage := damage + declared;
    }
    assert surfaces[..|surfaces|] == surfaces;
    ghost var arrivals := damage;
    for i := 0 to |previous.value|
      invariant damage == arrivals + DepartureDamage(previous.value[..i], surfaces, bounds)
    {
      assert previous.value[..i + 1][..i] == previous.value[..i];
      if Leaves(previous.value[i], surfaces) {
        damage := damage + Footprint(previous.value[i], bounds);
      }
    }
    assert previous.value[..|previous.value|] == previous.value;
    damage := NormalizeDamage(damage, bounds);
  }

  // ------------------------------------------------------------------ what it covers

  lemma CoversConcat(a: seq<Rect>, b: seq<Rect>, x: int, y: int)
    ensures Covers(a + b, x, y) <==> Covers(a, x, y) || Covers(b, x, y)
  {
    if Covers(a, x, y) {
      var i :| 0 <= i < |a| && a[i].Contains(x, y);
      assert (a + b)[i].Contains(x, y);
    }
    if Covers(b, x, y) {
      var i :| 0 <= i < |b| && b[i].Contains(x, y);
      assert (a + b)[|a| + i].Contains(x, y);
    }
  }

  lemma CoversOne(r: Rect, x: int, y: int)
    ensures Covers([r], x, y) <==> r.Contains(x, y)
  {
    assert [r][0] == r;
  }

  lemma FootprintCovers(s: Surface, bounds: Rect, x: int, y: int)
    requires SurfaceAt(s, x, y) && bounds.Contains(x, y)
    ensures Covers(Footprint(s, bounds), x, y)
  {
    var clipped := SurfaceBounds(s).value.Intersect(bounds);
    assert clipped.Some?;
    CoversOne(clipped.value, x, y);
  }

  /** A pixel inside a declared rectangle, in surface-local coordinates taken over the integers. */
  predicate InDeclared(s: Surface, d: DamageRect, x: int, y: int)
  {
    && d.x <= x - s.placement.x < d.x + d.width
    && d.y <= y - s.placement.y < d.y + d.height
  }

  /** The far corner of the rectangle, and the size of the surface, are still `i32`s. */
  predicate DamageFits(s: Surface, d: DamageRect)
  {
    && s.placement.width <= I32_MAX && s.placement.height <= I32_MAX
    && d.x + d.width <= I32_MAX && d.y + d.height <= I32_MAX
  }

  /** A declared rectangle that touches the visible part of its surface is kept, as exactly
      the pixels it names, if and only if its extents fit: otherwise it is silently dropped. */
  lemma DeclaredDamageKept(s: Surface, d: DamageRect, bounds: Rect)
    requires exists x, y :: InDeclared(s, d, x, y) && SurfaceAt(s, x, y) && bounds.Contains(x, y)
    ensures SurfaceDamageRect(s, d, bounds).Some? <==> DamageFits(s, d)
    ensures DamageFits(s, d) ==>
      (forall x, y :: SurfaceDamageRect(s, d, bounds).value.Contains(x, y)
                 <==> InDeclared(s, d, x, y) && SurfaceAt(s, x, y) && bounds.Contains(x, y))
  {
    hide InDeclared, SurfaceAt, Rect.Contains, SurfaceDamageRect, DamageFits;
    forall x, y
      ensures (SurfaceDamageRect(s, d, bounds).Some? && SurfaceDamageRect(s, d, bounds).value.Contains(x, y))
         <==> DamageFits(s, d) && InDeclared(s, d, x, y) && SurfaceAt(s, x, y) && bounds.Contains(x, y)
    {
      SurfaceDamageRectExactly(s, d, bounds, x, y);
    }
    if SurfaceDamageRect(s, d, bounds).Some? {
      KeptIsNotEmpty(s, d, bounds);
    }
  }

  lemma KeptIsNotEmpty(s: Surface, d: DamageRect, bounds: Rect)
    requires SurfaceDamageRect(s, d, bounds).Some?
    ensures exists x, y :: SurfaceDamageRect(s, d, bounds).value.Contains(x, y)
  {
  }

  /** One declared rectangle covers exactly its own pixels of the visible surface. */
  lemma SurfaceDamageRectExactly(s: Surface, d: DamageRect, bounds: Rect, x: int, y: int)
    ensures (SurfaceDamageRect(s, d, bounds).Some? && SurfaceDamageRect(s, d, bounds).value.Contains(x, y))
       <==> DamageFits(s, d) && InDeclared(s, d, x, y) && SurfaceAt(s, x, y) && bounds.Contains(x, y)
  {
    var localBounds := FromOriginSize(0, 0, s.placement.width, s.placement.height);
    var declared := FromOriginSize(d.x, d.y, d.width, d.height);
    if SurfaceBounds(s).Some? && localBounds.Some? && declared.Some? {
      var local := declared.value.Intersect(localBounds.value);
      if local.Some? {
        var r := Rect(s.placement.x + local.value.x0, s.placement.y + local.value.y0, s.placement.x + local.value.x1, s.placement.y + local.value.y1);
        assert r.Contains(x, y) <==> local.value.Contains(x - s.placement.x, y - s.placement.y);
      } else {
        assert !(declared.value.Contains(x - s.placement.x, y - s.placement.y) && localBounds.value.Contains(x - s.placement.x, y - s.placement.y));
      }
    }
  }

  lemma {:induction false} SurfaceDamageCovers(s: Surface, rects: seq<DamageRect>, bounds: Rect, i: nat, x: int, y: int)
    requires i < |rects| && InDeclared(s, rects[i], x, y) && DamageFits(s, rects[i])
    requires SurfaceAt(s, x, y) && bounds.Contains(x, y)
    ensures Covers(SurfaceDamageRects(s, rects, bounds), x, y)
  {
    var front, last := rects[..|rects| - 1], SurfaceDamageRect(s, rects[|rects| - 1], bounds);
    CoversConcat(SurfaceDamageRects(s, front, bounds), if last.Some? then [last.value] else [], x, y);
    if i == |rects| - 1 {
      DeclaredDamageKept(s, rects[i], bounds);
      CoversOne(last.value, x, y);
    } else {
      SurfaceDamageCovers(s, front, bounds, i, x, y);
    }
  }

  lemma {:induction false} ArrivalCovers(previous: seq<Surface>, surfaces: seq<Surface>, bounds: Rect, i: nat, x: int, y: int)
    requires i < |surfaces|
    ensures Arrives(previous, surfaces[i]) && Covers(Footprint(surfaces[i], bounds), x, y)
            ==> Covers(ArrivalDamage(previous, surfaces, bounds), x, y)
    ensures Covers(SurfaceDamageRects(surfaces[i], surfaces[i].damageRects, bounds), x, y)
            ==> Covers(ArrivalDamage(previous, surfaces, bounds), x, y)
  {
    var s := surfaces[|surfaces| - 1];
    var front := ArrivalDamage(previous, surfaces[..|surfaces| - 1], bounds);
    var mine := if Arrives(previous, s) then Footprint(s, bounds) else [];
    CoversConcat(front + mine, SurfaceDamageRects(s, s.damageRects, bounds), x, y);
    CoversConcat(front, mine, x, y);
    if i != |surfaces| - 1 {
      ArrivalCovers(previous, surfaces[..|surfaces| - 1], bounds, i, x, y);
    }
  }

  lemma {:induction false} DepartureCovers(previous: seq<Surface>, current: seq<Surface>, bounds: Rect, i: nat, x: int, y: int)
    requires i < |previous| && Leaves(previous[i], current) && Covers(Footprint(previous[i], bounds), x, y)
    ensures Covers(DepartureDamage(previous, current, bounds), x, y)
  {
    var was := previous[|previous| - 1];
    CoversConcat(DepartureDamage(previous[..|previous| - 1], current, bounds),
                 if Leaves(was, current) then Footprint(was, bounds) else [], x, y);
    if i != |previous| - 1 {
      DepartureCovers(previous[..|previous| - 1], current, bounds, i, x, y);
    }
  }

  lemma WithinConcat(a: seq<Rect>, b: seq<Rect>, bounds: Rect)
    requires Within(a, bounds) && Within(b, bounds)
    ensures Within(a + b, bounds)
  {
  }

  lemma FootprintWithin(s: Surface, bounds: Rect)
    ensures Within(Footprint(s, bounds), bounds)
  {
  }

  lemma {:induction false} SurfaceDamageWithin(s: Surface, rects: seq<DamageRect>, bounds: Rect)
    ensures Within(SurfaceDamageRects(s, rects, bounds), bounds)
  {
    if rects != [] {
      SurfaceDamageWithin(s, rects[..|rects| - 1], bounds);
    }
  }

  lemma {:induction false} ArrivalWithin(previous: seq<Surface>, surfaces: seq<Surface>, bounds: Rect)
    ensures Within(ArrivalDamage(previous, surfaces, bounds), bounds)
  {
    if surfaces != [] {
      var s := surfaces[|surfaces| - 1];
      ArrivalWithin(previous, surfaces[..|surfaces| - 1], bounds);
      FootprintWithin(s, bounds);
      SurfaceDamageWithin(s, s.damageRects, bounds);
    }
  }

  lemma {:induction false} DepartureWithin(previous: seq<Surface>, current: seq<Surface>, bounds: Rect)
    ensures Within(DepartureDamage(previous, current, bounds), bounds)
  {
    if previous != [] {
      DepartureWithin(previous[..|previous| - 1], current, bounds);
      FootprintWithin(previous[|previous| - 1], bounds);
    }
  }

  /** Effective damage never leaves the output. */
  lemma EffectiveDamageWithin(previous: Option<seq<Surface>>, surfaces: seq<Surface>, ready: bool, bounds: Rect)
    requires bounds.x0 < bounds.x1 && bounds.y0 < bounds.y1
    ensures Within(EffectiveDamage(previous, surfaces, ready, bounds), bounds)
  {
    if previous.Some? && ready {
      ArrivalWithin(previous.value, surfaces, bounds);
      DepartureWithin(previous.value, surfaces, bounds);
      WithinConcat(ArrivalDamage(previous.value, surfaces, bounds), DepartureDamage(previous.value, surfaces, bounds), bounds);
      NormalizeDamageCovers(ArrivalDamage(previous.value, surfaces, bounds) + DepartureDamage(previous.value, surfaces, bounds), bounds);
    }
  }

  // ----------------------------------------------------- what the clients promise

  /** What the client holds for each surface of each scene version; the payloads attached
      to a scene are samples of it. */
  type Content = (Version, string) -> Payload

  function ClaimedLayer(c: Content, v: Version, s: Surface): Layer
  {
    Layer(s, if s.transport.Some? then Some(c(v, s.id)) else None)
  }

  /** The layers of a scene with every payload present. */
  function SceneLayers(c: Content, v: Version, surfaces: seq<Surface>): (r: seq<Layer>)
    ensures |r| == |surfaces| && forall i :: 0 <= i < |r| ==> r[i] == ClaimedLayer(c, v, surfaces[i])
  {
    seq(|surfaces|, i requires 0 <= i < |surfaces| => ClaimedLayer(c, v, surfaces[i]))
  }

  ghost predicate DeclaredCovers(s: Surface, x: int, y: int)
  {
    exists i :: 0 <= i < |s.damageRects| && InDeclared(s, s.damageRects[i], x, y)
  }

  /** Damage honesty of a surface that kept its placement and buffer generation: its stacking
      is unchanged, its source pixels changed only inside its declared damage, and the
      declared rectangles are ones displayd can represent. */
  ghost predicate HonestSurface(c: Content, oldVersion: Version, was: Surface, newVersion: Version, now: Surface)
  {
    && was.layerClass == now.layerClass && was.creationSequence == now.creationSequence
    && (forall i :: 0 <= i < |now.damageRects| ==> DamageFits(now, now.damageRects[i]))
    && forall x, y :: SurfaceAt(now, x, y) && !DeclaredCovers(now, x, y)
         ==> SourceAt(ClaimedLayer(c, newVersion, now), x, y) == SourceAt(ClaimedLayer(c, oldVersion, was), x, y)
  }

  ghost predicate HonestScenes(c: Content, oldVersion: Version, was: seq<Surface>, newVersion: Version, now: seq<Surface>)
  {
    forall i, j :: 0 <= i < |was| && 0 <= j < |now| && was[i].id == now[j].id && !Differs(was[i], now[j])
      ==> HonestSurface(c, oldVersion, was[i], newVersion, now[j])
  }

  /** A surface of the new scene covering an undamaged pixel was there before, the same. */
  lemma UndamagedSurfaceContributesAlike(c: Content, v: Version, was: seq<Surface>, w: Version, now: seq<Surface>, bounds: Rect, i: nat, x: int, y: int)
    requires DistinctIds(was) && DistinctIds(now) && HonestScenes(c, v, was, w, now)
    requires bounds.Contains(x, y)
    requires !Covers(EffectiveDamage(Some(was), now, true, bounds), x, y)
    requires i < |now| && SurfaceAt(now[i], x, y)
    requires bounds.x0 < bounds.x1 && bounds.y0 < bounds.y1
    ensures exists j :: (0 <= j < |was| && was[j].id == now[i].id
                         && SameContribution(SceneLayers(c, w, now)[i], SceneLayers(c, v, was)[j], x, y))
  {
    var s := now[i];
    NotCoveredParts(was, now, bounds, x, y);
    FootprintCovers(s, bounds, x, y);
    ArrivalCovers(was, now, bounds, i, x, y);
    assert !Arrives(was, s);
    ByIdFound(was, s.id);
    var found := ById(was, s.id).value;
    var j :| 0 <= j < |was| && was[j] == found;
    assert HonestSurface(c, v, was[j], w, s);
    if DeclaredCovers(s, x, y) {
      var k :| 0 <= k < |s.damageRects| && InDeclared(s, s.damageRects[k], x, y);
      SurfaceDamageCovers(s, s.damageRects, bounds, k, x, y);
      assert false;
    }
    assert SameContribution(SceneLayers(c, w, now)[i], SceneLayers(c, v, was)[j], x, y);
  }

  lemma NotCoveredParts(was: seq<Surface>, now: seq<Surface>, bounds: Rect, x: int, y: int)
    requires !Covers(EffectiveDamage(Some(was), now, true, bounds), x, y)
    requires bounds.x0 < bounds.x1 && bounds.y0 < bounds.y1
    ensures !Covers(ArrivalDamage(was, now, bounds), x, y) && !Covers(DepartureDamage(was, now, bounds), x, y)
  {
    var all := ArrivalDamage(was, now, bounds) + DepartureDamage(was, now, bounds);
    ArrivalWithin(was, now, bounds);
    DepartureWithin(was, now, bounds);
    NormalizeDamageCovers(all, bounds);
    CoversConcat(ArrivalDamage(was, now, bounds), DepartureDamage(was, now, bounds), x, y);
  }

  /** ... and a surface of the old scene covering it is still there, the same. */
  lemma StayingSurfaceContributesAlike(c: Content, v: Version, was: seq<Surface>, w: Version, now: seq<Surface>, bounds: Rect, i: nat, x: int, y: int)
    requires DistinctIds(was) && DistinctIds(now) && HonestScenes(c, v, was, w, now)
    requires bounds.Contains(x, y)
    requires !Covers(EffectiveDamage(Some(was), now, true, bounds), x, y)
    requires i < |was| && SurfaceAt(was[i], x, y)
    requires bounds.x0 < bounds.x1 && bounds.y0 < bounds.y1
    ensures exists j :: 0 <= j < |now| && SameContribution(SceneLayers(c, v, was)[i], SceneLayers(c, w, now)[j], x, y)
  {
    var s := was[i];
    NotCoveredParts(was, now, bounds, x, y);
    FootprintCovers(s, bounds, x, y);
    if Leaves(s, now) {
      DepartureCovers(was, now, bounds, i, x, y);
      assert false;
    }
    ByIdFound(now, s.id);
    var found := ById(now, s.id).value;
    var j :| 0 <= j < |now| && now[j] == found;
    UndamagedSurfaceContributesAlike(c, v, was, w, now, bounds, j, x, y);
    var k :| 0 <= k < |was| && was[k].id == now[j].id
      && SameContribution(SceneLayers(c, w, now)[j], SceneLayers(c, v, was)[k], x, y);
    assert k == i;
    assert SameContribution(SceneLayers(c, v, was)[i], SceneLayers(c, w, now)[j], x, y);
  }

  lemma SceneLayersSorted(c: Content, v: Version, surfaces: seq<Surface>)
    requires Canonical(surfaces)
    ensures StrictlySorted(SurfaceLess, Surfaces(SceneLayers(c, v, surfaces)))
  {
    assert Surfaces(SceneLayers(c, v, surfaces)) == surfaces;
  }

  /** Between two scenes of honest clients, a pixel outside the effective damage has the
      same canonical colour. */
  lemma DamageCoversEveryChange(c: Content, v: Version, was: seq<Surface>, w: Version, now: seq<Surface>, bounds: Rect, x: int, y: int)
    requires Canonical(was) && Canonical(now) && HonestScenes(c, v, was, w, now)
    requires bounds.Contains(x, y)
    requires !Covers(EffectiveDamage(Some(was), now, true, bounds), x, y)
    ensures PixelOf(SceneLayers(c, v, was), x, y) == PixelOf(SceneLayers(c, w, now), x, y)
  {
    var before, after := SceneLayers(c, v, was), SceneLayers(c, w, now);
    SceneLayersSorted(c, v, was);
    SceneLayersSorted(c, w, now);
    forall i | 0 <= i < |after| && SurfaceAt(after[i].surface, x, y)
      ensures exists j :: 0 <= j < |before| && SameContribution(after[i], before[j], x, y)
    {
      UndamagedSurfaceContributesAlike(c, v, was, w, now, bounds, i, x, y);
    }
    forall i | 0 <= i < |before| && SurfaceAt(before[i].surface, x, y)
      ensures exists j :: 0 <= j < |after| && SameContribution(before[i], after[j], x, y)
    {
      StayingSurfaceContributesAlike(c, v, was, w, now, bounds, i, x, y);
    }
    SameContributionsSamePixel(before, after, x, y);
  }

  // ------------------------------------------------------------------ no more than that

  /** A pixel of the surface its client says has changed. */
  ghost predicate Declared(s: Surface, x: int, y: int)
  {
    exists k :: 0 <= k < |s.damageRects| && DamageFits(s, s.damageRects[k]) && InDeclared(s, s.damageRects[k], x, y)
  }

  lemma {:induction false} SurfaceDamageExactly(s: Surface, rects: seq<DamageRect>, bounds: Rect, x: int, y: int)
    ensures Covers(SurfaceDamageRects(s, rects, bounds), x, y) <==>
      SurfaceAt(s, x, y) && bounds.Contains(x, y) && exists k :: 0 <= k < |rects| && DamageFits(s, rects[k]) && InDeclared(s, rects[k], x, y)
  {
    hide SurfaceDamageRect, DamageFits, InDeclared;
    if rects != [] {
      var front, last := rects[..|rects| - 1], rects[|rects| - 1];
      SurfaceDamageExactly(s, front, bounds, x, y);
      SurfaceDamageRectExactly(s, last, bounds, x, y);
      var r := SurfaceDamageRect(s, last, bounds);
      var tail := if r.Some? then [r.value] else [];
      CoversConcat(SurfaceDamageRects(s, front, bounds), tail, x, y);
      if r.Some? { CoversOne(r.value, x, y); }
    }
  }

  lemma FootprintExactly(s: Surface, bounds: Rect, x: int, y: int)
    ensures Covers(Footprint(s, bounds), x, y) <==> SurfaceAt(s, x, y) && bounds.Contains(x, y)
  {
    if SurfaceAt(s, x, y) && bounds.Contains(x, y) {
      FootprintCovers(s, bounds, x, y);
    }
  }

  /** A scene has this surface, at the same place and of the same buffer. */
  predicate Holds(surfaces: seq<Surface>, s: Surface)
  {
    exists i :: 0 <= i < |surfaces| && surfaces[i].id == s.id && surfaces[i].placement == s.placement && surfaces[i].bufferGeneration == s.bufferGeneration
  }

  lemma ChangesExactly(surfaces: seq<Surface>, s: Surface)
    requires DistinctIds(surfaces)
    ensures Arrives(surfaces, s) <==> !Holds(surfaces, s)
    ensures Leaves(s, surfaces) <==> !Holds(surfaces, s)
  {
    ByIdFound(surfaces, s.id);
    if exists i :: 0 <= i < |surfaces| && surfaces[i].id == s.id {
      var i :| 0 <= i < |surfaces| && surfaces[i].id == s.id;
      ByIdIs(surfaces, i);
    }
  }

  lemma {:induction false} ByIdIs(surfaces: seq<Surface>, i: nat)
    requires DistinctIds(surfaces) && i < |surfaces|
    ensures ById(surfaces, surfaces[i].id) == Some(surfaces[i])
  {
    if i < |surfaces| - 1 {
      ByIdIs(surfaces[..|surfaces| - 1], i);
    }
  }

  /** A new surface's pixel is damaged: it arrived, moved or was redrawn, or says so. */
  ghost predicate NewlyDamaged(was: seq<Surface>, s: Surface, x: int, y: int)
  {
    SurfaceAt(s, x, y) && (!Holds(was, s) || Declared(s, x, y))
  }

  lemma {:induction false} ArrivalExactly(was: seq<Surface>, now: seq<Surface>, bounds: Rect, x: int, y: int)
    requires DistinctIds(was) && bounds.Contains(x, y)
    ensures Covers(ArrivalDamage(was, now, bounds), x, y) <==> exists i :: 0 <= i < |now| && NewlyDamaged(was, now[i], x, y)
  {
    hide Holds, Footprint, SurfaceAt, Arrives, SurfaceDamageRects;
    if now != [] {
      var front, s := now[..|now| - 1], now[|now| - 1];
      ArrivalExactly(was, front, bounds, x, y);
      ChangesExactly(was, s);
      FootprintExactly(s, bounds, x, y);
      SurfaceDamageExactly(s, s.damageRects, bounds, x, y);
      var footprint := if Arrives(was, s) then Footprint(s, bounds) else [];
      CoversConcat(ArrivalDamage(was, front, bounds) + footprint, SurfaceDamageRects(s, s.damageRects, bounds), x, y);
      CoversConcat(ArrivalDamage(was, front, bounds), footprint, x, y);
      assert NewlyDamaged(was, s, x, y) <==> Covers(footprint, x, y) || Covers(SurfaceDamageRects(s, s.damageRects, bounds), x, y);
    }
  }

  lemma {:induction false} DepartureExactly(was: seq<Surface>, now: seq<Surface>, bounds: Rect, x: int, y: int)
    requires DistinctIds(now) && bounds.Contains(x, y)
    ensures Covers(DepartureDamage(was, now, bounds), x, y) <==> exists i :: 0 <= i < |was| && SurfaceAt(was[i], x, y) && !Holds(now, was[i])
  {
    hide Holds, Footprint, SurfaceAt, Leaves;
    if was != [] {
      var front, s := was[..|was| - 1], was[|was| - 1];
      DepartureExactly(front, now, bounds, x, y);
      ChangesExactly(now, s);
      FootprintExactly(s, bounds, x, y);
      CoversConcat(DepartureDamage(front, now, bounds), if Leaves(s, now) then Footprint(s, bounds) else [], x, y);
    }
  }

  /** Effective damage is exact: on an output that shows the old scene, and within the budget of
      rectangles, a pixel is damaged exactly when a new surface there arrived, moved, was
      redrawn or declares it, or an old one there left, moved or was redrawn. Incremental
      repainting repaints nothing else. */
  lemma EffectiveDamageExactly(was: seq<Surface>, now: seq<Surface>, bounds: Rect, x: int, y: int)
    requires DistinctIds(was) && DistinctIds(now) && bounds.Contains(x, y)
    requires |ArrivalDamage(was, now, bounds)| + |DepartureDamage(was, now, bounds)| <= MAX_DAMAGE_RECTS
    ensures Covers(EffectiveDamage(Some(was), now, true, bounds), x, y) <==>
      || (exists i :: 0 <= i < |now| && NewlyDamaged(was, now[i], x, y))
      || (exists i :: 0 <= i < |was| && SurfaceAt(was[i], x, y) && !Holds(now, was[i]))
  {
    hide NewlyDamaged, Holds, SurfaceAt, ArrivalDamage, DepartureDamage, NormalizeDamage;
    var arrivals, departures := ArrivalDamage(was, now, bounds), DepartureDamage(was, now, bounds);
    ArrivalExactly(was, now, bounds, x, y);
    DepartureExactly(was, now, bounds, x, y);
    CoversConcat(arrivals, departures, x, y);
    NormalizeDamageIdempotentCover(arrivals + departures, bounds);
  }

  /** Composing resident payloads shows the claimed colours, wherever every needed payload
      is resident and is the claimed one. */
  lemma ResidentLayersShowContent(c: Content, v: Version, store: Store, surfaces: seq<Surface>, x: int, y: int)
    requires Canonical(surfaces)
    requires forall i :: (0 <= i < |surfaces| && SurfaceAt(surfaces[i], x, y) && surfaces[i].transport.Some?
      ==> surfaces[i].transport.value in store && store[surfaces[i].transport.value] == c(v, surfaces[i].id))
    ensures PixelOf(StoreLayers(store, surfaces), x, y) == PixelOf(SceneLayers(c, v, surfaces), x, y)
  {
    var a, b := StoreLayers(store, surfaces), SceneLayers(c, v, surfaces);
    SceneLayersSorted(c, v, surfaces);
    assert Surfaces(a) == surfaces;
    forall i | 0 <= i < |surfaces| && SurfaceAt(surfaces[i], x, y)
      ensures a[i] == b[i] && SameContribution(a[i], b[i], x, y) && SameContribution(b[i], a[i], x, y)
    {
    }
    SameContributionsSamePixel(a, b, x, y);
  }

  /** The representability clause is needed: a one-row declaration reaching past the largest
      `i32` is dropped, although it names a visible pixel that changed. */
  lemma OversizedDamageIsLost()
    ensures var placement := Placement(0, 0, 4, 4, 0, true);
            var d := DamageRect(1, 0, I32_MAX, 1);
            var s := Surface("a", "", placement, None, 1, [d], None, 0, 0);
            && InDeclared(s, d, 1, 0) && SurfaceAt(s, 1, 0) && !DamageFits(s, d)
            && EffectiveDamage(Some([s]), [s], true, Rect(0, 0, 4, 4)) == []
  {
    var d := DamageRect(1, 0, I32_MAX, 1);
    var s := Surface("a", "", Placement(0, 0, 4, 4, 0, true), None, 1, [d], None, 0, 0);
    var bounds := Rect(0, 0, 4, 4);
    assert ById([s], s.id) == Some(s);
    assert [s][..0] == [];
    assert [d][..0] == [];
    assert SurfaceDamageRect(s, d, bounds) == None;
    assert SurfaceDamageRects(s, [d], bounds) == [];
    assert ArrivalDamage([s], [s], bounds) == [];
    assert DepartureDamage([s], [s], bounds) == [];
  }
}
