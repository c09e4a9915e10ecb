/** Incremental repainting refines full repainting: the pipeline's main invariant. */
module Refinement {
  import opened Machine
  import opened SceneTypes
  import opened Geometry
  import opened Blend
  import opened Composition
  import opened Renderer
  import opened Damage
  import opened Admission
  import opened PixelStore
  import opened Pipeline
  import opened Ledger

  // --------------------------------------------------------------------- invariant

  /** The layers of a recorded scene, every payload being the one its client holds. */
  function Layers(c: Content, s: Scene): seq<Layer>
  {
    SceneLayers(c, s.version, s.surfaces)
  }

  ghost predicate CoversAll(damage: seq<Rect>, o: OutputState)
  {
    forall x, y :: o.OnScreen(x, y) ==> Covers(damage, x, y)
  }

  /** Two scenes look the same on an output outside the given damage. */
  ghost predicate ScenesAgree(c: Content, o: OutputState, s: Scene, t: Scene, except: seq<Rect>)
  {
    forall x, y :: o.OnScreen(x, y) && !Covers(except, x, y) ==> PixelOf(Layers(c, s), x, y) == PixelOf(Layers(c, t), x, y)
  }

  /** Pending damage lies on the output, belongs to the newest scene, is everything while
      nothing was shown yet, and is there whenever a retry is. */
  ghost predicate PendingOk(newest: Version, r: Runtime)
  {
    && |r.pendingDamage| <= MAX_DAMAGE_RECTS
    && Within(r.pendingDamage, r.output.Bounds())
    && (r.pendingDamage != [] ==> r.pendingVersion == newest)
    && (r.pendingDamage != [] && !r.Initialised() ==> CoversAll(r.pendingDamage, r.output))
    && (r.retry.Some? ==> r.pendingDamage != [])
  }

  /** Outside the pending damage the framebuffer is the full repaint of the newest scene. */
  ghost predicate FramebufferOk(c: Content, last: Option<Scene>, r: Runtime)
  {
    && (r.framebuffer == [] || r.Initialised())
    && (r.Initialised() ==> last.Some? && ShowsOutside(r.framebuffer, r.output, Layers(c, last.value), r.pendingDamage))
  }

  /** A frame in flight is the full repaint of the scene it was composed from; that scene
      and the newest one differ only inside the pending damage, which covers the frame's. */
  ghost predicate FlightOk(c: Content, ledger: map<Version, Scene>, last: Option<Scene>, newest: Version, r: Runtime)
  {
    r.outstanding.Some? ==>
      var f, t := r.outstanding.value.frame, r.outstanding.value.token;
      && last.Some? && r.pendingDamage != []
      && f.output == r.output && t.sceneGeneration == f.version.generation
      && t.outputGeneration == r.output.generation && t.frameId == f.frameId
      && f.version in ledger && f.version.AtMost(newest)
      && ShowsOutside(f.pixels, r.output, Layers(c, ledger[f.version]), [])
      && ScenesAgree(c, r.output, ledger[f.version], last.value, r.pendingDamage)
      && f.damage != [] && |f.damage| <= MAX_DAMAGE_RECTS && Within(f.damage, r.output.Bounds())
      && (forall x, y :: Covers(f.damage, x, y) ==> Covers(r.pendingDamage, x, y))
      && (f.version == newest ==>
            if r.Initialised() then ShowsOutside(r.framebuffer, r.output, Layers(c, last.value), f.damage)
            else CoversAll(f.damage, r.output))
  }

  ghost predicate RuntimeOk(c: Content, ledger: map<Version, Scene>, last: Option<Scene>, newest: Version, r: Runtime)
  {
    if r.disabled then
      r.pendingDamage == [] && r.outstanding.None? && r.retry.None?
    else
      PendingOk(newest, r) && FramebufferOk(c, last, r) && FlightOk(c, ledger, last, newest, r)
  }

  ghost predicate OutputsOk(c: Content, ledger: map<Version, Scene>, last: Option<Scene>, newest: Version, outputs: map<string, Runtime>)
  {
    forall k :: k in outputs ==> outputs[k].output.outputId == k && RuntimeOk(c, ledger, last, newest, outputs[k])
  }

  /** The newest scene is canonical, and resident payloads are its clients' own. */
  ghost predicate SceneOk(c: Content, d: Display)
  {
    && WellFiled(d.store)
    && (d.lastScene.None? ==> d.store == map[])
    && (d.lastScene.Some? ==>
          var s := d.lastScene.value;
          && WellStored(s)
          && d.store.Keys <= ReferencedHandles(s.surfaces)
          && Hydrated(c, s.version, s.surfaces, d.store))
  }

  /** Canonical order, and transport handles of the scene's own generation. */
  ghost predicate WellStored(s: Scene)
  {
    && Canonical(s.surfaces)
    && forall i :: 0 <= i < |s.surfaces| ==> TransportMatches(s.surfaces[i], s.version)
  }

  ghost predicate Hydrated(c: Content, v: Version, surfaces: seq<Surface>, store: Store)
  {
    forall i :: 0 <= i < |surfaces| && surfaces[i].transport.Some? && surfaces[i].transport.value in store
      ==> store[surfaces[i].transport.value] == c(v, surfaces[i].id)
  }

  ghost predicate WorldOk(c: Content, w: World)
  {
    && LedgerOk(w)
    && SceneOk(c, w.display)
    && OutputsOk(c, w.ledger, w.display.lastScene, w.display.lastVersion, w.display.outputs)
  }

  // -------------------------------------------------------------------- hypotheses

  /** Attached payloads are the content of their version; a handle used by two successive
      scenes names one payload; and damage is honest. Asked of accepted scenes only. */
  ghost predicate FaithfulScene(c: Content, d: Display, request: SceneRequest)
  {
    var now := Canonicalize(request.surfaces);
    && (forall i :: 0 <= i < |request.payloads| ==> request.payloads[i] == c(request.version, request.payloads[i].handle.surfaceId))
    && (d.lastScene.Some? && request.version != d.lastVersion ==>
          var was := d.lastScene.value.surfaces;
          && HonestScenes(c, d.lastVersion, was, request.version, now)
          && (forall i, j :: 0 <= i < |was| && 0 <= j < |now| && was[i].transport.Some? && was[i].transport == now[j].transport
                ==> c(d.lastVersion, was[i].id) == c(request.version, now[j].id)))
  }

  ghost predicate FaithfulStep(c: Content, w: World, e: Event)
  {
    && VersionedStep(w, e)
    && (Asks(e) && Accept(w, e.request, e.fault).1.Committed? ==> FaithfulScene(c, w.display, e.request))
  }

  ghost predicate FaithfulRun(c: Content, w: World, events: seq<Event>)
    decreases |events|
  {
    events != [] ==> FaithfulStep(c, w, events[0]) && FaithfulRun(c, Step(w, events[0]).0, events[1..])
  }

  // --------------------------------------------------------------- one output, one step

  lemma ShowsMore(fb: seq<Word>, o: OutputState, layers: seq<Layer>, a: seq<Rect>, b: seq<Rect>)
    requires o.Valid() && ShowsOutside(fb, o, layers, a)
    requires forall x, y :: Covers(a, x, y) ==> Covers(b, x, y)
    ensures ShowsOutside(fb, o, layers, b)
  {
  }

  /** Merging a new scene's damage into what is pending. */
  lemma DamageForCovers(previous: Option<seq<Surface>>, surfaces: seq<Surface>, r: Runtime)
    requires Within(r.pendingDamage, r.output.Bounds())
    ensures var damage := DamageFor(previous, surfaces, r);
      && |damage| <= MAX_DAMAGE_RECTS && Within(damage, r.output.Bounds())
      && (forall x, y :: Covers(r.pendingDamage, x, y) ==> Covers(damage, x, y))
      && (previous.Some? || surfaces != [] ==>
            forall x, y :: Covers(EffectiveDamage(previous, surfaces, r.Initialised(), r.output.Bounds()), x, y) ==> Covers(damage, x, y))
      && (damage == [] ==> r.pendingDamage == [])
  {
    var bounds := r.output.Bounds();
    var arriving := if surfaces == [] && previous.None? then [] else EffectiveDamage(previous, surfaces, r.Initialised(), bounds);
    EffectiveDamageWithin(previous, surfaces, r.Initialised(), bounds);
    WithinConcat(arriving, r.pendingDamage, bounds);
    NormalizeDamageCovers(arriving + r.pendingDamage, bounds);
    forall x, y
      ensures Covers(arriving + r.pendingDamage, x, y) <==> Covers(arriving, x, y) || Covers(r.pendingDamage, x, y)
    {
      CoversConcat(arriving, r.pendingDamage, x, y);
    }
  }

  /** While nothing was shown, any new damage is everything. */
  lemma DamageForUninitialised(previous: Option<seq<Surface>>, surfaces: seq<Surface>, r: Runtime)
    requires !r.Initialised() && Within(r.pendingDamage, r.output.Bounds())
    requires r.pendingDamage != [] ==> CoversAll(r.pendingDamage, r.output)
    ensures DamageFor(previous, surfaces, r) != [] ==> CoversAll(DamageFor(previous, surfaces, r), r.output)
  {
    DamageForCovers(previous, surfaces, r);
    if previous.Some? || surfaces != [] {
      var bounds := r.output.Bounds();
      assert EffectiveDamage(previous, surfaces, false, bounds) == [bounds];
      forall x, y | r.output.OnScreen(x, y)
        ensures Covers(DamageFor(previous, surfaces, r), x, y)
      {
        CoversOne(bounds, x, y);
      }
    }
  }

  /** What the old and the new scene have in common on an output. */
  lemma UnchangedOutsideDamage(c: Content, was: Scene, now: Scene, r: Runtime)
    requires Canonical(was.surfaces) && Canonical(now.surfaces)
    requires HonestScenes(c, was.version, was.surfaces, now.version, now.surfaces)
    requires Within(r.pendingDamage, r.output.Bounds())
    ensures ScenesAgree(c, r.output, was, now, DamageFor(Some(was.surfaces), now.surfaces, r))
  {
    var damage := DamageFor(Some(was.surfaces), now.surfaces, r);
    var bounds := r.output.Bounds();
    DamageForCovers(Some(was.surfaces), now.surfaces, r);
    forall x, y | r.output.OnScreen(x, y) && !Covers(damage, x, y)
      ensures PixelOf(Layers(c, was), x, y) == PixelOf(Layers(c, now), x, y)
    {
      if r.Initialised() {
        DamageCoversEveryChange(c, was.version, was.surfaces, now.version, now.surfaces, bounds, x, y);
      } else {
        CoversOne(bounds, x, y);
      }
    }
  }

  lemma ShowsNewScene(c: Content, fb: seq<Word>, o: OutputState, was: Scene, now: Scene, a: seq<Rect>, b: seq<Rect>)
    requires o.Valid() && ShowsOutside(fb, o, Layers(c, was), a)
    requires forall x, y :: Covers(a, x, y) ==> Covers(b, x, y)
    requires ScenesAgree(c, o, was, now, b)
    ensures ShowsOutside(fb, o, Layers(c, now), b)
  {
  }

  /** An output takes a newer scene: whatever is or will be on screen is right outside the
      merged damage. */
  lemma NewSceneKeepsRuntime(c: Content, ledger: map<Version, Scene>, was: Option<Scene>, newest: Version, now: Scene, commitId: U64, r: Runtime)
    requires !r.disabled && RuntimeOk(c, ledger, was, newest, r)
    requires newest.Less(now.version) && now.version !in ledger
    requires Canonical(now.surfaces)
    requires was.Some? ==>
      && was.value.version == newest && Canonical(was.value.surfaces)
      && HonestScenes(c, newest, was.value.surfaces, now.version, now.surfaces)
    ensures var previous := if was.Some? then Some(was.value.surfaces) else None;
            var damage := DamageFor(previous, now.surfaces, r);
            RuntimeOk(c, ledger[now.version := now], Some(now), now.version,
                      if damage != [] then WithDamage(r, damage, now.version, commitId) else r)
  {
    hide Canonical, HonestScenes, SceneLayers, EffectiveDamage, NormalizeDamage;
    var previous := if was.Some? then Some(was.value.surfaces) else None;
    var damage := DamageFor(previous, now.surfaces, r);
    DamageForCovers(previous, now.surfaces, r);
    if !r.Initialised() {
      DamageForUninitialised(previous, now.surfaces, r);
    }
    if was.Some? {
      UnchangedOutsideDamage(c, was.value, now, r);
      if r.Initialised() {
        ShowsNewScene(c, r.framebuffer, r.output, was.value, now, r.pendingDamage, damage);
      }
    }
    if r.outstanding.Some? {
      VersionOrder(newest, now.version);
      VersionOrder(r.outstanding.value.frame.version, now.version);
      FlightSurvives(c, ledger, was.value, now, r.output, r.outstanding.value.frame.version, r.pendingDamage, damage);
    }
  }

  lemma FlightSurvives(c: Content, ledger: map<Version, Scene>, was: Scene, now: Scene, o: OutputState, v: Version, a: seq<Rect>, b: seq<Rect>)
    requires v in ledger && ScenesAgree(c, o, ledger[v], was, a) && ScenesAgree(c, o, was, now, b)
    requires forall x, y :: Covers(a, x, y) ==> Covers(b, x, y)
    ensures ScenesAgree(c, o, ledger[v], now, b)
  {
  }

  /** Replaying the newest scene may only add damage. */
  lemma ReplayKeepsRuntime(c: Content, ledger: map<Version, Scene>, last: Scene, commitId: U64, r: Runtime)
    requires !r.disabled && RuntimeOk(c, ledger, Some(last), last.version, r)
    ensures var damage := DamageFor(Some(last.surfaces), last.surfaces, r);
            RuntimeOk(c, ledger, Some(last), last.version,
                      if damage != [] then WithDamage(r, damage, last.version, commitId) else r)
  {
    hide SceneLayers, EffectiveDamage, NormalizeDamage;
    var damage := DamageFor(Some(last.surfaces), last.surfaces, r);
    DamageForCovers(Some(last.surfaces), last.surfaces, r);
    if r.Initialised() {
      ShowsMore(r.framebuffer, r.output, Layers(c, last), r.pendingDamage, damage);
    } else {
      DamageForUninitialised(Some(last.surfaces), last.surfaces, r);
    }
  }

  /** Presenting a frame, newest or not, discards no damage of a newer scene. */
  lemma PresentKeepsRuntime(c: Content, ledger: map<Version, Scene>, last: Option<Scene>, newest: Version, r: Runtime)
    requires RuntimeOk(c, ledger, last, newest, r) && r.outstanding.Some?
    requires last.Some? ==> newest in ledger && ledger[newest] == last.value
    ensures RuntimeOk(c, ledger, last, newest, PresentRuntime(r, r.outstanding.value))
  {
    hide SceneLayers;
    var f := r.outstanding.value.frame;
    VersionOrder(f.version, newest);
    if f.version != newest {
      ShowsNewScene(c, f.pixels, r.output, ledger[f.version], last.value, [], r.pendingDamage);
    }
  }

  /** Failing a frame puts its damage back, unless a newer scene's already includes it. */
  lemma FailKeepsRuntime(c: Content, ledger: map<Version, Scene>, last: Option<Scene>, newest: Version, r: Runtime)
    requires RuntimeOk(c, ledger, last, newest, r) && r.outstanding.Some?
    ensures RuntimeOk(c, ledger, last, newest, FailRuntime(r, r.outstanding.value))
  {
    VersionOrder(r.outstanding.value.frame.version, newest);
  }

  /** Scheduling never touches what the invariant speaks of. */
  lemma SchedulingKeepsRuntime(c: Content, ledger: map<Version, Scene>, last: Option<Scene>, newest: Version, r: Runtime, scheduler: Scheduler)
    requires RuntimeOk(c, ledger, last, newest, r)
    ensures RuntimeOk(c, ledger, last, newest, r.(scheduler := scheduler))
    ensures RuntimeOk(c, ledger, last, newest, r.(scheduler := scheduler, retry := None))
  {
  }

  lemma AdvanceKeepsRuntime(c: Content, ledger: map<Version, Scene>, last: Option<Scene>, newest: Version, r: Runtime, generation: U64, now: U64, tickSequence: U64)
    requires RuntimeOk(c, ledger, last, newest, r)
    ensures var a := AdvancePresentation(r, generation, now, tickSequence);
      !a.StaleOutput? ==> RuntimeOk(c, ledger, last, newest, a.runtime) && a.runtime.output == r.output
  {
    hide PendingOk, FramebufferOk, FlightOk;
    var a := AdvancePresentation(r, generation, now, tickSequence);
    if !a.StaleOutput? {
      SchedulingKeepsRuntime(c, ledger, last, newest, r, a.runtime.scheduler);
      assert a.runtime == r.(scheduler := a.runtime.scheduler) || a.runtime == r.(scheduler := a.runtime.scheduler, retry := None);
    }
  }

  // ------------------------------------------------------------- composing a frame

  /** Validation found every payload the damaged pixels need. */
  lemma ValidatedIsResident(store: Store, surfaces: seq<Surface>, damage: seq<Rect>, i: nat, x: int, y: int)
    requires ValidatedForDamage(StoreLayers(store, surfaces), damage)
    requires Covers(damage, x, y) && i < |surfaces| && SurfaceAt(surfaces[i], x, y) && surfaces[i].transport.Some?
    ensures surfaces[i].transport.value in store
  {
    var layers := StoreLayers(store, surfaces);
    var d :| 0 <= d < |damage| && damage[d].Contains(x, y);
    CopyRectPixels(layers[i], damage[d]);
    assert CopyRect(layers[i], damage[d]).Some?;
    assert ValidateSurfacePixelRect(layers[i], CopyRect(layers[i], damage[d]).value);
  }

  /** A composed frame is a full repaint of the newest scene. */
  lemma ComposedFrameIsFullRepaint(c: Content, d: Display, r: Runtime)
    requires SceneOk(c, d) && d.lastScene.Some? && d.lastScene.value.version == d.lastVersion
    requires !r.disabled && PendingOk(d.lastVersion, r) && FramebufferOk(c, d.lastScene, r)
    requires r.pendingDamage != []
    requires ValidatedForDamage(StoreLayers(d.store, Canonicalize(d.lastScene.value.surfaces)), ComposedFrame(d, d.lastScene.value, r).damage)
    ensures ShowsOutside(ComposedFrame(d, d.lastScene.value, r).pixels, r.output, Layers(c, d.lastScene.value), [])
  {
    hide NormalizeDamage, PixelOf, ValidatedForDamage;
    var s := d.lastScene.value;
    CanonicalizeFixesCanonical(s.surfaces);
    var layers := StoreLayers(d.store, s.surfaces);
    var f := ComposedFrame(d, s, r);
    PendingAsComposed(d.lastVersion, r);
    RepaintIsRepainted(Scratch(r), r.output, layers, f.damage);
    forall x, y | r.output.OnScreen(x, y)
      ensures WordAt(f.pixels, r.output, x, y) == PixelOf(Layers(c, s), x, y)
    {
      if Covers(f.damage, x, y) {
        forall i | 0 <= i < |s.surfaces| && SurfaceAt(s.surfaces[i], x, y) && s.surfaces[i].transport.Some?
          ensures s.surfaces[i].transport.value in d.store
        {
          ValidatedIsResident(d.store, s.surfaces, f.damage, i, x, y);
        }
        ResidentLayersShowContent(c, s.version, d.store, s.surfaces, x, y);
      } else {
        assert r.Initialised();
      }
    }
  }

  /** The damage of a frame is the pending damage. */
  lemma PendingAsComposed(newest: Version, r: Runtime)
    requires PendingOk(newest, r)
    ensures var damage := NormalizeDamage(r.pendingDamage, r.output.Bounds());
      && |damage| <= MAX_DAMAGE_RECTS && Within(damage, r.output.Bounds()) && (damage == [] <==> r.pendingDamage == [])
      && (forall x, y :: Covers(damage, x, y) <==> Covers(r.pendingDamage, x, y))
  {
    NormalizeDamageCovers(r.pendingDamage, r.output.Bounds());
    NormalizeDamageIdempotentCover(r.pendingDamage, r.output.Bounds());
  }

  lemma SubmissionKeepsRuntime(c: Content, w: World, r: Runtime, t: Token)
    requires LedgerOk(w) && SceneOk(c, w.display) && w.display.lastScene.Some?
    requires !r.disabled && r.outstanding.None? && r.pendingDamage != []
    requires RuntimeOk(c, w.ledger, w.display.lastScene, w.display.lastVersion, r)
    requires ValidatedForDamage(StoreLayers(w.display.store, Canonicalize(w.display.lastScene.value.surfaces)),
                                ComposedFrame(w.display, w.display.lastScene.value, r).damage)
    requires t == TokenFor(w.backend, ComposedFrame(w.display, w.display.lastScene.value, r))
    ensures var f := ComposedFrame(w.display, w.display.lastScene.value, r);
      && RuntimeOk(c, w.ledger, w.display.lastScene, w.display.lastVersion, SubmissionFailed(r, f))
      && RuntimeOk(c, w.ledger, w.display.lastScene, w.display.lastVersion, InFlight(r, f, t))
  {
    hide Repaint, ValidatedForDamage, NormalizeDamage, SceneLayers, Canonical, LedgerIncreases;
    var d := w.display;
    var f := ComposedFrame(d, d.lastScene.value, r);
    ComposedFrameIsFullRepaint(c, d, r);
    PendingAsComposed(d.lastVersion, r);
    if r.Initialised() {
      ShowsMore(r.framebuffer, r.output, Layers(c, d.lastScene.value), r.pendingDamage, f.damage);
    }
  }

  // ------------------------------------------------------------------ whole worlds

  /** The prepared store holds the accepted scene's own content. */
  lemma PreparedIsHydrated(c: Content, d: Display, r: SceneRequest, allowMissing: bool)
    requires SceneOk(c, d)
    requires d.lastScene.Some? ==> d.lastScene.value.version == d.lastVersion
    requires DisplayAdmits(r) && Prepare(d.store, r.surfaces, r.payloads, allowMissing).Some?
    requires forall i :: 0 <= i < |r.payloads| ==> r.payloads[i] == c(r.version, r.payloads[i].handle.surfaceId)
    requires d.lastScene.Some? && r.version != d.lastVersion ==>
      forall i, j :: (0 <= i < |d.lastScene.value.surfaces| && 0 <= j < |r.surfaces|
                      && d.lastScene.value.surfaces[i].transport.Some?
                      && d.lastScene.value.surfaces[i].transport == r.surfaces[j].transport
                      ==> c(d.lastVersion, d.lastScene.value.surfaces[i].id) == c(r.version, r.surfaces[j].id))
    requires d.lastScene.Some? && r.version == d.lastVersion ==> r.surfaces == d.lastScene.value.surfaces
    ensures var next := Prepare(d.store, r.surfaces, r.payloads, allowMissing).value;
      WellFiled(next) && next.Keys <= ReferencedHandles(r.surfaces) && Hydrated(c, r.version, r.surfaces, next)
  {
    PreparedStore(d.store, r.surfaces, r.version, r.payloads, allowMissing);
    var kept := Kept(d.store, ReferencedHandles(r.surfaces));
    var next := Attach(kept, r.payloads);
    forall j | 0 <= j < |r.surfaces| && r.surfaces[j].transport.Some? && r.surfaces[j].transport.value in next
      ensures next[r.surfaces[j].transport.value] == c(r.version, r.surfaces[j].id)
    {
      var h := r.surfaces[j].transport.value;
      assert TransportMatches(r.surfaces[j], r.version);
      AttachSource(kept, r.payloads, h);
      if h in d.store && next[h] == d.store[h] {
        KeptContent(c, d, h);
      }
    }
  }

  /** A payload on file belongs to a surface of the newest scene. */
  lemma KeptContent(c: Content, d: Display, h: Handle)
    requires SceneOk(c, d) && h in d.store
    ensures d.lastScene.Some?
    ensures exists i :: (0 <= i < |d.lastScene.value.surfaces| && d.lastScene.value.surfaces[i].transport == Some(h)
                         && d.store[h] == c(d.lastScene.value.version, d.lastScene.value.surfaces[i].id))
  {
    ReferencedMembers(d.lastScene.value.surfaces, h);
  }

  /** Adopting an accepted scene keeps every output right. */
  lemma AdoptKeepsOutputs(c: Content, w: World, r: SceneRequest, verdict: Verdict, commitId: U64)
    requires WorldOk(c, w) && verdict.Proceed?
    requires verdict.damage == DamageByOutput(w.display, r.surfaces)
    requires Canonical(r.surfaces)
    requires verdict.replayed.None? ==> w.display.lastVersion.Less(r.version)
    requires verdict.replayed.Some? ==> w.display.lastScene == Some(SceneOf(r, commitId))
    requires verdict.replayed.None? && w.display.lastScene.Some? ==>
      HonestScenes(c, w.display.lastVersion, w.display.lastScene.value.surfaces, r.version, r.surfaces)
    ensures var s := SceneOf(r, commitId);
      OutputsOk(c, if verdict.replayed.None? then w.ledger[r.version := s] else w.ledger, Some(s), r.version,
                DamageOutputs(w.display.outputs, verdict.damage, r.version, commitId))
  {
    hide Canonical, HonestScenes, RuntimeOk, DamageFor, SceneOk;
    var d, s := w.display, SceneOf(r, commitId);
    VersionOrder(d.lastVersion, r.version);
    SceneOkCanonical(c, d);
    forall k | k in d.outputs
      ensures DamageOutputs(d.outputs, verdict.damage, r.version, commitId)[k].output.outputId == k
      ensures RuntimeOk(c, if verdict.replayed.None? then w.ledger[r.version := s] else w.ledger, Some(s), r.version,
                        DamageOutputs(d.outputs, verdict.damage, r.version, commitId)[k])
    {
      if d.outputs[k].disabled {
        DisabledIsOk(c, w.ledger, d.lastScene, d.lastVersion, d.outputs[k],
                     if verdict.replayed.None? then w.ledger[r.version := s] else w.ledger, Some(s), r.version);
      } else if verdict.replayed.None? {
        NewSceneKeepsRuntime(c, w.ledger, d.lastScene, d.lastVersion, s, commitId, d.outputs[k]);
      } else {
        ReplayKeepsRuntime(c, w.ledger, s, commitId, d.outputs[k]);
      }
    }
  }

  lemma SceneOkCanonical(c: Content, d: Display)
    requires SceneOk(c, d)
    ensures d.lastScene.Some? ==> Canonical(d.lastScene.value.surfaces)
  {
  }

  lemma DisabledIsOk(c: Content, l0: map<Version, Scene>, s0: Option<Scene>, v0: Version, r: Runtime,
                     l1: map<Version, Scene>, s1: Option<Scene>, v1: Version)
    requires r.disabled && RuntimeOk(c, l0, s0, v0, r)
    ensures RuntimeOk(c, l1, s1, v1, r)
  {
  }

  /** What a verdict to proceed has established. */
  lemma ProceedMeans(d: Display, r: SceneRequest)
    requires Judge(d, r).Proceed?
    ensures DisplayAdmits(r)
    ensures Judge(d, r).replayed.Some? ==> d.lastScene.Some? && d.lastScene.value.surfaces == r.surfaces
    ensures Judge(d, r).damage == DamageByOutput(d, r.surfaces)
    ensures Prepare(d.store, r.surfaces, r.payloads, AllowMissing(d.reconciliation, r.payloads)) == Some(Judge(d, r).store)
  {
    hide DamageByOutput, Prepare, DisplayAdmitsSurfaces, DisplayAdmitsPayloads, ValidatedForDamage;
  }

  lemma RestartIsOk(c: Content, w: World, boot: Boot)
    requires LedgerOk(Restarted(w, boot))
    requires w.disk.Some? ==> WellStored(w.disk.value)
    ensures WorldOk(c, Restarted(w, boot))
  {
    hide LedgerOk, Canonical;
    DefaultIsOk(c, w.ledger, w.disk, Load(w.disk, boot).lastVersion);
  }

  lemma DefaultIsOk(c: Content, ledger: map<Version, Scene>, last: Option<Scene>, newest: Version)
    ensures RuntimeOk(c, ledger, last, newest, NewRuntime(DefaultOutput()))
  {
  }

  lemma AdmittedIsCanonical(request: SceneRequest)
    requires DisplayAdmits(WithCanonicalSurfaces(request))
    ensures Canonical(Canonicalize(request.surfaces))
    ensures forall i :: 0 <= i < |Canonicalize(request.surfaces)| ==> TransportMatches(Canonicalize(request.surfaces)[i], request.version)
  {
    var now := Canonicalize(request.surfaces);
    DistinctIdsPermute(now, request.surfaces);
    CanonicalizeIsCanonical(request.surfaces);
  }

  lemma CarryOutKeepsWorld(c: Content, w: World, request: SceneRequest, fault: DiskFault)
    requires WorldOk(c, w) && request.version != UNVERSIONED && w.display.nextCommitId < U64_MAX
    requires Judge(w.display, WithCanonicalSurfaces(request)).Proceed?
    requires Accept(w, request, fault).1.Committed? ==> FaithfulScene(c, w.display, request)
    ensures WorldOk(c, Accept(w, request, fault).0)
  {
    hide Judge, OutputsOk, Canonicalize, Canonical, Prepare, LedgerIncreases, DisplayAdmits, DamageByOutput, HonestScenes, Rebind, Hydrated, DamageOutputs, WellFiled;
    var d, r := w.display, WithCanonicalSurfaces(request);
    var verdict := Judge(d, r);
    AcceptKeepsLedger(w, request, fault);
    ProceedMeans(d, r);
    PlanKeepsReplay(d, r);
    VersionOrder(d.lastVersion, r.version);
    AdmittedIsCanonical(request);
    var s := SceneOf(r, d.nextCommitId);
    match Accept(w, request, fault).1
    case Died =>
      if fault.DiesAfterRename? {
        RestartIsOk(c, Persisted(w, s), fault.boot);
      } else {
        RestartIsOk(c, w, fault.boot);
      }
    case Committed(commitId) =>
      PreparedIsHydrated(c, d, r, AllowMissing(d.reconciliation, r.payloads));
      AdoptKeepsOutputs(c, w, r, verdict, commitId);
    case _ =>
  }

  lemma AcceptKeepsWorld(c: Content, w: World, request: SceneRequest, fault: DiskFault)
    requires WorldOk(c, w) && request.version != UNVERSIONED && w.display.nextCommitId < U64_MAX
    requires Accept(w, request, fault).1.Committed? ==> FaithfulScene(c, w.display, request)
    ensures WorldOk(c, Accept(w, request, fault).0)
  {
    hide Judge, WorldOk, CarryOut, FaithfulScene;
    if Judge(w.display, WithCanonicalSurfaces(request)).Proceed? {
      CarryOutKeepsWorld(c, w, request, fault);
    }
  }

  /** Replacing one output's runtime by a good one. */
  lemma UpdateKeepsOutputs(c: Content, ledger: map<Version, Scene>, last: Option<Scene>, newest: Version,
                           outputs: map<string, Runtime>, k: string, r: Runtime)
    requires OutputsOk(c, ledger, last, newest, outputs)
    requires RuntimeOk(c, ledger, last, newest, r) && r.output.outputId == k
    ensures OutputsOk(c, ledger, last, newest, outputs[k := r])
  {
  }

  lemma CompletionKeepsWorld(c: Content, w: World, t: Token, outcome: Completion, completes: bool)
    requires WorldOk(c, w)
    ensures WorldOk(c, FinishCompletion(w, t, outcome, completes).0)
  {
    hide RuntimeOk, LedgerIncreases, NotePresented, PresentRuntime, FailRuntime, Canonical, Hydrated, WellFiled;
    if Preflight(w.display, t).None? {
      var d := w.display;
      var r := d.outputs[t.outputId];
      PresentKeepsRuntime(c, w.ledger, d.lastScene, d.lastVersion, r);
      FailKeepsRuntime(c, w.ledger, d.lastScene, d.lastVersion, r);
      CompletionKeepsNames(r);
      UpdateKeepsOutputs(c, w.ledger, d.lastScene, d.lastVersion, d.outputs, t.outputId, PresentRuntime(r, r.outstanding.value));
      UpdateKeepsOutputs(c, w.ledger, d.lastScene, d.lastVersion, d.outputs, t.outputId, FailRuntime(r, r.outstanding.value));
      CompletionKeepsRecord(w, t, outcome, completes);
      CompletionOutputs(w, t, outcome, completes);
    }
  }

  lemma CompletionKeepsNames(r: Runtime)
    requires r.outstanding.Some?
    ensures PresentRuntime(r, r.outstanding.value).output == r.output && FailRuntime(r, r.outstanding.value).output == r.output
  {
  }

  /** What completing a frame does to the outputs and the payloads. */
  lemma CompletionOutputs(w: World, t: Token, outcome: Completion, completes: bool)
    requires Preflight(w.display, t).None?
    ensures var (w', result) := FinishCompletion(w, t, outcome, completes);
            var r := w.display.outputs[t.outputId];
      && w'.display.outputs == w.display.outputs[t.outputId :=
           if result == Presented then PresentRuntime(r, r.outstanding.value) else FailRuntime(r, r.outstanding.value)]
      && w'.display.store == w.display.store
  {
    hide PresentRuntime, FailRuntime;
  }

  lemma WithRuntimeIsOk(c: Content, w: World, id: string, r: Runtime)
    requires WorldOk(c, w) && r.output.outputId == id
    requires RuntimeOk(c, w.ledger, w.display.lastScene, w.display.lastVersion, r)
    ensures WorldOk(c, WithRuntime(w, id, r))
  {
    hide RuntimeOk, LedgerIncreases;
    UpdateKeepsOutputs(c, w.ledger, w.display.lastScene, w.display.lastVersion, w.display.outputs, id, r);
  }

  lemma CommitOutputKeepsWorld(c: Content, w: World, id: string, submits: bool, completes: bool)
    requires WorldOk(c, w) && w.display.lastScene.Some? && id in w.display.outputs
    ensures WorldOk(c, CommitOutput(w, id, w.display.lastScene.value, submits, completes).0)
  {
    hide WorldOk, RuntimeOk, ValidatedForDamage, Decodable, FinishCompletion, ComposedFrame;
    var s, r := w.display.lastScene.value, w.display.outputs[id];
    WorldOkParts(c, w, id);
    var frame := ComposedFrame(w.display, s, r);
    var token := TokenFor(w.backend, frame);
    if r.disabled {
    } else if r.outstanding.Some? || r.pendingDamage == [] {
      SchedulingKeepsRuntime(c, w.ledger, w.display.lastScene, w.display.lastVersion, r, r.scheduler.(state := PresentationBlocked));
      SchedulingKeepsRuntime(c, w.ledger, w.display.lastScene, w.display.lastVersion, r, r.scheduler.(state := Idle));
      WithRuntimeIsOk(c, w, id, r.(scheduler := r.scheduler.(state := PresentationBlocked)));
      WithRuntimeIsOk(c, w, id, r.(scheduler := r.scheduler.(state := Idle)));
    } else if ValidatedForDamage(StoreLayers(w.display.store, Canonicalize(s.surfaces)), frame.damage) {
      SubmissionKeepsRuntime(c, w, r, token);
      WithRuntimeIsOk(c, w, id, SubmissionFailed(r, frame));
      var submitted := w.(backend := Submit(w.backend, frame));
      BackendIsIrrelevant(c, w, submitted.backend);
      WithRuntimeIsOk(c, submitted, id, InFlight(r, frame, token));
      CompletionKeepsWorld(c, WithRuntime(submitted, id, InFlight(r, frame, token)), token, Presented, completes);
    }
  }

  lemma WorldOkParts(c: Content, w: World, id: string)
    requires WorldOk(c, w) && id in w.display.outputs
    ensures LedgerOk(w) && SceneOk(c, w.display) && w.display.outputs[id].output.outputId == id
    ensures RuntimeOk(c, w.ledger, w.display.lastScene, w.display.lastVersion, w.display.outputs[id])
  {
  }

  lemma BackendIsIrrelevant(c: Content, w: World, b: Backend)
    requires WorldOk(c, w)
    ensures WorldOk(c, w.(backend := b))
  {
  }

  lemma TickKeepsWorld(c: Content, w: World, e: Event)
    requires WorldOk(c, w) && e.Tick?
    ensures WorldOk(c, TickOutput(w, e).0)
  {
    hide WorldOk, RuntimeOk, AdvancePresentation, CommitOutput;
    if e.outputId in w.display.outputs {
      var r := w.display.outputs[e.outputId];
      WorldOkParts(c, w, e.outputId);
      AdvanceKeepsRuntime(c, w.ledger, w.display.lastScene, w.display.lastVersion, r, e.outputGeneration, e.now, e.tickSequence);
      var a := AdvancePresentation(r, e.outputGeneration, e.now, e.tickSequence);
      if !a.StaleOutput? {
        WithRuntimeIsOk(c, w, e.outputId, a.runtime);
        if w.display.lastScene.Some? {
          CommitOutputKeepsWorld(c, WithRuntime(w, e.outputId, a.runtime), e.outputId, e.submits, e.completes);
        }
      }
    }
  }

  /** Only outputs, backend, obligations, epoch and event sequences differ. */
  ghost predicate SameScenes(a: World, b: World)
  {
    SameRecord(a, b) && a.display.store == b.display.store
  }

  lemma OutputsDecide(c: Content, a: World, b: World)
    requires WorldOk(c, a) && SameScenes(a, b)
    requires OutputsOk(c, b.ledger, b.display.lastScene, b.display.lastVersion, b.display.outputs)
    ensures WorldOk(c, b)
  {
  }

  lemma DetachKeepsWorld(c: Content, w: World, id: string)
    requires WorldOk(c, w) && id in w.display.outputs
    ensures WorldOk(c, Detach(w, id))
  {
    hide RuntimeOk, LedgerIncreases;
    OutputsDecide(c, w, Detach(w, id));
  }

  lemma {:induction false} DetachAllKeepsWorld(c: Content, w: World, ids: set<string>)
    requires WorldOk(c, w) && ids <= w.display.outputs.Keys
    ensures WorldOk(c, DetachAll(w, ids))
    decreases |ids|
  {
    hide WorldOk;
    DetachNone(w);
    if ids != {} {
      var id :| id in ids;
      DetachOne(w, ids, id);
      DetachKeepsWorld(c, w, id);
      DetachAllKeepsWorld(c, Detach(w, id), ids - {id});
    }
  }

  /** A connected output starts fully damaged with nothing shown. */
  lemma ConnectedIsOk(c: Content, ledger: map<Version, Scene>, d: Display, output: LiveOutput, instance: U64, period: U64)
    ensures RuntimeOk(c, ledger, d.lastScene, d.lastVersion, ConnectedRuntime(d, output, instance, period))
  {
    var bounds := output.Bounds();
    forall x, y | output.OnScreen(x, y)
      ensures Covers([bounds], x, y)
    {
      CoversOne(bounds, x, y);
    }
  }

  lemma ConnectKeepsWorld(c: Content, w: World, e: OutputEvent)
    requires WorldOk(c, w) && e.Up?
    ensures WorldOk(c, Connect(w, e).0)
  {
    hide RuntimeOk, LedgerOk, ConnectedRuntime, TotalFramebufferBytes, SceneOk;
    if Connect(w, e).1 == Died {
      LedgerRestart(w, e.boot);
      SceneOkMeans(c, w);
      RestartIsOk(c, w, e.boot);
    } else if Connect(w, e).1 == Applied {
      var geometry := e.geometry.(outputGeneration := EffectiveGeneration(w.display, e.instance, e.geometry.outputGeneration));
      var next := ValidateGeometry(geometry).value;
      ConnectedIsOk(c, w.ledger, w.display, next, e.instance, e.period);
      ConnectedName(w.display, next, e.instance, e.period);
      UpdateKeepsOutputs(c, w.ledger, w.display.lastScene, w.display.lastVersion, w.display.outputs, e.outputId,
                         ConnectedRuntime(w.display, next, e.instance, e.period));
      OutputsDecide(c, w, Connect(w, e).0);
    }
  }

  lemma ConnectedName(d: Display, output: LiveOutput, instance: U64, period: U64)
    ensures ConnectedRuntime(d, output, instance, period).output == output
  {
  }

  lemma LedgerRestart(w: World, boot: Boot)
    requires LedgerOk(w)
    ensures LedgerOk(Restarted(w, boot))
  {
    RestartKeepsLedger(w, boot);
  }

  lemma SceneOkMeans(c: Content, w: World)
    requires WorldOk(c, w)
    ensures w.disk.Some? ==> WellStored(w.disk.value)
  {
  }

  lemma ChangeKeepsWorld(c: Content, w: World, e: OutputEvent)
    requires WorldOk(c, w)
    ensures WorldOk(c, ApplyOutputEvent(w, e).0)
  {
    hide WorldOk, Connect, RuntimeOk, DetachAll;
    var adopted := if e.instance != 0 && e.instance != w.display.displayEpoch
                   then w.(display := w.display.(displayEpoch := e.instance)) else w;
    EpochIsIrrelevant(c, w, e.instance);
    match e {
      case Up(_, _, _, _, _, _) => ConnectKeepsWorld(c, adopted, e);
      case Disabled(instance, id, _, generation) =>
        if Addresses(adopted.display, id, instance, generation) {
          var r := adopted.display.outputs[id];
          WorldOkParts(c, adopted, id);
          BackendIsIrrelevant(c, adopted, RemoveOutput(RetireOutstanding(adopted.backend, r), id));
          DisabledRuntimeIsOk(c, adopted.ledger, adopted.display.lastScene, adopted.display.lastVersion, r);
          WithRuntimeIsOk(c, adopted.(backend := RemoveOutput(RetireOutstanding(adopted.backend, r), id)), id, DisabledRuntime(r));
        }
      case Disconnected(instance, id, _, generation) =>
        if Addresses(adopted.display, id, instance, generation) {
          DetachKeepsWorld(c, adopted, id);
        }
      case BackendReset(instance, _) =>
        DetachAllKeepsWorld(c, adopted, OfInstance(adopted.display, instance));
    }
    var changed := ApplyChange(adopted, e).0;
    assert WorldOk(c, changed);
    SequencesAreIrrelevant(c, changed, changed.display.backendSequences[e.instance := e.sequence]);
  }

  lemma DisabledRuntimeIsOk(c: Content, ledger: map<Version, Scene>, last: Option<Scene>, newest: Version, r: Runtime)
    ensures RuntimeOk(c, ledger, last, newest, DisabledRuntime(r))
  {
  }

  lemma EpochIsIrrelevant(c: Content, w: World, epoch: U64)
    requires WorldOk(c, w)
    ensures WorldOk(c, w.(display := w.display.(displayEpoch := epoch)))
  {
  }

  lemma SequencesAreIrrelevant(c: Content, w: World, sequences: map<U64, U64>)
    requires WorldOk(c, w)
    ensures WorldOk(c, w.(display := w.display.(backendSequences := sequences)))
  {
  }

  lemma BeginKeepsWorld(c: Content, w: World, epoch: U64)
    requires WorldOk(c, w)
    ensures WorldOk(c, Begin(w, epoch).0)
  {
    hide LedgerIncreases, RuntimeOk;
    forall k | k in w.display.outputs
      ensures RuntimeOk(c, w.ledger, w.display.lastScene, w.display.lastVersion, w.display.outputs[k].(outstanding := None, retry := None))
    {
      RetiredIsOk(c, w.ledger, w.display.lastScene, w.display.lastVersion, w.display.outputs[k]);
    }
    OutputsDecide(c, w, Begin(w, epoch).0);
  }

  lemma RetiredIsOk(c: Content, ledger: map<Version, Scene>, last: Option<Scene>, newest: Version, r: Runtime)
    requires RuntimeOk(c, ledger, last, newest, r)
    ensures RuntimeOk(c, ledger, last, newest, r.(outstanding := None, retry := None))
  {
  }

  /** Every step of displayd keeps the invariant. */
  lemma StepKeepsWorld(c: Content, w: World, e: Event)
    requires WorldOk(c, w) && FaithfulStep(c, w, e)
    ensures WorldOk(c, Step(w, e).0)
  {
    hide WorldOk, Accept, TickOutput, FinishCompletion, ApplyOutputEvent, Begin, Load, FaithfulScene;
    match e
    case Commit(request, fault) => AcceptKeepsWorld(c, w, request, fault);
    case Reconcile(epoch, request, fault) =>
      AcceptKeepsWorld(c, w, request, fault);
      ReconciliationIsIrrelevant(c, Accept(w, request, fault).0);
    case BeginReconciliation(epoch) => BeginKeepsWorld(c, w, epoch);
    case Tick(_, _, _, _, _, _) => TickKeepsWorld(c, w, e);
    case Complete(token, outcome, completes) => CompletionKeepsWorld(c, w, token, outcome, completes);
    case OutputChange(change) => ChangeKeepsWorld(c, w, change);
    case Restart(boot) => RestartKeepsWorld(c, w, boot);
  }

  lemma RestartKeepsWorld(c: Content, w: World, boot: Boot)
    requires WorldOk(c, w)
    ensures WorldOk(c, Restarted(w, boot))
  {
    LedgerRestart(w, boot);
    RestartIsOk(c, w, boot);
  }

  lemma ReconciliationIsIrrelevant(c: Content, w: World)
    ensures WorldOk(c, w) ==> forall s :: WorldOk(c, w.(display := w.display.(reconciliation := s)))
  {
  }

  // ---------------------------------------------------------------- the main results

  /** displayd with nothing on disk. */
  function Initial(kind: BackendKind, boot: Boot): World
  {
    World(Load(None, boot), Backend(kind, boot.instanceId, map[], 1), None, map[])
  }

  lemma InitialIsOk(c: Content, kind: BackendKind, boot: Boot)
    ensures WorldOk(c, Initial(kind, boot))
  {
    DefaultIsOk(c, map[], None, UNVERSIONED);
  }

  lemma {:induction false} RunKeepsWorld(c: Content, w: World, events: seq<Event>)
    requires WorldOk(c, w) && FaithfulRun(c, w, events)
    ensures WorldOk(c, Run(w, events))
    decreases |events|
  {
    hide WorldOk, Step;
    if events != [] {
      StepKeepsWorld(c, w, events[0]);
      RunKeepsWorld(c, Step(w, events[0]).0, events[1..]);
    }
  }

  /** Incremental repaint refines full repaint. After any run, on every enabled output that
      has shown a frame, each pixel outside the pending damage has the colour the newest
      scene gives it from scratch; with nothing pending the framebuffer is a full repaint. */
  lemma IncrementalRefinesFull(c: Content, kind: BackendKind, boot: Boot, events: seq<Event>, k: string, x: int, y: int)
    requires FaithfulRun(c, Initial(kind, boot), events)
    requires k in Run(Initial(kind, boot), events).display.outputs
    requires var r := Run(Initial(kind, boot), events).display.outputs[k];
             !r.disabled && r.Initialised() && r.output.OnScreen(x, y) && !Covers(r.pendingDamage, x, y)
    ensures var d := Run(Initial(kind, boot), events).display;
      && d.lastScene.Some?
      && WordAt(d.outputs[k].framebuffer, d.outputs[k].output, x, y) == PixelOf(Layers(c, d.lastScene.value), x, y)
  {
    InitialIsOk(c, kind, boot);
    RunKeepsWorld(c, Initial(kind, boot), events);
  }

  /** ... and so is every frame in flight, of the scene it was composed from, while the
      pending damage covers whatever that scene lacks of the newest one. */
  lemma FramesInFlightAreFull(c: Content, kind: BackendKind, boot: Boot, events: seq<Event>, k: string, x: int, y: int)
    requires FaithfulRun(c, Initial(kind, boot), events)
    requires k in Run(Initial(kind, boot), events).display.outputs
    requires var r := Run(Initial(kind, boot), events).display.outputs[k];
             r.outstanding.Some? && r.output.OnScreen(x, y)
    ensures var w := Run(Initial(kind, boot), events);
            var r := w.display.outputs[k];
            var f := r.outstanding.value.frame;
      && f.version in w.ledger && f.version.AtMost(w.display.lastVersion)
      && |f.pixels| == r.output.Words()
      && WordAt(f.pixels, r.output, x, y) == PixelOf(Layers(c, w.ledger[f.version]), x, y)
      && r.pendingDamage != [] && r.pendingVersion == w.display.lastVersion
      && (Covers(f.damage, x, y) ==> Covers(r.pendingDamage, x, y))
      && (!Covers(r.pendingDamage, x, y) ==>
            w.display.lastScene.Some?
            && WordAt(f.pixels, r.output, x, y) == PixelOf(Layers(c, w.display.lastScene.value), x, y))
  {
    InitialIsOk(c, kind, boot);
    RunKeepsWorld(c, Initial(kind, boot), events);
  }
}
