/** compd fitting a scene to waylandd's surface registry: dead surfaces go, live ones are
    refreshed and laid out, focus and selection owners move to surfaces that exist. */
module Registry {
  import opened Machine
  import opened SceneTypes
  import opened Admission

  datatype Layer = Layer(
    layer: U32, anchor: U32, exclusiveZone: I32,
    marginTop: I32, marginBottom: I32, marginLeft: I32, marginRight: I32)

  datatype Role = Toplevel | Popup | LayerRole(metadata: Layer) | Background | Lock | Cursor

  /** `WaylandSurfaceState`. */
  datatype RegistrySurface = RegistrySurface(
    id: string, appId: string, role: Role, mapped: bool, bufferAttached: bool,
    bufferHandle: Option<string>, bufferGeneration: U64, damageRects: seq<DamageRect>)

  /** The parts of `SurfaceRegistrySnapshot` the reconciliation reads. */
  datatype RegistrySnapshot = RegistrySnapshot(surfaces: seq<RegistrySurface>, selection: Selection)

  datatype OutputMode = OutputMode(width: U32, height: U32)

  /** `CompdScene`. */
  datatype CompdScene = CompdScene(target: string, focus: Focus, selection: Selection, surfaces: seq<Surface>, version: Version)

  datatype ReconcileResult = ReconcileResult(scene: CompdScene, dropped: seq<string>, updatedAppIds: nat, handoffs: nat)

  type Active = map<string, RegistrySurface>

  // -------------------------------------------------------------------- active registry

  /** Mapped surfaces with a buffer, by id; the last entry of an id wins. */
  function ActiveRegistry(surfaces: seq<RegistrySurface>): Active
  {
    if surfaces == [] then map[]
    else
      var front, last := ActiveRegistry(surfaces[..|surfaces| - 1]), surfaces[|surfaces| - 1];
      if last.mapped && last.bufferAttached then front[last.id := last] else front
  }

  /** `is_focusable_role`. */
  predicate Focusable(role: Role)
  {
    role == Toplevel || role == Popup || role == Lock
  }

  predicate FocusableId(active: Active, id: string)
  {
    id in active && Focusable(active[id].role)
  }

  // -------------------------------------------------------------------------- surfaces

  /** A live surface takes over what the registry knows of it. */
  function Refreshed(s: Surface, r: RegistrySurface): Surface
  {
    s.(appId := r.appId, bufferHandle := r.bufferHandle, bufferGeneration := r.bufferGeneration, damageRects := r.damageRects,
       transport := if s.bufferGeneration != r.bufferGeneration then None else s.transport)
  }

  function Kept(surfaces: seq<Surface>, active: Active): (r: seq<Surface>)
    ensures forall i :: 0 <= i < |r| ==> r[i].id in active
  {
    if surfaces == [] then []
    else
      var front, last := Kept(surfaces[..|surfaces| - 1], active), surfaces[|surfaces| - 1];
      if last.id in active then front + [Refreshed(last, active[last.id])] else front
  }

  function Dropped(surfaces: seq<Surface>, active: Active): seq<string>
  {
    if surfaces == [] then []
    else
      var front, last := Dropped(surfaces[..|surfaces| - 1], active), surfaces[|surfaces| - 1];
      if last.id in active then front else front + [last.id]
  }

  function AppIdUpdates(surfaces: seq<Surface>, active: Active): nat
  {
    if surfaces == [] then 0
    else
      var front, last := AppIdUpdates(surfaces[..|surfaces| - 1], active), surfaces[|surfaces| - 1];
      front + if last.id in active && last.appId != active[last.id].appId then 1 else 0
  }

  // ---------------------------------------------------------------------------- layout

  const STUB_SCREEN_WIDTH: U32 := 1920
  const STUB_PANEL_HEIGHT: U32 := 36

  /** Two's complement wrap of a 32-bit sum or cast. */
  function Wrap(n: int): I32
  {
    (n - I32_MIN) % 0x1_0000_0000 + I32_MIN
  }

  /** Bit `b`, itself a power of two, of an anchor mask. */
  predicate Anchored(anchor: U32, b: nat)
    requires b > 0
  {
    anchor / b % 2 == 1
  }

  /** `apply_role_based_layout`. */
  function Laid(p: Placement, role: Role, mode: OutputMode): Placement
  {
    match role
    case Background => p.(x := 0, y := 0, width := mode.width, height := mode.height, z := 0)
    case LayerRole(m) =>
      var height := if m.exclusiveZone > 0 then m.exclusiveZone else STUB_PANEL_HEIGHT;
      p.(width := if Anchored(m.anchor, 1) && Anchored(m.anchor, 2)
                  then Max(mode.width - Max(Wrap(m.marginLeft + m.marginRight), 0), 0) else STUB_SCREEN_WIDTH,
         height := height,
         x := m.marginLeft,
         y := if Anchored(m.anchor, 4) then m.marginTop
              else if Anchored(m.anchor, 8) then Wrap(Wrap(Max(mode.height - height, 0)) - m.marginBottom)
              else 0,
         z := match m.layer { case 0 => 10 case 1 => 20 case 2 => 100 case 3 => 200 case _ => 100 })
    case Toplevel => p.(z := Max(p.z, 30))
    case _ => p
  }

  function LaidOut(s: Surface, active: Active, mode: OutputMode): Surface
  {
    if s.id in active then s.(placement := Laid(s.placement, active[s.id].role, mode)) else s
  }

  function Layout(surfaces: seq<Surface>, active: Active, mode: OutputMode): (r: seq<Surface>)
    ensures |r| == |surfaces|
  {
    seq(|surfaces|, i requires 0 <= i < |surfaces| => LaidOut(surfaces[i], active, mode))
  }

  // ------------------------------------------------------------------- focus, selection

  predicate Candidate(s: Surface, active: Active)
  {
    s.placement.visible && FocusableId(active, s.id)
  }

  /** `max_by_key` on z over the candidates: the last of the highest. */
  function TopCandidate(surfaces: seq<Surface>, active: Active): Option<Surface>
  {
    if surfaces == [] then None
    else
      var best, last := TopCandidate(surfaces[..|surfaces| - 1], active), surfaces[|surfaces| - 1];
      if Candidate(last, active) && (best.None? || last.placement.z >= best.value.placement.z) then Some(last) else best
  }

  /** `reconcile_focus`. */
  function ReconcileFocus(previous: Focus, surfaces: seq<Surface>, active: Active): Focus
  {
    if previous.FocusSurface? && FocusableId(active, previous.id) then previous
    else
      var top := TopCandidate(surfaces, active);
      if top.Some? then FocusSurface(top.value.id) else FocusNone
  }

  /** `reconcile_selection_slot`. */
  function ReconcileSlot(slot: SelectionSlot, focus: Focus, active: Active): (SelectionSlot, bool)
  {
    if slot.owner.None? then
      (SelectionSlot(None, None, None, slot.offerId), slot.payloadId.Some? || slot.sourceSerial.Some?)
    else if slot.owner.value in active then (slot, false)
    else
      (SelectionSlot(if focus.FocusSurface? && FocusableId(active, focus.id) then Some(focus.id) else None, None, None, slot.offerId), true)
  }

  /** `reconcile_scene_with_registry`. */
  function Reconcile(scene: CompdScene, registry: RegistrySnapshot, mode: OutputMode): ReconcileResult
  {
    var active := ActiveRegistry(registry.surfaces);
    var kept := Kept(scene.surfaces, active);
    var focus := ReconcileFocus(scene.focus, kept, active);
    var (clipboard, clipboardChanged) := ReconcileSlot(registry.selection.clipboard, focus, active);
    var (primary, primaryChanged) := ReconcileSlot(registry.selection.primary, focus, active);
    ReconcileResult(
      CompdScene(scene.target, focus, Selection(clipboard, primary), Layout(kept, active, mode), scene.version),
      Dropped(scene.surfaces, active),
      AppIdUpdates(scene.surfaces, active),
      (if clipboardChanged then 1 else 0) + (if primaryChanged then 1 else 0))
  }

  // ------------------------------------------------------------------------- the loops

  /** The loop that filters and refreshes. */
  method KeepSurfaces(surfaces: seq<Surface>, active: Active) returns (kept: seq<Surface>, dropped: seq<string>, updated: nat)
    ensures kept == Kept(surfaces, active) && dropped == Dropped(surfaces, active) && updated == AppIdUpdates(surfaces, active)
  {
    kept, dropped, updated := [], [], 0;
    for i := 0 to |surfaces|
      invariant kept == Kept(surfaces[..i], active) && dropped == Dropped(surfaces[..i], active)
      invariant updated == AppIdUpdates(surfaces[..i], active)
    {
      assert surfaces[..i + 1][..i] == surfaces[..i];
      var surface := surfaces[i];
      if surface.id in active {
        var known := active[surface.id];
        if surface.appId != known.appId {
          surface := surface.(appId := known.appId);
          updated := updated + 1;
        }
        var generationChanged := surface.bufferGeneration != known.bufferGeneration;
        surface := surface.(bufferHandle := known.bufferHandle, bufferGeneration := known.bufferGeneration, damageRects := known.damageRects);
        if generationChanged {
          surface := surface.(transport := None);
        }
        kept := kept + [surface];
      } else {
        dropped := dropped + [surface.id];
      }
    }
    assert surfaces[..|surfaces|] == surfaces;
  }

  /** The layout loop, surface by surface in place. */
  method LayOut(kept: seq<Surface>, active: Active, mode: OutputMode) returns (surfaces: seq<Surface>)
    ensures surfaces == Layout(kept, active, mode)
  {
    surfaces := kept;
    for i := 0 to |surfaces|
      invariant |surfaces| == |kept|
      invariant forall k :: 0 <= k < |kept| ==> surfaces[k] == if k < i then LaidOut(kept[k], active, mode) else kept[k]
    {
      if surfaces[i].id in active {
        surfaces := surfaces[i := surfaces[i].(placement := Laid(surfaces[i].placement, active[surfaces[i].id].role, mode))];
      }
    }
  }

  method ReconcileSceneWithRegistry(scene: CompdScene, registry: RegistrySnapshot, mode: OutputMode) returns (r: ReconcileResult)
    ensures r == Reconcile(scene, registry, mode)
  {
    var active := ActiveRegistry(registry.surfaces);
    var kept, dropped, updated := KeepSurfaces(scene.surfaces, active);
    var focus := ReconcileFocus(scene.focus, kept, active);
    var (clipboard, clipboardChanged) := ReconcileSlot(registry.selection.clipboard, focus, active);
    var (primary, primaryChanged) := ReconcileSlot(registry.selection.primary, focus, active);
    var handoffs := (if clipboardChanged then 1 else 0) + (if primaryChanged then 1 else 0);
    var surfaces := LayOut(kept, active, mode);
    r := ReconcileResult(CompdScene(scene.target, focus, Selection(clipboard, primary), surfaces, scene.version), dropped, updated, handoffs);
  }

  // ------------------------------------------------------------------------- properties

  /** `a` and `b` are what is left of `whole` when every element goes to one or the other,
      all in their order. */
  ghost predicate Interleaves(whole: seq<string>, a: seq<string>, b: seq<string>)
    decreases |whole|
  {
    if whole == [] then a == [] && b == []
    else
      || (a != [] && a[|a| - 1] == whole[|whole| - 1] && Interleaves(whole[..|whole| - 1], a[..|a| - 1], b))
      || (b != [] && b[|b| - 1] == whole[|whole| - 1] && Interleaves(whole[..|whole| - 1], a, b[..|b| - 1]))
  }

  function IdsInOrder(surfaces: seq<Surface>): (r: seq<string>)
    ensures |r| == |surfaces| && forall i :: 0 <= i < |r| ==> r[i] == surfaces[i].id
  {
    seq(|surfaces|, i requires 0 <= i < |surfaces| => surfaces[i].id)
  }

  /** Kept and dropped surfaces partition the input, both in its order; the dropped ones are
      exactly the inactive ones. */
  lemma {:induction false} KeptAndDroppedPartition(surfaces: seq<Surface>, active: Active)
    ensures Interleaves(IdsInOrder(surfaces), IdsInOrder(Kept(surfaces, active)), Dropped(surfaces, active))
    ensures forall id :: id in Dropped(surfaces, active) ==> id !in active
  {
    if surfaces != [] {
      var front, last := surfaces[..|surfaces| - 1], surfaces[|surfaces| - 1];
      KeptAndDroppedPartition(front, active);
      var ids, kept := IdsInOrder(surfaces), IdsInOrder(Kept(surfaces, active));
      var dropped := Dropped(surfaces, active);
      assert ids[..|ids| - 1] == IdsInOrder(front);
      if last.id in active {
        assert kept[..|kept| - 1] == IdsInOrder(Kept(front, active));
      } else {
        assert dropped[..|dropped| - 1] == Dropped(front, active);
      }
    }
  }

  /** Where an anchored layer surface ends up: at its left margin; tied to both sides it ends
      at the right margin; tied to the top it starts at the top margin, tied to the bottom
      alone it ends at the bottom margin, tied to neither it lies at the top; as tall as its
      exclusive zone, or 36. */
  lemma LayerLiesAtItsMargins(p: Placement, m: Layer, mode: OutputMode)
    ensures var q := Laid(p, LayerRole(m), mode);
      && q.x == m.marginLeft
      && q.height == (if m.exclusiveZone > 0 then m.exclusiveZone else 36)
      && (m.anchor % 4 == 3 && 0 <= m.marginLeft + m.marginRight <= Min(mode.width, I32_MAX) ==>
            q.x + q.width == mode.width - m.marginRight)
      && (m.anchor % 4 != 3 ==> q.width == 1920)
      && (m.anchor / 4 % 2 == 1 ==> q.y == m.marginTop)
      && (m.anchor / 4 % 4 == 2 && q.height <= mode.height <= I32_MAX && I32_MIN <= mode.height - q.height - m.marginBottom <= I32_MAX ==>
            q.y + q.height == mode.height - m.marginBottom)
      && (m.anchor / 4 % 4 == 0 ==> q.y == 0)
  {
    AnchorBits(m.anchor);
  }

  lemma AnchorBits(anchor: U32)
    ensures Anchored(anchor, 1) && Anchored(anchor, 2) <==> anchor % 4 == 3
    ensures Anchored(anchor, 4) <==> anchor / 4 % 2 == 1
    ensures !Anchored(anchor, 4) && Anchored(anchor, 8) <==> anchor / 4 % 4 == 2
    ensures !Anchored(anchor, 4) && !Anchored(anchor, 8) <==> anchor / 4 % 4 == 0
  {
    var low, high := anchor % 4, anchor / 4;
    assert anchor / 2 % 2 == low / 2 && anchor % 2 == low % 2;
    assert anchor / 8 == high / 2;
    assert high / 2 % 2 == high % 4 / 2 && high % 2 == high % 4 % 2;
  }

  /** How surfaces stack: the background below everything, then the two low layers, then
      toplevels, then the two high layers; a toplevel rises into the high layers only by its
      own z. Layout never hides, shows or renames, and leaves popups, locks and cursors be. */
  lemma LayersStack(p: Placement, q: Placement, m: Layer, mode: OutputMode)
    ensures var background, toplevel, layer := Laid(p, Background, mode), Laid(q, Toplevel, mode), Laid(p, LayerRole(m), mode);
      && background == Placement(0, 0, mode.width, mode.height, 0, p.visible)
      && background.z < layer.z && background.z < toplevel.z
      && (m.layer <= 1 ==> layer.z < toplevel.z)
      && (m.layer >= 2 ==> (toplevel.z < layer.z <==> q.z < (if m.layer == 3 then 200 else 100)))
      && toplevel == q.(z := toplevel.z) && (q.z >= 30 ==> toplevel.z == q.z)
      && layer.visible == p.visible
    ensures m.layer == 0 ==> forall other: Layer :: other.layer != 0 ==> Laid(p, LayerRole(m), mode).z < Laid(q, LayerRole(other), mode).z
    ensures m.layer == 3 ==> forall other: Layer :: other.layer != 3 ==> Laid(q, LayerRole(other), mode).z < Laid(p, LayerRole(m), mode).z
    ensures Laid(p, Popup, mode) == p && Laid(p, Lock, mode) == p && Laid(p, Cursor, mode) == p
  {
  }

  lemma LaidTwice(p: Placement, role: Role, mode: OutputMode)
    ensures Laid(Laid(p, role, mode), role, mode) == Laid(p, role, mode)
  {
  }

  /** A surface already refreshed and laid out is left alone. */
  predicate Settled(s: Surface, active: Active, mode: OutputMode)
  {
    s.id in active && Refreshed(s, active[s.id]) == s && LaidOut(s, active, mode) == s
  }

  ghost predicate AllSettled(surfaces: seq<Surface>, active: Active, mode: OutputMode)
  {
    forall i :: 0 <= i < |surfaces| ==> Settled(surfaces[i], active, mode)
  }

  lemma {:induction false} SettledSurfacesStay(surfaces: seq<Surface>, active: Active, mode: OutputMode)
    requires AllSettled(surfaces, active, mode)
    ensures Kept(surfaces, active) == surfaces && Layout(surfaces, active, mode) == surfaces
    ensures Dropped(surfaces, active) == [] && AppIdUpdates(surfaces, active) == 0
  {
    if surfaces != [] {
      var front := surfaces[..|surfaces| - 1];
      SettledSurfacesStay(front, active, mode);
      assert Settled(surfaces[|surfaces| - 1], active, mode);
    }
  }

  lemma {:induction false} KeptIsRefreshed(surfaces: seq<Surface>, active: Active, i: nat)
    requires i < |Kept(surfaces, active)|
    ensures Refreshed(Kept(surfaces, active)[i], active[Kept(surfaces, active)[i].id]) == Kept(surfaces, active)[i]
  {
    if i < |Kept(surfaces[..|surfaces| - 1], active)| {
      KeptIsRefreshed(surfaces[..|surfaces| - 1], active, i);
    }
  }

  /** The active registry: mapped surfaces with a buffer, the last of a name counting. */
  lemma {:induction false} ActiveExactly(surfaces: seq<RegistrySurface>, id: string)
    ensures id in ActiveRegistry(surfaces) <==> exists i :: 0 <= i < |surfaces| && surfaces[i].id == id && surfaces[i].mapped && surfaces[i].bufferAttached
    ensures id in ActiveRegistry(surfaces) ==> exists i :: (0 <= i < |surfaces| && surfaces[i] == ActiveRegistry(surfaces)[id]
      && forall j :: i < j < |surfaces| && surfaces[j].id == id ==> !(surfaces[j].mapped && surfaces[j].bufferAttached))
    ensures id in ActiveRegistry(surfaces) ==> ActiveRegistry(surfaces)[id].id == id
  {
    if surfaces != [] {
      var front, last := surfaces[..|surfaces| - 1], surfaces[|surfaces| - 1];
      ActiveExactly(front, id);
      if last.mapped && last.bufferAttached && last.id == id {
        assert surfaces[|surfaces| - 1] == ActiveRegistry(surfaces)[id];
      } else if id in ActiveRegistry(front) {
        var i :| 0 <= i < |front| && front[i] == ActiveRegistry(front)[id]
          && forall j :: i < j < |front| && front[j].id == id ==> !(front[j].mapped && front[j].bufferAttached);
        assert surfaces[i] == ActiveRegistry(surfaces)[id];
      }
    }
  }

  /** What a kept surface is made of: its own identity and place, the registry's application,
      buffer and damage, and its pixels only while they are of the registry's buffer. */
  predicate RefreshedFrom(out: Surface, s: Surface, known: RegistrySurface, mode: OutputMode)
  {
    && out.id == s.id && out.layerClass == s.layerClass && out.creationSequence == s.creationSequence
    && out.appId == known.appId && out.bufferHandle == known.bufferHandle
    && out.bufferGeneration == known.bufferGeneration && out.damageRects == known.damageRects
    && out.transport == (if s.bufferGeneration == known.bufferGeneration then s.transport else None)
    && out.placement == Laid(s.placement, known.role, mode)
  }

  lemma {:induction false} KeptFrom(surfaces: seq<Surface>, active: Active, mode: OutputMode, i: nat)
    requires i < |Kept(surfaces, active)|
    ensures exists j :: (0 <= j < |surfaces| && surfaces[j].id in active
      && RefreshedFrom(LaidOut(Kept(surfaces, active)[i], active, mode), surfaces[j], active[surfaces[j].id], mode))
  {
    var front, last := surfaces[..|surfaces| - 1], surfaces[|surfaces| - 1];
    if i < |Kept(front, active)| {
      KeptFrom(front, active, mode, i);
      var j :| 0 <= j < |front| && front[j].id in active
        && RefreshedFrom(LaidOut(Kept(front, active)[i], active, mode), front[j], active[front[j].id], mode);
      assert surfaces[j] == front[j];
    } else {
      assert surfaces[|surfaces| - 1] == last;
      assert RefreshedFrom(LaidOut(Kept(surfaces, active)[i], active, mode), last, active[last.id], mode);
    }
  }

  /** Every surface of the reconciled scene is an active one of the scene, brought up to date. */
  lemma ReconciledIsCurrent(scene: CompdScene, registry: RegistrySnapshot, mode: OutputMode, i: nat)
    requires i < |Reconcile(scene, registry, mode).scene.surfaces|
    ensures var active := ActiveRegistry(registry.surfaces);
      exists j :: 0 <= j < |scene.surfaces| && scene.surfaces[j].id in active
        && RefreshedFrom(Reconcile(scene, registry, mode).scene.surfaces[i], scene.surfaces[j], active[scene.surfaces[j].id], mode)
  {
    hide Kept, ActiveRegistry, LaidOut, RefreshedFrom, ReconcileFocus, ReconcileSlot, Dropped, AppIdUpdates;
    KeptFrom(scene.surfaces, ActiveRegistry(registry.surfaces), mode, i);
  }

  /** A slot's owner stays while it is active; a dead one is replaced by the focus, if that
      can take it, without payload or serial; the offer stays. */
  lemma SlotExactly(slot: SelectionSlot, focus: Focus, active: Active)
    ensures var (next, changed) := ReconcileSlot(slot, focus, active);
      && next.offerId == slot.offerId
      && (slot.owner.Some? && slot.owner.value in active ==> next == slot && !changed)
      && (slot.owner.Some? && slot.owner.value !in active ==>
            changed && next.payloadId.None? && next.sourceSerial.None?
            && next.owner == if focus.FocusSurface? && FocusableId(active, focus.id) then Some(focus.id) else None)
      && (slot.owner.None? ==> next == SelectionSlot(None, None, None, slot.offerId) && (changed <==> next != slot))
  {
  }

  lemma ResultIsSettled(surfaces: seq<Surface>, active: Active, mode: OutputMode)
    ensures AllSettled(Layout(Kept(surfaces, active), active, mode), active, mode)
  {
    var kept := Kept(surfaces, active);
    forall i | 0 <= i < |kept|
      ensures Settled(Layout(kept, active, mode)[i], active, mode)
    {
      KeptIsRefreshed(surfaces, active, i);
      LaidTwice(kept[i].placement, active[kept[i].id].role, mode);
    }
  }

  ghost predicate IsTop(surfaces: seq<Surface>, active: Active, k: nat)
    requires k < |surfaces|
  {
    && Candidate(surfaces[k], active)
    && forall i :: 0 <= i < |surfaces| && Candidate(surfaces[i], active) ==>
         surfaces[i].placement.z < surfaces[k].placement.z || (surfaces[i].placement.z == surfaces[k].placement.z && i <= k)
  }

  ghost predicate NoCandidate(surfaces: seq<Surface>, active: Active)
  {
    forall i :: 0 <= i < |surfaces| ==> !Candidate(surfaces[i], active)
  }

  /** One more surface: it becomes the top, or the top stays. */
  lemma TopOneMore(front: seq<Surface>, last: Surface, active: Active)
    ensures NoCandidate(front + [last], active) <==> NoCandidate(front, active) && !Candidate(last, active)
    ensures NoCandidate(front, active) && Candidate(last, active) ==> IsTop(front + [last], active, |front|)
    ensures forall k :: 0 <= k < |front| && IsTop(front, active, k) ==>
      IsTop(front + [last], active, if Candidate(last, active) && last.placement.z >= front[k].placement.z then |front| else k)
  {
    hide Candidate;
    var all := front + [last];
    assert all[|front|] == last && forall i :: 0 <= i < |front| ==> all[i] == front[i];
  }

  /** The top candidate is one, no candidate is above it, and none behind it in the list is
      as high. */
  lemma {:induction false} TopCandidateIsTopmost(surfaces: seq<Surface>, active: Active)
    ensures TopCandidate(surfaces, active).None? <==> NoCandidate(surfaces, active)
    ensures TopCandidate(surfaces, active).Some? ==> exists k :: 0 <= k < |surfaces| && IsTop(surfaces, active, k) && surfaces[k] == TopCandidate(surfaces, active).value
  {
    if surfaces != [] {
      hide Candidate, IsTop, NoCandidate;
      var front, last := surfaces[..|surfaces| - 1], surfaces[|surfaces| - 1];
      TopCandidateIsTopmost(front, active);
      TopOneMore(front, last, active);
      assert surfaces == front + [last];
      var best := TopCandidate(front, active);
      if best.Some? {
        var k :| 0 <= k < |front| && IsTop(front, active, k) && front[k] == best.value;
        assert IsTop(surfaces, active, if Candidate(last, active) && last.placement.z >= front[k].placement.z then |front| else k);
      }
    } else {
      assert NoCandidate(surfaces, active);
    }
  }

  /** The focus is an active focusable surface, or none; and none only when no visible
      focusable surface is left. */
  lemma FocusIsActive(scene: CompdScene, registry: RegistrySnapshot, mode: OutputMode)
    ensures var active := ActiveRegistry(registry.surfaces);
      var focus := Reconcile(scene, registry, mode).scene.focus;
      && (focus.FocusSurface? ==> FocusableId(active, focus.id))
      && (focus.FocusNone? ==> NoCandidate(Kept(scene.surfaces, active), active))
  {
    hide Kept, Layout, Dropped, AppIdUpdates, ActiveRegistry, TopCandidate, ReconcileSlot;
    var active := ActiveRegistry(registry.surfaces);
    TopCandidateIsTopmost(Kept(scene.surfaces, active), active);
  }

  /** Every selection owner is active, and no slot keeps a payload or serial without its
      owner. */
  lemma OwnersAreActive(scene: CompdScene, registry: RegistrySnapshot, mode: OutputMode)
    ensures var active := ActiveRegistry(registry.surfaces);
      forall slot :: slot in {Reconcile(scene, registry, mode).scene.selection.clipboard, Reconcile(scene, registry, mode).scene.selection.primary} ==>
        && (slot.owner.Some? ==> slot.owner.value in active)
        && (slot.owner.None? ==> slot.payloadId.None? && slot.sourceSerial.None?)
  {
    FocusIsActive(scene, registry, mode);
  }

  lemma NoCandidateStaysNone(was: seq<Surface>, now: seq<Surface>, active: Active)
    requires |was| == |now|
    requires forall i :: 0 <= i < |was| ==> (Candidate(was[i], active) <==> Candidate(now[i], active))
    ensures TopCandidate(was, active).None? <==> TopCandidate(now, active).None?
  {
    TopCandidateIsTopmost(was, active);
    TopCandidateIsTopmost(now, active);
  }

  /** Layout moves surfaces, it does not hide or rename them. */
  lemma LayoutKeepsCandidates(surfaces: seq<Surface>, active: Active, mode: OutputMode)
    ensures forall i :: 0 <= i < |surfaces| ==> (Candidate(surfaces[i], active) <==> Candidate(Layout(surfaces, active, mode)[i], active))
  {
  }

  /** The focus found once is found again. */
  lemma FocusIsFixpoint(previous: Focus, kept: seq<Surface>, active: Active, mode: OutputMode)
    ensures var focus := ReconcileFocus(previous, kept, active); ReconcileFocus(focus, Layout(kept, active, mode), active) == focus
  {
    hide Layout;
    TopCandidateIsTopmost(kept, active);
    LayoutKeepsCandidates(kept, active, mode);
    NoCandidateStaysNone(kept, Layout(kept, active, mode), active);
  }

  /** Reconciliation is a fixpoint: a second pass against the same registry and output finds
      nothing to drop, to rename or to move. */
  lemma ReconcileIsFixpoint(scene: CompdScene, registry: RegistrySnapshot, mode: OutputMode)
    ensures var once := Reconcile(scene, registry, mode);
      Reconcile(once.scene, registry, mode) == ReconcileResult(once.scene, [], 0, once.handoffs)
  {
    hide Kept, Layout, Dropped, AppIdUpdates, ActiveRegistry, ReconcileFocus, ReconcileSlot;
    var active := ActiveRegistry(registry.surfaces);
    var kept := Kept(scene.surfaces, active);
    ResultIsSettled(scene.surfaces, active, mode);
    SettledSurfacesStay(Layout(kept, active, mode), active, mode);
    FocusIsFixpoint(scene.focus, kept, active, mode);
  }

  lemma {:induction false} KeptIds(surfaces: seq<Surface>, active: Active, id: string)
    ensures id in Ids(Kept(surfaces, active)) <==> id in Ids(surfaces) && id in active
  {
    if surfaces != [] {
      var front, last := surfaces[..|surfaces| - 1], surfaces[|surfaces| - 1];
      KeptIds(front, active, id);
      assert surfaces == front + [last];
      IdsMembers(surfaces, id);
      IdsMembers(front, id);
      IdsMembers(Kept(surfaces, active), id);
      IdsMembers(Kept(front, active), id);
      var kept := Kept(surfaces, active);
      if last.id in active {
        assert kept == Kept(front, active) + [Refreshed(last, active[last.id])];
      }
    }
  }

  /** The kept focus is looked up in the registry, not in the scene, so it may name a surface
      the scene does not have. The focus lies in the scene exactly when the previous one did, or was not to be kept anyway. */
  lemma FocusMayLeaveTheScene(scene: CompdScene, registry: RegistrySnapshot, mode: OutputMode)
    ensures var active := ActiveRegistry(registry.surfaces);
      var r := Reconcile(scene, registry, mode).scene;
      (r.focus.FocusSurface? ==> r.focus.id in Ids(r.surfaces))
      <==> (scene.focus.FocusSurface? && FocusableId(active, scene.focus.id) ==> scene.focus.id in Ids(scene.surfaces))
  {
    var active := ActiveRegistry(registry.surfaces);
    var kept := Kept(scene.surfaces, active);
    var r := Reconcile(scene, registry, mode).scene;
    forall id
      ensures id in Ids(r.surfaces) <==> id in Ids(kept)
    {
      IdsMembers(r.surfaces, id);
      IdsMembers(kept, id);
      assert forall i :: 0 <= i < |kept| ==> r.surfaces[i].id == kept[i].id;
    }
    TopCandidateIsTopmost(kept, active);
    if scene.focus.FocusSurface? && FocusableId(active, scene.focus.id) {
      KeptIds(scene.surfaces, active, scene.focus.id);
    } else if r.focus.FocusSurface? {
      IdsMembers(kept, r.focus.id);
    }
  }

  /** What is sent on for a scene, with whatever payloads. */
  function RequestOf(s: CompdScene, payloads: seq<Payload>): SceneRequest
  {
    SceneRequest(s.target, s.focus, s.selection, s.surfaces, payloads, s.version)
  }

  /** Both validators refuse a scene whose focus it does not contain. */
  lemma StrayFocusIsRefused(s: CompdScene, payloads: seq<Payload>, requirePayloads: bool)
    requires s.focus.FocusSurface? && s.focus.id !in Ids(s.surfaces)
    ensures !RelayAccepts(RequestOf(s, payloads), requirePayloads) && !DisplayAdmits(RequestOf(s, payloads))
  {
  }

  /** Such a scene: empty, its focus on a surface the registry knows. Neither
      service takes the result. */
  lemma StrayFocusExample()
    ensures exists scene: CompdScene, registry: RegistrySnapshot, mode: OutputMode :: (
      var r := Reconcile(scene, registry, mode).scene;
      && r.focus.FocusSurface? && r.focus.id !in Ids(r.surfaces)
      && !RelayAccepts(RequestOf(r, []), false) && !DisplayAdmits(RequestOf(r, [])))
  {
    var nobody := SelectionSlot(None, None, None, None);
    var known := RegistrySurface("a", "app", Toplevel, true, true, None, 1, []);
    var registry := RegistrySnapshot([known], Selection(nobody, nobody));
    var scene := CompdScene("o", FocusSurface("a"), Selection(nobody, nobody), [], Version(1, 1));
    var mode := OutputMode(1920, 1080);
    assert ActiveRegistry(registry.surfaces) == map["a" := known] by {
      assert registry.surfaces[..0] == [];
    }
    FocusMayLeaveTheScene(scene, registry, mode);
    assert Ids(scene.surfaces) == {};
    var r := Reconcile(scene, registry, mode).scene;
    assert r.focus == FocusSurface("a");
    StrayFocusIsRefused(r, [], false);
  }
}
