/** The two independently written scene validators, compd's and displayd's. */
module Admission {
  import opened Machine
  import opened SceneTypes
  import opened Geometry

  const MAX_SCENE_SURFACES := 4096
  const MAX_SCENE_PIXEL_PAYLOADS := 4096
  const MAX_SCENE_PIXEL_BYTES := 256 * 1024 * 1024
  const MAX_SINGLE_PIXEL_PAYLOAD_BYTES := 64 * 1024 * 1024

  /** What both services are asked to judge. */
  datatype SceneRequest = SceneRequest(
    target: string, focus: Focus, selection: Selection,
    surfaces: seq<Surface>, payloads: seq<Payload>, version: Version)

  // ------------------------------------------------------------- shared vocabulary

  ghost function Ids(surfaces: seq<Surface>): set<string>
  {
    set s <- surfaces :: s.id
  }

  ghost function ReferencedHandles(surfaces: seq<Surface>): set<Handle>
  {
    set s <- surfaces | s.transport.Some? :: s.transport.value
  }

  ghost function PayloadHandles(payloads: seq<Payload>): set<Handle>
  {
    set p <- payloads :: p.handle
  }

  function DamageCount(surfaces: seq<Surface>): nat
  {
    if surfaces == [] then 0
    else DamageCount(surfaces[..|surfaces| - 1]) + |surfaces[|surfaces| - 1].damageRects|
  }

  function PixelBytes(payloads: seq<Payload>): nat
  {
    if payloads == [] then 0
    else PixelBytes(payloads[..|payloads| - 1]) + |payloads[|payloads| - 1].pixels|
  }

  /** `expected_payload_len` and the length test of `validate_payload`. */
  predicate PayloadShape(p: Payload)
  {
    && p.width != 0 && p.height != 0
    && p.width * 4 <= U32_MAX && p.width * 4 <= p.stride
    && p.stride * p.height == |p.pixels|
  }

  predicate TransportMatches(s: Surface, version: Version)
  {
    s.transport.Some? ==>
      && s.transport.value.surfaceId == s.id
      && (version.generation != 0 ==> s.transport.value.sceneGeneration == version.generation)
      && (s.bufferGeneration != 0 ==> s.transport.value.bufferGeneration == s.bufferGeneration)
  }

  predicate PlacementFits(s: Surface)
  {
    && (s.placement.visible ==> s.placement.width != 0 && s.placement.height != 0)
    && s.placement.x + s.placement.width <= I32_MAX
    && s.placement.y + s.placement.height <= I32_MAX
  }

  ghost predicate OwnersPresent(focus: Focus, selection: Selection, ids: set<string>)
  {
    && (focus.FocusSurface? ==> focus.id in ids)
    && (selection.clipboard.owner.Some? ==> selection.clipboard.owner.value in ids)
    && (selection.primary.owner.Some? ==> selection.primary.owner.value in ids)
  }

  ghost predicate DistinctHandles(payloads: seq<Payload>)
  {
    forall i, j :: 0 <= i < j < |payloads| ==> payloads[i].handle != payloads[j].handle
  }

  ghost predicate DistinctTransports(surfaces: seq<Surface>)
  {
    forall i, j :: 0 <= i < j < |surfaces| && surfaces[i].transport.Some? && surfaces[j].transport.Some?
      ==> surfaces[i].transport.value != surfaces[j].transport.value
  }

  // ------------------------------------------------------------------ displayd's side

  ghost predicate DisplayAdmitsSurfaces(surfaces: seq<Surface>, version: Version)
  {
    && DistinctIds(surfaces)
    && (forall i :: 0 <= i < |surfaces| ==>
          surfaces[i].id != "" && PlacementFits(surfaces[i]) && TransportMatches(surfaces[i], version))
    && DistinctTransports(surfaces)
    && DamageCount(surfaces) <= MAX_DAMAGE_RECTS
  }

  ghost predicate DisplayAdmitsPayloads(payloads: seq<Payload>, expected: set<Handle>)
  {
    && DistinctHandles(payloads)
    && (forall i :: 0 <= i < |payloads| ==>
          && payloads[i].handle in expected && PayloadShape(payloads[i])
          && |payloads[i].pixels| <= MAX_SINGLE_PIXEL_PAYLOAD_BYTES)
    && PixelBytes(payloads) <= MAX_SCENE_PIXEL_BYTES
  }

  /** Exactly the scenes `validate_scene_admission` lets through. */
  ghost predicate DisplayAdmits(r: SceneRequest)
  {
    && (r.version.epoch == 0 <==> r.version.generation == 0)
    && r.target != ""
    && |r.surfaces| <= MAX_SCENE_SURFACES && |r.payloads| <= MAX_SCENE_PIXEL_PAYLOADS
    && DisplayAdmitsSurfaces(r.surfaces, r.version)
    && OwnersPresent(r.focus, r.selection, Ids(r.surfaces))
    && DisplayAdmitsPayloads(r.payloads, ReferencedHandles(r.surfaces))
  }

  lemma IdsMembers(surfaces: seq<Surface>, id: string)
    ensures id in Ids(surfaces) <==> exists i :: 0 <= i < |surfaces| && surfaces[i].id == id
  {
    if id in Ids(surfaces) {
      var s :| s in surfaces && s.id == id;
    }
  }

  lemma ReferencedMembers(surfaces: seq<Surface>, h: Handle)
    ensures h in ReferencedHandles(surfaces) <==> exists i :: 0 <= i < |surfaces| && surfaces[i].transport == Some(h)
  {
    if h in ReferencedHandles(surfaces) {
      var s :| s in surfaces && s.transport.Some? && s.transport.value == h;
    }
    if exists i :: 0 <= i < |surfaces| && surfaces[i].transport == Some(h) {
      var i :| 0 <= i < |surfaces| && surfaces[i].transport == Some(h);
      assert surfaces[i] in surfaces;
    }
  }

  /** What the surface loop has to test to extend an admitted prefix. */
  ghost predicate AdmitsNext(seen: seq<Surface>, s: Surface, version: Version)
  {
    && s.id != "" && s.id !in Ids(seen)
    && PlacementFits(s) && TransportMatches(s, version)
    && (s.transport.Some? ==> s.transport.value !in ReferencedHandles(seen))
    && DamageCount(seen) + |s.damageRects| <= MAX_DAMAGE_RECTS
  }

  lemma AdmitOneMore(seen: seq<Surface>, s: Surface, version: Version)
    ensures Ids(seen + [s]) == Ids(seen) + {s.id}
    ensures ReferencedHandles(seen + [s]) == ReferencedHandles(seen) + if s.transport.Some? then {s.transport.value} else {}
    ensures DamageCount(seen + [s]) == DamageCount(seen) + |s.damageRects|
    ensures DisplayAdmitsSurfaces(seen + [s], version) <==> DisplayAdmitsSurfaces(seen, version) && AdmitsNext(seen, s, version)
  {
    var next := seen + [s];
    assert next[..|seen|] == seen;
    assert forall t :: t in next <==> t in seen || t == s;
    IdsMembers(seen, s.id);
    if s.transport.Some? { ReferencedMembers(seen, s.transport.value); }
    if DisplayAdmitsSurfaces(next, version) {
      assert next[|seen|] == s;
      assert forall i :: 0 <= i < |seen| ==> next[i] == seen[i];
    }
  }

  lemma PrefixOfAdmitted(surfaces: seq<Surface>, i: nat, version: Version)
    requires i < |surfaces|
    ensures DisplayAdmitsSurfaces(surfaces, version) ==> AdmitsNext(surfaces[..i], surfaces[i], version)
  {
    if DisplayAdmitsSurfaces(surfaces, version) {
      DamageCountMonotone(surfaces, i + 1);
      assert surfaces[..i] + [surfaces[i]] == surfaces[..i + 1];
      AdmitOneMore(surfaces[..i], surfaces[i], version);
    }
  }

  lemma {:induction false} DamageCountMonotone(surfaces: seq<Surface>, n: nat)
    requires n <= |surfaces|
    ensures DamageCount(surfaces[..n]) <= DamageCount(surfaces)
  {
    if n == |surfaces| {
      assert surfaces[..n] == surfaces;
    } else {
      var front := surfaces[..|surfaces| - 1];
      assert front[..n] == surfaces[..n];
      DamageCountMonotone(front, n);
    }
  }

  /** The surface loop of `validate_scene_admission`. */
  method AdmitSurfaces(surfaces: seq<Surface>, version: Version) returns (ok: bool, ids: set<string>, expected: set<Handle>)
    ensures ok <==> DisplayAdmitsSurfaces(surfaces, version)
    ensures ok ==> ids == Ids(surfaces) && expected == ReferencedHandles(surfaces)
  {
    hide DisplayAdmitsSurfaces, Ids, ReferencedHandles;
    ids, expected := {}, {};
    var damageRects := 0;
    NothingAdmitted(version);
    assert surfaces[..0] == [];
    for i := 0 to |surfaces|
      invariant DisplayAdmitsSurfaces(surfaces[..i], version)
      invariant ids == Ids(surfaces[..i]) && expected == ReferencedHandles(surfaces[..i])
      invariant damageRects == DamageCount(surfaces[..i])
    {
      var s := surfaces[i];
      assert surfaces[..i + 1] == surfaces[..i] + [s];
      PrefixOfAdmitted(surfaces, i, version);
      AdmitOneMore(surfaces[..i], s, version);
      if s.id == "" || s.id in ids {
        return false, ids, expected;
      }
      if s.placement.visible && (s.placement.width == 0 || s.placement.height == 0) {
        return false, ids, expected;
      }
      if CheckedAdd(s.placement.x, s.placement.width).None? || CheckedAdd(s.placement.y, s.placement.height).None? {
        return false, ids, expected;
      }
      damageRects := damageRects + |s.damageRects|;
      if damageRects > MAX_DAMAGE_RECTS {
        return false, ids, expected;
      }
      if s.transport.Some? {
        var handle := s.transport.value;
        if handle.surfaceId != s.id {
          return false, ids, expected;
        }
        if version.generation != 0 && handle.sceneGeneration != version.generation {
          return false, ids, expected;
        }
        if s.bufferGeneration != 0 && handle.bufferGeneration != s.bufferGeneration {
          return false, ids, expected;
        }
        if handle in expected {
          return false, ids, expected;
        }
        expected := expected + {handle};
      }
      ids := ids + {s.id};
    }
    assert surfaces[..|surfaces|] == surfaces;
    ok := true;
  }

  lemma NothingAdmitted(version: Version)
    ensures DisplayAdmitsSurfaces([], version) && Ids([]) == {} && ReferencedHandles([]) == {}
  {
  }

  lemma PayloadHandleMembers(payloads: seq<Payload>, h: Handle)
    ensures h in PayloadHandles(payloads) <==> exists i :: 0 <= i < |payloads| && payloads[i].handle == h
  {
    if h in PayloadHandles(payloads) {
      var p :| p in payloads && p.handle == h;
    }
  }

  /** What the payload loop has to test to extend an admitted prefix. */
  ghost predicate AdmitsNextPayload(seen: seq<Payload>, p: Payload, expected: set<Handle>)
  {
    && p.handle !in PayloadHandles(seen) && p.handle in expected
    && PayloadShape(p) && |p.pixels| <= MAX_SINGLE_PIXEL_PAYLOAD_BYTES
    && PixelBytes(seen) + |p.pixels| <= MAX_SCENE_PIXEL_BYTES
  }

  lemma AdmitOneMorePayload(seen: seq<Payload>, p: Payload, expected: set<Handle>)
    ensures PayloadHandles(seen + [p]) == PayloadHandles(seen) + {p.handle}
    ensures PixelBytes(seen + [p]) == PixelBytes(seen) + |p.pixels|
    ensures DisplayAdmitsPayloads(seen + [p], expected) <==> DisplayAdmitsPayloads(seen, expected) && AdmitsNextPayload(seen, p, expected)
  {
    var next := seen + [p];
    assert next[..|seen|] == seen;
    assert forall q :: q in next <==> q in seen || q == p;
    PayloadHandleMembers(seen, p.handle);
    if DisplayAdmitsPayloads(next, expected) {
      assert next[|seen|] == p;
      assert forall i :: 0 <= i < |seen| ==> next[i] == seen[i];
    }
  }

  lemma PrefixOfPayloads(payloads: seq<Payload>, i: nat, expected: set<Handle>)
    requires i < |payloads|
    ensures DisplayAdmitsPayloads(payloads, expected) ==> AdmitsNextPayload(payloads[..i], payloads[i], expected)
  {
    if DisplayAdmitsPayloads(payloads, expected) {
      PixelBytesMonotone(payloads, i + 1);
      assert payloads[..i] + [payloads[i]] == payloads[..i + 1];
      AdmitOneMorePayload(payloads[..i], payloads[i], expected);
    }
  }

  lemma {:induction false} PixelBytesMonotone(payloads: seq<Payload>, n: nat)
    requires n <= |payloads|
    ensures PixelBytes(payloads[..n]) <= PixelBytes(payloads)
  {
    if n == |payloads| {
      assert payloads[..n] == payloads;
    } else {
      var front := payloads[..|payloads| - 1];
      assert front[..n] == payloads[..n];
      PixelBytesMonotone(front, n);
    }
  }

  lemma NoPayloads(expected: set<Handle>)
    ensures DisplayAdmitsPayloads([], expected) && PayloadHandles([]) == {}
  {
  }

  /** The payload loop of `validate_scene_admission`. */
  method AdmitPayloads(payloads: seq<Payload>, expected: set<Handle>) returns (ok: bool)
    ensures ok <==> DisplayAdmitsPayloads(payloads, expected)
  {
    hide DisplayAdmitsPayloads, PayloadHandles;
    var handles: set<Handle> := {};
    var pixelBytes := 0;
    NoPayloads(expected);
    assert payloads[..0] == [];
    for i := 0 to |payloads|
      invariant DisplayAdmitsPayloads(payloads[..i], expected)
      invariant handles == PayloadHandles(payloads[..i])
      invariant pixelBytes == PixelBytes(payloads[..i])
    {
      var p := payloads[i];
      assert payloads[..i + 1] == payloads[..i] + [p];
      PrefixOfPayloads(payloads, i, expected);
      AdmitOneMorePayload(payloads[..i], p, expected);
      if p.handle in handles {
        return false;
      }
      if p.handle !in expected {
        return false;
      }
      if p.width == 0 || p.height == 0 {
        return false;
      }
      if p.width * 4 > U32_MAX || p.stride < p.width * 4 {
        return false;
      }
      var required := p.stride * p.height;
      if required != |p.pixels| {
        return false;
      }
      if required > MAX_SINGLE_PIXEL_PAYLOAD_BYTES {
        return false;
      }
      pixelBytes := pixelBytes + required;
      if pixelBytes > MAX_SCENE_PIXEL_BYTES {
        return false;
      }
      handles := handles + {p.handle};
    }
    assert payloads[..|payloads|] == payloads;
    ok := true;
  }

  /** `validate_scene_admission`. */
  method ValidateSceneAdmission(r: SceneRequest) returns (ok: bool)
    ensures ok <==> DisplayAdmits(r)
  {
    if (r.version.epoch == 0) != (r.version.generation == 0) {
      return false;
    }
    if r.target == "" {
      return false;
    }
    if |r.surfaces| > MAX_SCENE_SURFACES || |r.payloads| > MAX_SCENE_PIXEL_PAYLOADS {
      return false;
    }
    var admitted, ids, expected := AdmitSurfaces(r.surfaces, r.version);
    if !admitted {
      return false;
    }
    if r.focus.FocusSurface? && r.focus.id !in ids {
      return false;
    }
    if r.selection.clipboard.owner.Some? && r.selection.clipboard.owner.value !in ids {
      return false;
    }
    if r.selection.primary.owner.Some? && r.selection.primary.owner.value !in ids {
      return false;
    }
    ok := AdmitPayloads(r.payloads, expected);
  }

  // -------------------------------------------------------------------- compd's side

  /** The saturating byte sum of `relay_resource_usage`. */
  function SaturatingPixelBytes(payloads: seq<Payload>): nat
  {
    if payloads == [] then 0
    else Min(SaturatingPixelBytes(payloads[..|payloads| - 1]) + |payloads[|payloads| - 1].pixels|, U64_MAX)
  }

  lemma {:induction false} SaturatingSum(payloads: seq<Payload>)
    ensures SaturatingPixelBytes(payloads) == Min(PixelBytes(payloads), U64_MAX)
  {
    if payloads != [] {
      SaturatingSum(payloads[..|payloads| - 1]);
    }
  }

  ghost predicate RelayAcceptsSurfaces(surfaces: seq<Surface>, version: Version)
  {
    && DistinctIds(surfaces)
    && (forall i :: 0 <= i < |surfaces| ==>
          surfaces[i].id != "" && PlacementFits(surfaces[i]) && TransportMatches(surfaces[i], version))
  }

  ghost predicate RelayAcceptsPayloads(payloads: seq<Payload>, ids: set<string>, expected: set<Handle>, version: Version)
  {
    && DistinctHandles(payloads)
    && (forall i :: 0 <= i < |payloads| ==> RelayAcceptsPayload(payloads[i], ids, expected, version))
  }

  /** Exactly the scenes `validate_relay_scene` lets through. */
  ghost predicate RelayAccepts(r: SceneRequest, requirePayloads: bool)
  {
    && r.target != ""
    && (r.version.epoch == 0 <==> r.version.generation == 0)
    && |r.surfaces| <= MAX_SCENE_SURFACES && |r.payloads| <= MAX_SCENE_PIXEL_PAYLOADS
    && SaturatingPixelBytes(r.payloads) <= MAX_SCENE_PIXEL_BYTES
    && RelayAcceptsSurfaces(r.surfaces, r.version)
    && OwnersPresent(r.focus, r.selection, Ids(r.surfaces))
    && RelayAcceptsPayloads(r.payloads, Ids(r.surfaces), ReferencedHandles(r.surfaces), r.version)
    && (requirePayloads ==> ReferencedHandles(r.surfaces) <= PayloadHandles(r.payloads))
  }

  /** `validate_relay_scene`. */
  method ValidateRelayScene(r: SceneRequest, requirePayloads: bool) returns (ok: bool)
    ensures ok <==> RelayAccepts(r, requirePayloads)
  {
    var bytes := RelayPixelBytes(r.payloads);
    if r.target == "" {
      return false;
    }
    if (r.version.epoch == 0) != (r.version.generation == 0) {
      return false;
    }
    if |r.surfaces| > MAX_SCENE_SURFACES || |r.payloads| > MAX_SCENE_PIXEL_PAYLOADS || bytes > MAX_SCENE_PIXEL_BYTES {
      return false;
    }
    var surfacesOk, ids, expected := RelaySurfaces(r.surfaces, r.version);
    if !surfacesOk {
      return false;
    }
    if r.focus.FocusSurface? && r.focus.id !in ids {
      return false;
    }
    if r.selection.clipboard.owner.Some? && r.selection.clipboard.owner.value !in ids {
      return false;
    }
    if r.selection.primary.owner.Some? && r.selection.primary.owner.value !in ids {
      return false;
    }
    var payloadsOk, handles := RelayPayloads(r.payloads, ids, expected, r.version);
    if !payloadsOk {
      return false;
    }
    ok := !requirePayloads || expected <= handles;
  }

  method RelayPixelBytes(payloads: seq<Payload>) returns (bytes: nat)
    ensures bytes == SaturatingPixelBytes(payloads)
  {
    bytes := 0;
    for i := 0 to |payloads|
      invariant bytes == SaturatingPixelBytes(payloads[..i])
    {
      assert payloads[..i + 1][..i] == payloads[..i];
      bytes := Min(bytes + |payloads[i].pixels|, U64_MAX);
    }
    assert payloads[..|payloads|] == payloads;
  }

  lemma NothingRelayed(version: Version)
    ensures RelayAcceptsSurfaces([], version) && Ids([]) == {} && ReferencedHandles([]) == {}
  {
  }

  lemma RelayOneMore(seen: seq<Surface>, s: Surface, version: Version)
    ensures Ids(seen + [s]) == Ids(seen) + {s.id}
    ensures ReferencedHandles(seen + [s]) == ReferencedHandles(seen) + if s.transport.Some? then {s.transport.value} else {}
    ensures RelayAcceptsSurfaces(seen + [s], version)
       <==> RelayAcceptsSurfaces(seen, version) && s.id != "" && s.id !in Ids(seen) && PlacementFits(s) && TransportMatches(s, version)
  {
    var next := seen + [s];
    assert forall t :: t in next <==> t in seen || t == s;
    IdsMembers(seen, s.id);
    if RelayAcceptsSurfaces(next, version) {
      assert next[|seen|] == s;
      assert forall i :: 0 <= i < |seen| ==> next[i] == seen[i];
    }
  }

  lemma RelayPrefix(surfaces: seq<Surface>, i: nat, version: Version)
    requires i < |surfaces|
    ensures RelayAcceptsSurfaces(surfaces, version) ==> RelayAcceptsSurfaces(surfaces[..i + 1], version)
  {
  }

  method RelaySurfaces(surfaces: seq<Surface>, version: Version) returns (ok: bool, ids: set<string>, expected: set<Handle>)
    ensures ok <==> RelayAcceptsSurfaces(surfaces, version)
    ensures ok ==> ids == Ids(surfaces) && expected == ReferencedHandles(surfaces)
  {
    hide RelayAcceptsSurfaces, Ids, ReferencedHandles;
    ids, expected := {}, {};
    NothingRelayed(version);
    assert surfaces[..0] == [];
    for i := 0 to |surfaces|
      invariant RelayAcceptsSurfaces(surfaces[..i], version)
      invariant ids == Ids(surfaces[..i]) && expected == ReferencedHandles(surfaces[..i])
    {
      var s := surfaces[i];
      assert surfaces[..i + 1] == surfaces[..i] + [s];
      RelayOneMore(surfaces[..i], s, version);
      RelayPrefix(surfaces, i, version);
      if s.id == "" || s.id in ids {
        return false, ids, expected;
      }
      if s.placement.visible && (s.placement.width == 0 || s.placement.height == 0) {
        return false, ids, expected;
      }
      if s.placement.x + s.placement.width > I32_MAX || s.placement.y + s.placement.height > I32_MAX {
        return false, ids, expected;
      }
      if s.transport.Some? {
        var handle := s.transport.value;
        if handle.surfaceId != s.id {
          return false, ids, expected;
        }
        if version.generation != 0 && handle.sceneGeneration != version.generation {
          return false, ids, expected;
        }
        if s.bufferGeneration != 0 && handle.bufferGeneration != s.bufferGeneration {
          return false, ids, expected;
        }
        expected := expected + {handle};
      }
      ids := ids + {s.id};
    }
    assert surfaces[..|surfaces|] == surfaces;
    ok := true;
  }

  lemma NoRelayedPayloads(ids: set<string>, expected: set<Handle>, version: Version)
    ensures RelayAcceptsPayloads([], ids, expected, version) && PayloadHandles([]) == {}
  {
  }

  predicate RelayAcceptsPayload(p: Payload, ids: set<string>, expected: set<Handle>, version: Version)
  {
    && p.handle.surfaceId in ids && p.handle in expected
    && (version.generation != 0 ==> p.handle.sceneGeneration == version.generation)
    && PayloadShape(p) && |p.pixels| <= MAX_SINGLE_PIXEL_PAYLOAD_BYTES
  }

  lemma RelayOneMorePayload(seen: seq<Payload>, p: Payload, ids: set<string>, expected: set<Handle>, version: Version)
    ensures PayloadHandles(seen + [p]) == PayloadHandles(seen) + {p.handle}
    ensures RelayAcceptsPayloads(seen + [p], ids, expected, version)
       <==> RelayAcceptsPayloads(seen, ids, expected, version) && p.handle !in PayloadHandles(seen)
            && RelayAcceptsPayload(p, ids, expected, version)
  {
    var next := seen + [p];
    assert forall q :: q in next <==> q in seen || q == p;
    PayloadHandleMembers(seen, p.handle);
    if RelayAcceptsPayloads(next, ids, expected, version) {
      assert next[|seen|] == p;
      assert forall i :: 0 <= i < |seen| ==> next[i] == seen[i];
    }
  }

  lemma RelayPayloadPrefix(payloads: seq<Payload>, i: nat, ids: set<string>, expected: set<Handle>, version: Version)
    requires i < |payloads|
    ensures RelayAcceptsPayloads(payloads, ids, expected, version) ==> RelayAcceptsPayloads(payloads[..i + 1], ids, expected, version)
  {
  }

  method RelayPayloads(payloads: seq<Payload>, ids: set<string>, expected: set<Handle>, version: Version)
    returns (ok: bool, handles: set<Handle>)
    ensures ok <==> RelayAcceptsPayloads(payloads, ids, expected, version)
    ensures ok ==> handles == PayloadHandles(payloads)
  {
    hide RelayAcceptsPayloads, PayloadHandles;
    handles := {};
    NoRelayedPayloads(ids, expected, version);
    assert payloads[..0] == [];
    for i := 0 to |payloads|
      invariant RelayAcceptsPayloads(payloads[..i], ids, expected, version)
      invariant handles == PayloadHandles(payloads[..i])
    {
      var p := payloads[i];
      assert payloads[..i + 1] == payloads[..i] + [p];
      RelayOneMorePayload(payloads[..i], p, ids, expected, version);
      RelayPayloadPrefix(payloads, i, ids, expected, version);
      if p.handle in handles {
        return false, handles;
      }
      if p.handle.surfaceId !in ids {
        return false, handles;
      }
      if p.handle !in expected {
        return false, handles;
      }
      if version.generation != 0 && p.handle.sceneGeneration != version.generation {
        return false, handles;
      }
      if p.width == 0 || p.height == 0 || p.width * 4 > U32_MAX || p.stride < p.width * 4 {
        return false, handles;
      }
      var required := p.stride * p.height;
      if required != |p.pixels| || required > MAX_SINGLE_PIXEL_PAYLOAD_BYTES {
        return false, handles;
      }
      handles := handles + {p.handle};
    }
    assert payloads[..|payloads|] == payloads;
    ok := true;
  }

  // ------------------------------------------------------------------------ agreement

  /** compd accepts with required payloads exactly when displayd would admit and every
      referenced handle has its payload attached, up to displayd's damage budget, which
      compd does not check. */
  lemma ValidatorsAgree(r: SceneRequest)
    ensures DisplayAdmits(r) && ReferencedHandles(r.surfaces) <= PayloadHandles(r.payloads)
       <==> RelayAccepts(r, true) && DamageCount(r.surfaces) <= MAX_DAMAGE_RECTS
  {
    SaturatingSum(r.payloads);
    if DisplayAdmits(r) {
      forall i | 0 <= i < |r.payloads|
        ensures r.payloads[i].handle.surfaceId in Ids(r.surfaces)
        ensures r.version.generation != 0 ==> r.payloads[i].handle.sceneGeneration == r.version.generation
      {
        assert r.payloads[i].handle in ReferencedHandles(r.surfaces);
        var s :| s in r.surfaces && s.transport.Some? && s.transport.value == r.payloads[i].handle;
        assert TransportMatches(s, r.version) && s.id in Ids(r.surfaces);
      }
    }
    if RelayAccepts(r, true) {
      TransportsFollowIds(r.surfaces, r.version);
    }
  }

  /** A duplicate handle needs a duplicate surface id, so displayd's extra test never fires alone. */
  lemma TransportsFollowIds(surfaces: seq<Surface>, version: Version)
    requires RelayAcceptsSurfaces(surfaces, version)
    ensures DistinctTransports(surfaces)
  {
    forall i, j | 0 <= i < j < |surfaces| && surfaces[i].transport.Some? && surfaces[j].transport.Some?
      ensures surfaces[i].transport.value != surfaces[j].transport.value
    {
      assert TransportMatches(surfaces[i], version) && TransportMatches(surfaces[j], version);
    }
  }

  /** One surface with one rectangle more than displayd's budget: compd passes it on. */
  lemma DamageBudgetExample()
    ensures exists r: SceneRequest :: RelayAccepts(r, true) && !DisplayAdmits(r)
  {
    var nobody := SelectionSlot(None, None, None, None);
    var damage := seq(MAX_DAMAGE_RECTS + 1, i => DamageRect(0, 0, 1, 1));
    var s := Surface("s", "", Placement(0, 0, 1, 1, 0, true), None, 1, damage, None, 0, 0);
    var r := SceneRequest("a", FocusNone, Selection(nobody, nobody), [s], [], Version(1, 1));
    assert [s][..0] == [] && [s][..|[s]| - 1] == [];
    assert DamageCount([s]) == MAX_DAMAGE_RECTS + 1;
    assert forall h :: h !in ReferencedHandles([s]);
    assert RelayAccepts(r, true);
    ValidatorsAgree(r);
  }
}
