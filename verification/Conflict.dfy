/** Scenes that displayd refuses and compd acknowledges: when, and with what effect. */
module Conflict {
  import opened Machine
  import opened SceneTypes
  import opened Geometry
  import opened Composition
  import opened Admission
  import opened PixelStore
  import opened Pipeline
  import opened Ledger
  import opened Residency
  import opened Relay
  import Gate

  // ------------------------------------------------------------ preparing a repetition

  lemma {:induction false} AttachedSize(payloads: seq<Payload>)
    requires DistinctHandles(payloads)
    ensures |Attach(map[], payloads)| == |payloads| && TotalBytes(Attach(map[], payloads)) == PixelBytes(payloads)
    ensures Attach(map[], payloads).Keys == PayloadHandles(payloads)
  {
    hide TotalBytes;
    var none: Store := map[];
    AttachKeys(none, payloads);
    if payloads == [] {
      NothingAttached(none);
    } else {
      var front, last := payloads[..|payloads| - 1], payloads[|payloads| - 1];
      AttachedSize(front);
      PayloadHandleMembers(front, last.handle);
      TotalBytesAdd(Attach(none, front), last.handle, last);
      assert Attach(none, payloads).Keys == Attach(none, front).Keys + {last.handle};
    }
  }

  lemma NothingAttached(none: Store)
    requires none == map[]
    ensures TotalBytes(none) == 0
  {
  }

  /** What is already resident does not show through when every payload is sent again. */
  lemma AttachOverwrites(kept: Store, payloads: seq<Payload>)
    requires DistinctHandles(payloads) && kept.Keys <= PayloadHandles(payloads)
    ensures Attach(kept, payloads) == Attach(map[], payloads)
  {
    var none: Store := map[];
    AttachKeys(kept, payloads);
    AttachKeys(none, payloads);
    forall h | h in PayloadHandles(payloads)
      ensures Attach(kept, payloads)[h] == Attach(none, payloads)[h]
    {
      PayloadHandleMembers(payloads, h);
      var i :| 0 <= i < |payloads| && payloads[i].handle == h;
      AttachHoldsIncoming(kept, payloads, i);
      AttachHoldsIncoming(none, payloads, i);
    }
  }

  /** Resident payloads of the scene itself are never newer than its references. */
  lemma NothingStale(store: Store, s: Scene, version: Version)
    requires StoreOk(store, Some(s)) && DisplayAdmitsSurfaces(s.surfaces, version)
    ensures !StaleReference(store, ReferencedHandles(s.surfaces))
  {
    forall h, k | h in ReferencedHandles(s.surfaces) && k in store && SameSurface(k, h)
      ensures !Newer(k, h)
    {
      ReferencedOnePerSurface(s.surfaces, version, h, k);
    }
  }

  lemma AttachedPayloads(r: SceneRequest)
    requires RelayAccepts(r, true)
    ensures DistinctHandles(r.payloads) && PayloadHandles(r.payloads) == ReferencedHandles(r.surfaces)
    ensures |r.payloads| <= MAX_SCENE_PIXEL_PAYLOADS && PixelBytes(r.payloads) <= MAX_SCENE_PIXEL_BYTES
  {
    SaturatingSum(r.payloads);
    forall h | h in PayloadHandles(r.payloads)
      ensures h in ReferencedHandles(r.surfaces)
    {
      PayloadHandleMembers(r.payloads, h);
    }
  }

  /** Preparing the accepted scene again, with all its payloads, cannot fail. */
  lemma RepetitionPrepares(store: Store, last: Scene, r: SceneRequest, allowMissing: bool)
    requires StoreOk(store, Some(last)) && r.surfaces == last.surfaces
    requires RelayAccepts(r, true) && DisplayAdmitsSurfaces(r.surfaces, r.version)
    ensures Prepare(store, r.surfaces, r.payloads, allowMissing) == Some(Attach(map[], r.payloads))
  {
    hide RelayAccepts, DisplayAdmitsSurfaces, StoreOk, StaleReference, PayloadHandles, ReferencedHandles;
    AttachedPayloads(r);
    NothingStale(store, last, r.version);
    AttachedSize(r.payloads);
    AttachOverwrites(Kept(store, ReferencedHandles(r.surfaces)), r.payloads);
  }

  lemma NothingToValidate(store: Store, surfaces: seq<Surface>, damage: map<string, seq<Rect>>)
    requires ReferencedHandles(surfaces) == {}
    ensures PayloadsSuffice(store, surfaces, damage)
  {
    forall i | 0 <= i < |surfaces|
      ensures surfaces[i].transport.None?
    {
      if surfaces[i].transport.Some? {
        ReferencedMembers(surfaces, surfaces[i].transport.value);
      }
    }
  }

  // ---------------------------------------------------------------- when displayd refuses

  /** The payloads sent along fit the damage, and the obligation they bring finds room. */
  ghost predicate Rehydrates(d: Display, r: SceneRequest)
  {
    var damage := DamageByOutput(d, r.surfaces);
    && PayloadsSuffice(Attach(map[], r.payloads), r.surfaces, damage)
    && (RequiredOutputs(d.outputs, r.target, damage, d.lastScene.Some? || AnyVisible(r.surfaces)) == {}
        || |d.obligations| < MAX_PRESENTATION_OBLIGATIONS)
  }

  /** Why displayd refuses a relayed scene of the version it has accepted already: it is over
      the damage budget, it is another scene, it brings other bytes for a resident payload, or
      it has to be taken in again and cannot be. */
  ghost predicate RefusedAgain(d: Display, r: SceneRequest)
    requires d.lastScene.Some?
  {
    || DamageCount(r.surfaces) > MAX_DAMAGE_RECTS
    || !SameSceneIdentity(d.lastScene.value, r)
    || !PayloadsCompatible(d.store, r.payloads)
    || ((d.reconciliation == Recovering || HydrationNeeded(d.store, r.payloads)) && !Rehydrates(d, r))
  }

  /** The judgement on such a scene. */
  lemma RepetitionJudged(d: Display, r: SceneRequest)
    requires d.lastScene.Some? && r.version == d.lastVersion && r.version.Versioned()
    requires StoreOk(d.store, d.lastScene) && RelayAccepts(r, true)
    ensures Judge(d, r).Refuse? || Judge(d, r).AlreadyAccepted? || Judge(d, r).Proceed?
    ensures Judge(d, r).Proceed? ==>
      && Judge(d, r).replayed.Some? && Judge(d, r).damage == DamageByOutput(d, r.surfaces)
      && Judge(d, r).required == RequiredOutputs(d.outputs, r.target, Judge(d, r).damage, d.lastScene.Some? || AnyVisible(r.surfaces))
    ensures RefusedAgain(d, r) <==>
      Judge(d, r).Refuse? || (Judge(d, r).Proceed? && Judge(d, r).required != {} && |d.obligations| >= MAX_PRESENTATION_OBLIGATIONS)
  {
    hide RelayAccepts, DisplayAdmitsSurfaces, DisplayAdmits, StoreOk, DamageByOutput, PayloadsSuffice, Prepare, PayloadsCompatible, HydrationNeeded, RequiredOutputs, AnyVisible;
    ValidatorsAgree(r);
    AttachedPayloads(r);
    VersionOrder(d.lastVersion, r.version);
    if DisplayAdmits(r) && SameSceneIdentity(d.lastScene.value, r) {
      AdmittedSurfaces(r);
      RepetitionPrepares(d.store, d.lastScene.value, r, AllowMissing(d.reconciliation, r.payloads));
      if r.payloads == [] {
        NoReferences(r);
        NothingToValidate(Attach(map[], r.payloads), r.surfaces, DamageByOutput(d, r.surfaces));
      }
    }
  }

  lemma AdmittedSurfaces(r: SceneRequest)
    requires DisplayAdmits(r)
    ensures DisplayAdmitsSurfaces(r.surfaces, r.version)
  {
  }

  lemma NoReferences(r: SceneRequest)
    requires r.payloads == [] && PayloadHandles(r.payloads) == ReferencedHandles(r.surfaces)
    ensures ReferencedHandles(r.surfaces) == {}
  {
  }

  lemma CanonicalTwice(request: SceneRequest)
    requires RelayAccepts(CanonicalRequest(request), true)
    ensures WithCanonicalSurfaces(CanonicalRequest(request)) == CanonicalRequest(request)
  {
    DistinctIdsPermute(CanonicalRequest(request).surfaces, request.surfaces);
    CanonicalizeIsCanonical(request.surfaces);
    CanonicalizeFixesCanonical(Canonicalize(request.surfaces));
  }

  /** displayd's answer, exactly. */
  lemma RefusalIsExact(w: World, request: SceneRequest, fault: DiskFault)
    requires LedgerOk(w) && ResidencyOk(w) && w.display.lastScene.Some?
    requires request.version == w.display.lastVersion && RelayAccepts(CanonicalRequest(request), true)
    ensures Accept(w, CanonicalRequest(request), fault).1 == Rejected <==> RefusedAgain(w.display, CanonicalRequest(request))
  {
    hide RelayAccepts, Judge, RefusedAgain, CanonicalRequest, StoreOk, LedgerIncreases, Rebind;
    var r := CanonicalRequest(request);
    CanonicalVersion(request);
    CanonicalTwice(request);
    LedgerVersioned(w);
    RepetitionJudged(w.display, r);
    if Judge(w.display, r).Proceed? {
      RebindSize(w.display.obligations, ActiveOutputs(w.display.outputs), r.version, Judge(w.display, r).required);
    }
  }

  // ------------------------------------------------------------ what the probe does not see

  /** A link that delivers two messages with nothing in between. */
  function Reliable(fault: DiskFault): seq<Delivery>
  {
    [Delivery([], Arrives, fault), Delivery([], Arrives, fault)]
  }

  lemma ReplayAnswers(w: World, r: SceneRequest, fault: DiskFault)
    requires LedgerOk(w) && w.display.lastScene.Some? && r.version == w.display.lastVersion
    ensures Accept(w, r, fault).1 in {Committed(w.display.lastScene.value.commitId), Rejected}
    ensures SameRecord(w, Accept(w, r, fault).0)
  {
    hide Judge, CarryOut, LedgerIncreases;
    LedgerVersioned(w);
    var c := WithCanonicalSurfaces(r);
    JudgeReplay(w.display, c);
    if Judge(w.display, c).Proceed? {
      CarryOutReplay(w, c, fault, Judge(w.display, c));
    }
  }

  /** compd has a marker for this version, so it asks for a snapshot before anything else. */
  predicate Retrying(g: Gate.State, v: Version)
  {
    g.pending.Some? && g.pending.value.version == v
  }

  /** The probe behind a refusal compares target and version only. Over a reliable link every
      scene of the accepted version and target is acknowledged, under the recorded id; and the
      acknowledgement follows a refusal exactly when displayd was asked and had one of its
      reasons. A refused scene leaves no pixel behind. */
  lemma AcceptedVersionIsAcknowledged(g: Gate.State, w: World, request: SceneRequest, fault: DiskFault)
    requires LedgerOk(w) && ResidencyOk(w) && w.display.lastScene.Some?
    requires request.version == w.display.lastVersion && request.target == w.display.lastScene.value.target
    requires RelayAccepts(CanonicalRequest(request), true) && !g.Rejects(request.version)
    ensures var last := w.display.lastScene.value;
      var r := CanonicalRequest(request);
      var (g', l', answer) := ForwardCommit(g, Link(w, Reliable(fault), []), request);
      var refused := CommitScene(r) in l'.sent && Accept(w, r, fault).1 == Rejected;
      && answer.Acknowledged? && answer.receipt.commitId == last.commitId
      && l'.world.ledger == w.ledger && l'.world.display.lastScene == Some(last)
      && (refused <==> !Retrying(g, request.version) && RefusedAgain(w.display, r))
      && (refused ==> l'.world.display.store == w.display.store)
  {
    hide RelayAccepts, Accept, CanonicalRequest, LedgerIncreases, RefusedAgain, ResidencyOk;
    var r := CanonicalRequest(request);
    CanonicalVersion(request);
    LedgerVersioned(w);
    RefusalIsExact(w, request, fault);
    assert w.display.lastScene.value.commitId >= 1 by { LedgerPositive(w); }
    ReplayAnswers(w, r, fault);
    RefusalKeepsStore(w, r, fault);
    ReliableSend(w, Reliable(fault), [], GetSceneSnapshot(r.target));
    ReliableSend(w, Reliable(fault), [], CommitScene(r));
    var w' := Accept(w, r, fault).0;
    ReliableSend(w', Reliable(fault)[1..], [CommitScene(r)], GetSceneSnapshot(r.target));
  }

  lemma RefusalKeepsStore(w: World, r: SceneRequest, fault: DiskFault)
    ensures Accept(w, r, fault).1 == Rejected ==> Accept(w, r, fault).0.display.store == w.display.store
  {
    hide Accept;
    if Accept(w, r, fault).1 == Rejected {
      RefusalChangesObligationsOnly(w, r, fault);
    }
  }

  lemma LedgerPositive(w: World)
    requires LedgerOk(w) && w.display.lastScene.Some?
    ensures w.display.lastScene.value.commitId >= 1
  {
  }

  lemma ReliableSend(w: World, script: seq<Delivery>, sent: seq<Command>, c: Command)
    requires script != [] && script[0].before == [] && script[0].fate == Arrives
    ensures var (w', a) := Serve(w, c, script[0].fault);
      Send(Link(w, script, sent), c) == (Link(w', script[1..], sent + [c]), if NoAnswer(a) then None else Some(a))
  {
  }

  /** Only the probe acknowledges pixels unseen: whenever displayd itself answers that a scene
      is committed or reconciled, every payload of the message is resident as sent. */
  lemma AnsweredPixelsAreResident(l: Link, c: Command, i: nat)
    requires (c.CommitScene? || c.ReconcileScene?) && i < |c.request.payloads|
    requires var a := Send(l, c).1; a.Some? && a.value.Answered? && (a.value.reply.Committed? || a.value.reply.Reconciled?)
    ensures var store := Send(l, c).0.world.display.store;
      c.request.payloads[i].handle in store && store[c.request.payloads[i].handle] == c.request.payloads[i]
  {
    hide Accept, Run;
    var w, fault := Run(l.world, l.script[0].before), l.script[0].fault;
    AcceptReplies(w, c.request, fault);
    if Accept(w, c.request, fault).1.Committed? {
      CommittedPayloadsAreResident(w, c.request, fault, i);
    }
  }

  /** displayd having accepted one scene, with these payloads resident. */
  function Showing(s: Scene, store: Store, boot: Boot): World
  {
    World(Load(Some(s), boot).(store := store), Backend(MockDeferred, 1, map[], 1), Some(s), map[s.version := s])
  }

  lemma ShowingIsOk(s: Scene, store: Store, boot: Boot)
    requires s.version.Versioned() && s.commitId >= 1 && StoreOk(store, Some(s))
    ensures LedgerOk(Showing(s, store, boot)) && ResidencyOk(Showing(s, store, boot))
  {
    assert s.version in Showing(s, store, boot).ledger;
  }

  /** Such a pair of scenes exists: same version and target, different selection. */
  lemma ConflictIsAcknowledged(boot: Boot)
    ensures exists g: Gate.State, w: World, request: SceneRequest :: (
      && LedgerOk(w) && ResidencyOk(w) && w.display.lastScene.Some?
      && request.version == w.display.lastVersion && request.target == w.display.lastScene.value.target
      && RelayAccepts(CanonicalRequest(request), true) && !g.Rejects(request.version)
      && !SameSceneIdentity(w.display.lastScene.value, CanonicalRequest(request))
      && Accept(w, CanonicalRequest(request), Writes).1 == Rejected
      && ForwardCommit(g, Link(w, Reliable(Writes), []), request).2.Acknowledged?)
  {
    var nobody := SelectionSlot(None, None, None, None);
    var version := Version(1, 1);
    var accepted := Scene("a", FocusNone, Selection(nobody, nobody), [], version, 1);
    NothingResident(Some(accepted));
    ShowingIsOk(accepted, map[], boot);
    var w := Showing(accepted, map[], boot);
    var request := SceneRequest("a", FocusNone, Selection(nobody.(payloadId := Some("x")), nobody), [], [], version);
    assert CanonicalRequest(request) == request;
    assert Gate.EMPTY.Floor() == UNVERSIONED;
    assert RelayAccepts(request, true);
    RefusalIsExact(w, request, Writes);
    AcceptedVersionIsAcknowledged(Gate.EMPTY, w, request, Writes);
  }

  /** The same scene with other bytes under a resident handle is refused and acknowledged
      too: displayd goes on showing the old pixels. */
  lemma OtherPixelsAreAcknowledged(boot: Boot)
    ensures exists g: Gate.State, w: World, request: SceneRequest :: (
      && LedgerOk(w) && ResidencyOk(w) && w.display.lastScene.Some?
      && RelayAccepts(CanonicalRequest(request), true)
      && SameSceneIdentity(w.display.lastScene.value, CanonicalRequest(request))
      && !PayloadsCompatible(w.display.store, request.payloads)
      && Accept(w, CanonicalRequest(request), Writes).1 == Rejected
      && ForwardCommit(g, Link(w, Reliable(Writes), []), request).2.Acknowledged?)
  {
    var nobody, version := SelectionSlot(None, None, None, None), Version(1, 1);
    var handle := Handle(1, "s", 1, 1);
    var shown := Payload(handle, [0, 0, 0, 0], 1, 1, 4, FORMAT_XRGB8888);
    var other := Payload(handle, [1, 0, 0, 0], 1, 1, 4, FORMAT_XRGB8888);
    var surface := Surface("s", "", Placement(0, 0, 1, 1, 0, true), None, 1, [], Some(handle), 0, 0);
    var accepted := Scene("a", FocusNone, Selection(nobody, nobody), [surface], version, 1);
    var w := Showing(accepted, map[handle := shown], boot);
    var request := SceneRequest("a", FocusNone, Selection(nobody, nobody), [surface], [other], version);
    SingleIsCanonical(request, surface, other);
    SingleIsRelayed(request, surface, other);
    SingleIsResident(handle, shown, accepted);
    ShowingIsOk(accepted, map[handle := shown], boot);
    OtherBytesConflict(w.display.store, request.payloads);
    assert Gate.EMPTY.Floor() == UNVERSIONED;
    hide RelayAccepts, Accept, ForwardCommit, CanonicalRequest, LedgerOk, ResidencyOk, PayloadsCompatible, Rehydrates, HydrationNeeded, DamageCount;
    RefusalIsExact(w, request, Writes);
    AcceptedVersionIsAcknowledged(Gate.EMPTY, w, request, Writes);
  }

  lemma OtherBytesConflict(store: Store, payloads: seq<Payload>)
    requires payloads != [] && payloads[0].handle in store && store[payloads[0].handle] != payloads[0]
    ensures !PayloadsCompatible(store, payloads)
  {
  }

  lemma SingleIsCanonical(request: SceneRequest, s: Surface, p: Payload)
    requires request.surfaces == [s] && request.payloads == [p]
    ensures CanonicalRequest(request) == request
  {
    assert [s][..0] == [] && [p][..0] == [];
  }

  lemma SingleIsResident(h: Handle, p: Payload, s: Scene)
    requires p.handle == h && PayloadShape(p) && |p.pixels| == 4 && h in ReferencedHandles(s.surfaces)
    ensures StoreOk(map[h := p], Some(s))
  {
    var none: Store := map[];
    TotalBytesAdd(none, h, p);
    assert none[h := p] == map[h := p];
  }

  lemma SingleIsRelayed(r: SceneRequest, s: Surface, p: Payload)
    requires r.surfaces == [s] && r.payloads == [p] && r.target != "" && r.version.Versioned()
    requires r.focus.FocusNone? && r.selection.clipboard.owner.None? && r.selection.primary.owner.None?
    requires s.id != "" && PlacementFits(s) && TransportMatches(s, r.version) && s.transport == Some(p.handle)
    requires PayloadShape(p) && |p.pixels| == 4 && p.handle.sceneGeneration == r.version.generation
    ensures RelayAccepts(r, true) && p.handle in ReferencedHandles(r.surfaces)
  {
    assert s in r.surfaces && p in r.payloads;
    assert s.id in Ids(r.surfaces) && p.handle in ReferencedHandles(r.surfaces) && p.handle in PayloadHandles(r.payloads);
    assert [p][..0] == [];
    SaturatingSum(r.payloads);
    forall h | h in ReferencedHandles(r.surfaces)
      ensures h in PayloadHandles(r.payloads)
    {
      ReferencedMembers(r.surfaces, h);
    }
  }
}
