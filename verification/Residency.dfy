/** Which payloads are resident: after any run exactly one per surface, only ones the newest
    scene references, within the budgets. And what a refused scene leaves behind. */
module Residency {
  import opened Machine
  import opened SceneTypes
  import opened Composition
  import opened Renderer
  import opened Admission
  import opened PixelStore
  import opened Pipeline
  import opened Ledger
  import opened Refinement

  ghost predicate StoreOk(store: Store, last: Option<Scene>)
  {
    && WellFiled(store) && OnePerSurface(store)
    && |store| <= MAX_SCENE_PIXEL_PAYLOADS && TotalBytes(store) <= MAX_SCENE_PIXEL_BYTES
    && store.Keys <= (if last.Some? then ReferencedHandles(last.value.surfaces) else {})
  }

  ghost predicate ResidencyOk(w: World)
  {
    StoreOk(w.display.store, w.display.lastScene)
  }

  lemma NothingResident(last: Option<Scene>)
    ensures StoreOk(map[], last)
  {
  }

  // --------------------------------------------------------------------- acceptance

  /** An accepted scene brings its own store: exactly the handles it references, unless
      missing payloads were allowed. */
  lemma PlannedStore(d: Display, r: SceneRequest)
    requires Judge(d, r).Proceed? && WellFiled(d.store)
    ensures StoreOk(Judge(d, r).store, Some(SceneOf(r, 0)))
    ensures !AllowMissing(d.reconciliation, r.payloads) ==> Judge(d, r).store.Keys == ReferencedHandles(r.surfaces)
  {
    hide Judge, Prepare, DisplayAdmitsSurfaces, ReferencedHandles;
    ProceedMeans(d, r);
    PreparedStore(d.store, r.surfaces, r.version, r.payloads, AllowMissing(d.reconciliation, r.payloads));
  }

  lemma ReplayedSurfaces(d: Display, r: SceneRequest)
    requires Judge(d, r).Proceed?
    ensures Judge(d, r).replayed.Some? ==> d.lastScene.Some? && d.lastScene.value.surfaces == r.surfaces
  {
    hide Judge, Prepare, DamageByOutput, DisplayAdmits;
    ProceedMeans(d, r);
  }

  lemma CarriedOutStore(w: World, r: SceneRequest, fault: DiskFault, verdict: Verdict)
    requires verdict.Proceed?
    requires verdict.replayed.Some? ==> w.display.lastScene.Some? && w.display.lastScene.value.surfaces == r.surfaces
    ensures var (a, reply) := CarryOut(w, r, fault, verdict);
      && (reply.Committed? ==> a.display.store == verdict.store && a.display.lastScene.Some? && a.display.lastScene.value.surfaces == r.surfaces)
      && (reply == Died ==> a.display.store == map[])
      && (!reply.Committed? && reply != Died ==> a.display.store == w.display.store && a.display.lastScene == w.display.lastScene)
  {
    hide Rebind, DamageOutputs;
  }

  /** Acceptance either takes the planned store along with the scene, or keeps the old one. */
  lemma AcceptedStore(w: World, request: SceneRequest, fault: DiskFault)
    ensures var (a, reply) := Accept(w, request, fault);
      var r := WithCanonicalSurfaces(request);
      && (reply.Committed? && Judge(w.display, r).Proceed? ==>
            && a.display.store == Judge(w.display, r).store
            && a.display.lastScene.Some? && a.display.lastScene.value.surfaces == r.surfaces)
      && (reply.Committed? && !Judge(w.display, r).Proceed? ==> a == w)
      && (reply == Died ==> a.display.store == map[])
      && (!reply.Committed? && reply != Died ==> a.display.store == w.display.store && a.display.lastScene == w.display.lastScene)
  {
    hide Judge, CarryOut;
    var r := WithCanonicalSurfaces(request);
    if Judge(w.display, r).Proceed? {
      ReplayedSurfaces(w.display, r);
      CarriedOutStore(w, r, fault, Judge(w.display, r));
    }
  }

  lemma AcceptKeepsResidency(w: World, request: SceneRequest, fault: DiskFault)
    requires ResidencyOk(w)
    ensures ResidencyOk(Accept(w, request, fault).0)
  {
    hide Judge, Accept, StoreOk;
    AcceptedStore(w, request, fault);
    var r := WithCanonicalSurfaces(request);
    StoreIsFiled(w);
    if Judge(w.display, r).Proceed? {
      PlannedStore(w.display, r);
      SameReferences(Judge(w.display, r).store, SceneOf(r, 0));
    }
    NothingResident(Accept(w, request, fault).0.display.lastScene);
  }

  lemma StoreIsFiled(w: World)
    requires ResidencyOk(w)
    ensures WellFiled(w.display.store)
  {
  }

  lemma SameReferences(store: Store, s: Scene)
    requires StoreOk(store, Some(s))
    ensures forall t: Scene :: t.surfaces == s.surfaces ==> StoreOk(store, Some(t))
  {
    hide ReferencedHandles;
  }

  /** After an acceptance that was not a plain repetition, and did not allow for missing
      payloads, the resident payloads are exactly those the scene references. */
  lemma AcceptedStoreIsExact(w: World, request: SceneRequest, fault: DiskFault)
    requires ResidencyOk(w) && Accept(w, request, fault).1.Committed?
    requires !Judge(w.display, WithCanonicalSurfaces(request)).AlreadyAccepted?
    requires !AllowMissing(w.display.reconciliation, request.payloads)
    ensures Accept(w, request, fault).0.display.store.Keys == ReferencedHandles(request.surfaces)
    ensures TotalBytes(Accept(w, request, fault).0.display.store) <= MAX_SCENE_PIXEL_BYTES
  {
    hide Judge, Accept, ReferencedHandles;
    AcceptedStore(w, request, fault);
    CommittedVerdict(w, request, fault);
    PlannedStore(w.display, WithCanonicalSurfaces(request));
    ReferencesIgnoreOrder(request.surfaces);
  }

  lemma CommittedVerdict(w: World, request: SceneRequest, fault: DiskFault)
    requires Accept(w, request, fault).1.Committed?
    ensures !Judge(w.display, WithCanonicalSurfaces(request)).Refuse?
  {
    hide Judge;
  }

  /** Whenever displayd answers that a scene is committed, first time or again, the payloads
      sent along are resident as sent. */
  lemma CommittedPayloadsAreResident(w: World, request: SceneRequest, fault: DiskFault, i: nat)
    requires Accept(w, request, fault).1.Committed? && i < |request.payloads|
    ensures var store := Accept(w, request, fault).0.display.store;
      request.payloads[i].handle in store && store[request.payloads[i].handle] == request.payloads[i]
  {
    hide Judge, Accept, Prepare, DisplayAdmitsSurfaces, ReferencedHandles;
    var r := WithCanonicalSurfaces(request);
    AcceptedStore(w, request, fault);
    CommittedVerdict(w, request, fault);
    if Judge(w.display, r).Proceed? {
      ProceedMeans(w.display, r);
      PreparedHoldsIncoming(w.display.store, r.surfaces, r.payloads, AllowMissing(w.display.reconciliation, r.payloads), i);
    } else {
      RepeatedIsResident(w.display, r);
    }
  }

  lemma PreparedHoldsIncoming(m: Store, surfaces: seq<Surface>, incoming: seq<Payload>, allowMissing: bool, i: nat)
    requires Prepare(m, surfaces, incoming, allowMissing).Some? && DistinctHandles(incoming) && i < |incoming|
    ensures var next := Prepare(m, surfaces, incoming, allowMissing).value;
      incoming[i].handle in next && next[incoming[i].handle] == incoming[i]
  {
    AttachHoldsIncoming(Kept(m, ReferencedHandles(surfaces)), incoming, i);
  }

  lemma {:induction false} AttachHoldsIncoming(m: Store, incoming: seq<Payload>, i: nat)
    requires DistinctHandles(incoming) && i < |incoming|
    ensures incoming[i].handle in Attach(m, incoming) && Attach(m, incoming)[incoming[i].handle] == incoming[i]
  {
    if i < |incoming| - 1 {
      AttachHoldsIncoming(m, incoming[..|incoming| - 1], i);
    }
  }

  lemma RepeatedIsResident(d: Display, r: SceneRequest)
    requires Judge(d, r).AlreadyAccepted?
    ensures forall i :: 0 <= i < |r.payloads| ==> r.payloads[i].handle in d.store && d.store[r.payloads[i].handle] == r.payloads[i]
  {
    hide DisplayAdmits;
  }

  lemma ReferencesIgnoreOrder(surfaces: seq<Surface>)
    ensures ReferencedHandles(Canonicalize(surfaces)) == ReferencedHandles(surfaces)
  {
    assert forall s :: s in Canonicalize(surfaces) <==> s in multiset(Canonicalize(surfaces));
    assert forall s :: s in surfaces <==> s in multiset(surfaces);
  }

  /** A scene that is refused, or that could not be persisted, changes nothing but the
      obligations it may already have been bound to; and those only when it got past every
      test except the obligation budget and persistence itself. */
  lemma RefusalChangesObligationsOnly(w: World, request: SceneRequest, fault: DiskFault)
    requires Accept(w, request, fault).1 == Rejected || Accept(w, request, fault).1 == Errored
    ensures var a := Accept(w, request, fault).0;
      var r := WithCanonicalSurfaces(request);
      var verdict := Judge(w.display, r);
      && (verdict.Refuse? ==> a == w)
      && (!verdict.Refuse? ==>
            && verdict.Proceed?
            && a == w.(display := w.display.(obligations := Rebind(w.display.obligations, ActiveOutputs(w.display.outputs), r.version, verdict.required)))
            && (|w.display.obligations| >= MAX_PRESENTATION_OBLIGATIONS || fault.WriteFails?))
  {
    hide Judge;
    var r := WithCanonicalSurfaces(request);
    if Judge(w.display, r).Proceed? {
      RebindSize(w.display.obligations, ActiveOutputs(w.display.outputs), r.version, Judge(w.display, r).required);
    }
  }

  lemma RebindSize(obligations: map<U64, Obligation>, active: set<string>, v: Version, required: set<string>)
    ensures |Rebind(obligations, active, v, required)| == |obligations|
  {
    assert Rebind(obligations, active, v, required).Keys == obligations.Keys;
  }

  /** It does happen: with the old output gone and the disk failing, the unpersisted scene
      takes over the obligation of the one on record. */
  lemma UnpersistedSceneRebinds()
    ensures exists w: World, request: SceneRequest :: (
      && ResidencyOk(w) && Accept(w, request, WriteFails).1 == Errored
      && Accept(w, request, WriteFails).0.display.obligations != w.display.obligations)
  {
    var nobody := SelectionSlot(None, None, None, None);
    var shown := Scene("gone", FocusNone, Selection(nobody, nobody), [], Version(1, 1), 1);
    var owed := map[1 := Obligation(Version(1, 1), {"gone"}, {})];
    var w := World(Load(Some(shown), Boot(1, 1, true)).(obligations := owed), Backend(MockDeferred, 1, map[], 1), Some(shown), map[Version(1, 1) := shown]);
    var request := SceneRequest("next", FocusNone, Selection(nobody, nobody), [], [], Version(1, 2));
    hide Judge, DisplayAdmits, LedgerIncreases;
    NothingResident(Some(shown));
    EmptySceneIsAdmitted(request);
    EmptySceneProceeds(w.display, request);
    RebindsUnpersisted(w, request);
    assert w.display.outputs == map[] && ActiveOutputs(w.display.outputs) == {};
    assert Rebind(owed, {}, Version(1, 2), {"next"})[1] == Obligation(Version(1, 1), {"next"}, {});
  }

  lemma EmptySceneIsAdmitted(r: SceneRequest)
    requires r.surfaces == [] && r.payloads == [] && r.target != "" && r.version.Versioned()
    requires r.focus.FocusNone? && r.selection.clipboard.owner.None? && r.selection.primary.owner.None?
    ensures WithCanonicalSurfaces(r) == r && DisplayAdmits(r)
  {
  }

  /** A new scene that the disk refuses has bound obligations by then. */
  lemma RebindsUnpersisted(w: World, r: SceneRequest)
    requires WithCanonicalSurfaces(r) == r && Judge(w.display, r).Proceed? && Judge(w.display, r).replayed.None?
    requires |w.display.obligations| < MAX_PRESENTATION_OBLIGATIONS
    ensures Accept(w, r, WriteFails) == (w.(display := Rebound(w.display, r, Judge(w.display, r).required)), Errored)
  {
    hide Judge;
    RebindSize(w.display.obligations, ActiveOutputs(w.display.outputs), r.version, Judge(w.display, r).required);
  }

  /** An empty scene for an output nobody has, newer than the one on record. */
  lemma EmptySceneProceeds(d: Display, r: SceneRequest)
    requires d.lastScene.Some? && d.store == map[] && d.outputs == map[] && d.reconciliation != Recovering
    requires r.surfaces == [] && r.payloads == [] && DisplayAdmits(r) && d.lastVersion.Less(r.version)
    ensures Judge(d, r) == Proceed(None, map[], map[], {r.target})
  {
    hide DisplayAdmits, Prepare;
    EmptyScenePrepares(d.store, r);
    assert DamageByOutput(d, r.surfaces) == map[];
  }

  lemma EmptyScenePrepares(store: Store, r: SceneRequest)
    requires store == map[] && r.surfaces == [] && r.payloads == []
    ensures Prepare(store, r.surfaces, r.payloads, false) == Some(map[])
  {
    assert ReferencedHandles(r.surfaces) == {} && PayloadHandles(r.payloads) == {};
    assert Kept(store, {}) == map[];
  }

  // -------------------------------------------------------------- every other step

  lemma CompletionKeepsStore(w: World, t: Token, outcome: Completion, completes: bool)
    ensures FinishCompletion(w, t, outcome, completes).0.display.store == w.display.store
  {
    hide NoteOne, Satisfied, InsertAll, PresentRuntime, FailRuntime, AllPublished;
  }

  lemma CommitKeepsStore(w: World, id: string, s: Scene, submits: bool, completes: bool)
    requires id in w.display.outputs
    ensures CommitOutput(w, id, s, submits, completes).0.display.store == w.display.store
  {
    hide ComposedFrame, ValidatedForDamage, Decodable, FinishCompletion;
    var r := w.display.outputs[id];
    var frame := ComposedFrame(w.display, s, r);
    var token := TokenFor(w.backend, frame);
    CompletionKeepsStore(WithRuntime(w.(backend := Submit(w.backend, frame)), id, InFlight(r, frame, token)), token, Presented, completes);
  }

  lemma TickKeepsStore(w: World, e: Event)
    requires e.Tick?
    ensures TickOutput(w, e).0.display.store == w.display.store
  {
    hide AdvancePresentation, CommitOutput;
    if e.outputId in w.display.outputs && w.display.lastScene.Some? {
      match AdvancePresentation(w.display.outputs[e.outputId], e.outputGeneration, e.now, e.tickSequence)
      case Ticked(r, eligible) =>
        CommitKeepsStore(WithRuntime(w, e.outputId, r), e.outputId, w.display.lastScene.value, e.submits, e.completes);
      case _ =>
    }
  }

  lemma ConnectKeepsStore(w: World, e: OutputEvent)
    requires e.Up?
    ensures Connect(w, e).0.display.store == if Connect(w, e).1 == Died then map[] else w.display.store
  {
    hide CheckConnect, Rebind, ConnectedRuntime, ReconfigureOutput, RetireOutstanding, BootOutputs;
  }

  lemma ChangeKeepsStore(w: World, e: OutputEvent)
    ensures ApplyOutputEvent(w, e).0.display.store == if ApplyOutputEvent(w, e).1 == Died then map[] else w.display.store
  {
    hide Connect, RemoveOutput, RetireOutstanding, DisabledRuntime, TokensOf, OfInstance;
    if e.Up? {
      ConnectKeepsStore(AdoptEpoch(w, e.instance), e);
    }
  }

  lemma StepKeepsResidency(w: World, e: Event)
    requires ResidencyOk(w)
    ensures ResidencyOk(Step(w, e).0)
  {
    hide Accept, ApplyOutputEvent, TickOutput, FinishCompletion, StoreOk;
    NothingResident(Step(w, e).0.display.lastScene);
    match e
    case Commit(request, fault) => AcceptKeepsResidency(w, request, fault);
    case Reconcile(epoch, request, fault) => AcceptKeepsResidency(w, request, fault);
    case BeginReconciliation(epoch) =>
    case Tick(_, _, _, _, _, _) =>
      TickKeepsStore(w, e);
      TickKeepsRecord(w, e);
    case Complete(token, outcome, completes) =>
      CompletionKeepsStore(w, token, outcome, completes);
      CompletionKeepsRecord(w, token, outcome, completes);
    case OutputChange(change) =>
      ChangeKeepsStore(w, change);
      ChangeKeepsRecord(w, change);
    case Restart(boot) =>
  }

  /** Over any run whatever from a first start: one resident payload per surface at most, all of them
      referenced by the newest scene, at most 4096 and 256 MiB of them. */
  lemma {:induction false} RunKeepsResidency(w: World, events: seq<Event>)
    requires ResidencyOk(w)
    ensures ResidencyOk(Run(w, events))
    decreases |events|
  {
    hide ResidencyOk, Step;
    if events != [] {
      StepKeepsResidency(w, events[0]);
      RunKeepsResidency(Step(w, events[0]).0, events[1..]);
    }
  }
}
