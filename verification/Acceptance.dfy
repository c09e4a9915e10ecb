/** When displayd takes a scene, what it then owes, and how it pays. */
module Acceptance {
  import opened Machine
  import opened SceneTypes
  import opened Geometry
  import opened Composition
  import opened Renderer
  import opened Damage
  import opened Admission
  import opened PixelStore
  import opened Pipeline
  import opened Ledger
  import opened Refinement
  import opened Residency
  import opened Acknowledgement
  import opened Flight
  import opened Progress

  // --------------------------------------------------------------- which scenes it takes

  /** Is the output there and enabled? */
  predicate Active(d: Display, output: string)
  {
    output in d.outputs && !d.outputs[output].disabled
  }

  /** Does a scene bring something its target has to show? Damage on an active target; on an
      absent one, anything visible, or anything at all once there was a scene before. */
  ghost predicate Brings(d: Display, c: SceneRequest)
  {
    if Active(d, c.target) then DamageFor(PreviousSurfaces(d), c.surfaces, d.outputs[c.target]) != []
    else d.lastScene.Some? || exists i :: 0 <= i < |c.surfaces| && c.surfaces[i].placement.visible
  }

  /** The payloads resident once the scene is taken. */
  ghost function Hydration(d: Display, c: SceneRequest): Store
  {
    Attach(map h | h in d.store && h in ReferencedHandles(c.surfaces) :: d.store[h], c.payloads)
  }

  /** Everything a newer scene has to meet, the disk apart. */
  ghost predicate Takes(d: Display, c: SceneRequest)
  {
    var recovering := d.reconciliation == Recovering && c.payloads == [];
    && DisplayAdmits(c)
    && (forall h, k :: h in ReferencedHandles(c.surfaces) && k in d.store && SameSurface(k, h) ==> !Newer(k, h))
    && (recovering || ReferencedHandles(c.surfaces) <= d.store.Keys + PayloadHandles(c.payloads))
    && TotalBytes(Hydration(d, c)) <= MAX_SCENE_PIXEL_BYTES
    && (recovering || forall k :: k in d.outputs && !d.outputs[k].disabled ==>
          ValidatedForDamage(StoreLayers(Hydration(d, c), c.surfaces), DamageFor(PreviousSurfaces(d), c.surfaces, d.outputs[k])))
    && (Brings(d, c) ==> |d.obligations| < MAX_PRESENTATION_OBLIGATIONS)
  }

  lemma {:induction false} ReferencesAreFew(surfaces: seq<Surface>)
    ensures |ReferencedHandles(surfaces)| <= |surfaces|
  {
    if surfaces != [] {
      var front, last := surfaces[..|surfaces| - 1], surfaces[|surfaces| - 1];
      ReferencesAreFew(front);
      assert surfaces == front + [last];
      RelayOneMore(front, last, UNVERSIONED);
    }
  }

  lemma HydrationIsPrepared(d: Display, c: SceneRequest, recovering: bool)
    requires DisplayAdmits(c)
    ensures Prepare(d.store, c.surfaces, c.payloads, recovering) ==
      if (forall h, k :: h in ReferencedHandles(c.surfaces) && k in d.store && SameSurface(k, h) ==> !Newer(k, h))
         && (recovering || ReferencedHandles(c.surfaces) <= d.store.Keys + PayloadHandles(c.payloads))
         && TotalBytes(Hydration(d, c)) <= MAX_SCENE_PIXEL_BYTES
      then Some(Hydration(d, c)) else None
  {
    hide ReferencedHandles, PayloadHandles, DisplayAdmitsSurfaces, TotalBytes;
    var referenced := ReferencedHandles(c.surfaces);
    var kept := Kept(d.store, referenced);
    assert Hydration(d, c) == Attach(kept, c.payloads);
    AttachKeys(kept, c.payloads);
    AdmittedPayloads(c);
    ReferencesAreFew(c.surfaces);
    var next := Attach(kept, c.payloads);
    assert next.Keys <= referenced;
    SubsetSize(next.Keys, referenced);
    assert |next| == |next.Keys|;
    assert referenced <= next.Keys <==> referenced <= d.store.Keys + PayloadHandles(c.payloads);
  }

  lemma AdmittedPayloads(c: SceneRequest)
    requires DisplayAdmits(c)
    ensures PayloadHandles(c.payloads) <= ReferencedHandles(c.surfaces) && |c.surfaces| <= MAX_SCENE_PIXEL_PAYLOADS
  {
    forall h | h in PayloadHandles(c.payloads)
      ensures h in ReferencedHandles(c.surfaces)
    {
      PayloadHandleMembers(c.payloads, h);
    }
  }

  lemma PlannedDamage(d: Display, c: SceneRequest, store: Store)
    ensures PayloadsSuffice(store, c.surfaces, DamageByOutput(d, c.surfaces)) <==>
      forall k :: k in d.outputs && !d.outputs[k].disabled ==>
        ValidatedForDamage(StoreLayers(store, c.surfaces), DamageFor(PreviousSurfaces(d), c.surfaces, d.outputs[k]))
  {
    hide ValidatedForDamage, DamageFor;
    if PayloadsSuffice(store, c.surfaces, DamageByOutput(d, c.surfaces)) {
      forall k | k in d.outputs && !d.outputs[k].disabled
        ensures ValidatedForDamage(StoreLayers(store, c.surfaces), DamageFor(PreviousSurfaces(d), c.surfaces, d.outputs[k]))
      {
        assert k in DamageByOutput(d, c.surfaces);
      }
    }
  }

  lemma RequiredExactly(d: Display, c: SceneRequest)
    ensures RequiredOutputs(d.outputs, c.target, DamageByOutput(d, c.surfaces), d.lastScene.Some? || AnyVisible(c.surfaces))
         == if Brings(d, c) then {c.target} else {}
  {
    hide DamageFor;
  }

  /** The judgement on a newer scene. */
  lemma NewerJudged(d: Display, c: SceneRequest)
    requires d.lastVersion.Less(c.version)
    ensures var v := Judge(d, c);
      && (v.Proceed? <==> Takes(d.(obligations := map[]), c))
      && !v.AlreadyAccepted?
      && (v.Proceed? ==> v.replayed.None? && v.store == Hydration(d, c) && v.damage == DamageByOutput(d, c.surfaces)
                         && v.required == if Brings(d, c) then {c.target} else {})
  {
    hide DisplayAdmits, ReferencedHandles, PayloadHandles, TotalBytes, Prepare, DamageByOutput, PayloadsSuffice, RequiredOutputs, Brings, Hydration, ValidatedForDamage, DamageFor, AnyVisible;
    VersionOrder(d.lastVersion, c.version);
    if DisplayAdmits(c) {
      HydrationIsPrepared(d, c, AllowMissing(d.reconciliation, c.payloads));
      PlannedDamage(d, c, Hydration(d, c));
      RequiredExactly(d, c);
    }
    SameDemands(d, c);
  }

  lemma SameDemands(d: Display, c: SceneRequest)
    ensures Hydration(d.(obligations := map[]), c) == Hydration(d, c)
    ensures PreviousSurfaces(d.(obligations := map[])) == PreviousSurfaces(d)
    ensures Brings(d.(obligations := map[]), c) == Brings(d, c)
  {
    hide DamageFor;
  }

  /** A newer scene is committed exactly when it meets every demand and the disk takes it, and
      then under the next commit id. */
  lemma NewerSceneIsCommitted(w: World, request: SceneRequest, fault: DiskFault)
    requires w.display.lastVersion.Less(request.version)
    ensures Accept(w, request, fault).1.Committed? <==> Takes(w.display, WithCanonicalSurfaces(request)) && fault.Writes?
    ensures Accept(w, request, fault).1.Committed? ==> Accept(w, request, fault).1 == Committed(w.display.nextCommitId)
  {
    hide Judge, Rebind, Brings, Adopt, Load;
    var c := WithCanonicalSurfaces(request);
    NewerJudged(w.display, c);
    DemandsButRoom(w.display, c);
    RebindSize(w.display.obligations, ActiveOutputs(w.display.outputs), c.version, if Brings(w.display, c) then {c.target} else {});
    hide Takes;
  }

  lemma DemandsButRoom(d: Display, c: SceneRequest)
    ensures Takes(d, c) <==> Takes(d.(obligations := map[]), c) && (Brings(d, c) ==> |d.obligations| < MAX_PRESENTATION_OBLIGATIONS)
  {
    hide DisplayAdmits, ReferencedHandles, PayloadHandles, TotalBytes, Brings, Hydration, ValidatedForDamage, DamageFor;
    SameDemands(d, c);
  }

  // ------------------------------------------------------------------ what it then owes

  /** What the target has to show after the scene was taken: it is active and has something
      pending, or it is absent and there was a scene before or something is visible. */
  ghost predicate Due(before: Display, after: Display, target: string, surfaces: seq<Surface>)
  {
    if Active(after, target) then after.outputs[target].pendingDamage != []
    else before.lastScene.Some? || exists s :: s in surfaces && s.placement.visible
  }

  lemma VisibleInAnyOrder(surfaces: seq<Surface>)
    ensures (exists s :: s in surfaces && s.placement.visible)
       <==> exists i :: 0 <= i < |Canonicalize(surfaces)| && Canonicalize(surfaces)[i].placement.visible
  {
    var c := Canonicalize(surfaces);
    if exists s :: s in surfaces && s.placement.visible {
      var s :| s in surfaces && s.placement.visible;
      assert s in multiset(surfaces) && s in multiset(c) && s in c;
    }
    if i :| 0 <= i < |c| && c[i].placement.visible {
      assert c[i] in multiset(c) && c[i] in multiset(surfaces) && c[i] in surfaces;
    }
  }

  lemma BringsIsDue(d: Display, c: SceneRequest, commitId: U64)
    ensures var outputs := DamageOutputs(d.outputs, DamageByOutput(d, c.surfaces), c.version, commitId);
      && (Active(d, c.target) <==> c.target in outputs && !outputs[c.target].disabled)
      && (Active(d, c.target) ==> (Brings(d, c) <==> outputs[c.target].pendingDamage != []))
  {
    hide DamageFor;
    if Active(d, c.target) {
      PendingIsMerged(PreviousSurfaces(d), c.surfaces, d.outputs[c.target]);
    }
  }

  lemma PendingIsMerged(previous: Option<seq<Surface>>, surfaces: seq<Surface>, r: Runtime)
    ensures DamageFor(previous, surfaces, r) == [] ==> r.pendingDamage == []
  {
    hide EffectiveDamage;
  }

  /** None of the outputs it waits for is there any more. */
  ghost predicate Orphaned(d: Display, o: Obligation)
  {
    forall k :: k in o.required ==> !Active(d, k)
  }

  /** The obligation table after a newly recorded scene. */
  lemma OwedTable(w: World, request: SceneRequest, fault: DiskFault)
    requires w.display.lastVersion.Less(request.version) && Accept(w, request, fault).1.Committed?
    ensures var (a, reply) := Accept(w, request, fault);
      var d := w.display;
      a.display.obligations ==
        if Due(d, a.display, request.target, request.surfaces)
        then Rebind(d.obligations, ActiveOutputs(d.outputs), request.version, {request.target})[reply.commitId := Obligation(request.version, {request.target}, {})]
        else d.obligations
  {
    hide Judge, Takes, Brings, DamageByOutput, DamageOutputs, Accept, Active, Rebind, Due;
    var c, d := WithCanonicalSurfaces(request), w.display;
    NewerSceneIsCommitted(w, request, fault);
    NewerJudged(d, c);
    CommittedOutcome(w, request, fault);
    DueIsBrought(d, Accept(w, request, fault).0.display, request);
    NothingRebound(d, c.version);
  }

  /** A newly recorded scene is owed by its target exactly when the target has something to
      show for it; older obligations whose outputs are all gone come over to the target, the
      others stay as they are. */
  lemma AcceptedSceneIsOwed(w: World, request: SceneRequest, fault: DiskFault)
    requires LedgerOk(w) && ObligationsOk(w) && w.display.nextCommitId < U64_MAX
    requires w.display.lastVersion.Less(request.version) && Accept(w, request, fault).1.Committed?
    ensures var (a, reply) := Accept(w, request, fault);
      var id := reply.commitId;
      var due := Due(w.display, a.display, request.target, request.surfaces);
      && id !in w.display.obligations
      && (id in a.display.obligations <==> due)
      && (due ==> a.display.obligations[id] == Obligation(request.version, {request.target}, {}))
      && a.display.obligations.Keys == w.display.obligations.Keys + (if due then {id} else {})
      && forall c :: c in w.display.obligations ==>
           a.display.obligations[c] ==
             if due && Orphaned(w.display, w.display.obligations[c])
             then Obligation(w.display.obligations[c].version, {request.target}, {}) else w.display.obligations[c]
  {
    hide LedgerOk, ObligationsOk, Accept, Rebind, Due, Orphaned, Active, ActiveOutputs;
    CommittedParts(w, request, fault);
    OwedTable(w, request, fault);
    OwedIdsAreOld(w);
    var after := Accept(w, request, fault).0.display;
    if Due(w.display, after, request.target, request.surfaces) {
      ReboundExactly(w, request.version, request.target);
      var rebound := Rebind(w.display.obligations, ActiveOutputs(w.display.outputs), request.version, {request.target});
      OneMoreOwed(rebound, w.display.nextCommitId, Obligation(request.version, {request.target}, {}));
    }
  }

  lemma OneMoreOwed(owed: map<U64, Obligation>, commit: U64, o: Obligation)
    requires commit !in owed
    ensures owed[commit := o].Keys == owed.Keys + {commit} && owed[commit := o][commit] == o
    ensures forall c :: c in owed ==> owed[commit := o][c] == owed[c]
  {
  }

  lemma CommittedParts(w: World, request: SceneRequest, fault: DiskFault)
    requires w.display.lastVersion.Less(request.version) && Accept(w, request, fault).1.Committed?
    ensures Accept(w, request, fault).1.commitId == w.display.nextCommitId && request.version.Versioned()
  {
    hide Accept, Takes;
    NewerSceneIsCommitted(w, request, fault);
    CommittedIsVersioned(w, request, fault);
  }

  lemma CommittedIsVersioned(w: World, request: SceneRequest, fault: DiskFault)
    requires w.display.lastVersion.Less(request.version) && Accept(w, request, fault).1.Committed?
    ensures request.version.Versioned()
  {
    hide Judge, Brings;
    NewerSceneIsCommitted(w, request, fault);
    hide Accept, DisplayAdmitsSurfaces, DisplayAdmitsPayloads;
  }

  lemma NothingRebound(d: Display, v: Version)
    ensures Rebind(d.obligations, ActiveOutputs(d.outputs), v, {}) == d.obligations
  {
  }

  /** What becomes of the older obligations when a newer scene needs `target`. */
  lemma ReboundExactly(w: World, v: Version, target: string)
    requires LedgerOk(w) && ObligationsOk(w) && w.display.lastVersion.Less(v) && v.Versioned()
    ensures var after := Rebind(w.display.obligations, ActiveOutputs(w.display.outputs), v, {target});
      && after.Keys == w.display.obligations.Keys
      && forall c :: c in after ==>
           after[c] == if Orphaned(w.display, w.display.obligations[c])
                       then Obligation(w.display.obligations[c].version, {target}, {}) else w.display.obligations[c]
  {
    hide LedgerOk, ObligationsOk, Active, VersionCovers, Orphaned;
    var d := w.display;
    forall c | c in d.obligations
      ensures RebindOne(d.obligations[c], ActiveOutputs(d.outputs), v, {target})
           == if Orphaned(d, d.obligations[c])
              then Obligation(d.obligations[c].version, {target}, {}) else d.obligations[c]
    {
      OlderIsCovered(w, c, v);
      GoneOutputs(d, d.obligations[c]);
    }
  }

  lemma DueIsBrought(d: Display, after: Display, request: SceneRequest)
    requires after.outputs == DamageOutputs(d.outputs, DamageByOutput(d, WithCanonicalSurfaces(request).surfaces), request.version, d.nextCommitId)
    ensures Due(d, after, request.target, request.surfaces) <==> Brings(d, WithCanonicalSurfaces(request))
  {
    hide DamageByOutput, DamageOutputs, DamageFor, Canonicalize;
    BringsIsDue(d, WithCanonicalSurfaces(request), d.nextCommitId);
    VisibleInAnyOrder(request.surfaces);
  }

  lemma GoneOutputs(d: Display, o: Obligation)
    ensures o.required !! ActiveOutputs(d.outputs) <==> Orphaned(d, o)
  {
  }

  lemma OlderIsCovered(w: World, commit: U64, v: Version)
    requires LedgerOk(w) && ObligationsOk(w) && w.display.lastVersion.Less(v) && v.Versioned() && commit in w.display.obligations
    ensures VersionCovers(v, w.display.obligations[commit])
  {
    VersionOrder(w.display.obligations[commit].version, v);
    VersionOrder(w.display.obligations[commit].version, w.display.lastVersion);
    assert Owed(true, w.ledger, commit, w.display.obligations[commit]);
    assert w.display.obligations[commit].version in w.ledger;
  }

  lemma OwedIdsAreOld(w: World)
    requires LedgerOk(w) && ObligationsOk(w) && w.display.nextCommitId < U64_MAX
    ensures forall c :: c in w.display.obligations ==> c < w.display.nextCommitId
  {
    forall c | c in w.display.obligations
      ensures c < w.display.nextCommitId
    {
      assert Owed(true, w.ledger, c, w.display.obligations[c]);
      VersionOrder(w.display.obligations[c].version, w.display.lastVersion);
    }
  }

  /** The tables and outputs after a new scene was committed. */
  lemma CommittedOutcome(w: World, request: SceneRequest, fault: DiskFault)
    requires w.display.lastVersion.Less(request.version) && Accept(w, request, fault).1.Committed?
    ensures var c := WithCanonicalSurfaces(request);
      var (a, reply) := Accept(w, request, fault);
      var v := Judge(w.display, c);
      var rebound := Rebind(w.display.obligations, ActiveOutputs(w.display.outputs), c.version, v.required);
      && v.Proceed? && reply.commitId == w.display.nextCommitId
      && a.display.outputs == DamageOutputs(w.display.outputs, v.damage, c.version, w.display.nextCommitId)
      && a.display.obligations == if v.required == {} then rebound else rebound[w.display.nextCommitId := Obligation(c.version, v.required, {})]
  {
    hide Judge, Rebind, DamageOutputs, Takes;
    NewerJudged(w.display, WithCanonicalSurfaces(request));
  }

  // ------------------------------------------------------------------------ how it pays

  /** The youngest of the satisfied commits is always answered, and with this feedback. */
  lemma {:induction false} YoungestIsAnswered(feedbacks: map<U64, Feedback>, cs: set<U64>, f: Feedback, commit: U64)
    requires commit in cs && forall c :: c in cs ==> c <= commit
    ensures commit in InsertAll(feedbacks, cs, f) && InsertAll(feedbacks, cs, f)[commit] == f
    decreases |cs|
  {
    hide Evicted;
    var c := Smallest(cs);
    if c == commit {
      assert cs - {c} == {};
    } else {
      YoungestIsAnswered(InsertBounded(feedbacks, c, f), cs - {c}, f, commit);
    }
  }

  /** Presenting a frame of the scene on the last output its commit waits for pays the debt:
      the commit is answered, with the token's sequence and the output's refresh. */
  lemma PresentedCommitIsAnswered(w: World, t: Token, commit: U64)
    requires LedgerOk(w) && ObligationsOk(w) && Preflight(w.display, t).None? && commit in w.display.obligations
    requires var o, f := w.display.obligations[commit], w.display.outputs[t.outputId].outstanding.value.frame;
      && o.version == f.version && t.outputId in o.required && o.required <= o.presented + {t.outputId}
    ensures var (after, result) := FinishCompletion(w, t, Presented, true);
      && result == Presented && commit !in after.display.obligations && commit in after.display.feedbacks
      && after.display.feedbacks[commit] == Feedback(Min(w.display.outputs[t.outputId].scheduler.period, U32_MAX), t.sequence)
  {
    hide FinishCompletion, InsertAll, PresentRuntime, LedgerOk, Preflight;
    var d := w.display;
    PreflightMeans(d, t);
    var r := d.outputs[t.outputId];
    var f := r.outstanding.value.frame;
    CompletionTables(w, t, Presented, true);
    FinishedAsAsked(w, t);
    var satisfied := Satisfied(d.obligations, f, t.outputId);
    OwedVersioned(w, commit);
    assert commit in satisfied;
    forall c | c in satisfied
      ensures c <= commit
    {
      YoungerVersions(w, c, commit);
    }
    YoungestIsAnswered(d.feedbacks, satisfied, Feedback(Min(r.scheduler.period, U32_MAX), t.sequence), commit);
  }

  lemma OwedVersioned(w: World, commit: U64)
    requires LedgerOk(w) && ObligationsOk(w) && commit in w.display.obligations
    ensures w.display.obligations[commit].version.Versioned()
  {
    assert Owed(true, w.ledger, commit, w.display.obligations[commit]);
  }

  lemma YoungerVersions(w: World, c: U64, commit: U64)
    requires LedgerOk(w) && ObligationsOk(w) && c in w.display.obligations && commit in w.display.obligations
    requires w.display.obligations[c].version.epoch == w.display.obligations[commit].version.epoch
    requires w.display.obligations[c].version.generation <= w.display.obligations[commit].version.generation
    ensures c <= commit
  {
    hide LedgerOk;
    OwedIsRecorded(w, c);
    OwedIsRecorded(w, commit);
    var u, v := w.display.obligations[c].version, w.display.obligations[commit].version;
    assert u == v || u.Less(v);
    LaterIdsAreLarger(w, u, v);
  }

  lemma OwedIsRecorded(w: World, c: U64)
    requires ObligationsOk(w) && c in w.display.obligations
    ensures w.display.obligations[c].version in w.ledger && w.ledger[w.display.obligations[c].version].commitId == c
  {
    assert Owed(true, w.ledger, c, w.display.obligations[c]);
  }

  lemma LaterIdsAreLarger(w: World, u: Version, v: Version)
    requires LedgerOk(w) && u in w.ledger && v in w.ledger && (u == v || u.Less(v))
    ensures w.ledger[u].commitId <= w.ledger[v].commitId
  {
  }

  /** On a working immediate backend an eligible tick of the target pays it at once. */
  lemma TickAnswers(c: Content, w: World, e: Event, commit: U64)
    requires WorldOk(c, w) && InFlightOk(w) && ObligationsOk(w) && w.backend.kind != MockDeferred
    requires Eligible(w, e) && e.submits && e.completes && commit in w.display.obligations
    requires w.display.obligations[commit].version == w.display.lastVersion && w.display.obligations[commit].required == {e.outputId}
    ensures commit in Step(w, e).0.display.feedbacks && commit !in Step(w, e).0.display.obligations
  {
    hide WorldOk, InFlightOk, ObligationsOk, CommitOutput, RuntimeOk, ValidatedForDamage, Decodable, StoreLayers, NormalizeDamage;
    var r := w.display.outputs[e.outputId];
    WorldOkParts(c, w, e.outputId);
    AdvanceKeepsRuntime(c, w.ledger, w.display.lastScene, w.display.lastVersion, r, e.outputGeneration, e.now, e.tickSequence);
    var a := AdvancePresentation(r, e.outputGeneration, e.now, e.tickSequence);
    var ticked := WithRuntime(w, e.outputId, a.runtime);
    AdvanceFlight(w, e.outputId, r, a.runtime);
    SameDebtsNamed(w, ticked);
    SameRecordLedger(w, ticked);
    CommitAnswers(ticked, e.outputId, commit);
  }

  lemma SameDebtsNamed(a: World, b: World)
    requires SameDebts(a, b)
    ensures ObligationsOk(a) <==> ObligationsOk(b)
  {
  }

  lemma CommitAnswers(w: World, k: string, commit: U64)
    requires LedgerOk(w) && InFlightOk(w) && ObligationsOk(w) && w.backend.kind != MockDeferred
    requires k in w.display.outputs && Composable(w.display, w.display.outputs[k])
    requires var r := w.display.outputs[k];
      !r.disabled && r.outstanding.None? && r.pendingDamage != [] && (r.backendInstance == 0 || r.backendInstance == w.backend.instanceId)
    requires commit in w.display.obligations
    requires w.display.obligations[commit].version == w.display.lastVersion && w.display.obligations[commit].required == {k}
    ensures var after := CommitOutput(w, k, w.display.lastScene.value, true, true).0;
      commit in after.display.feedbacks && commit !in after.display.obligations
  {
    hide LedgerOk, InFlightOk, ObligationsOk, ComposedFrame, ValidatedForDamage, Decodable, FinishCompletion, Preflight, StoreLayers;
    var s, r := w.display.lastScene.value, w.display.outputs[k];
    FlightParts(w, k);
    NewestVersion(w);
    ComposedDamage(w.display, s, r);
    SubmittedToken(w.backend, w.display, s, r);
    var frame, token := ComposedFrame(w.display, s, r), TokenFor(w.backend, ComposedFrame(w.display, s, r));
    var inFlight := WithRuntime(w.(backend := Submit(w.backend, frame)), k, InFlight(r, frame, token));
    InFlightPreflight(w, k, frame, r);
    SameDebtsNamed(w, inFlight);
    SameRecordLedger(w, inFlight);
    PresentedCommitIsAnswered(inFlight, token, commit);
  }
}
