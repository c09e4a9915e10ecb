/** Versions and commit ids: one strictly increasing relation, whatever happens. */
module Ledger {
  import opened Machine
  import opened SceneTypes
  import opened Geometry
  import opened Composition
  import opened Renderer
  import opened Admission
  import opened Pipeline

  /** The persisted scenes form a strictly increasing map from versions to commit ids, and
      memory and disk agree on its newest entry. */
  ghost predicate LedgerOk(w: World)
  {
    var d := w.display;
    && w.disk == d.lastScene
    && (d.lastScene.None? <==> w.ledger == map[])
    && (d.lastScene.None? ==> d.lastVersion == UNVERSIONED && d.nextCommitId == 1)
    && (d.lastScene.Some? ==>
          && d.lastScene.value.version == d.lastVersion
          && d.lastVersion in w.ledger && w.ledger[d.lastVersion] == d.lastScene.value
          && d.nextCommitId == Inc(d.lastScene.value.commitId))
    && LedgerIncreases(w.ledger, d.lastVersion)
  }

  ghost predicate LedgerIncreases(ledger: map<Version, Scene>, newest: Version)
  {
    && (forall v :: v in ledger ==> v.Versioned() && v.AtMost(newest) && ledger[v].version == v && 1 <= ledger[v].commitId)
    && (forall u, v :: u in ledger && v in ledger && u.Less(v) ==> ledger[u].commitId < ledger[v].commitId)
  }

  /** Nothing ever recorded is lost or rewritten. */
  ghost predicate Extends(before: map<Version, Scene>, after: map<Version, Scene>)
  {
    forall v :: v in before ==> v in after && after[v] == before[v]
  }

  ghost predicate Asks(e: Event)
  {
    e.Commit? || e.Reconcile?
  }

  /** Scenes are versioned, and the commit counter has not reached its ceiling. */
  ghost predicate VersionedStep(w: World, e: Event)
  {
    Asks(e) ==> e.request.version != UNVERSIONED && w.display.nextCommitId < U64_MAX
  }

  ghost predicate VersionedRun(w: World, events: seq<Event>)
    decreases |events|
  {
    events != [] ==> VersionedStep(w, events[0]) && VersionedRun(Step(w, events[0]).0, events[1..])
  }

  lemma VersionOrder(u: Version, v: Version)
    ensures u == v || u.Less(v) || v.Less(u)
    ensures u.Less(v) ==> !v.Less(u) && u != v
  {
  }

  /** A new version beyond the newest may be recorded under the next id. */
  lemma RecordingExtends(w: World, s: Scene)
    requires LedgerOk(w)
    requires s.version.Versioned() && w.display.lastVersion.Less(s.version)
    requires s.commitId == w.display.nextCommitId < U64_MAX
    ensures LedgerIncreases(w.ledger[s.version := s], s.version)
    ensures Extends(w.ledger, w.ledger[s.version := s])
  {
    var ledger := w.ledger[s.version := s];
    assert s.version !in w.ledger;
    forall u, v | u in ledger && v in ledger && u.Less(v)
      ensures ledger[u].commitId < ledger[v].commitId
    {
      if v == s.version {
        assert u.AtMost(w.display.lastVersion);
        assert w.ledger[u].commitId <= w.ledger[w.display.lastVersion].commitId;
      } else {
        assert v.AtMost(w.display.lastVersion);
      }
    }
  }

  lemma RestartKeepsLedger(w: World, boot: Boot)
    requires w.disk.None? ==> w.ledger == map[]
    requires w.disk.Some? ==> w.disk.value.version in w.ledger && w.ledger[w.disk.value.version] == w.disk.value
    requires w.disk.Some? ==> LedgerIncreases(w.ledger, w.disk.value.version)
    ensures LedgerOk(Restarted(w, boot))
  {
  }

  lemma CarryOutKeepsLedger(w: World, r: SceneRequest, fault: DiskFault, verdict: Verdict)
    requires LedgerOk(w) && w.display.nextCommitId < U64_MAX && verdict.Proceed?
    requires verdict.replayed.None? ==> r.version.Versioned() && w.display.lastVersion.Less(r.version)
    requires verdict.replayed.Some? ==> w.display.lastScene == Some(SceneOf(r, verdict.replayed.value))
    ensures LedgerOk(CarryOut(w, r, fault, verdict).0)
    ensures Extends(w.ledger, CarryOut(w, r, fault, verdict).0.ledger)
    ensures CarryOut(w, r, fault, verdict).1.Committed? ==>
      && r.version in CarryOut(w, r, fault, verdict).0.ledger
      && CarryOut(w, r, fault, verdict).0.ledger[r.version] == SceneOf(r, CarryOut(w, r, fault, verdict).1.commitId)
  {
    hide Rebind, Adopt, LedgerIncreases;
    var d := Rebound(w.display, r, verdict.required);
    if verdict.replayed.Some? {
      AdoptKeepsIdentity(d, r.version, verdict.replayed.value, verdict);
    } else {
      var s := SceneOf(r, d.nextCommitId);
      RecordingExtends(w, s);
      assert s.version in Persisted(w, s).ledger;
      AdoptKeepsIdentity(Recorded(d, s), r.version, s.commitId, verdict);
      match fault
      case DiesBeforeRename(boot) => RestartKeepsLedger(w, boot);
      case DiesAfterRename(boot) => RestartKeepsLedger(Persisted(w, s), boot);
      case _ =>
    }
  }

  /** What scene acceptance does to versions and ids, faults and crashes included: the ledger
      only grows, and a receipt's id is the one recorded for the version, with this content. */
  lemma AcceptKeepsLedger(w: World, request: SceneRequest, fault: DiskFault)
    requires LedgerOk(w) && request.version != UNVERSIONED && w.display.nextCommitId < U64_MAX
    ensures LedgerOk(Accept(w, request, fault).0)
    ensures Extends(w.ledger, Accept(w, request, fault).0.ledger)
    ensures Accept(w, request, fault).1.Committed? ==>
      && request.version in Accept(w, request, fault).0.ledger
      && Accept(w, request, fault).0.ledger[request.version]
           == SceneOf(WithCanonicalSurfaces(request), Accept(w, request, fault).1.commitId)
  {
    hide Judge, CarryOut, LedgerIncreases;
    var r := WithCanonicalSurfaces(request);
    var verdict := Judge(w.display, r);
    PlanKeepsReplay(w.display, r);
    VersionOrder(w.display.lastVersion, r.version);
    if verdict.Proceed? {
      CarryOutKeepsLedger(w, r, fault, verdict);
    }
  }

  /** A replay verdict names the commit on file, a fresh one is for a newer version. */
  lemma PlanKeepsReplay(d: Display, r: SceneRequest)
    requires r.version != UNVERSIONED
    ensures Judge(d, r).Proceed? && Judge(d, r).replayed.None? ==>
      r.version.Versioned() && !VersionIsStale(d.lastVersion, r.version) && r.version != d.lastVersion
    ensures Judge(d, r).Proceed? && Judge(d, r).replayed.Some? ==>
      && d.lastScene.Some? && r.version == d.lastVersion
      && d.lastScene.value == SceneOf(r, d.lastScene.value.commitId)
      && Judge(d, r).replayed == Some(d.lastScene.value.commitId)
    ensures Judge(d, r).AlreadyAccepted? ==>
      && d.lastScene.Some? && r.version == d.lastVersion
      && d.lastScene.value == SceneOf(r, Judge(d, r).commitId)
  {
  }

  lemma AdoptKeepsIdentity(d: Display, v: Version, commitId: U64, verdict: Verdict)
    requires verdict.Proceed?
    ensures var a := Adopt(d, v, commitId, verdict.store, verdict.damage, verdict.required);
      && a.lastScene == d.lastScene && a.lastVersion == d.lastVersion && a.nextCommitId == d.nextCommitId
      && a.displayEpoch == d.displayEpoch && a.reconciliation == d.reconciliation && a.backendSequences == d.backendSequences
  {
  }

  // ---------------------------------------------------------- steps that leave it alone

  ghost predicate SameRecord(a: World, b: World)
  {
    && a.disk == b.disk && a.ledger == b.ledger
    && a.display.lastScene == b.display.lastScene
    && a.display.lastVersion == b.display.lastVersion
    && a.display.nextCommitId == b.display.nextCommitId
  }

  lemma {:induction false} DetachAllKeepsRecord(w: World, ids: set<string>)
    requires ids <= w.display.outputs.Keys
    ensures SameRecord(w, DetachAll(w, ids))
    decreases |ids|
  {
    DetachNone(w);
    if ids != {} {
      var id :| id in ids;
      DetachOne(w, ids, id);
      DetachAllKeepsRecord(Detach(w, id), ids - {id});
    }
  }

  lemma ConnectKeepsRecord(w: World, e: OutputEvent)
    requires e.Up?
    ensures if Connect(w, e).1 == Died then Connect(w, e).0 == Restarted(w, e.boot) else SameRecord(w, Connect(w, e).0)
  {
    hide ConnectedRuntime, ValidateGeometry, TotalFramebufferBytes, Rebind, Load;
  }

  lemma ChangeKeepsRecord(w: World, e: OutputEvent)
    ensures ApplyOutputEvent(w, e).1 == Died || SameRecord(w, ApplyOutputEvent(w, e).0)
    ensures ApplyOutputEvent(w, e).1 == Died ==> exists u, boot :: SameRecord(w, u) && ApplyOutputEvent(w, e).0 == Restarted(u, boot)
  {
    hide Connect, DetachAll, Load;
    var adopted := if e.instance != 0 && e.instance != w.display.displayEpoch
                   then w.(display := w.display.(displayEpoch := e.instance)) else w;
    assert SameRecord(w, adopted);
    match e {
      case Up(_, _, _, _, _, boot) => ConnectKeepsRecord(adopted, e);
      case BackendReset(instance, _) => DetachAllKeepsRecord(adopted, OfInstance(adopted.display, instance));
      case _ =>
    }
  }

  lemma CommitKeepsRecord(w: World, id: string, s: Scene, submits: bool, completes: bool)
    requires id in w.display.outputs
    ensures SameRecord(w, CommitOutput(w, id, s, submits, completes).0)
  {
    hide ComposedFrame, ValidatedForDamage, Decodable, FinishCompletion;
    var r := w.display.outputs[id];
    var frame := ComposedFrame(w.display, s, r);
    var token := TokenFor(w.backend, frame);
    var inFlight := WithRuntime(w.(backend := Submit(w.backend, frame)), id, InFlight(r, frame, token));
    CompletionKeepsRecord(inFlight, token, Presented, completes);
  }

  lemma TickKeepsRecord(w: World, e: Event)
    requires e.Tick?
    ensures SameRecord(w, TickOutput(w, e).0)
  {
    hide AdvancePresentation, CommitOutput;
    if e.outputId in w.display.outputs && w.display.lastScene.Some? {
      match AdvancePresentation(w.display.outputs[e.outputId], e.outputGeneration, e.now, e.tickSequence)
      case Ticked(r, eligible) =>
        CommitKeepsRecord(WithRuntime(w, e.outputId, r), e.outputId, w.display.lastScene.value, e.submits, e.completes);
      case _ =>
    }
  }

  /** Every step of displayd keeps the ledger increasing and never rewrites it. */
  lemma StepKeepsLedger(w: World, e: Event)
    requires LedgerOk(w) && VersionedStep(w, e)
    ensures LedgerOk(Step(w, e).0)
    ensures Extends(w.ledger, Step(w, e).0.ledger)
  {
    hide Accept, ApplyOutputEvent, TickOutput, FinishCompletion, LedgerIncreases;
    match e
    case Commit(request, fault) => AcceptKeepsLedger(w, request, fault);
    case Reconcile(epoch, request, fault) => AcceptKeepsLedger(w, request, fault);
    case BeginReconciliation(epoch) =>
    case Tick(_, _, _, _, _, _) => TickKeepsRecord(w, e);
    case Complete(token, outcome, completes) => CompletionKeepsRecord(w, token, outcome, completes);
    case OutputChange(change) =>
      ChangeKeepsRecord(w, change);
      if ApplyOutputEvent(w, change).1 == Died {
        var u, boot :| SameRecord(w, u) && ApplyOutputEvent(w, change).0 == Restarted(u, boot);
        RestartKeepsLedger(u, boot);
      }
    case Restart(boot) => RestartKeepsLedger(w, boot);
  }

  lemma CompletionKeepsRecord(w: World, t: Token, outcome: Completion, completes: bool)
    ensures SameRecord(w, FinishCompletion(w, t, outcome, completes).0)
  {
    hide NotePresented, PresentRuntime, FailRuntime;
    if Preflight(w.display, t).None? {
      NotePresentedKeepsRecord(w.display, t);
    }
  }

  lemma NotePresentedKeepsRecord(d: Display, t: Token)
    requires Preflight(d, t).None?
    ensures forall outcome ::
      && CompletePresentation(d, t, outcome).lastScene == d.lastScene
      && CompletePresentation(d, t, outcome).lastVersion == d.lastVersion
      && CompletePresentation(d, t, outcome).nextCommitId == d.nextCommitId
  {
  }

  /** Over any run, crashes and restarts included, the recorded versions and ids stay one
      strictly increasing map, and no entry is ever lost or rewritten. */
  lemma {:induction false} RunKeepsLedger(w: World, events: seq<Event>)
    requires LedgerOk(w) && VersionedRun(w, events)
    ensures LedgerOk(Run(w, events)) && Extends(w.ledger, Run(w, events).ledger)
    decreases |events|
  {
    if events != [] {
      StepKeepsLedger(w, events[0]);
      RunKeepsLedger(Step(w, events[0]).0, events[1..]);
    }
  }

  /** ... so no version ever has two ids and no id two versions. */
  lemma OneIdPerVersion(w: World, events: seq<Event>, u: Version, v: Version)
    requires LedgerOk(w) && VersionedRun(w, events)
    requires u in w.ledger && v in Run(w, events).ledger
    ensures w.ledger[u].commitId == Run(w, events).ledger[v].commitId <==> u == v
    ensures w.ledger[u].commitId < Run(w, events).ledger[v].commitId <==> u.Less(v)
  {
    RunKeepsLedger(w, events);
    VersionOrder(u, v);
  }

  /** Replaying the accepted scene, its surfaces in any order, gives the original id or a
      refusal; versions, ids and disk do not move, and when nothing needs hydrating the
      whole world stays as it is. */
  lemma ReplayReturnsOriginalId(w: World, replay: SceneRequest, fault: DiskFault)
    requires LedgerOk(w) && w.display.lastScene.Some? && w.display.nextCommitId < U64_MAX
    requires replay.version == w.display.lastVersion
    requires DistinctIds(w.display.lastScene.value.surfaces) && Canonicalize(w.display.lastScene.value.surfaces) == w.display.lastScene.value.surfaces
    requires multiset(replay.surfaces) == multiset(w.display.lastScene.value.surfaces)
    requires replay.target == w.display.lastScene.value.target && replay.focus == w.display.lastScene.value.focus
    requires replay.selection == w.display.lastScene.value.selection
    ensures var (w', reply) := Accept(w, replay, fault);
      && (reply == Committed(w.display.lastScene.value.commitId) || reply == Rejected)
      && w'.display.nextCommitId == w.display.nextCommitId
      && w'.ledger == w.ledger && w'.disk == w.disk && w'.display.lastScene == w.display.lastScene
    ensures DisplayAdmits(WithCanonicalSurfaces(replay)) && PayloadsCompatible(w.display.store, replay.payloads)
         && w.display.reconciliation != Recovering && !HydrationNeeded(w.display.store, replay.payloads)
         ==> Accept(w, replay, fault) == (w, Committed(w.display.lastScene.value.commitId))
  {
    hide Judge, CarryOut, Canonicalize, DisplayAdmits, PayloadsCompatible, HydrationNeeded, LedgerIncreases;
    var r := WithCanonicalSurfaces(replay);
    CanonicalizeIgnoresOrder(w.display.lastScene.value.surfaces, replay.surfaces);
    assert w.display.lastVersion.Versioned() by { LedgerVersioned(w); }
    JudgeReplay(w.display, r);
    var verdict := Judge(w.display, r);
    if verdict.Proceed? {
      CarryOutReplay(w, r, fault, verdict);
    }
  }

  lemma LedgerVersioned(w: World)
    requires LedgerOk(w) && w.display.lastScene.Some?
    ensures w.display.lastVersion.Versioned()
  {
  }

  lemma JudgeReplay(d: Display, r: SceneRequest)
    requires r.version == d.lastVersion && r.version.Versioned() && d.lastScene.Some?
    ensures Judge(d, r).Proceed? ==> Judge(d, r).replayed == Some(d.lastScene.value.commitId)
    ensures Judge(d, r).AlreadyAccepted? ==> Judge(d, r).commitId == d.lastScene.value.commitId
    ensures DisplayAdmits(r) && SameSceneIdentity(d.lastScene.value, r) && PayloadsCompatible(d.store, r.payloads)
         && d.reconciliation != Recovering && !HydrationNeeded(d.store, r.payloads)
         ==> Judge(d, r) == AlreadyAccepted(d.lastScene.value.commitId)
  {
    VersionOrder(r.version, d.lastVersion);
  }

  lemma CarryOutReplay(w: World, r: SceneRequest, fault: DiskFault, verdict: Verdict)
    requires verdict.Proceed? && verdict.replayed.Some?
    ensures SameRecord(w, CarryOut(w, r, fault, verdict).0)
    ensures CarryOut(w, r, fault, verdict).1 in {Committed(verdict.replayed.value), Rejected}
  {
    hide Rebind;
  }
}
