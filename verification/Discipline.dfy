/** The in-flight discipline: what pending damage and a frame in flight owe to each other,
    whatever clients put into their scenes. */
module Discipline {
  import opened Machine
  import opened SceneTypes
  import opened Geometry
  import opened Composition
  import opened Renderer
  import opened Admission
  import opened Pipeline
  import opened Ledger
  import opened Refinement

  /** A frame in flight has pending damage covering its own, and is of no newer scene than the
      pending one; on an output that never showed anything, a frame of the newest scene
      repaints everything. */
  ghost predicate FrameDisciplined(newest: Version, r: Runtime)
  {
    r.outstanding.Some? ==>
      var f, t := r.outstanding.value.frame, r.outstanding.value.token;
      && r.pendingDamage != []
      && f.output == r.output && t.sceneGeneration == f.version.generation && |f.pixels| == r.output.Words()
      && f.version.AtMost(newest)
      && f.damage != [] && |f.damage| <= MAX_DAMAGE_RECTS && Within(f.damage, r.output.Bounds())
      && (forall x, y :: Covers(f.damage, x, y) ==> Covers(r.pendingDamage, x, y))
      && (f.version == newest && !r.Initialised() ==> CoversAll(f.damage, r.output))
  }

  ghost predicate Disciplined(newest: Version, r: Runtime)
  {
    if r.disabled then
      r.pendingDamage == [] && r.outstanding.None? && r.retry.None?
    else
      PendingOk(newest, r) && (r.framebuffer == [] || r.Initialised()) && FrameDisciplined(newest, r)
  }

  ghost predicate AllDisciplined(newest: Version, outputs: map<string, Runtime>)
  {
    forall k :: k in outputs ==> Disciplined(newest, outputs[k])
  }

  ghost predicate DisciplineOk(w: World)
  {
    && (w.display.lastScene.Some? ==> w.display.lastScene.value.version == w.display.lastVersion)
    && AllDisciplined(w.display.lastVersion, w.display.outputs)
  }

  /** The one hypothesis: scenes are versioned. */
  ghost predicate VersionedScene(e: Event)
  {
    Asks(e) ==> e.request.version != UNVERSIONED
  }

  // ------------------------------------------------------------------- one output

  lemma NewSceneKeepsDiscipline(previous: Option<seq<Surface>>, surfaces: seq<Surface>, newest: Version, v: Version, commitId: U64, r: Runtime)
    requires !r.disabled && Disciplined(newest, r) && newest.AtMost(v)
    ensures var damage := DamageFor(previous, surfaces, r);
      Disciplined(v, if damage != [] then WithDamage(r, damage, v, commitId) else r)
  {
    hide DamageFor;
    DamageForCovers(previous, surfaces, r);
    if !r.Initialised() {
      DamageForUninitialised(previous, surfaces, r);
    }
    if r.outstanding.Some? {
      VersionOrder(newest, v);
      VersionOrder(r.outstanding.value.frame.version, v);
      VersionOrder(r.outstanding.value.frame.version, newest);
    }
  }

  lemma LaterVersionDisabled(newest: Version, v: Version, r: Runtime)
    requires r.disabled && Disciplined(newest, r)
    ensures Disciplined(v, r)
  {
  }

  lemma PresentKeepsDiscipline(newest: Version, r: Runtime)
    requires Disciplined(newest, r) && r.outstanding.Some?
    ensures Disciplined(newest, PresentRuntime(r, r.outstanding.value))
  {
    VersionOrder(r.outstanding.value.frame.version, newest);
  }

  lemma FailKeepsDiscipline(newest: Version, r: Runtime)
    requires Disciplined(newest, r) && r.outstanding.Some?
    ensures Disciplined(newest, FailRuntime(r, r.outstanding.value))
  {
    VersionOrder(r.outstanding.value.frame.version, newest);
  }

  lemma SchedulingKeepsDiscipline(newest: Version, r: Runtime, scheduler: Scheduler)
    requires Disciplined(newest, r)
    ensures Disciplined(newest, r.(scheduler := scheduler)) && Disciplined(newest, r.(scheduler := scheduler, retry := None))
  {
  }

  lemma AdvanceKeepsDiscipline(newest: Version, r: Runtime, generation: U64, now: U64, tickSequence: U64)
    requires Disciplined(newest, r)
    ensures var a := AdvancePresentation(r, generation, now, tickSequence); !a.StaleOutput? ==> Disciplined(newest, a.runtime)
  {
    hide Disciplined;
    var a := AdvancePresentation(r, generation, now, tickSequence);
    if !a.StaleOutput? {
      SchedulingKeepsDiscipline(newest, r, a.runtime.scheduler);
      assert a.runtime == r.(scheduler := a.runtime.scheduler) || a.runtime == r.(scheduler := a.runtime.scheduler, retry := None);
    }
  }

  lemma ComposedSize(d: Display, s: Scene, r: Runtime)
    ensures var f := ComposedFrame(d, s, r);
      && |f.pixels| == r.output.Words() && f.output == r.output && f.version == s.version
      && f.damage == NormalizeDamage(r.pendingDamage, r.output.Bounds())
  {
    RepaintIsRepainted(Scratch(r), r.output, StoreLayers(d.store, Canonicalize(s.surfaces)), NormalizeDamage(r.pendingDamage, r.output.Bounds()));
  }

  lemma SubmissionKeepsDiscipline(d: Display, b: Backend, r: Runtime)
    requires d.lastScene.Some? && d.lastScene.value.version == d.lastVersion
    requires !r.disabled && r.outstanding.None? && r.pendingDamage != [] && Disciplined(d.lastVersion, r)
    ensures var f := ComposedFrame(d, d.lastScene.value, r);
      Disciplined(d.lastVersion, SubmissionFailed(r, f)) && Disciplined(d.lastVersion, InFlight(r, f, TokenFor(b, f)))
  {
    hide ComposedFrame, NormalizeDamage;
    ComposedSize(d, d.lastScene.value, r);
    PendingAsComposed(d.lastVersion, r);
  }

  lemma ConnectedDisciplined(d: Display, output: LiveOutput, instance: U64, period: U64)
    ensures Disciplined(d.lastVersion, ConnectedRuntime(d, output, instance, period))
  {
    var bounds := output.Bounds();
    assert [bounds][0] == bounds;
    forall x, y | output.OnScreen(x, y)
      ensures Covers([bounds], x, y)
    {
      CoversBounds(bounds, x, y);
    }
  }

  lemma CoversBounds(r: Rect, x: int, y: int)
    requires r.Contains(x, y)
    ensures Covers([r], x, y)
  {
    assert [r][0].Contains(x, y);
  }

  // ---------------------------------------------------------------------- one step

  lemma UpdateKeepsDiscipline(newest: Version, outputs: map<string, Runtime>, k: string, r: Runtime)
    requires AllDisciplined(newest, outputs) && Disciplined(newest, r)
    ensures AllDisciplined(newest, outputs[k := r])
  {
    hide Disciplined;
  }

  lemma RemovalKeepsDiscipline(newest: Version, outputs: map<string, Runtime>, ids: set<string>)
    requires AllDisciplined(newest, outputs)
    ensures AllDisciplined(newest, outputs - ids)
  {
    hide Disciplined;
  }

  lemma BootKeepsDiscipline(newest: Version, boot: Boot)
    ensures AllDisciplined(newest, BootOutputs(boot))
  {
  }

  /** An accepted scene is the newest one, or the newest one again. */
  lemma ProceedIsNewest(d: Display, r: SceneRequest)
    requires r.version != UNVERSIONED && Judge(d, r).Proceed?
    ensures r.version.Versioned() && d.lastVersion.AtMost(r.version) && Judge(d, r).damage == DamageByOutput(d, r.surfaces)
    ensures Judge(d, r).replayed.Some? ==> d.lastVersion == r.version
  {
    hide Judge, DamageByOutput;
    PlanKeepsReplay(d, r);
    ProceedMeans(d, r);
    ReplayedVersion(d, r);
    VersionOrder(d.lastVersion, r.version);
  }

  lemma ReplayedVersion(d: Display, r: SceneRequest)
    requires r.version != UNVERSIONED && Judge(d, r).Proceed?
    ensures r.version.Versioned()
  {
    hide DisplayAdmitsSurfaces, DisplayAdmitsPayloads, DamageByOutput, PayloadsSuffice;
  }

  lemma AdoptedDiscipline(d: Display, r: SceneRequest, commitId: U64)
    requires AllDisciplined(d.lastVersion, d.outputs) && d.lastVersion.AtMost(r.version)
    ensures AllDisciplined(r.version, DamageOutputs(d.outputs, DamageByOutput(d, r.surfaces), r.version, commitId))
  {
    hide Disciplined, DamageFor;
    forall k | k in d.outputs
      ensures Disciplined(r.version, DamageOutputs(d.outputs, DamageByOutput(d, r.surfaces), r.version, commitId)[k])
    {
      if d.outputs[k].disabled {
        LaterVersionDisabled(d.lastVersion, r.version, d.outputs[k]);
      } else {
        NewSceneKeepsDiscipline(PreviousSurfaces(d), r.surfaces, d.lastVersion, r.version, commitId, d.outputs[k]);
      }
    }
  }

  lemma CarryOutKeepsDiscipline(w: World, r: SceneRequest, fault: DiskFault, verdict: Verdict)
    requires DisciplineOk(w) && verdict.Proceed? && r.version.Versioned() && w.display.lastVersion.AtMost(r.version)
    requires verdict.damage == DamageByOutput(w.display, r.surfaces)
    requires verdict.replayed.Some? ==> w.display.lastVersion == r.version
    ensures DisciplineOk(CarryOut(w, r, fault, verdict).0)
  {
    hide AllDisciplined, Rebind, DamageByOutput, DamageOutputs, Adopt, Load;
    var d := Rebound(w.display, r, verdict.required);
    if verdict.replayed.Some? {
      AdoptedDiscipline(w.display, r, verdict.replayed.value);
      AdoptShape(d, r.version, verdict.replayed.value, verdict);
    } else {
      var s := SceneOf(r, d.nextCommitId);
      AdoptedDiscipline(w.display, r, s.commitId);
      AdoptShape(Recorded(d, s), r.version, s.commitId, verdict);
      match fault
      case DiesBeforeRename(boot) => RestartKeepsDiscipline(w, boot);
      case DiesAfterRename(boot) => RestartKeepsDiscipline(Persisted(w, s), boot);
      case _ =>
    }
  }

  lemma AdoptShape(d: Display, v: Version, commitId: U64, verdict: Verdict)
    requires verdict.Proceed?
    ensures var a := Adopt(d, v, commitId, verdict.store, verdict.damage, verdict.required);
      a.lastScene == d.lastScene && a.lastVersion == d.lastVersion && a.outputs == DamageOutputs(d.outputs, verdict.damage, v, commitId)
  {
    hide DamageOutputs;
  }

  lemma AcceptKeepsDiscipline(w: World, request: SceneRequest, fault: DiskFault)
    requires DisciplineOk(w) && request.version != UNVERSIONED
    ensures DisciplineOk(Accept(w, request, fault).0)
  {
    hide Judge, CarryOut, DisciplineOk, DamageByOutput;
    var r := WithCanonicalSurfaces(request);
    if Judge(w.display, r).Proceed? {
      ProceedIsNewest(w.display, r);
      CarryOutKeepsDiscipline(w, r, fault, Judge(w.display, r));
    }
  }

  lemma CompletionKeepsDiscipline(w: World, t: Token, outcome: Completion, completes: bool)
    requires DisciplineOk(w)
    ensures DisciplineOk(FinishCompletion(w, t, outcome, completes).0)
    ensures SameRecord(w, FinishCompletion(w, t, outcome, completes).0)
  {
    hide Disciplined, FinishCompletion, PresentRuntime, FailRuntime;
    CompletionKeepsRecord(w, t, outcome, completes);
    if Preflight(w.display, t).None? {
      var d, r := w.display, w.display.outputs[t.outputId];
      CompletionOutputs(w, t, outcome, completes);
      PresentKeepsDiscipline(d.lastVersion, r);
      FailKeepsDiscipline(d.lastVersion, r);
      UpdateKeepsDiscipline(d.lastVersion, d.outputs, t.outputId, PresentRuntime(r, r.outstanding.value));
      UpdateKeepsDiscipline(d.lastVersion, d.outputs, t.outputId, FailRuntime(r, r.outstanding.value));
    } else {
      RefusedLeavesAll(w, t, outcome, completes);
    }
  }

  lemma RefusedLeavesAll(w: World, t: Token, outcome: Completion, completes: bool)
    requires Preflight(w.display, t).Some?
    ensures FinishCompletion(w, t, outcome, completes).0 == w
  {
  }

  lemma WithDisciplined(w: World, k: string, r: Runtime)
    requires DisciplineOk(w) && Disciplined(w.display.lastVersion, r)
    ensures DisciplineOk(WithRuntime(w, k, r))
  {
    hide Disciplined;
    UpdateKeepsDiscipline(w.display.lastVersion, w.display.outputs, k, r);
  }

  lemma DisciplinedAt(w: World, k: string)
    requires DisciplineOk(w) && k in w.display.outputs
    ensures Disciplined(w.display.lastVersion, w.display.outputs[k])
    ensures w.display.lastScene.Some? ==> w.display.lastScene.value.version == w.display.lastVersion
  {
    hide Disciplined;
  }

  lemma OtherBackend(w: World, b: Backend)
    requires DisciplineOk(w)
    ensures DisciplineOk(w.(backend := b))
  {
  }

  lemma CommitKeepsDiscipline(w: World, id: string, submits: bool, completes: bool)
    requires DisciplineOk(w) && id in w.display.outputs && w.display.lastScene.Some?
    ensures DisciplineOk(CommitOutput(w, id, w.display.lastScene.value, submits, completes).0)
  {
    hide DisciplineOk, Disciplined, ComposedFrame, ValidatedForDamage, Decodable, FinishCompletion;
    var s, r := w.display.lastScene.value, w.display.outputs[id];
    DisciplinedAt(w, id);
    var frame := ComposedFrame(w.display, s, r);
    var token := TokenFor(w.backend, frame);
    if r.disabled {
    } else if r.outstanding.Some? || r.pendingDamage == [] {
      SchedulingKeepsDiscipline(w.display.lastVersion, r, r.scheduler.(state := PresentationBlocked));
      SchedulingKeepsDiscipline(w.display.lastVersion, r, r.scheduler.(state := Idle));
      WithDisciplined(w, id, r.(scheduler := r.scheduler.(state := PresentationBlocked)));
      WithDisciplined(w, id, r.(scheduler := r.scheduler.(state := Idle)));
    } else {
      SubmissionKeepsDiscipline(w.display, w.backend, r);
      WithDisciplined(w, id, SubmissionFailed(r, frame));
      var submitted := w.(backend := Submit(w.backend, frame));
      OtherBackend(w, submitted.backend);
      WithDisciplined(submitted, id, InFlight(r, frame, token));
      CompletionKeepsDiscipline(WithRuntime(submitted, id, InFlight(r, frame, token)), token, Presented, completes);
    }
  }

  lemma TickKeepsDiscipline(w: World, e: Event)
    requires DisciplineOk(w) && e.Tick?
    ensures DisciplineOk(TickOutput(w, e).0)
  {
    hide DisciplineOk, Disciplined, AdvancePresentation, CommitOutput;
    if e.outputId in w.display.outputs {
      DisciplinedAt(w, e.outputId);
      AdvanceKeepsDiscipline(w.display.lastVersion, w.display.outputs[e.outputId], e.outputGeneration, e.now, e.tickSequence);
      var a := AdvancePresentation(w.display.outputs[e.outputId], e.outputGeneration, e.now, e.tickSequence);
      if !a.StaleOutput? {
        WithDisciplined(w, e.outputId, a.runtime);
        if w.display.lastScene.Some? {
          CommitKeepsDiscipline(WithRuntime(w, e.outputId, a.runtime), e.outputId, e.submits, e.completes);
        }
      }
    }
  }

  lemma ConnectKeepsDiscipline(w: World, e: OutputEvent)
    requires DisciplineOk(w) && e.Up?
    ensures DisciplineOk(Connect(w, e).0)
  {
    hide AllDisciplined, CheckConnect, ConnectedRuntime, Rebind, ReconfigureOutput, RetireOutstanding, BootOutputs;
    match CheckConnect(w.display, e)
    case Connectable(output) =>
      ConnectedDisciplined(w.display, output, e.instance, e.period);
      UpdateKeepsDiscipline(w.display.lastVersion, w.display.outputs, e.outputId, ConnectedRuntime(w.display, output, e.instance, e.period));
    case Overflows => BootKeepsDiscipline(Restarted(w, e.boot).display.lastVersion, e.boot);
    case _ =>
  }

  lemma DisabledDisciplined(newest: Version, r: Runtime)
    ensures Disciplined(newest, DisabledRuntime(r))
  {
  }

  lemma ChangeKeepsDiscipline(w: World, e: OutputEvent)
    requires DisciplineOk(w)
    ensures DisciplineOk(ApplyOutputEvent(w, e).0)
  {
    hide Connect, RetireOutstanding, RemoveOutput, TokensOf, OfInstance, DisabledRuntime, AllDisciplined;
    var adopted := AdoptEpoch(w, e.instance);
    match e {
      case Up(_, _, _, _, _, _) => ConnectKeepsDiscipline(adopted, e);
      case Disabled(_, id, _, _) =>
        if id in w.display.outputs {
          DisabledDisciplined(w.display.lastVersion, w.display.outputs[id]);
          UpdateKeepsDiscipline(w.display.lastVersion, w.display.outputs, id, DisabledRuntime(w.display.outputs[id]));
        }
      case Disconnected(_, id, _, _) => RemovalKeepsDiscipline(w.display.lastVersion, w.display.outputs, {id});
      case BackendReset(instance, _) => RemovalKeepsDiscipline(w.display.lastVersion, w.display.outputs, OfInstance(adopted.display, instance));
    }
  }

  lemma BeginKeepsDiscipline(w: World, epoch: U64)
    requires DisciplineOk(w)
    ensures DisciplineOk(Begin(w, epoch).0)
  {
    hide Disciplined;
    forall k | k in w.display.outputs
      ensures Disciplined(w.display.lastVersion, w.display.outputs[k].(outstanding := None, retry := None))
    {
      RetiredDisciplined(w.display.lastVersion, w.display.outputs[k]);
    }
  }

  lemma RetiredDisciplined(newest: Version, r: Runtime)
    requires Disciplined(newest, r)
    ensures Disciplined(newest, r.(outstanding := None, retry := None))
  {
  }

  lemma RestartKeepsDiscipline(w: World, boot: Boot)
    ensures DisciplineOk(Restarted(w, boot))
  {
    hide AllDisciplined, BootOutputs;
    BootKeepsDiscipline(Restarted(w, boot).display.lastVersion, boot);
  }

  /** Every step with a versioned scene, or none, keeps the discipline. */
  lemma StepKeepsDiscipline(w: World, e: Event)
    requires DisciplineOk(w) && VersionedScene(e)
    ensures DisciplineOk(Step(w, e).0)
  {
    hide Accept, TickOutput, FinishCompletion, ApplyOutputEvent, Begin, AllDisciplined, Load;
    match e
    case Commit(request, fault) => AcceptKeepsDiscipline(w, request, fault);
    case Reconcile(epoch, request, fault) => AcceptKeepsDiscipline(w, request, fault);
    case BeginReconciliation(epoch) => BeginKeepsDiscipline(w, epoch);
    case Tick(_, _, _, _, _, _) => TickKeepsDiscipline(w, e);
    case Complete(token, outcome, completes) => CompletionKeepsDiscipline(w, token, outcome, completes);
    case OutputChange(change) => ChangeKeepsDiscipline(w, change);
    case Restart(boot) => RestartKeepsDiscipline(w, boot);
  }

  lemma {:induction false} RunKeepsDiscipline(w: World, events: seq<Event>)
    requires DisciplineOk(w) && forall i :: 0 <= i < |events| ==> VersionedScene(events[i])
    ensures DisciplineOk(Run(w, events))
    decreases |events|
  {
    hide DisciplineOk, Step, VersionedScene;
    if events != [] {
      StepKeepsDiscipline(w, events[0]);
      RunKeepsDiscipline(Step(w, events[0]).0, events[1..]);
    }
  }

  /** In every state reachable with versioned scenes, honest or not: pending damage carries the
      last accepted version; a frame in flight has pending damage that covers the frame's own,
      for a version at least the frame's; and what was never shown is pending as a whole. */
  lemma InFlightDiscipline(kind: BackendKind, boot: Boot, events: seq<Event>, k: string)
    requires forall i :: 0 <= i < |events| ==> VersionedScene(events[i])
    requires k in Run(Initial(kind, boot), events).display.outputs
    ensures var d := Run(Initial(kind, boot), events).display;
      var r := d.outputs[k];
      && (r.pendingDamage != [] ==> r.pendingVersion == d.lastVersion)
      && (r.outstanding.Some? ==>
            && r.pendingDamage != [] && r.outstanding.value.frame.version.AtMost(r.pendingVersion)
            && forall x, y :: Covers(r.outstanding.value.frame.damage, x, y) ==> Covers(r.pendingDamage, x, y))
      && (r.pendingDamage != [] && !r.Initialised() ==> CoversAll(r.pendingDamage, r.output))
      && (r.retry.Some? ==> !r.disabled && r.pendingDamage != [])
  {
    hide Run, Load;
    BootKeepsDiscipline(UNVERSIONED, boot);
    InitialDisciplined(kind, boot);
    RunKeepsDiscipline(Initial(kind, boot), events);
    DisciplinedAt(Run(Initial(kind, boot), events), k);
  }

  lemma InitialDisciplined(kind: BackendKind, boot: Boot)
    ensures DisciplineOk(Initial(kind, boot))
  {
    hide AllDisciplined, BootOutputs;
    BootKeepsDiscipline(UNVERSIONED, boot);
  }
}
