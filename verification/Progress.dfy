/** The pipeline does get there: from any reachable state, an eligible tick on a working
    backend puts the full repaint of the newest scene on the screen. */
module Progress {
  import opened Machine
  import opened SceneTypes
  import opened Geometry
  import opened Composition
  import opened Renderer
  import opened Damage
  import opened Admission
  import opened Pipeline
  import opened Ledger
  import opened Refinement
  import opened Acknowledgement
  import opened Flight
  import opened Residency

  /** Nothing is pending, and every pixel of the output is the newest scene's. */
  ghost predicate ShowsNewest(c: Content, w: World, k: string)
  {
    && k in w.display.outputs && w.display.lastScene.Some?
    && var r := w.display.outputs[k];
       r.pendingDamage == [] && r.outstanding.None? && r.Initialised()
       && ShowsOutside(r.framebuffer, r.output, Layers(c, w.display.lastScene.value), [])
  }

  lemma PresentedRuntime(c: Content, ledger: map<Version, Scene>, last: Scene, r: Runtime)
    requires !r.disabled && RuntimeOk(c, ledger, Some(last), last.version, r)
    requires r.outstanding.Some? && r.outstanding.value.frame.version == last.version
    requires last.version in ledger && ledger[last.version] == last
    ensures var p := PresentRuntime(r, r.outstanding.value);
      p.pendingDamage == [] && p.outstanding.None? && p.Initialised() && p.output == r.output
      && ShowsOutside(p.framebuffer, p.output, Layers(c, last), [])
  {
    hide Layers, CoversAll, ScenesAgree;
  }

  /** Presenting a frame of the newest scene leaves nothing to repaint. */
  lemma PresentedNewestIsFull(c: Content, w: World, t: Token)
    requires WorldOk(c, w) && w.display.lastScene.Some? && Preflight(w.display, t).None?
    requires w.display.outputs[t.outputId].outstanding.value.frame.version == w.display.lastVersion
    ensures ShowsNewest(c, FinishCompletion(w, t, Presented, true).0, t.outputId)
  {
    hide RuntimeOk, PresentRuntime, FinishCompletion, ShowsOutside, LedgerIncreases, SceneOk;
    CompletionOutputs(w, t, Presented, true);
    CompletionKeepsRecord(w, t, Presented, true);
    FinishedAsAsked(w, t);
    WorldOkParts(c, w, t.outputId);
    InFlightIsEnabled(c, w.ledger, w.display.lastScene, w.display.lastVersion, w.display.outputs[t.outputId]);
    PresentedRuntime(c, w.ledger, w.display.lastScene.value, w.display.outputs[t.outputId]);
  }

  lemma FinishedAsAsked(w: World, t: Token)
    requires Preflight(w.display, t).None?
    ensures FinishCompletion(w, t, Presented, true).1 == Presented
    ensures w.display.outputs[t.outputId].outstanding.Some?
  {
    hide CompletePresentation;
  }

  lemma InFlightIsEnabled(c: Content, ledger: map<Version, Scene>, last: Option<Scene>, newest: Version, r: Runtime)
    requires RuntimeOk(c, ledger, last, newest, r) && r.outstanding.Some?
    ensures !r.disabled
  {
  }

  /** The payloads the pending damage of an output needs are there and decode. */
  ghost predicate Composable(d: Display, r: Runtime)
  {
    d.lastScene.Some? &&
    var layers := StoreLayers(d.store, Canonicalize(d.lastScene.value.surfaces));
    var damage := NormalizeDamage(r.pendingDamage, r.output.Bounds());
    ValidatedForDamage(layers, damage) && Decodable(layers, damage)
  }

  lemma SubmittedToken(b: Backend, d: Display, s: Scene, r: Runtime)
    requires b.nextSequence >= 1 && b.instanceId >= 1 && r.nextFrameId >= 1 && r.output.outputId != ""
    ensures TokenFor(b, ComposedFrame(d, s, r)).Valid() && TokenFor(b, ComposedFrame(d, s, r)).outputId == r.output.outputId
    ensures ComposedFrame(d, s, r).version == s.version
  {
  }

  lemma InFlightPreflight(w: World, k: string, f: Frame, r: Runtime)
    requires k in w.display.outputs && r.output.outputId == k && f.output == r.output && TokenFor(w.backend, f).Valid()
    requires r.backendInstance == 0 || r.backendInstance == w.backend.instanceId
    ensures Preflight(WithRuntime(w.(backend := Submit(w.backend, f)), k, InFlight(r, f, TokenFor(w.backend, f))).display, TokenFor(w.backend, f)).None?
  {
  }

  /** `handle_multi_output_commit` on a working immediate backend. */
  lemma CommitReachesScreen(c: Content, w: World, k: string)
    requires WorldOk(c, w) && InFlightOk(w) && w.backend.kind != MockDeferred
    requires k in w.display.outputs && Composable(w.display, w.display.outputs[k])
    requires var r := w.display.outputs[k];
      !r.disabled && r.outstanding.None? && r.pendingDamage != [] && (r.backendInstance == 0 || r.backendInstance == w.backend.instanceId)
    ensures var (w', reply) := CommitOutput(w, k, w.display.lastScene.value, true, true);
      reply == Advanced(true) && ShowsNewest(c, w', k)
  {
    hide WorldOk, InFlightOk, ComposedFrame, ValidatedForDamage, Decodable, FinishCompletion, ShowsNewest, Preflight, RuntimeOk;
    var s, r := w.display.lastScene.value, w.display.outputs[k];
    WorldOkParts(c, w, k);
    FlightParts(w, k);
    var frame, token := ComposedFrame(w.display, s, r), TokenFor(w.backend, ComposedFrame(w.display, s, r));
    ComposedDamage(w.display, s, r);
    SubmittedToken(w.backend, w.display, s, r);
    SubmissionKeepsRuntime(c, w, r, token);
    var submitted := w.(backend := Submit(w.backend, frame));
    var inFlight := WithRuntime(submitted, k, InFlight(r, frame, token));
    BackendIsIrrelevant(c, w, submitted.backend);
    WithRuntimeIsOk(c, submitted, k, InFlight(r, frame, token));
    InFlightPreflight(w, k, frame, r);
    NewestVersion(w);
    PresentedNewestIsFull(c, inFlight, token);
  }

  lemma ComposedDamage(d: Display, s: Scene, r: Runtime)
    ensures ComposedFrame(d, s, r).damage == NormalizeDamage(r.pendingDamage, r.output.Bounds())
    ensures ComposedFrame(d, s, r).output == r.output
  {
  }

  lemma NewestVersion(w: World)
    requires LedgerOk(w) && w.display.lastScene.Some?
    ensures w.display.lastScene.value.version == w.display.lastVersion
  {
  }

  lemma FlightParts(w: World, k: string)
    requires InFlightOk(w) && k in w.display.outputs
    ensures w.backend.nextSequence >= 1 && w.backend.instanceId >= 1 && w.display.outputs[k].nextFrameId >= 1
    ensures w.display.outputs[k].output.outputId == k && k != ""
  {
  }

  /** The tick is due on an enabled output with something pending that can be composed, and
      nothing in flight. */
  ghost predicate Eligible(w: World, e: Event)
  {
    && e.Tick? && e.outputId in w.display.outputs
    && var r := w.display.outputs[e.outputId];
       && !r.disabled && r.outstanding.None? && r.pendingDamage != [] && (r.backendInstance == 0 || r.backendInstance == w.backend.instanceId)
       && Composable(w.display, r)
       && r.output.generation == e.outputGeneration == r.scheduler.outputGeneration
       && r.scheduler.lastTick <= e.now && r.scheduler.lastTickSequence < e.tickSequence && r.scheduler.nextEligible <= e.now
  }

  /** An eligible tick reaches the screen: whatever was pending, the output then shows the
      full repaint of the newest scene. */
  lemma TickReachesScreen(c: Content, w: World, e: Event)
    requires WorldOk(c, w) && InFlightOk(w) && w.backend.kind != MockDeferred
    requires Eligible(w, e) && e.submits && e.completes
    ensures Step(w, e).1 == Advanced(true) && ShowsNewest(c, Step(w, e).0, e.outputId)
  {
    hide WorldOk, InFlightOk, CommitOutput, ShowsNewest, RuntimeOk, ValidatedForDamage, Decodable, StoreLayers, NormalizeDamage;
    var r := w.display.outputs[e.outputId];
    WorldOkParts(c, w, e.outputId);
    AdvanceKeepsRuntime(c, w.ledger, w.display.lastScene, w.display.lastVersion, r, e.outputGeneration, e.now, e.tickSequence);
    var a := AdvancePresentation(r, e.outputGeneration, e.now, e.tickSequence);
    var ticked := WithRuntime(w, e.outputId, a.runtime);
    WithRuntimeIsOk(c, w, e.outputId, a.runtime);
    AdvanceFlight(w, e.outputId, r, a.runtime);
    CommitReachesScreen(c, ticked, e.outputId);
  }

  lemma TokensAreDistinct(w: World, k: string)
    requires InFlightOk(w) && k in w.display.outputs && w.display.outputs[k].outstanding.Some?
    ensures CarriesFrame(w, w.display.outputs[k].outstanding.value.token, w.display.outputs[k].outstanding.value.frame)
  {
    var t := w.display.outputs[k].outstanding.value.token;
    forall j | j in w.display.outputs && w.display.outputs[j].outstanding.Some? && w.display.outputs[j].outstanding.value.token == t
      ensures j == k
    {
      KnownRuntime(w, j);
      KnownRuntime(w, k);
    }
    KnownRuntime(w, k);
  }

  lemma HasScene(c: Content, w: World, k: string)
    requires WorldOk(c, w) && k in w.display.outputs && w.display.outputs[k].outstanding.Some?
    ensures w.display.lastScene.Some?
  {
    hide LedgerOk, SceneOk;
  }

  lemma AdvanceFlight(w: World, k: string, r: Runtime, now: Runtime)
    requires InFlightOk(w) && k in w.display.outputs && w.display.outputs[k] == r
    requires now == r.(scheduler := now.scheduler, retry := now.retry)
    ensures InFlightOk(WithRuntime(w, k, now))
  {
    KnownRuntime(w, k);
    SameFlight(w, k, now);
  }

  // -------------------------------------------------------------- deferred completion

  /** What is in flight after a step was in flight before, or is new. */
  ghost predicate Carried(n: U64, before: map<string, Runtime>, after: map<string, Runtime>)
  {
    forall k :: k in after && after[k].outstanding.Some? ==>
      (k in before && after[k].outstanding == before[k].outstanding) || after[k].outstanding.value.token.sequence >= n
  }

  ghost predicate StepCarries(w: World, after: World)
  {
    Carried(w.backend.nextSequence, w.display.outputs, after.display.outputs)
  }

  lemma DamageCarries(n: U64, outputs: map<string, Runtime>, damage: map<string, seq<Rect>>, v: Version, commitId: U64)
    ensures Carried(n, outputs, DamageOutputs(outputs, damage, v, commitId))
  {
  }

  lemma AcceptCarries(w: World, request: SceneRequest, fault: DiskFault)
    ensures Accept(w, request, fault).1 != Died ==> StepCarries(w, Accept(w, request, fault).0)
  {
    hide Judge, Rebind, DamageOutputs, Carried, Load;
    var r := WithCanonicalSurfaces(request);
    var verdict := Judge(w.display, r);
    NothingMoves(w);
    if verdict.Proceed? {
      var commitId := if verdict.replayed.Some? then verdict.replayed.value else w.display.nextCommitId;
      DamageCarries(w.backend.nextSequence, w.display.outputs, verdict.damage, r.version, commitId);
    }
  }

  lemma CompletionCarries(w: World, t: Token, outcome: Completion, completes: bool)
    ensures StepCarries(w, FinishCompletion(w, t, outcome, completes).0)
  {
    hide FinishCompletion;
    if Preflight(w.display, t).None? {
      CompletionOutputs(w, t, outcome, completes);
    } else {
      RefusedCompletion(w, t, outcome, completes);
    }
  }

  lemma SubmissionCarries(w: World, id: string, f: Frame)
    requires id in w.display.outputs
    ensures var r := w.display.outputs[id];
      StepCarries(w, WithRuntime(w.(backend := Submit(w.backend, f)), id, InFlight(r, f, TokenFor(w.backend, f))))
  {
  }

  lemma CarriesTwice(w: World, middle: World, after: World)
    requires StepCarries(w, middle) && middle.backend.nextSequence >= w.backend.nextSequence && StepCarries(middle, after)
    ensures StepCarries(w, after)
  {
  }

  lemma UpdateCarries(w: World, id: string, r: Runtime)
    requires id in w.display.outputs && r.outstanding == w.display.outputs[id].outstanding
    ensures StepCarries(w, WithRuntime(w, id, r)) && StepCarries(w, w)
  {
  }

  lemma CommitCarries(w: World, id: string, s: Scene, submits: bool, completes: bool)
    requires id in w.display.outputs
    ensures StepCarries(w, CommitOutput(w, id, s, submits, completes).0)
  {
    hide ComposedFrame, ValidatedForDamage, Decodable, FinishCompletion, Carried;
    var r := w.display.outputs[id];
    var frame := ComposedFrame(w.display, s, r);
    UpdateCarries(w, id, r.(scheduler := r.scheduler.(state := PresentationBlocked)));
    UpdateCarries(w, id, r.(scheduler := r.scheduler.(state := Idle)));
    UpdateCarries(w, id, SubmissionFailed(r, frame));
    SubmissionCarries(w, id, frame);
    var token := TokenFor(w.backend, frame);
    var inFlight := WithRuntime(w.(backend := Submit(w.backend, frame)), id, InFlight(r, frame, token));
    CompletionCarries(inFlight, token, Presented, completes);
    CarriesTwice(w, inFlight, FinishCompletion(inFlight, token, Presented, completes).0);
  }

  lemma AdvanceKeepsOutstanding(r: Runtime, generation: U64, now: U64, tickSequence: U64)
    ensures var a := AdvancePresentation(r, generation, now, tickSequence); !a.StaleOutput? ==> a.runtime.outstanding == r.outstanding
  {
  }

  lemma TickCarries(w: World, e: Event)
    requires e.Tick?
    ensures StepCarries(w, TickOutput(w, e).0)
  {
    hide AdvancePresentation, CommitOutput, Carried;
    NothingMoves(w);
    if e.outputId in w.display.outputs {
      var r := w.display.outputs[e.outputId];
      AdvanceKeepsOutstanding(r, e.outputGeneration, e.now, e.tickSequence);
      var a := AdvancePresentation(r, e.outputGeneration, e.now, e.tickSequence);
      if !a.StaleOutput? {
        var ticked := WithRuntime(w, e.outputId, a.runtime);
        UpdateCarries(w, e.outputId, a.runtime);
        if w.display.lastScene.Some? {
          CommitCarries(ticked, e.outputId, w.display.lastScene.value, e.submits, e.completes);
          CarriesTwice(w, ticked, CommitOutput(ticked, e.outputId, w.display.lastScene.value, e.submits, e.completes).0);
        }
      }
    }
  }

  lemma NothingMoves(w: World)
    ensures StepCarries(w, w)
  {
  }

  lemma ConnectCarries(w: World, e: OutputEvent)
    requires e.Up?
    ensures Connect(w, e).1 != Died ==> StepCarries(w, Connect(w, e).0)
  {
    hide CheckConnect, Rebind, ReconfigureOutput, RetireOutstanding;
  }

  lemma RemovalCarries(n: U64, outputs: map<string, Runtime>, ids: set<string>)
    ensures Carried(n, outputs, outputs - ids)
  {
  }

  lemma ChangeCarries(w: World, e: OutputEvent)
    ensures ApplyOutputEvent(w, e).1 != Died ==> StepCarries(w, ApplyOutputEvent(w, e).0)
  {
    hide Connect, RetireOutstanding, RemoveOutput, TokensOf, OfInstance, Carried;
    var adopted := AdoptEpoch(w, e.instance);
    NothingMoves(w);
    match e {
      case Up(_, _, _, _, _, _) => ConnectCarries(adopted, e);
      case Disabled(_, id, _, _) =>
        if id in w.display.outputs { DisableCarries(w.backend.nextSequence, w.display.outputs, id); }
      case Disconnected(_, id, _, _) => RemovalCarries(w.backend.nextSequence, w.display.outputs, {id});
      case BackendReset(instance, _) => RemovalCarries(w.backend.nextSequence, w.display.outputs, OfInstance(adopted.display, instance));
    }
  }

  lemma DisableCarries(n: U64, outputs: map<string, Runtime>, id: string)
    requires id in outputs
    ensures Carried(n, outputs, outputs[id := DisabledRuntime(outputs[id])])
  {
  }

  /** No step but the end of the process replaces what is in flight by something old. */
  lemma EveryStepCarries(w: World, e: Event)
    requires !e.Restart? && Step(w, e).1 != Died
    ensures StepCarries(w, Step(w, e).0)
  {
    hide Accept, TickOutput, FinishCompletion, ApplyOutputEvent;
    match e
    case Commit(request, fault) => AcceptCarries(w, request, fault);
    case Reconcile(epoch, request, fault) => AcceptCarries(w, request, fault);
    case BeginReconciliation(epoch) =>
    case Tick(_, _, _, _, _, _) => TickCarries(w, e);
    case Complete(token, outcome, completes) => CompletionCarries(w, token, outcome, completes);
    case OutputChange(change) => ChangeCarries(w, change);
    case Restart(boot) =>
  }

  /** Wherever the token is in flight, it is with this frame. */
  ghost predicate CarriesFrame(w: World, t: Token, f: Frame)
  {
    && t.sequence < w.backend.nextSequence
    && forall k :: k in w.display.outputs && w.display.outputs[k].outstanding.Some? && w.display.outputs[k].outstanding.value.token == t
         ==> w.display.outputs[k].outstanding.value.frame == f
  }

  lemma {:induction false} RunCarriesFrame(w: World, events: seq<Event>, t: Token, f: Frame)
    requires InFlightOk(w) && CountedRun(w, events) && OneLifetime(w, events) && CarriesFrame(w, t, f)
    ensures CarriesFrame(Run(w, events), t, f)
    decreases |events|
  {
    hide InFlightOk, Step, CountedStep;
    if events != [] {
      StepKeepsFlight(w, events[0]);
      EveryStepCarries(w, events[0]);
      RunCarriesFrame(Step(w, events[0]).0, events[1..], t, f);
    }
  }

  /** `handle_multi_output_commit` on a deferred backend. */
  lemma DeferredCommitSubmits(w: World, k: string)
    requires LedgerOk(w) && InFlightOk(w) && w.backend.kind == MockDeferred
    requires k in w.display.outputs && Composable(w.display, w.display.outputs[k])
    requires var r := w.display.outputs[k]; !r.disabled && r.outstanding.None? && r.pendingDamage != []
    ensures var (w', reply) := CommitOutput(w, k, w.display.lastScene.value, true, true);
      reply == Advanced(true) && SubmittedNewest(w, w', k)
  {
    hide LedgerOk, InFlightOk, ComposedFrame, ValidatedForDamage, Decodable, FinishCompletion, StoreLayers;
    var s, r := w.display.lastScene.value, w.display.outputs[k];
    FlightParts(w, k);
    NewestVersion(w);
    ComposedDamage(w.display, s, r);
    SubmittedToken(w.backend, w.display, s, r);
  }

  /** A frame of the newest scene is in flight, under the backend's next token. */
  ghost predicate SubmittedNewest(w: World, w': World, k: string)
  {
    && k in w'.display.outputs && w'.display.outputs[k].outstanding.Some?
    && w'.display.outputs[k].outstanding.value.frame.version == w.display.lastVersion
    && w'.display.outputs[k].outstanding.value.token.outputId == k
    && w'.display.outputs[k].outstanding.value.token.sequence == w.backend.nextSequence
    && w'.backend.nextSequence == Inc(w.backend.nextSequence) && w'.display.lastVersion == w.display.lastVersion
  }

  /** What an eligible tick of a deferred backend leaves in flight. */
  lemma DeferredTickSubmits(c: Content, w: World, e: Event)
    requires WorldOk(c, w) && InFlightOk(w) && w.backend.kind == MockDeferred && Eligible(w, e) && e.submits
    ensures Step(w, e).1 == Advanced(true) && SubmittedNewest(w, Step(w, e).0, e.outputId)
  {
    hide WorldOk, InFlightOk, CommitOutput, RuntimeOk, ValidatedForDamage, Decodable, StoreLayers, NormalizeDamage;
    var r := w.display.outputs[e.outputId];
    WorldOkParts(c, w, e.outputId);
    var a := AdvancePresentation(r, e.outputGeneration, e.now, e.tickSequence);
    var ticked := WithRuntime(w, e.outputId, a.runtime);
    AdvanceFlight(w, e.outputId, r, a.runtime);
    SameRecordLedger(w, ticked);
    SubmitsWhateverCompletes(ticked, e.outputId, w.display.lastScene.value, e.completes);
    DeferredCommitSubmits(ticked, e.outputId);
  }

  lemma SubmitsWhateverCompletes(w: World, k: string, s: Scene, completes: bool)
    requires k in w.display.outputs && w.backend.kind == MockDeferred
    ensures CommitOutput(w, k, s, true, completes) == CommitOutput(w, k, s, true, true)
  {
    hide ComposedFrame, ValidatedForDamage, Decodable, FinishCompletion;
  }

  lemma SameRecordLedger(a: World, b: World)
    requires LedgerOk(a) && SameRecord(a, b)
    ensures LedgerOk(b)
  {
    hide LedgerIncreases;
  }

  lemma TickIsFaithful(c: Content, w: World, e: Event)
    ensures e.Tick? ==> FaithfulStep(c, w, e)
    ensures Eligible(w, e) ==> e.Tick?
  {
    hide FaithfulScene, Composable;
  }

  lemma CompleteStep(w: World, t: Token)
    ensures var (after, result) := FinishCompletion(w, t, Presented, true);
      Step(w, Complete(t, Presented, true)) == (after, Completed(result))
  {
    hide FinishCompletion;
  }

  /** An eligible tick of a deferred backend, any run of its process in which no newer scene
      is accepted, and the frame's completion: the screen then shows the full repaint of the
      newest scene, unless the frame had been given up on the way, and then its completion
      is refused. */
  lemma DeferredTickReachesScreen(c: Content, w: World, tick: Event, events: seq<Event>)
    requires WorldOk(c, w) && InFlightOk(w) && w.backend.kind == MockDeferred && Eligible(w, tick) && tick.submits
    requires CountedStep(w, tick)
    requires var s := Step(w, tick).0; FaithfulRun(c, s, events) && CountedRun(s, events) && OneLifetime(s, events)
    requires Run(Step(w, tick).0, events).display.lastVersion == w.display.lastVersion
    ensures tick.outputId in Step(w, tick).0.display.outputs && Step(w, tick).0.display.outputs[tick.outputId].outstanding.Some?
    ensures var t := Step(w, tick).0.display.outputs[tick.outputId].outstanding.value.token;
      var u := Run(Step(w, tick).0, events);
      var (after, reply) := Step(u, Complete(t, Presented, true));
      (reply == Completed(Presented) && ShowsNewest(c, after, tick.outputId))
      || (Preflight(u.display, t).Some? && after == u && reply == Completed(Preflight(u.display, t).value))
  {
    hide WorldOk, InFlightOk, FaithfulStep, FaithfulRun, CountedStep, CountedRun, OneLifetime, Eligible, ShowsNewest, Step, Run, FinishCompletion, Preflight;
    TickIsFaithful(c, w, tick);
    DeferredTickSubmits(c, w, tick);
    var s := Step(w, tick).0;
    var o := s.display.outputs[tick.outputId].outstanding.value;
    StepKeepsWorld(c, w, tick);
    StepKeepsFlight(w, tick);
    TokensAreDistinct(s, tick.outputId);
    RunKeepsWorld(c, s, events);
    RunCarriesFrame(s, events, o.token, o.frame);
    var u := Run(s, events);
    CompleteStep(u, o.token);
    if Preflight(u.display, o.token).None? {
      PreflightMeans(u.display, o.token);
      HasScene(c, u, o.token.outputId);
      PresentedNewestIsFull(c, u, o.token);
      FinishedAsAsked(u, o.token);
    } else {
      RefusedCompletion(u, o.token, Presented, true);
    }
  }

  // ---------------------------------------------------------------------- the start

  /** A first start satisfies every invariant. */
  lemma InitialKeepsEverything(c: Content, kind: BackendKind, boot: Boot)
    requires boot.instanceId >= 1
    ensures var w := Initial(kind, boot); WorldOk(c, w) && LedgerOk(w) && ObligationsOk(w) && InFlightOk(w) && ResidencyOk(w)
  {
    hide InFlightOk;
    InitialIsOk(c, kind, boot);
    NothingResident(None);
    var nothing := World(Load(None, boot), Backend(kind, 1, map[], 1), None, map[]);
    RestartKeepsFlight(nothing, boot);
    assert Restarted(nothing, boot) == Initial(kind, boot);
  }
}
