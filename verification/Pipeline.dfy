/** displayd's state and every transition of it, as functions: scene acceptance, scheduler
    ticks, frame completion, output lifecycle events, reconciliation and restart. */
module Pipeline {
  import opened Machine
  import opened SceneTypes
  import opened Geometry
  import opened Blend
  import opened Composition
  import opened Renderer
  import opened Damage
  import opened Admission
  import opened PixelStore

  const MAX_OUTPUTS := 64
  const MAX_TOTAL_FRAMEBUFFER_BYTES := 1024 * 1024 * 1024
  const MAX_PRESENTATION_OBLIGATIONS := 4096
  const MAX_PRESENTATION_FEEDBACKS := 4096

  // ------------------------------------------------------------------------- state

  /** An output in the registry: `bounds()` was computed for it, so its extents fit. */
  type LiveOutput = o: OutputState | o.Valid() && o.ExtentFits()
    witness OutputState("a", 1, 1, 4, 0, 0, 0)

  datatype Token = Token(
    backendInstance: U64, sequence: U64, outputId: string,
    outputGeneration: U64, sceneGeneration: U64, frameId: U64)
  {
    /** `PresentationToken::validate`. */
    predicate Valid()
    {
      backendInstance != 0 && sequence != 0 && outputId != "" && frameId != 0
    }
  }

  /** `FramePublication`. */
  datatype Frame = Frame(
    frameId: U64, commitId: U64, output: LiveOutput, version: Version,
    pixels: seq<Word>, damage: seq<Rect>)

  datatype Outstanding = Outstanding(token: Token, frame: Frame)

  datatype Retry = Retry(version: Version, outputGeneration: U64, frameId: U64, commitId: U64)

  datatype SchedulerState = Idle | DamagePending | SubmissionEligible | SubmissionInFlight | RetryPending | PresentationBlocked

  datatype Scheduler = Scheduler(
    period: U64, state: SchedulerState, outputGeneration: U64, sceneGeneration: U64,
    nextEligible: U64, lastTick: U64, lastTickSequence: U64)

  /** `OutputRuntime`. */
  datatype Runtime = Runtime(
    output: LiveOutput,
    backendInstance: U64,
    disabled: bool,
    framebuffer: seq<Word>,
    nextFrameId: U64,
    publishedFrameId: U64,
    lastPublishedSceneGeneration: U64,
    pendingDamage: seq<Rect>,
    pendingVersion: Version,
    pendingCommitId: U64,
    retry: Option<Retry>,
    submittedFrameId: U64,
    outstanding: Option<Outstanding>,
    scheduler: Scheduler)
  {
    /** `framebuffer_is_initialized`. */
    predicate Initialised()
    {
      |framebuffer| == output.Words()
    }
  }

  const DEFAULT_PERIOD: U64 := 16_666_667

  function NewRuntime(output: LiveOutput): Runtime
  {
    Runtime(output, 0, false, [], 1, 0, 0, [], UNVERSIONED, 0, None, 0, None,
            Scheduler(DEFAULT_PERIOD, Idle, output.generation, 0, 0, 0, 0))
  }

  datatype Obligation = Obligation(version: Version, required: set<string>, presented: set<string>)

  datatype Feedback = Feedback(refreshNs: U32, sequence: U64)

  datatype Reconciliation = Recovering | ReconciledAwaitingPresentation | Ready | Failed

  /** `DisplayState`. */
  datatype Display = Display(
    displayEpoch: U64,
    reconciliation: Reconciliation,
    lastScene: Option<Scene>,
    lastVersion: Version,
    nextCommitId: U64,
    feedbacks: map<U64, Feedback>,
    obligations: map<U64, Obligation>,
    outputs: map<string, Runtime>,
    store: Store,
    backendSequences: map<U64, U64>)

  /** Mock backends complete at once or later; the headless one completes at once and keeps
      its pending frames on file until then. */
  datatype BackendKind = MockDeferred | MockImmediate | Headless

  datatype Backend = Backend(kind: BackendKind, instanceId: U64, pending: map<Token, Frame>, nextSequence: U64)

  /** displayd, its backend, the persisted scene, and as an auxiliary record every scene
      that was ever persisted. */
  datatype World = World(display: Display, backend: Backend, disk: Option<Scene>, ledger: map<Version, Scene>)

  // ------------------------------------------------------------------ events, replies

  datatype Boot = Boot(displayEpoch: U64, instanceId: U64, clearOutputs: bool)

  datatype DiskFault = Writes | WriteFails | DiesBeforeRename(boot: Boot) | DiesAfterRename(boot: Boot)

  datatype Completion = Presented | PublicationFailed | Superseded | StaleGeneration | UnknownToken | BackendUnavailable

  datatype OutputEvent =
    | Up(instance: U64, outputId: string, sequence: U64, geometry: OutputGeometry, period: U64, boot: Boot)
    | Disabled(instance: U64, outputId: string, sequence: U64, generation: U64)
    | Disconnected(instance: U64, outputId: string, sequence: U64, generation: U64)
    | BackendReset(instance: U64, sequence: U64)

  datatype Event =
    | Commit(request: SceneRequest, fault: DiskFault)
    | Reconcile(epoch: U64, request: SceneRequest, fault: DiskFault)
    | BeginReconciliation(epoch: U64)
    | Tick(outputId: string, outputGeneration: U64, now: U64, tickSequence: U64, submits: bool, completes: bool)
    | Complete(token: Token, outcome: Completion, completes: bool)
    | OutputChange(change: OutputEvent)
    | Restart(boot: Boot)

  datatype Reply =
    | Committed(commitId: U64)
    | Reconciled(epoch: U64, generation: U64, payloadCount: nat)
    | Rejected
    | Errored
    | Advanced(eligible: bool)
    | Completed(outcome: Completion)
    | Applied
    | Began(epoch: U64)
    | Died

  // ------------------------------------------------------------------------ restart

  function DefaultOutput(): LiveOutput
  {
    OutputState("eDP-1", 1920, 1080, 1920 * 4, 0, 0, 0)
  }

  /** `default_output_registry`, emptied for the backends that announce their outputs. */
  function BootOutputs(boot: Boot): map<string, Runtime>
  {
    if boot.clearOutputs then map[] else map["eDP-1" := NewRuntime(DefaultOutput())]
  }

  /** `DisplayState::load` from what is on disk. */
  function Load(disk: Option<Scene>, boot: Boot): Display
  {
    Display(
      boot.displayEpoch,
      ReconciledAwaitingPresentation,
      disk,
      if disk.Some? then disk.value.version else UNVERSIONED,
      if disk.Some? then Inc(disk.value.commitId) else 1,
      map[], map[],
      BootOutputs(boot),
      map[], map[])
  }

  function Restarted(w: World, boot: Boot): World
  {
    World(Load(w.disk, boot), Backend(w.backend.kind, boot.instanceId, map[], 1), w.disk, w.ledger)
  }

  // --------------------------------------------------------------- scene acceptance

  /** `scene_version_is_stale`. */
  predicate VersionIsStale(last: Version, incoming: Version)
  {
    incoming != UNVERSIONED && incoming.Less(last)
  }

  /** `scene_version_is_equal`. */
  predicate VersionIsEqual(last: Version, incoming: Version)
  {
    incoming.epoch != 0 && incoming == last
  }

  predicate SameSceneIdentity(s: Scene, r: SceneRequest)
  {
    s.target == r.target && s.focus == r.focus && s.selection == r.selection
    && s.surfaces == r.surfaces && s.version == r.version
  }

  predicate PayloadsCompatible(store: Store, payloads: seq<Payload>)
  {
    forall i :: 0 <= i < |payloads| && payloads[i].handle in store ==> store[payloads[i].handle] == payloads[i]
  }

  predicate HydrationNeeded(store: Store, payloads: seq<Payload>)
  {
    exists i :: 0 <= i < |payloads| && payloads[i].handle !in store
  }

  function PreviousSurfaces(d: Display): Option<seq<Surface>>
  {
    if d.lastScene.Some? then Some(d.lastScene.value.surfaces) else None
  }

  /** The damage a new scene brings to one output, merged with what it has not shown yet. */
  function DamageFor(previous: Option<seq<Surface>>, surfaces: seq<Surface>, r: Runtime): seq<Rect>
  {
    var bounds := r.output.Bounds();
    var arriving := if surfaces == [] && previous.None? then [] else EffectiveDamage(previous, surfaces, r.Initialised(), bounds);
    NormalizeDamage(arriving + r.pendingDamage, bounds)
  }

  function DamageByOutput(d: Display, surfaces: seq<Surface>): map<string, seq<Rect>>
  {
    map k | k in d.outputs && !d.outputs[k].disabled :: DamageFor(PreviousSurfaces(d), surfaces, d.outputs[k])
  }

  /** `required_outputs_for_scene`. */
  function RequiredOutputs(outputs: map<string, Runtime>, target: string, damage: map<string, seq<Rect>>, visualTransition: bool): set<string>
  {
    var active := target in outputs && !outputs[target].disabled;
    var damaged := target in damage && damage[target] != [];
    if damaged || (!active && visualTransition) then {target} else {}
  }

  predicate AnyVisible(surfaces: seq<Surface>)
  {
    exists i :: 0 <= i < |surfaces| && surfaces[i].placement.visible
  }

  /** Every payload the damage of every output needs is there and fits. */
  ghost predicate PayloadsSuffice(store: Store, surfaces: seq<Surface>, damage: map<string, seq<Rect>>)
  {
    forall k :: k in damage ==> ValidatedForDamage(StoreLayers(store, surfaces), damage[k])
  }

  function ActiveOutputs(outputs: map<string, Runtime>): set<string>
  {
    set k | k in outputs && !outputs[k].disabled
  }

  /** Does a scene of version `v` stand in for the obligation's own? */
  predicate VersionCovers(v: Version, o: Obligation)
  {
    if v.generation == 0 then o.version.generation == 0 else o.version.AtMost(v)
  }

  function RebindOne(o: Obligation, active: set<string>, v: Version, required: set<string>): Obligation
  {
    if VersionCovers(v, o) && o.required !! active then Obligation(o.version, required, {}) else o
  }

  /** `rebind_unavailable_obligations`. */
  function Rebind(obligations: map<U64, Obligation>, active: set<string>, v: Version, required: set<string>): map<U64, Obligation>
  {
    if required == {} then obligations
    else map c | c in obligations :: RebindOne(obligations[c], active, v, required)
  }

  /** The decision of `handle_scene_acceptance` before it changes anything. */
  datatype Verdict =
    | Refuse
    | AlreadyAccepted(commitId: U64)
    | Proceed(replayed: Option<U64>, store: Store, damage: map<string, seq<Rect>>, required: set<string>)

  predicate AllowMissing(reconciliation: Reconciliation, payloads: seq<Payload>)
  {
    reconciliation == Recovering && payloads == []
  }

  ghost function Plan(d: Display, r: SceneRequest, replayed: Option<U64>): Verdict
  {
    var allowMissing := AllowMissing(d.reconciliation, r.payloads);
    var prepared := Prepare(d.store, r.surfaces, r.payloads, allowMissing);
    if prepared.None? then Refuse
    else
      var damage := DamageByOutput(d, r.surfaces);
      if !allowMissing && !PayloadsSuffice(prepared.value, r.surfaces, damage) then Refuse
      else Proceed(replayed, prepared.value, damage, RequiredOutputs(d.outputs, r.target, damage, d.lastScene.Some? || AnyVisible(r.surfaces)))
  }

  ghost function Judge(d: Display, r: SceneRequest): Verdict
  {
    if !DisplayAdmits(r) then Refuse
    else if VersionIsStale(d.lastVersion, r.version) then Refuse
    else if VersionIsEqual(d.lastVersion, r.version) then
      if d.lastScene.None? then Refuse
      else if SameSceneIdentity(d.lastScene.value, r) && PayloadsCompatible(d.store, r.payloads) then
        if d.reconciliation == Recovering || HydrationNeeded(d.store, r.payloads) then
          Plan(d, r, Some(d.lastScene.value.commitId))
        else
          AlreadyAccepted(d.lastScene.value.commitId)
      else Refuse
    else Plan(d, r, None)
  }

  function WithCanonicalSurfaces(r: SceneRequest): SceneRequest
  {
    r.(surfaces := Canonicalize(r.surfaces))
  }

  function SceneOf(r: SceneRequest, commitId: U64): Scene
  {
    Scene(r.target, r.focus, r.selection, r.surfaces, r.version, commitId)
  }

  /** `record_commit`, once the file is in place. */
  function Recorded(d: Display, s: Scene): Display
  {
    d.(nextCommitId := Inc(s.commitId),
       lastVersion := if s.version.generation != 0 then s.version else d.lastVersion,
       lastScene := Some(s))
  }

  function Persisted(w: World, s: Scene): World
  {
    w.(disk := Some(s), ledger := w.ledger[s.version := s])
  }

  function WithDamage(r: Runtime, damage: seq<Rect>, v: Version, commitId: U64): Runtime
  {
    r.(pendingDamage := damage, pendingVersion := v, pendingCommitId := commitId,
       scheduler := r.scheduler.(sceneGeneration := v.generation, state := DamagePending))
  }

  function DamageOutputs(outputs: map<string, Runtime>, damage: map<string, seq<Rect>>, v: Version, commitId: U64): map<string, Runtime>
  {
    map k | k in outputs ::
      if k in damage && damage[k] != [] then WithDamage(outputs[k], damage[k], v, commitId) else outputs[k]
  }

  /** The in-memory effect of an accepted scene. */
  function Adopt(d: Display, v: Version, commitId: U64, store: Store, damage: map<string, seq<Rect>>, required: set<string>): Display
  {
    d.(store := store,
       outputs := DamageOutputs(d.outputs, damage, v, commitId),
       obligations := if required == {} then d.obligations else d.obligations[commitId := Obligation(v, required, {})],
       feedbacks := d.feedbacks - {commitId})
  }

  /** The obligations after `rebind_unavailable_obligations`, which runs before the budget
      test and before persistence, whatever these then say. */
  function Rebound(d: Display, r: SceneRequest, required: set<string>): Display
  {
    d.(obligations := Rebind(d.obligations, ActiveOutputs(d.outputs), r.version, required))
  }

  /** A scene that passed every test: bind obligations, persist, adopt. */
  function CarryOut(w: World, r: SceneRequest, fault: DiskFault, verdict: Verdict): (World, Reply)
    requires verdict.Proceed?
  {
    var d := Rebound(w.display, r, verdict.required);
    if verdict.required != {} && |d.obligations| >= MAX_PRESENTATION_OBLIGATIONS then
      (w.(display := d), Rejected)
    else if verdict.replayed.Some? then
      (w.(display := Adopt(d, r.version, verdict.replayed.value, verdict.store, verdict.damage, verdict.required)),
       Committed(verdict.replayed.value))
    else
      var s := SceneOf(r, d.nextCommitId);
      match fault
      case WriteFails => (w.(display := d), Errored)
      case DiesBeforeRename(boot) => (Restarted(w, boot), Died)
      case DiesAfterRename(boot) => (Restarted(Persisted(w, s), boot), Died)
      case Writes =>
        (Persisted(w, s).(display := Adopt(Recorded(d, s), r.version, s.commitId, verdict.store, verdict.damage, verdict.required)),
         Committed(s.commitId))
  }

  /** `handle_scene_acceptance`. */
  ghost function Accept(w: World, request: SceneRequest, fault: DiskFault): (World, Reply)
  {
    var r := WithCanonicalSurfaces(request);
    match Judge(w.display, r)
    case Refuse => (w, Rejected)
    case AlreadyAccepted(commitId) => (w, Committed(commitId))
    case Proceed(replayed, store, damage, required) => CarryOut(w, r, fault, Judge(w.display, r))
  }

  // -------------------------------------------------------------------- completion

  /** `preflight_presentation_token`; `None` lets the completion through. */
  function Preflight(d: Display, t: Token): Option<Completion>
  {
    if !t.Valid() then Some(UnknownToken)
    else if t.outputId !in d.outputs then Some(UnknownToken)
    else
      var r := d.outputs[t.outputId];
      if r.output.generation != t.outputGeneration then Some(Completion.StaleGeneration)
      else if r.backendInstance != 0 && r.backendInstance != t.backendInstance then Some(Completion.StaleGeneration)
      else if r.outstanding.None? then Some(UnknownToken)
      else if r.outstanding.value.token != t then Some(UnknownToken)
      else None
  }

  predicate ObligationMatches(c: U64, o: Obligation, f: Frame)
  {
    if f.version.generation == 0 then c == f.commitId
    else o.version.epoch == f.version.epoch && o.version.generation <= f.version.generation
  }

  function NoteOne(c: U64, o: Obligation, f: Frame, outputId: string): Obligation
  {
    if ObligationMatches(c, o, f) && outputId in o.required then o.(presented := o.presented + {outputId}) else o
  }

  function Satisfied(obligations: map<U64, Obligation>, f: Frame, outputId: string): set<U64>
  {
    set c | c in obligations && ObligationMatches(c, obligations[c], f)
         && obligations[c].required <= NoteOne(c, obligations[c], f, outputId).presented
  }

  ghost function Smallest(s: set<U64>): (m: U64)
    requires s != {}
    ensures m in s && forall k :: k in s ==> m <= k
  {
    SmallestExists(s);
    var m :| m in s && forall k :: k in s ==> m <= k;
    m
  }

  lemma SmallestExists(s: set<U64>)
    requires s != {}
    ensures exists m :: m in s && forall k :: k in s ==> m <= k
  {
    var m := FindSmallest(s);
  }

  lemma {:induction false} FindSmallest(s: set<U64>) returns (m: U64)
    requires s != {}
    ensures m in s && forall k :: k in s ==> m <= k
  {
    var x :| x in s;
    var rest := s - {x};
    m := x;
    if rest != {} {
      var y := FindSmallest(rest);
      m := if y < x then y else x;
    }
    forall k | k in s
      ensures m <= k
    {
      assert k == x || k in rest;
    }
  }

  /** The eviction loop of `insert_bounded_feedback`. */
  ghost function Evicted(feedbacks: map<U64, Feedback>): (r: map<U64, Feedback>)
    ensures r.Keys <= feedbacks.Keys && |r| < MAX_PRESENTATION_FEEDBACKS
    decreases |feedbacks|
  {
    if |feedbacks| >= MAX_PRESENTATION_FEEDBACKS then
      var oldest := Smallest(feedbacks.Keys);
      assert (feedbacks - {oldest}).Keys == feedbacks.Keys - {oldest};
      Evicted(feedbacks - {oldest})
    else
      feedbacks
  }

  ghost function InsertBounded(feedbacks: map<U64, Feedback>, c: U64, f: Feedback): (r: map<U64, Feedback>)
    ensures r.Keys <= feedbacks.Keys + {c} && |r| <= MAX_PRESENTATION_FEEDBACKS && c in r
  {
    var e := Evicted(feedbacks);
    assert e[c := f].Keys == e.Keys + {c};
    e[c := f]
  }

  /** Feedback for every satisfied commit, oldest first. */
  ghost function InsertAll(feedbacks: map<U64, Feedback>, cs: set<U64>, f: Feedback): (r: map<U64, Feedback>)
    ensures r.Keys <= feedbacks.Keys + cs
    ensures |feedbacks| <= MAX_PRESENTATION_FEEDBACKS ==> |r| <= MAX_PRESENTATION_FEEDBACKS
    decreases |cs|
  {
    if cs == {} then feedbacks
    else InsertAll(InsertBounded(feedbacks, Smallest(cs), f), cs - {Smallest(cs)}, f)
  }

  /** `note_presented_obligations`. */
  ghost function NotePresented(d: Display, f: Frame, outputId: string, feedback: Feedback): Display
  {
    var satisfied := Satisfied(d.obligations, f, outputId);
    d.(obligations := map c | c in d.obligations && c !in satisfied :: NoteOne(c, d.obligations[c], f, outputId),
       feedbacks := InsertAll(d.feedbacks, satisfied, feedback))
  }

  /** A frame reached the screen. */
  function PresentRuntime(r: Runtime, o: Outstanding): Runtime
  {
    var shown := r.(outstanding := None, framebuffer := o.frame.pixels,
                    publishedFrameId := o.token.frameId, lastPublishedSceneGeneration := o.token.sceneGeneration);
    if r.pendingVersion.AtMost(Version(o.frame.version.epoch, o.token.sceneGeneration)) then
      shown.(pendingDamage := [], pendingCommitId := 0, retry := None, scheduler := r.scheduler.(state := Idle))
    else
      shown.(scheduler := r.scheduler.(state := DamagePending))
  }

  /** A frame did not. */
  function FailRuntime(r: Runtime, o: Outstanding): Runtime
  {
    var restored :=
      if r.pendingVersion.AtMost(Version(o.frame.version.epoch, o.token.sceneGeneration)) then
        r.(pendingDamage := o.frame.damage, pendingVersion := o.frame.version, pendingCommitId := o.frame.commitId)
      else r;
    restored.(outstanding := None,
              retry := Some(Retry(Version(o.frame.version.epoch, o.token.sceneGeneration), o.token.outputGeneration, o.token.frameId, o.frame.commitId)),
              scheduler := r.scheduler.(state := SchedulerState.RetryPending))
  }

  predicate AllPublished(outputs: map<string, Runtime>)
  {
    forall k :: k in outputs && !outputs[k].disabled ==> outputs[k].publishedFrameId != 0 && outputs[k].pendingDamage == []
  }

  /** `complete_presentation`, after a successful preflight. */
  ghost function CompletePresentation(d: Display, t: Token, outcome: Completion): Display
    requires Preflight(d, t).None?
  {
    var r := d.outputs[t.outputId];
    var o := r.outstanding.value;
    if outcome == Presented then
      var feedback := Feedback(Min(r.scheduler.period, U32_MAX), t.sequence);
      var d' := NotePresented(d.(outputs := d.outputs[t.outputId := PresentRuntime(r, o)]), o.frame, t.outputId, feedback);
      if d'.reconciliation == ReconciledAwaitingPresentation && AllPublished(d'.outputs)
      then d'.(reconciliation := Ready) else d'
    else
      d.(outputs := d.outputs[t.outputId := FailRuntime(r, o)])
  }

  function Retire(b: Backend, t: Token): Backend
  {
    b.(pending := b.pending - {t})
  }

  /** `finish_backend_completion`; `completes` is the backend's own answer. */
  ghost function FinishCompletion(w: World, t: Token, outcome: Completion, completes: bool): (World, Completion)
  {
    var refused := Preflight(w.display, t);
    if refused.Some? then (w, refused.value)
    else
      var result := if outcome == Presented && !completes then BackendUnavailable else outcome;
      (w.(backend := Retire(w.backend, t), display := CompletePresentation(w.display, t, result)), result)
  }

  // -------------------------------------------------------------------------- ticks

  predicate RetryIsCurrent(r: Runtime, retry: Retry)
  {
    && retry.outputGeneration == r.output.generation
    && retry.version == r.pendingVersion
    && retry.commitId == r.pendingCommitId
    && retry.frameId <= r.nextFrameId
  }

  /** The stale-retry test of `advance_presentation`. */
  function DropStaleRetry(r: Runtime): Runtime
  {
    if r.retry.Some? && !RetryIsCurrent(r, r.retry.value) then
      r.(retry := None, scheduler := if r.pendingDamage != [] then r.scheduler.(state := DamagePending) else r.scheduler)
    else r
  }

  datatype Advance = StaleOutput | BadTick(runtime: Runtime) | Ticked(runtime: Runtime, eligible: bool)

  /** `advance_presentation`. */
  function AdvancePresentation(r0: Runtime, outputGeneration: U64, now: U64, tickSequence: U64): Advance
  {
    if r0.output.generation != outputGeneration || r0.scheduler.outputGeneration != outputGeneration then StaleOutput
    else
      var r := DropStaleRetry(r0);
      var ticked := r.scheduler.(lastTick := now, lastTickSequence := tickSequence);
      if r.disabled then Ticked(r.(scheduler := ticked), false)
      else if now < r.scheduler.lastTick || tickSequence <= r.scheduler.lastTickSequence then BadTick(r)
      else
        var eligible := now >= r.scheduler.nextEligible && r.outstanding.None?
          && (r.pendingDamage != [] || r.scheduler.state == DamagePending || r.scheduler.state == SchedulerState.RetryPending);
        if eligible then
          Ticked(r.(scheduler := ticked.(state := SubmissionEligible, nextEligible := Min(now + r.scheduler.period, U64_MAX))), true)
        else if r.outstanding.Some? then
          Ticked(r.(scheduler := ticked.(state := PresentationBlocked)), false)
        else
          Ticked(r.(scheduler := ticked), false)
  }

  function WithRuntime(w: World, id: string, r: Runtime): World
  {
    w.(display := w.display.(outputs := w.display.outputs[id := r]))
  }

  /** The scratch framebuffer a frame is composed into. */
  function Scratch(r: Runtime): (fb: seq<Word>)
    ensures |fb| == r.output.Words()
  {
    if r.Initialised() then r.framebuffer else seq(r.output.Words(), i => BACKGROUND)
  }

  /** The frame a tick would submit for an output. */
  ghost function ComposedFrame(d: Display, s: Scene, r: Runtime): Frame
  {
    var damage := NormalizeDamage(r.pendingDamage, r.output.Bounds());
    Frame(r.nextFrameId, r.pendingCommitId, r.output, s.version,
          Repaint(Scratch(r), r.output, StoreLayers(d.store, Canonicalize(s.surfaces)), damage), damage)
  }

  function TokenFor(b: Backend, f: Frame): Token
  {
    Token(b.instanceId, b.nextSequence, f.output.outputId, f.output.generation, f.version.generation, f.frameId)
  }

  /** `submit_frame`, when the backend takes the frame. */
  function Submit(b: Backend, f: Frame): Backend
  {
    b.(nextSequence := Inc(b.nextSequence),
       pending := if b.kind == MockImmediate then b.pending else b.pending[TokenFor(b, f) := f])
  }

  function SubmissionFailed(r: Runtime, f: Frame): Runtime
  {
    r.(scheduler := r.scheduler.(state := SchedulerState.RetryPending), pendingDamage := f.damage,
       retry := Some(Retry(f.version, r.output.generation, f.frameId, f.commitId)))
  }

  function InFlight(r: Runtime, f: Frame, t: Token): Runtime
  {
    r.(submittedFrameId := f.frameId, scheduler := r.scheduler.(state := SubmissionInFlight),
       outstanding := Some(Outstanding(t, f)), nextFrameId := Inc(f.frameId))
  }

  /** `handle_multi_output_commit` for the selected output. */
  ghost function CommitOutput(w: World, id: string, s: Scene, submits: bool, completes: bool): (World, Reply)
    requires id in w.display.outputs
  {
    var r := w.display.outputs[id];
    if r.disabled then (w, Advanced(false))
    else if r.outstanding.Some? then
      (WithRuntime(w, id, r.(scheduler := r.scheduler.(state := PresentationBlocked))), Advanced(false))
    else if r.pendingDamage == [] then
      (WithRuntime(w, id, r.(scheduler := r.scheduler.(state := Idle))), Advanced(false))
    else
      var frame := ComposedFrame(w.display, s, r);
      var layers := StoreLayers(w.display.store, Canonicalize(s.surfaces));
      if !ValidatedForDamage(layers, frame.damage) then (w, Rejected)
      else if !Decodable(layers, frame.damage) then (w, Errored)
      else if !submits then (WithRuntime(w, id, SubmissionFailed(r, frame)), Advanced(false))
      else
        var token := TokenFor(w.backend, frame);
        var submitted := w.(backend := Submit(w.backend, frame));
        if !token.Valid() then (submitted, Errored)
        else
          var inFlight := WithRuntime(submitted, id, InFlight(r, frame, token));
          if w.backend.kind == MockDeferred then (inFlight, Advanced(true))
          else (FinishCompletion(inFlight, token, Presented, completes).0, Advanced(true))
  }

  // ------------------------------------------------------------- output lifecycle

  ghost function TotalFramebufferBytes(outputs: map<string, Runtime>): nat
  {
    if outputs == map[] then 0
    else var k :| k in outputs; outputs[k].output.Bytes() + TotalFramebufferBytes(outputs - {k})
  }

  function RetireOutstanding(b: Backend, r: Runtime): Backend
  {
    if r.outstanding.Some? then Retire(b, r.outstanding.value.token) else b
  }

  /** `reconfigure_output` drops the headless backend's frames of other generations. */
  function ReconfigureOutput(b: Backend, id: string, generation: U64): Backend
  {
    if b.kind != Headless then b
    else b.(pending := map t | t in b.pending && (t.outputId != id || t.outputGeneration == generation) :: b.pending[t])
  }

  function RemoveOutput(b: Backend, id: string): Backend
  {
    if b.kind != Headless then b
    else b.(pending := map t | t in b.pending && t.outputId != id :: b.pending[t])
  }

  function EffectiveGeneration(d: Display, instance: U64, generation: U64): U64
  {
    if instance == 0 then generation else Min(generation + d.displayEpoch, U64_MAX)
  }

  function ConnectedRuntime(d: Display, output: LiveOutput, instance: U64, period: U64): Runtime
  {
    var r := NewRuntime(output);
    r.(backendInstance := instance, scheduler := r.scheduler.(period := period),
       pendingDamage := [output.Bounds()], pendingVersion := d.lastVersion,
       pendingCommitId := if d.lastScene.Some? then d.lastScene.value.commitId else 0)
  }

  datatype Connectable = NotConnectable | Overflows | Connectable(output: LiveOutput)

  /** The tests of the connect and reconfigure arm, in their order. */
  ghost function CheckConnect(d: Display, e: OutputEvent): Connectable
    requires e.Up?
  {
    var geometry := e.geometry.(outputGeneration := EffectiveGeneration(d, e.instance, e.geometry.outputGeneration));
    var next := ValidateGeometry(geometry);
    if e.period == 0 then NotConnectable
    else if e.outputId !in d.outputs && |d.outputs| >= MAX_OUTPUTS then NotConnectable
    else if geometry.outputId != e.outputId then NotConnectable
    else if next.None? then NotConnectable
    else if TotalFramebufferBytes(d.outputs - {e.outputId}) + next.value.Bytes() > MAX_TOTAL_FRAMEBUFFER_BYTES then NotConnectable
    else if e.outputId in d.outputs && d.outputs[e.outputId].backendInstance != 0 && d.outputs[e.outputId].backendInstance != e.instance then NotConnectable
    else if e.outputId in d.outputs && next.value.generation <= d.outputs[e.outputId].output.generation then NotConnectable
    else if !next.value.ExtentFits() then Overflows
    else Connectable(next.value)
  }

  /** Installing the checked output. */
  function Connected(w: World, e: OutputEvent, output: LiveOutput): World
    requires e.Up?
  {
    var d := w.display;
    var b := if e.outputId in d.outputs
             then ReconfigureOutput(RetireOutstanding(w.backend, d.outputs[e.outputId]), e.outputId, output.generation)
             else w.backend;
    var outputs := d.outputs[e.outputId := ConnectedRuntime(d, output, e.instance, e.period)];
    var targeted := d.lastScene.Some? && d.lastScene.value.target == e.outputId;
    var obligations := if targeted then Rebind(d.obligations, ActiveOutputs(outputs), d.lastVersion, {e.outputId}) else d.obligations;
    w.(backend := b, display := d.(outputs := outputs, obligations := obligations))
  }

  ghost function Connect(w: World, e: OutputEvent): (World, Reply)
    requires e.Up?
  {
    match CheckConnect(w.display, e)
    case NotConnectable => (w, Errored)
    case Overflows => (Restarted(w, e.boot), Died)
    case Connectable(output) => (Connected(w, e, output), Applied)
  }

  /** A connect or reconfigure event that passes every test stops displayd exactly when the
      far edge of the new output leaves the `i32` range, and is applied otherwise. */
  lemma ConnectDiesExactly(w: World, e: OutputEvent)
    requires e.Up? && !CheckConnect(w.display, e).NotConnectable?
    ensures Connect(w, e).1 == Died <==> e.geometry.originX + e.geometry.width > I32_MAX || e.geometry.originY + e.geometry.height > I32_MAX
    ensures Connect(w, e).1 == Applied <==> e.geometry.originX + e.geometry.width <= I32_MAX && e.geometry.originY + e.geometry.height <= I32_MAX
  {
    hide Connected, TotalFramebufferBytes;
  }

  function DisabledRuntime(r: Runtime): Runtime
  {
    r.(outstanding := None, pendingDamage := [], retry := None, disabled := true)
  }

  /** The identity and generation test of the disable and disconnect events. */
  predicate Addresses(d: Display, outputId: string, instance: U64, generation: U64)
  {
    && outputId in d.outputs
    && d.outputs[outputId].backendInstance == instance
    && d.outputs[outputId].output.generation == EffectiveGeneration(d, instance, generation)
  }

  function Detach(w: World, id: string): World
    requires id in w.display.outputs
  {
    w.(backend := RemoveOutput(RetireOutstanding(w.backend, w.display.outputs[id]), id),
       display := w.display.(outputs := w.display.outputs - {id}))
  }

  function OfInstance(d: Display, instance: U64): set<string>
  {
    set k | k in d.outputs && d.outputs[k].backendInstance == instance
  }

  function TokensOf(outputs: map<string, Runtime>, ids: set<string>): set<Token>
  {
    set k | k in ids && k in outputs && outputs[k].outstanding.Some? :: outputs[k].outstanding.value.token
  }

  /** The reset loop: every output of the instance is detached, in whatever order. */
  function DetachAll(w: World, ids: set<string>): World
  {
    var retired := TokensOf(w.display.outputs, ids);
    w.(backend := w.backend.(pending :=
         map t | t in w.backend.pending && t !in retired && (w.backend.kind == Headless ==> t.outputId !in ids) :: w.backend.pending[t]),
       display := w.display.(outputs := w.display.outputs - ids))
  }

  lemma DetachNone(w: World)
    ensures DetachAll(w, {}) == w
  {
    assert TokensOf(w.display.outputs, {}) == {};
    assert w.display.outputs - {} == w.display.outputs;
    assert DetachAll(w, {}).backend.pending == w.backend.pending;
  }

  /** One iteration of the loop. */
  lemma DetachOne(w: World, ids: set<string>, id: string)
    requires id in ids && id in w.display.outputs
    ensures DetachAll(w, ids) == DetachAll(Detach(w, id), ids - {id})
  {
    var r := w.display.outputs[id];
    var rest := Detach(w, id);
    assert TokensOf(w.display.outputs, ids) == TokensOf(rest.display.outputs, ids - {id})
         + if r.outstanding.Some? then {r.outstanding.value.token} else {} by {
      forall t | t in TokensOf(w.display.outputs, ids)
        ensures t in TokensOf(rest.display.outputs, ids - {id}) || (r.outstanding.Some? && t == r.outstanding.value.token)
      {
        var k :| k in ids && k in w.display.outputs && w.display.outputs[k].outstanding.Some? && w.display.outputs[k].outstanding.value.token == t;
        if k != id {
          assert k in rest.display.outputs && rest.display.outputs[k] == w.display.outputs[k];
        }
      }
    }
    assert w.display.outputs - ids == rest.display.outputs - (ids - {id});
    assert DetachAll(w, ids).backend.pending == DetachAll(rest, ids - {id}).backend.pending;
  }

  ghost function ApplyChange(w: World, e: OutputEvent): (World, Reply)
  {
    match e
    case Up(_, _, _, _, _, _) => Connect(w, e)
    case Disabled(instance, id, _, generation) =>
      if !Addresses(w.display, id, instance, generation) then (w, Errored)
      else
        var r := w.display.outputs[id];
        (WithRuntime(w.(backend := RemoveOutput(RetireOutstanding(w.backend, r), id)), id, DisabledRuntime(r)), Applied)
    case Disconnected(instance, id, _, generation) =>
      if !Addresses(w.display, id, instance, generation) then (w, Errored) else (Detach(w, id), Applied)
    case BackendReset(instance, _) =>
      (DetachAll(w, OfInstance(w.display, instance)), Applied)
  }

  datatype Gate = StaleEpoch | Duplicate | OutOfOrder | Fresh

  /** The epoch and sequence gate of `apply_backend_output_event`. */
  function GateEvent(d: Display, e: OutputEvent): Gate
  {
    if e.instance != 0 && e.instance != d.displayEpoch
       && !(d.outputs == map[] && d.backendSequences == map[] && d.reconciliation != Recovering) then StaleEpoch
    else if e.instance in d.backendSequences && e.sequence == d.backendSequences[e.instance] then Duplicate
    else if e.instance in d.backendSequences && e.sequence < d.backendSequences[e.instance] then OutOfOrder
    else Fresh
  }

  /** An empty registry adopts the epoch of the backend that speaks first. */
  function AdoptEpoch(w: World, instance: U64): World
  {
    if instance != 0 && instance != w.display.displayEpoch then w.(display := w.display.(displayEpoch := instance)) else w
  }

  function NoteSequence(w: World, e: OutputEvent): World
  {
    w.(display := w.display.(backendSequences := w.display.backendSequences[e.instance := e.sequence]))
  }

  /** `apply_backend_output_event`: the gate, epoch adoption, the change itself. */
  ghost function ApplyOutputEvent(w: World, e: OutputEvent): (World, Reply)
  {
    match GateEvent(w.display, e)
    case StaleEpoch => (w, Errored)
    case Duplicate => (AdoptEpoch(w, e.instance), Applied)
    case OutOfOrder => (AdoptEpoch(w, e.instance), Errored)
    case Fresh =>
      var (changed, reply) := ApplyChange(AdoptEpoch(w, e.instance), e);
      if reply != Applied then (changed, reply) else (NoteSequence(changed, e), Applied)
  }

  // ----------------------------------------------------------------- reconciliation

  function OutstandingTokens(outputs: map<string, Runtime>): set<Token>
  {
    set k | k in outputs && outputs[k].outstanding.Some? :: outputs[k].outstanding.value.token
  }

  /** `retire_all_runtime_submissions`. */
  function RetireAll(w: World): World
  {
    w.(backend := w.backend.(pending := w.backend.pending - OutstandingTokens(w.display.outputs)),
       display := w.display.(outputs := map k | k in w.display.outputs :: w.display.outputs[k].(outstanding := None, retry := None)))
  }

  /** `BeginReconciliation`: submissions are retired even when the epoch is then refused. */
  function Begin(w: World, epoch: U64): (World, Reply)
  {
    var retired := RetireAll(w);
    var d := retired.display;
    if epoch < d.displayEpoch then (retired, Errored)
    else if epoch == d.displayEpoch then
      (retired.(display := d.(reconciliation := Recovering, feedbacks := map[])), Began(epoch))
    else
      (retired.(display := d.(displayEpoch := epoch, reconciliation := Recovering,
                              outputs := map[], backendSequences := map[], feedbacks := map[])), Began(epoch))
  }

  // --------------------------------------------------------------------- everything

  ghost function TickOutput(w: World, e: Event): (World, Reply)
    requires e.Tick?
  {
    if e.outputId !in w.display.outputs then (w, Errored)
    else
      match AdvancePresentation(w.display.outputs[e.outputId], e.outputGeneration, e.now, e.tickSequence)
      case StaleOutput => (w, Errored)
      case BadTick(r) => (WithRuntime(w, e.outputId, r), Errored)
      case Ticked(r, eligible) =>
        var ticked := WithRuntime(w, e.outputId, r);
        if !eligible || w.display.lastScene.None? then (ticked, Advanced(eligible))
        else
          var (committed, reply) := CommitOutput(ticked, e.outputId, w.display.lastScene.value, e.submits, e.completes);
          (committed, if reply == Errored then Errored else Advanced(eligible))
  }

  ghost function Step(w: World, e: Event): (World, Reply)
  {
    match e
    case Commit(request, fault) => Accept(w, request, fault)
    case Reconcile(epoch, request, fault) =>
      if epoch != w.display.displayEpoch then (w, Rejected)
      else
        var (accepted, reply) := Accept(w, request, fault);
        if reply.Committed? then
          (accepted.(display := accepted.display.(reconciliation := ReconciledAwaitingPresentation)),
           Reconciled(epoch, request.version.generation, |request.payloads|))
        else (accepted, reply)
    case BeginReconciliation(epoch) => Begin(w, epoch)
    case Tick(_, _, _, _, _, _) => TickOutput(w, e)
    case Complete(token, outcome, completes) =>
      var (finished, result) := FinishCompletion(w, token, outcome, completes);
      (finished, Completed(result))
    case OutputChange(change) => ApplyOutputEvent(w, change)
    case Restart(boot) => (Restarted(w, boot), Applied)
  }

  /** The world after a list of events. */
  ghost function Run(w: World, events: seq<Event>): World
    decreases |events|
  {
    if events == [] then w else Run(Step(w, events[0]).0, events[1..])
  }
}
