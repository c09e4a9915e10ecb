/** Commit obligations and presentation feedback: no commit is acknowledged early. */
module Acknowledgement {
  import opened Machine
  import opened SceneTypes
  import opened Geometry
  import opened Composition
  import opened Renderer
  import opened Damage
  import opened Admission
  import opened Pipeline
  import opened Ledger
  import opened Refinement
  import opened Readiness

  /** Every live obligation still waits for an output; no commit is both owed and
      acknowledged; both tables are bounded. `named` adds that every obligation is that of
      a recorded scene, under its commit id. */
  ghost predicate DebtsOk(named: bool, w: World)
  {
    TablesOk(named, w.ledger, w.display.obligations, w.display.feedbacks)
  }

  ghost predicate ObligationsOk(w: World)
  {
    DebtsOk(true, w)
  }

  ghost predicate TablesOk(named: bool, ledger: map<Version, Scene>, obligations: map<U64, Obligation>, feedbacks: map<U64, Feedback>)
  {
    && (forall c :: c in obligations ==> Owed(named, ledger, c, obligations[c]))
    && obligations.Keys !! feedbacks.Keys
    && |obligations| <= MAX_PRESENTATION_OBLIGATIONS
    && |feedbacks| <= MAX_PRESENTATION_FEEDBACKS
  }

  ghost predicate Owed(named: bool, ledger: map<Version, Scene>, c: U64, o: Obligation)
  {
    && o.required != {} && !(o.required <= o.presented)
    && (named ==> o.version in ledger && ledger[o.version].commitId == c)
  }

  // ---------------------------------------------------------------- transitions

  lemma RebindKeepsTables(named: bool, ledger: map<Version, Scene>, obligations: map<U64, Obligation>, feedbacks: map<U64, Feedback>,
                          active: set<string>, v: Version, required: set<string>)
    requires TablesOk(named, ledger, obligations, feedbacks)
    ensures TablesOk(named, ledger, Rebind(obligations, active, v, required), feedbacks)
    ensures |Rebind(obligations, active, v, required)| == |obligations|
  {
    var r := Rebind(obligations, active, v, required);
    assert r.Keys == obligations.Keys;
    assert |r| == |r.Keys| && |obligations| == |obligations.Keys|;
  }

  lemma LaterLedgerKeepsTables(named: bool, before: map<Version, Scene>, after: map<Version, Scene>, obligations: map<U64, Obligation>, feedbacks: map<U64, Feedback>)
    requires (named ==> Extends(before, after)) && TablesOk(named, before, obligations, feedbacks)
    ensures TablesOk(named, after, obligations, feedbacks)
  {
  }

  lemma RemoveSize<K, V>(m: map<K, V>, k: K)
    ensures |m - {k}| <= |m|
  {
    assert (m - {k}).Keys == m.Keys - {k};
    assert |m - {k}| == |(m - {k}).Keys| && |m| == |m.Keys|;
    SubsetSize((m - {k}).Keys, m.Keys);
  }

  lemma InsertSize<K, V>(m: map<K, V>, k: K, v: V)
    ensures |m[k := v]| <= |m| + 1
  {
    assert m[k := v].Keys == m.Keys + {k};
    assert |m[k := v]| == |m[k := v].Keys| && |m| == |m.Keys|;
  }

  lemma {:induction false} SubsetSize<T>(a: set<T>, b: set<T>)
    requires a <= b
    ensures |a| <= |b|
  {
    if a != {} {
      var x :| x in a;
      SubsetSize(a - {x}, b - {x});
    }
  }

  lemma OweKeepsTables(named: bool, ledger: map<Version, Scene>, obligations: map<U64, Obligation>, feedbacks: map<U64, Feedback>,
                       v: Version, commitId: U64, required: set<string>)
    requires TablesOk(named, ledger, obligations, feedbacks)
    requires required != {} ==> |obligations| < MAX_PRESENTATION_OBLIGATIONS
    requires named ==> v in ledger && ledger[v].commitId == commitId
    ensures TablesOk(named, ledger, if required == {} then obligations else obligations[commitId := Obligation(v, required, {})], feedbacks - {commitId})
  {
    RemoveSize(feedbacks, commitId);
    InsertSize(obligations, commitId, Obligation(v, required, {}));
  }

  lemma AdoptTables(d: Display, v: Version, commitId: U64, verdict: Verdict)
    requires verdict.Proceed?
    ensures var a := Adopt(d, v, commitId, verdict.store, verdict.damage, verdict.required);
      && a.obligations == (if verdict.required == {} then d.obligations else d.obligations[commitId := Obligation(v, verdict.required, {})])
      && a.feedbacks == d.feedbacks - {commitId}
  {
    hide DamageOutputs;
  }

  lemma CarryOutKeepsObligations(named: bool, w: World, r: SceneRequest, fault: DiskFault, verdict: Verdict)
    requires DebtsOk(named, w) && verdict.Proceed?
    requires named ==> LedgerOk(w) && w.display.nextCommitId < U64_MAX
    requires named && verdict.replayed.None? ==> r.version.Versioned() && w.display.lastVersion.Less(r.version)
    requires named && verdict.replayed.Some? ==> w.display.lastScene == Some(SceneOf(r, verdict.replayed.value))
    ensures DebtsOk(named, CarryOut(w, r, fault, verdict).0)
  {
    hide Rebind, LedgerIncreases, TablesOk, Adopt, Load;
    var d := Rebound(w.display, r, verdict.required);
    RebindKeepsTables(named, w.ledger, w.display.obligations, w.display.feedbacks, ActiveOutputs(w.display.outputs), r.version, verdict.required);
    if verdict.required == {} || |d.obligations| < MAX_PRESENTATION_OBLIGATIONS {
      if verdict.replayed.Some? {
        AdoptTables(d, r.version, verdict.replayed.value, verdict);
        OweKeepsTables(named, w.ledger, d.obligations, d.feedbacks, r.version, verdict.replayed.value, verdict.required);
      } else {
        var s := SceneOf(r, d.nextCommitId);
        if named { RecordingExtends(w, s); }
        LaterLedgerKeepsTables(named, w.ledger, Persisted(w, s).ledger, d.obligations, d.feedbacks);
        OweKeepsTables(named, Persisted(w, s).ledger, d.obligations, d.feedbacks, r.version, s.commitId, verdict.required);
        AdoptTables(Recorded(d, s), r.version, s.commitId, verdict);
        if fault.DiesBeforeRename? || fault.DiesAfterRename? {
          RestartForgetsDebts(named, w, fault.boot);
          RestartForgetsDebts(named, Persisted(w, s), fault.boot);
        }
      }
    }
  }

  lemma NoTables(named: bool, ledger: map<Version, Scene>)
    ensures TablesOk(named, ledger, map[], map[])
  {
  }

  lemma AcceptKeepsObligations(named: bool, w: World, request: SceneRequest, fault: DiskFault)
    requires DebtsOk(named, w)
    requires named ==> LedgerOk(w) && request.version != UNVERSIONED && w.display.nextCommitId < U64_MAX
    ensures DebtsOk(named, Accept(w, request, fault).0)
  {
    hide Judge, CarryOut, DebtsOk, LedgerIncreases;
    var r := WithCanonicalSurfaces(request);
    if named { PlanKeepsReplay(w.display, r); }
    VersionOrder(w.display.lastVersion, r.version);
    if Judge(w.display, r).Proceed? {
      CarryOutKeepsObligations(named, w, r, fault, Judge(w.display, r));
    }
  }

  lemma NoteKeepsOwed(named: bool, ledger: map<Version, Scene>, obligations: map<U64, Obligation>, c: U64, f: Frame, outputId: string)
    requires c in obligations && c !in Satisfied(obligations, f, outputId) && Owed(named, ledger, c, obligations[c])
    ensures Owed(named, ledger, c, NoteOne(c, obligations[c], f, outputId))
  {
  }

  lemma NotePresentedKeepsTables(named: bool, ledger: map<Version, Scene>, d: Display, f: Frame, outputId: string, feedback: Feedback)
    requires TablesOk(named, ledger, d.obligations, d.feedbacks)
    ensures var n := NotePresented(d, f, outputId, feedback);
      && TablesOk(named, ledger, n.obligations, n.feedbacks)
      && n.feedbacks.Keys <= d.feedbacks.Keys + Satisfied(d.obligations, f, outputId)
      && n.obligations.Keys == d.obligations.Keys - Satisfied(d.obligations, f, outputId)
  {
    hide Owed, NoteOne;
    var n := NotePresented(d, f, outputId, feedback);
    assert n.obligations.Keys == d.obligations.Keys - Satisfied(d.obligations, f, outputId);
    forall c | c in n.obligations
      ensures Owed(named, ledger, c, n.obligations[c])
    {
      NoteKeepsOwed(named, ledger, d.obligations, c, f, outputId);
    }
    SubsetSize(n.obligations.Keys, d.obligations.Keys);
    assert |n.obligations| == |n.obligations.Keys| && |d.obligations| == |d.obligations.Keys|;
  }

  /** The tables after a completion are those after noting the presented frame, or untouched. */
  lemma CompletionTables(w: World, t: Token, outcome: Completion, completes: bool)
    requires Preflight(w.display, t).None?
    ensures var (w', result) := FinishCompletion(w, t, outcome, completes);
            var r := w.display.outputs[t.outputId];
            var o := r.outstanding.value;
            var n := NotePresented(w.display.(outputs := w.display.outputs[t.outputId := PresentRuntime(r, o)]), o.frame, t.outputId,
                                   Feedback(Min(r.scheduler.period, U32_MAX), t.sequence));
      && w'.ledger == w.ledger
      && w'.display.obligations == (if result == Presented then n.obligations else w.display.obligations)
      && w'.display.feedbacks == (if result == Presented then n.feedbacks else w.display.feedbacks)
  {
    hide PresentRuntime, FailRuntime, NotePresented, AllPublished;
  }

  lemma CompletionKeepsObligations(named: bool, w: World, t: Token, outcome: Completion, completes: bool)
    requires DebtsOk(named, w)
    ensures DebtsOk(named, FinishCompletion(w, t, outcome, completes).0)
  {
    hide TablesOk, NotePresented, PresentRuntime, FailRuntime, FinishCompletion, Preflight;
    if Preflight(w.display, t).None? {
      var d := w.display;
      PreflightMeans(d, t);
      var r := d.outputs[t.outputId];
      var o := r.outstanding.value;
      CompletionTables(w, t, outcome, completes);
      NotePresentedKeepsTables(named, w.ledger, d.(outputs := d.outputs[t.outputId := PresentRuntime(r, o)]), o.frame, t.outputId,
                               Feedback(Min(r.scheduler.period, U32_MAX), t.sequence));
    } else {
      RefusedCompletion(w, t, outcome, completes);
    }
  }

  lemma PreflightMeans(d: Display, t: Token)
    requires Preflight(d, t).None?
    ensures t.outputId in d.outputs && d.outputs[t.outputId].outstanding.Some? && d.outputs[t.outputId].outstanding.value.token == t
  {
  }

  lemma RefusedCompletion(w: World, t: Token, outcome: Completion, completes: bool)
    requires Preflight(w.display, t).Some?
    ensures FinishCompletion(w, t, outcome, completes) == (w, Preflight(w.display, t).value)
  {
  }

  /** Only displayd's obligations, feedbacks and the ledger matter here. */
  ghost predicate SameDebts(a: World, b: World)
  {
    a.ledger == b.ledger && a.display.obligations == b.display.obligations && a.display.feedbacks == b.display.feedbacks
  }

  lemma CommitKeepsObligations(named: bool, w: World, id: string, s: Scene, submits: bool, completes: bool)
    requires DebtsOk(named, w) && id in w.display.outputs
    ensures DebtsOk(named, CommitOutput(w, id, s, submits, completes).0)
  {
    hide ComposedFrame, ValidatedForDamage, Decodable, FinishCompletion, TablesOk;
    var r := w.display.outputs[id];
    var frame := ComposedFrame(w.display, s, r);
    var token := TokenFor(w.backend, frame);
    var inFlight := WithRuntime(w.(backend := Submit(w.backend, frame)), id, InFlight(r, frame, token));
    CompletionKeepsObligations(named, inFlight, token, Presented, completes);
  }

  lemma TickKeepsObligations(named: bool, w: World, e: Event)
    requires DebtsOk(named, w) && e.Tick?
    ensures DebtsOk(named, TickOutput(w, e).0)
  {
    hide AdvancePresentation, CommitOutput, TablesOk;
    if e.outputId in w.display.outputs && w.display.lastScene.Some? {
      match AdvancePresentation(w.display.outputs[e.outputId], e.outputGeneration, e.now, e.tickSequence)
      case Ticked(r, eligible) =>
        CommitKeepsObligations(named, WithRuntime(w, e.outputId, r), e.outputId, w.display.lastScene.value, e.submits, e.completes);
      case _ =>
    }
  }

  lemma {:induction false} DetachAllKeepsDebts(w: World, ids: set<string>)
    requires ids <= w.display.outputs.Keys
    ensures SameDebts(w, DetachAll(w, ids))
    decreases |ids|
  {
    DetachNone(w);
    if ids != {} {
      var id :| id in ids;
      DetachOne(w, ids, id);
      DetachAllKeepsDebts(Detach(w, id), ids - {id});
    }
  }

  lemma RestartForgetsDebts(named: bool, w: World, boot: Boot)
    ensures DebtsOk(named, Restarted(w, boot))
  {
  }

  lemma ConnectKeepsObligations(named: bool, w: World, e: OutputEvent)
    requires DebtsOk(named, w) && e.Up?
    ensures DebtsOk(named, Connect(w, e).0)
  {
    hide ConnectedRuntime, TotalFramebufferBytes, TablesOk, Rebind;
    var d := w.display;
    RebindKeepsTables(named, w.ledger, d.obligations, d.feedbacks, ActiveOutputs(Connect(w, e).0.display.outputs), d.lastVersion, {e.outputId});
    NoTables(named, w.ledger);
  }

  lemma ChangeKeepsObligations(named: bool, w: World, e: OutputEvent)
    requires DebtsOk(named, w)
    ensures DebtsOk(named, ApplyOutputEvent(w, e).0)
  {
    hide Connect, TablesOk, DetachAll;
    var adopted := if e.instance != 0 && e.instance != w.display.displayEpoch
                   then w.(display := w.display.(displayEpoch := e.instance)) else w;
    match e {
      case Up(_, _, _, _, _, boot) => ConnectKeepsObligations(named, adopted, e);
      case BackendReset(instance, _) => DetachAllKeepsDebts(adopted, OfInstance(adopted.display, instance));
      case _ =>
    }
  }

  /** Every step keeps the obligation and feedback tables in order. */
  lemma StepKeepsObligations(named: bool, w: World, e: Event)
    requires DebtsOk(named, w) && (named ==> LedgerOk(w) && VersionedStep(w, e))
    ensures DebtsOk(named, Step(w, e).0)
  {
    hide Accept, TickOutput, FinishCompletion, ApplyOutputEvent, Owed, LedgerOk;
    match e
    case Commit(request, fault) => AcceptKeepsObligations(named, w, request, fault);
    case Reconcile(epoch, request, fault) => AcceptKeepsObligations(named, w, request, fault);
    case BeginReconciliation(epoch) =>
    case Tick(_, _, _, _, _, _) => TickKeepsObligations(named, w, e);
    case Complete(token, outcome, completes) => CompletionKeepsObligations(named, w, token, outcome, completes);
    case OutputChange(change) => ChangeKeepsObligations(named, w, change);
    case Restart(boot) => RestartForgetsDebts(named, w, boot);
  }

  /** Along every run of versioned scenes, every live obligation also names its commit. */
  lemma {:induction false} RunKeepsObligations(w: World, events: seq<Event>)
    requires LedgerOk(w) && ObligationsOk(w) && VersionedRun(w, events)
    ensures ObligationsOk(Run(w, events))
    decreases |events|
  {
    hide LedgerOk, DebtsOk, Step, VersionedStep;
    if events != [] {
      StepKeepsObligations(true, w, events[0]);
      StepKeepsLedger(w, events[0]);
      RunKeepsObligations(Step(w, events[0]).0, events[1..]);
    }
  }

  /** Along every run whatever, no live obligation is empty or fulfilled, no commit is both
      owed and acknowledged, and both tables stay within their 4096 entries. */
  lemma {:induction false} RunKeepsTables(w: World, events: seq<Event>)
    requires DebtsOk(false, w)
    ensures DebtsOk(false, Run(w, events))
    decreases |events|
  {
    hide DebtsOk, Step;
    if events != [] {
      StepKeepsObligations(false, w, events[0]);
      RunKeepsTables(Step(w, events[0]).0, events[1..]);
    }
  }

  // ------------------------------------------------------------ no early acknowledgement

  /** Commit `c` was owed on output `k`, was shown everywhere else already, and `k` now shows
      the full repaint of a recorded scene of its epoch that is no older. */
  ghost predicate ShownOn(c: Content, before: World, after: World, commit: U64, k: string)
  {
    && commit in before.display.obligations && k in before.display.obligations[commit].required
    && before.display.obligations[commit].required <= before.display.obligations[commit].presented + {k}
    && commit !in after.display.obligations
    && exists v: Version :: (v.epoch == before.display.obligations[commit].version.epoch
                    && v.generation >= before.display.obligations[commit].version.generation
                    && ShowsScene(c, after, before.ledger, v, k))
  }

  /** Output `k` shows the full repaint of the recorded scene of version `v`. */
  ghost predicate ShowsScene(c: Content, w: World, ledger: map<Version, Scene>, v: Version, k: string)
  {
    && v in ledger && k in w.display.outputs
    && ShowsOutside(w.display.outputs[k].framebuffer, w.display.outputs[k].output, Layers(c, ledger[v]), [])
  }

  /** A commit leaves the obligations satisfied only if this frame was what it waited for. */
  lemma SatisfiedMeans(ledger: map<Version, Scene>, obligations: map<U64, Obligation>, f: Frame, outputId: string, commit: U64)
    requires commit in Satisfied(obligations, f, outputId) && f.version.Versioned()
    requires Owed(true, ledger, commit, obligations[commit])
    ensures commit in obligations && outputId in obligations[commit].required
    ensures obligations[commit].required <= obligations[commit].presented + {outputId}
    ensures f.version.epoch == obligations[commit].version.epoch && f.version.generation >= obligations[commit].version.generation
  {
  }

  /** A presented frame puts a full repaint on its output. */
  lemma PresentedFrameIsFull(c: Content, w: World, t: Token)
    requires WorldOk(c, w) && Preflight(w.display, t).None?
    ensures var r := w.display.outputs[t.outputId];
            var f := r.outstanding.value.frame;
      && f.version in w.ledger && f.version.Versioned()
      && PresentRuntime(r, r.outstanding.value).output == r.output
      && ShowsOutside(PresentRuntime(r, r.outstanding.value).framebuffer, r.output, Layers(c, w.ledger[f.version]), [])
  {
    hide SceneOk, PendingOk, FramebufferOk, ShowsOutside;
    assert RuntimeOk(c, w.ledger, w.display.lastScene, w.display.lastVersion, w.display.outputs[t.outputId]);
  }

  lemma FeedbackOnCompletion(c: Content, w: World, t: Token, outcome: Completion, completes: bool, commit: U64)
    requires WorldOk(c, w) && ObligationsOk(w)
    requires commit in FinishCompletion(w, t, outcome, completes).0.display.feedbacks && commit !in w.display.feedbacks
    ensures FinishCompletion(w, t, outcome, completes).1 == Presented
    ensures ShownOn(c, w, FinishCompletion(w, t, outcome, completes).0, commit, t.outputId)
  {
    hide WorldOk, NotePresented, PresentRuntime, FailRuntime, FinishCompletion, Preflight, Satisfied, ShowsOutside;
    var (w', result) := FinishCompletion(w, t, outcome, completes);
    var d := w.display;
    if Preflight(d, t).Some? {
      RefusedCompletion(w, t, outcome, completes);
      assert false;
    }
    PreflightMeans(d, t);
    var r := d.outputs[t.outputId];
    var o := r.outstanding.value;
    CompletionTables(w, t, outcome, completes);
    CompletionOutputs(w, t, outcome, completes);
    NotePresentedKeepsTables(true, w.ledger, d.(outputs := d.outputs[t.outputId := PresentRuntime(r, o)]), o.frame, t.outputId,
                             Feedback(Min(r.scheduler.period, U32_MAX), t.sequence));
    PresentedFrameIsFull(c, w, t);
    SatisfiedObligation(d.obligations, o.frame, t.outputId, commit);
    SatisfiedMeans(w.ledger, d.obligations, o.frame, t.outputId, commit);
    assert ShowsScene(c, w', w.ledger, o.frame.version, t.outputId);
  }

  lemma SatisfiedObligation(obligations: map<U64, Obligation>, f: Frame, outputId: string, commit: U64)
    requires commit in Satisfied(obligations, f, outputId)
    ensures commit in obligations
  {
  }

  /** The output a completion or tick concerns. */
  function OutputOf(e: Event): string
  {
    match e
    case Tick(outputId, _, _, _, _, _) => outputId
    case Complete(token, _, _) => token.outputId
    case _ => ""
  }

  /** The world a tick completes its frame in, for a backend that completes at once. */
  lemma InFlightIsOk(c: Content, w: World, id: string, submits: bool, completes: bool)
    requires WorldOk(c, w) && w.display.lastScene.Some? && id in w.display.outputs
    requires ObligationsOk(w)
    requires var s, r := w.display.lastScene.value, w.display.outputs[id];
             && !r.disabled && r.outstanding.None? && r.pendingDamage != []
             && ValidatedForDamage(StoreLayers(w.display.store, Canonicalize(s.surfaces)), ComposedFrame(w.display, s, r).damage)
    ensures var frame := ComposedFrame(w.display, w.display.lastScene.value, w.display.outputs[id]);
            var token := TokenFor(w.backend, frame);
            var inFlight := WithRuntime(w.(backend := Submit(w.backend, frame)), id, InFlight(w.display.outputs[id], frame, token));
            WorldOk(c, inFlight) && ObligationsOk(inFlight)
  {
    hide RuntimeOk, ValidatedForDamage, ComposedFrame, Owed, LedgerIncreases;
    var s, r := w.display.lastScene.value, w.display.outputs[id];
    WorldOkParts(c, w, id);
    var frame := ComposedFrame(w.display, s, r);
    var token := TokenFor(w.backend, frame);
    SubmissionKeepsRuntime(c, w, r, token);
    var submitted := w.(backend := Submit(w.backend, frame));
    BackendIsIrrelevant(c, w, submitted.backend);
    WithRuntimeIsOk(c, submitted, id, InFlight(r, frame, token));
  }

  lemma FeedbackOnCommit(c: Content, w: World, id: string, submits: bool, completes: bool, commit: U64)
    requires WorldOk(c, w) && ObligationsOk(w) && w.display.lastScene.Some? && id in w.display.outputs
    requires commit in CommitOutput(w, id, w.display.lastScene.value, submits, completes).0.display.feedbacks
    requires commit !in w.display.feedbacks
    ensures ShownOn(c, w, CommitOutput(w, id, w.display.lastScene.value, submits, completes).0, commit, id)
  {
    hide WorldOk, ObligationsOk, FinishCompletion, ValidatedForDamage, Decodable, ComposedFrame;
    var s, r := w.display.lastScene.value, w.display.outputs[id];
    var frame := ComposedFrame(w.display, s, r);
    var token := TokenFor(w.backend, frame);
    InFlightIsOk(c, w, id, submits, completes);
    WorldOkParts(c, w, id);
    ComposedFrameOutput(w.display, s, r);
    var inFlight := WithRuntime(w.(backend := Submit(w.backend, frame)), id, InFlight(r, frame, token));
    FeedbackOnCompletion(c, inFlight, token, Presented, completes, commit);
    ShownOnSameDebts(c, w, inFlight, CommitOutput(w, id, s, submits, completes).0, commit, id);
  }

  lemma ComposedFrameOutput(d: Display, s: Scene, r: Runtime)
    ensures ComposedFrame(d, s, r).output == r.output
  {
  }

  lemma ShownOnSameDebts(c: Content, a: World, b: World, after: World, commit: U64, k: string)
    requires SameDebts(a, b) && ShownOn(c, b, after, commit, k)
    ensures ShownOn(c, a, after, commit, k)
  {
  }

  /** Restarts, scene acceptance and lifecycle events issue no feedback at all. */
  lemma NoOtherFeedback(w: World, e: Event)
    requires !e.Tick? && !e.Complete?
    ensures Step(w, e).0.display.feedbacks.Keys <= w.display.feedbacks.Keys
  {
    hide Accept, ApplyOutputEvent;
    match e
    case Commit(request, fault) => AcceptIssuesNothing(w, request, fault);
    case Reconcile(epoch, request, fault) => AcceptIssuesNothing(w, request, fault);
    case OutputChange(change) => ChangeIssuesNothing(w, change);
    case _ =>
  }

  lemma AcceptIssuesNothing(w: World, request: SceneRequest, fault: DiskFault)
    ensures Accept(w, request, fault).0.display.feedbacks.Keys <= w.display.feedbacks.Keys
  {
    hide Judge, Rebind, DamageOutputs;
  }

  lemma ChangeIssuesNothing(w: World, e: OutputEvent)
    ensures ApplyOutputEvent(w, e).0.display.feedbacks.Keys <= w.display.feedbacks.Keys
  {
    hide ConnectedRuntime, TotalFramebufferBytes, Rebind, DetachAll, ValidateGeometry;
    if e.BackendReset? {
      var adopted := if e.instance != 0 && e.instance != w.display.displayEpoch
                     then w.(display := w.display.(displayEpoch := e.instance)) else w;
      DetachAllKeepsDebts(adopted, OfInstance(adopted.display, e.instance));
    }
  }

  /** Feedback for a commit is issued only in a step that puts on its last required output
      the full repaint of a scene of its epoch that is no older than it. */
  lemma NoEarlyAcknowledgement(c: Content, w: World, e: Event, commit: U64)
    requires WorldOk(c, w) && ObligationsOk(w)
    requires commit in Step(w, e).0.display.feedbacks && commit !in w.display.feedbacks
    ensures e.Tick? || (e.Complete? && Step(w, e).1 == Completed(Presented))
    ensures ShownOn(c, w, Step(w, e).0, commit, OutputOf(e))
  {
    hide WorldOk, ObligationsOk, CommitOutput, FinishCompletion, AdvancePresentation;
    if e.Complete? {
      FeedbackOnCompletion(c, w, e.token, e.outcome, e.completes, commit);
    } else if e.Tick? {
      var r := w.display.outputs[e.outputId];
      WorldOkParts(c, w, e.outputId);
      AdvanceKeepsRuntime(c, w.ledger, w.display.lastScene, w.display.lastVersion, r, e.outputGeneration, e.now, e.tickSequence);
      var a := AdvancePresentation(r, e.outputGeneration, e.now, e.tickSequence);
      var ticked := WithRuntime(w, e.outputId, a.runtime);
      WithRuntimeIsOk(c, w, e.outputId, a.runtime);
      SameDebtsOk(w, ticked);
      FeedbackOnCommit(c, ticked, e.outputId, e.submits, e.completes, commit);
      ShownOnSameDebts(c, w, ticked, Step(w, e).0, commit, e.outputId);
    } else {
      NoOtherFeedback(w, e);
    }
  }

  lemma SameDebtsOk(a: World, b: World)
    requires SameDebts(a, b) && ObligationsOk(a)
    ensures ObligationsOk(b)
  {
  }

  // --------------------------------------------------------------------- none is lost

  /** The feedback is there, or has made room for 4096 younger ones since. */
  ghost predicate Answered(feedbacks: map<U64, Feedback>, commit: U64)
  {
    commit in feedbacks || (|feedbacks| == MAX_PRESENTATION_FEEDBACKS && forall k :: k in feedbacks ==> commit < k)
  }

  lemma EvictedOnce(feedbacks: map<U64, Feedback>)
    requires |feedbacks| <= MAX_PRESENTATION_FEEDBACKS
    ensures Evicted(feedbacks) == if |feedbacks| == MAX_PRESENTATION_FEEDBACKS then feedbacks - {Smallest(feedbacks.Keys)} else feedbacks
    ensures |feedbacks| == MAX_PRESENTATION_FEEDBACKS ==> |Evicted(feedbacks)| == MAX_PRESENTATION_FEEDBACKS - 1
  {
    if |feedbacks| == MAX_PRESENTATION_FEEDBACKS {
      var rest := feedbacks - {Smallest(feedbacks.Keys)};
      assert rest.Keys == feedbacks.Keys - {Smallest(feedbacks.Keys)};
      assert |rest| == |rest.Keys| && |feedbacks| == |feedbacks.Keys|;
      assert Evicted(rest) == rest;
    }
  }

  lemma InsertedSize(feedbacks: map<U64, Feedback>, c: U64, f: Feedback)
    requires |feedbacks| <= MAX_PRESENTATION_FEEDBACKS && c !in feedbacks
    ensures |feedbacks| == MAX_PRESENTATION_FEEDBACKS ==> |InsertBounded(feedbacks, c, f)| == MAX_PRESENTATION_FEEDBACKS
  {
    EvictedOnce(feedbacks);
    var e := Evicted(feedbacks);
    assert e[c := f].Keys == e.Keys + {c};
    assert |e[c := f]| == |e[c := f].Keys| && |e| == |e.Keys|;
  }

  /** Later, younger feedback keeps a commit answered. */
  lemma {:induction false} StaysAnswered(feedbacks: map<U64, Feedback>, cs: set<U64>, f: Feedback, commit: U64)
    requires Answered(feedbacks, commit) && |feedbacks| <= MAX_PRESENTATION_FEEDBACKS
    requires cs !! feedbacks.Keys && forall c :: c in cs ==> commit < c
    ensures Answered(InsertAll(feedbacks, cs, f), commit)
    decreases |cs|
  {
    if cs != {} {
      var c := Smallest(cs);
      EvictedOnce(feedbacks);
      InsertedSize(feedbacks, c, f);
      hide Evicted;
      StaysAnswered(InsertBounded(feedbacks, c, f), cs - {c}, f, commit);
    }
  }

  lemma {:induction false} InsertAllAnswers(feedbacks: map<U64, Feedback>, cs: set<U64>, f: Feedback, commit: U64)
    requires |feedbacks| <= MAX_PRESENTATION_FEEDBACKS && cs !! feedbacks.Keys && commit in cs
    ensures Answered(InsertAll(feedbacks, cs, f), commit)
    decreases |cs|
  {
    hide InsertBounded;
    var c := Smallest(cs);
    if c == commit {
      StaysAnswered(InsertBounded(feedbacks, c, f), cs - {c}, f, commit);
    } else {
      InsertAllAnswers(InsertBounded(feedbacks, c, f), cs - {c}, f, commit);
    }
  }

  /** The commit is answered, and the frame that `k` now shows is the one that fulfilled it:
      of its epoch and no older (or of the very commit), with every other required output
      presented before. */
  ghost predicate Fulfilled(before: World, after: World, commit: U64, k: string)
  {
    && Answered(after.display.feedbacks, commit)
    && k in after.display.outputs
    && exists f: Frame :: commit in Satisfied(before.display.obligations, f, k) && after.display.outputs[k].framebuffer == f.pixels
  }

  lemma NoteFulfils(d: Display, f: Frame, k: string, feedback: Feedback, commit: U64)
    requires d.obligations.Keys !! d.feedbacks.Keys && |d.feedbacks| <= MAX_PRESENTATION_FEEDBACKS
    requires commit in d.obligations && commit !in NotePresented(d, f, k, feedback).obligations
    ensures Answered(NotePresented(d, f, k, feedback).feedbacks, commit) && commit in Satisfied(d.obligations, f, k)
  {
    hide NoteOne, InsertAll;
    InsertAllAnswers(d.feedbacks, Satisfied(d.obligations, f, k), feedback, commit);
  }

  lemma CompletionFulfils(w: World, t: Token, outcome: Completion, completes: bool, commit: U64)
    requires DebtsOk(false, w) && commit in w.display.obligations
    requires commit !in FinishCompletion(w, t, outcome, completes).0.display.obligations
    ensures FinishCompletion(w, t, outcome, completes).1 == Presented
    ensures Fulfilled(w, FinishCompletion(w, t, outcome, completes).0, commit, t.outputId)
  {
    hide NotePresented, FailRuntime, FinishCompletion, Preflight, Satisfied, Answered;
    if Preflight(w.display, t).None? {
      var d := w.display;
      PreflightMeans(d, t);
      var r := d.outputs[t.outputId];
      var o := r.outstanding.value;
      CompletionTables(w, t, outcome, completes);
      CompletionOutputs(w, t, outcome, completes);
      NoteFulfils(d.(outputs := d.outputs[t.outputId := PresentRuntime(r, o)]), o.frame, t.outputId,
                  Feedback(Min(r.scheduler.period, U32_MAX), t.sequence), commit);
    } else {
      RefusedCompletion(w, t, outcome, completes);
    }
  }

  lemma CommitFulfils(w: World, id: string, s: Scene, submits: bool, completes: bool, commit: U64)
    requires DebtsOk(false, w) && id in w.display.outputs && w.display.outputs[id].output.outputId == id
    requires commit in w.display.obligations && commit !in CommitOutput(w, id, s, submits, completes).0.display.obligations
    ensures Fulfilled(w, CommitOutput(w, id, s, submits, completes).0, commit, id)
  {
    hide ComposedFrame, ValidatedForDamage, Decodable, FinishCompletion, DebtsOk, Fulfilled;
    var r := w.display.outputs[id];
    var frame := ComposedFrame(w.display, s, r);
    ComposedFrameOutput(w.display, s, r);
    var token := TokenFor(w.backend, frame);
    var inFlight := WithRuntime(w.(backend := Submit(w.backend, frame)), id, InFlight(r, frame, token));
    SameDebtsTables(w, inFlight);
    CompletionFulfils(inFlight, token, Presented, completes, commit);
    SameFulfilment(inFlight, w, CommitOutput(w, id, s, submits, completes).0, commit, id);
  }

  lemma SameFulfilment(a: World, b: World, after: World, commit: U64, k: string)
    requires a.display.obligations == b.display.obligations && Fulfilled(a, after, commit, k)
    ensures Fulfilled(b, after, commit, k)
  {
  }

  lemma SameDebtsTables(a: World, b: World)
    requires SameDebts(a, b)
    ensures DebtsOk(false, a) <==> DebtsOk(false, b)
  {
  }

  lemma TickFulfils(w: World, e: Event, commit: U64)
    requires DebtsOk(false, w) && e.Tick? && (e.outputId in w.display.outputs ==> w.display.outputs[e.outputId].output.outputId == e.outputId)
    requires commit in w.display.obligations && commit !in TickOutput(w, e).0.display.obligations
    ensures Fulfilled(w, TickOutput(w, e).0, commit, e.outputId)
  {
    hide CommitOutput, DebtsOk, Fulfilled;
    var r := w.display.outputs[e.outputId];
    var a := AdvancePresentation(r, e.outputGeneration, e.now, e.tickSequence);
    var ticked := WithRuntime(w, e.outputId, a.runtime);
    SameDebtsTables(w, ticked);
    AdvanceKeepsOutput(r, e.outputGeneration, e.now, e.tickSequence);
    hide AdvancePresentation;
    CommitFulfils(ticked, e.outputId, w.display.lastScene.value, e.submits, e.completes, commit);
    SameFulfilment(ticked, w, TickOutput(w, e).0, commit, e.outputId);
  }

  lemma AdvanceKeepsOutput(r: Runtime, generation: U64, now: U64, tickSequence: U64)
    ensures var a := AdvancePresentation(r, generation, now, tickSequence); !a.StaleOutput? ==> a.runtime.output == r.output
  {
  }

  lemma AcceptKeepsOwing(w: World, request: SceneRequest, fault: DiskFault)
    ensures Accept(w, request, fault).1 != Died ==> w.display.obligations.Keys <= Accept(w, request, fault).0.display.obligations.Keys
  {
    hide Judge, DamageOutputs;
  }

  lemma ChangeKeepsOwing(w: World, e: OutputEvent)
    ensures ApplyOutputEvent(w, e).1 != Died ==> w.display.obligations.Keys <= ApplyOutputEvent(w, e).0.display.obligations.Keys
  {
    hide CheckConnect, ConnectedRuntime, ReconfigureOutput, RetireOutstanding, RemoveOutput, TokensOf, OfInstance, DisabledRuntime;
  }

  lemma StepFulfils(w: World, e: Event, commit: U64)
    requires DebtsOk(false, w) && AllQuiet(w.display.outputs)
    requires commit in w.display.obligations && commit !in Step(w, e).0.display.obligations
    ensures
      || e.Restart? || Step(w, e).1 == Died
      || ((e.Tick? || (e.Complete? && Step(w, e).1 == Completed(Presented))) && Fulfilled(w, Step(w, e).0, commit, OutputOf(e)))
  {
    hide Accept, TickOutput, FinishCompletion, ApplyOutputEvent, DebtsOk, Fulfilled;
    match e
    case Commit(request, fault) => AcceptKeepsOwing(w, request, fault);
    case Reconcile(epoch, request, fault) => AcceptKeepsOwing(w, request, fault);
    case BeginReconciliation(epoch) =>
    case Tick(_, _, _, _, _, _) => TickFulfils(w, e, commit);
    case Complete(token, outcome, completes) => CompletionFulfils(w, token, outcome, completes, commit);
    case OutputChange(change) => ChangeKeepsOwing(w, change);
    case Restart(boot) =>
  }

  /** No obligation is lost. In every reachable state, a step takes a commit off the table only
      when the process ends, or when it presents on an output the frame that was all the commit
      still waited for; the commit is then answered. */
  lemma NoObligationLost(kind: BackendKind, boot: Boot, events: seq<Event>, e: Event, commit: U64)
    requires commit in Run(Initial(kind, boot), events).display.obligations
    requires commit !in Step(Run(Initial(kind, boot), events), e).0.display.obligations
    ensures var w := Run(Initial(kind, boot), events);
      || e.Restart? || Step(w, e).1 == Died
      || ((e.Tick? || (e.Complete? && Step(w, e).1 == Completed(Presented))) && Fulfilled(w, Step(w, e).0, commit, OutputOf(e)))
  {
    hide Run, Step, Fulfilled;
    RunKeepsTables(Initial(kind, boot), events);
    RunKeepsQuiet(Initial(kind, boot), events);
    StepFulfils(Run(Initial(kind, boot), events), e, commit);
  }
}
