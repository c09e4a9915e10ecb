/** Readiness reports, and why every one displayd sends passes its own validation. */
module Readiness {
  import opened Machine
  import opened SceneTypes
  import opened Composition
  import opened Renderer
  import opened Admission
  import opened Geometry
  import opened Pipeline
  import opened Refinement

  datatype OutputReadinessState =
    | ConfiguredAwaitingPublication | SubmittedAwaitingPresentation | OutputReady
    | PublicationFailed | OutputRetryPending | Reconfiguring | OutputDisabled

  datatype OutputReadiness = OutputReadiness(
    outputId: string, outputGeneration: U64, state: OutputReadinessState,
    lastPublishedFrameId: U64, lastPublishedSceneGeneration: U64, pendingDamage: bool, retryPending: bool)

  datatype ServiceState = LiveNotReady | ServiceReady | PartiallyReady | ServiceFailed

  datatype ServiceReadiness = ServiceReadiness(
    canonicalSceneAvailable: bool, rendererAvailable: bool,
    configuredCount: nat, readyCount: nat, failedCount: nat, retryCount: nat,
    state: ServiceState, outputs: seq<OutputReadiness>)

  predicate FailedOrRetrying(o: OutputReadiness)
  {
    o.state == OutputReadinessState.PublicationFailed || o.state == OutputRetryPending
  }

  function Count(outputs: seq<OutputReadiness>, p: OutputReadiness -> bool): nat
  {
    if outputs == [] then 0
    else Count(outputs[..|outputs| - 1], p) + if p(outputs[|outputs| - 1]) then 1 else 0
  }

  predicate IsReady(o: OutputReadiness) { o.state == OutputReady }

  predicate IsRetrying(o: OutputReadiness) { o.retryPending }

  // --------------------------------------------------------------------- the report

  function OutputReport(k: string, r: Runtime): OutputReadiness
  {
    OutputReadiness(
      k, r.output.generation,
      if r.disabled then OutputDisabled
      else if r.retry.Some? then OutputRetryPending
      else if r.outstanding.Some? then SubmittedAwaitingPresentation
      else if r.publishedFrameId != 0 && r.pendingDamage == [] then OutputReady
      else ConfiguredAwaitingPublication,
      r.publishedFrameId, r.lastPublishedSceneGeneration, r.pendingDamage != [], r.retry.Some?)
  }

  /** The registry's keys, each once, in the order it is walked. */
  ghost predicate Walks(order: seq<string>, outputs: map<string, Runtime>)
  {
    && (forall i, j :: 0 <= i < j < |order| ==> order[i] != order[j])
    && (forall k :: k in order <==> k in outputs)
  }

  /** `readiness_from_state`. */
  function Report(d: Display, order: seq<string>, rendererAvailable: bool): ServiceReadiness
    requires forall i :: 0 <= i < |order| ==> order[i] in d.outputs
  {
    var outputs := seq(|order|, i requires 0 <= i < |order| => OutputReport(order[i], d.outputs[order[i]]));
    var ready := Count(outputs, IsReady);
    ServiceReadiness(
      d.lastScene.Some?, rendererAvailable,
      |outputs|, ready, Count(outputs, FailedOrRetrying), Count(outputs, IsRetrying),
      if !rendererAvailable || outputs == [] then LiveNotReady
      else if ready == |outputs| then ServiceReady
      else if ready > 0 then PartiallyReady
      else ServiceFailed,
      outputs)
  }

  // --------------------------------------------------------------------- validation

  predicate OutputConsistent(o: OutputReadiness)
  {
    && (o.retryPending ==> o.state == OutputRetryPending)
    && (o.state == OutputReady ==> !o.retryPending && !o.pendingDamage)
  }

  ghost predicate DistinctOutputs(outputs: seq<OutputReadiness>)
  {
    forall i, j :: 0 <= i < j < |outputs| ==> outputs[i].outputId != outputs[j].outputId
  }

  /** What `ServiceReadiness::validate` accepts. */
  ghost predicate ValidReport(s: ServiceReadiness)
  {
    && DistinctOutputs(s.outputs)
    && (forall i :: 0 <= i < |s.outputs| ==> OutputConsistent(s.outputs[i]))
    && s.configuredCount == |s.outputs|
    && s.readyCount == Count(s.outputs, IsReady)
    && s.retryCount == Count(s.outputs, IsRetrying)
    && s.failedCount == Count(s.outputs, FailedOrRetrying)
    && (s.state == ServiceReady ==> s.readyCount != 0)
  }

  /** `ServiceReadiness::validate`. */
  method Validate(s: ServiceReadiness) returns (ok: bool)
    ensures ok <==> ValidReport(s)
  {
    var ids: set<string> := {};
    for i := 0 to |s.outputs|
      invariant DistinctOutputs(s.outputs[..i])
      invariant forall k :: 0 <= k < i ==> OutputConsistent(s.outputs[k])
      invariant forall id :: id in ids <==> exists k :: 0 <= k < i && s.outputs[k].outputId == id
    {
      var o := s.outputs[i];
      if o.outputId in ids {
        return false;
      }
      if o.retryPending && o.state != OutputRetryPending {
        return false;
      }
      if o.state == OutputReady && (o.retryPending || o.pendingDamage) {
        return false;
      }
      ids := ids + {o.outputId};
    }
    assert s.outputs[..|s.outputs|] == s.outputs;
    if s.configuredCount != |s.outputs| || s.readyCount != Count(s.outputs, IsReady)
       || s.retryCount != Count(s.outputs, IsRetrying) || s.failedCount != Count(s.outputs, FailedOrRetrying) {
      return false;
    }
    ok := !(s.state == ServiceReady && s.readyCount == 0);
  }

  // ------------------------------------------------------------------------ results

  lemma {:induction false} CountMeans(outputs: seq<OutputReadiness>, p: OutputReadiness -> bool)
    ensures 0 <= Count(outputs, p) <= |outputs|
    ensures Count(outputs, p) == |outputs| <==> forall i :: 0 <= i < |outputs| ==> p(outputs[i])
    ensures Count(outputs, p) > 0 <==> exists i :: 0 <= i < |outputs| && p(outputs[i])
  {
    if outputs != [] {
      CountMeans(outputs[..|outputs| - 1], p);
    }
  }

  /** An output has arrived: it is enabled, showed a frame, and has nothing left to show, to
      wait for or to retry. */
  predicate Arrived(r: Runtime)
  {
    !r.disabled && r.publishedFrameId != 0 && r.pendingDamage == [] && r.outstanding.None? && r.retry.None?
  }

  lemma OutputReportSays(k: string, r: Runtime)
    ensures var o := OutputReport(k, r);
      && o.outputId == k && o.outputGeneration == r.output.generation
      && (o.state == OutputReady <==> Arrived(r)) && (o.state == OutputDisabled <==> r.disabled)
      && (o.state == OutputRetryPending <==> !r.disabled && r.retry.Some?)
      && (o.state == SubmittedAwaitingPresentation <==> !r.disabled && r.retry.None? && r.outstanding.Some?)
      && o.lastPublishedFrameId == r.publishedFrameId && o.lastPublishedSceneGeneration == r.lastPublishedSceneGeneration
      && (o.pendingDamage <==> r.pendingDamage != []) && (o.retryPending <==> r.retry.Some?)
  {
  }

  /** Some, and every, output of the walk has arrived. */
  lemma WalkedArrivals(d: Display, order: seq<string>, reports: seq<OutputReadiness>)
    requires Walks(order, d.outputs) && |reports| == |order|
    requires forall i :: 0 <= i < |order| ==> reports[i] == OutputReport(order[i], d.outputs[order[i]])
    ensures (forall i :: 0 <= i < |reports| ==> IsReady(reports[i])) <==> forall k :: k in d.outputs ==> Arrived(d.outputs[k])
    ensures (exists i :: 0 <= i < |reports| && IsReady(reports[i])) <==> exists k :: k in d.outputs && Arrived(d.outputs[k])
    ensures reports == [] <==> d.outputs == map[]
  {
    hide OutputReport, Arrived;
    forall i | 0 <= i < |order|
      ensures order[i] in d.outputs && (IsReady(reports[i]) <==> Arrived(d.outputs[order[i]]))
    {
      assert order[i] in order;
      OutputReportSays(order[i], d.outputs[order[i]]);
    }
    forall k | k in d.outputs
      ensures exists i :: 0 <= i < |order| && order[i] == k
    {
      assert k in order;
    }
    if reports == [] {
      assert d.outputs.Keys == {};
    } else {
      assert order[0] in d.outputs;
    }
  }

  /** What a report says: ready exactly when the renderer is there and every one of one or more
      outputs has arrived; partially when some but not all have; failed when none has; and each
      output as it is. */
  lemma ReportSays(d: Display, order: seq<string>, rendererAvailable: bool)
    requires Walks(order, d.outputs)
    ensures var report := Report(d, order, rendererAvailable);
      var all := forall k :: k in d.outputs ==> Arrived(d.outputs[k]);
      var some := exists k :: k in d.outputs && Arrived(d.outputs[k]);
      && report.state == (if !rendererAvailable || d.outputs == map[] then LiveNotReady
                          else if all then ServiceReady else if some then PartiallyReady else ServiceFailed)
      && (report.canonicalSceneAvailable <==> d.lastScene.Some?) && (report.rendererAvailable <==> rendererAvailable)
      && |report.outputs| == |order|
      && forall i :: 0 <= i < |order| ==> report.outputs[i] == OutputReport(order[i], d.outputs[order[i]])
  {
    hide OutputReport, Arrived, IsReady, Count;
    var report := Report(d, order, rendererAvailable);
    forall i | 0 <= i < |order|
      ensures order[i] in d.outputs
    {
      assert order[i] in order;
    }
    CountMeans(report.outputs, IsReady);
    WalkedArrivals(d, order, report.outputs);
  }

  /** A report validates exactly when no disabled output still owes a retry. */
  lemma ReportValidates(d: Display, order: seq<string>, rendererAvailable: bool)
    requires Walks(order, d.outputs)
    ensures ValidReport(Report(d, order, rendererAvailable)) <==> forall k :: k in d.outputs && d.outputs[k].disabled ==> d.outputs[k].retry.None?
  {
    var report := Report(d, order, rendererAvailable);
    if ValidReport(report) {
      forall k | k in d.outputs && d.outputs[k].disabled
        ensures d.outputs[k].retry.None?
      {
        assert k in order;
        var i :| 0 <= i < |order| && order[i] == k;
        assert OutputConsistent(report.outputs[i]);
      }
    }
  }

  // ------------------------------------------------------------- disabled outputs

  /** A disabled output has nothing in flight and nothing to retry. */
  predicate Quiet(r: Runtime)
  {
    r.disabled ==> r.retry.None? && r.outstanding.None?
  }

  /** Every output is filed under its name, and quiet when disabled. */
  ghost predicate AllQuiet(outputs: map<string, Runtime>)
  {
    forall k :: k in outputs ==> outputs[k].output.outputId == k && Quiet(outputs[k])
  }

  lemma AcceptKeepsQuiet(w: World, request: SceneRequest, fault: DiskFault)
    requires AllQuiet(w.display.outputs)
    ensures AllQuiet(Accept(w, request, fault).0.display.outputs)
  {
    hide Judge, Rebind, DamageOutputs, AllQuiet, BootOutputs, ActiveOutputs;
    var c := WithCanonicalSurfaces(request);
    var v := Judge(w.display, c);
    if v.Proceed? {
      DamageKeepsQuiet(w.display.outputs, v.damage, c.version, w.display.nextCommitId);
      if v.replayed.Some? {
        DamageKeepsQuiet(w.display.outputs, v.damage, c.version, v.replayed.value);
      }
      if fault.DiesBeforeRename? || fault.DiesAfterRename? {
        BootIsQuiet(fault.boot);
      }
    }
  }

  lemma BootIsQuiet(boot: Boot)
    ensures AllQuiet(BootOutputs(boot))
  {
  }

  lemma DamageKeepsQuiet(outputs: map<string, Runtime>, damage: map<string, seq<Rect>>, v: Version, commitId: U64)
    requires AllQuiet(outputs)
    ensures AllQuiet(DamageOutputs(outputs, damage, v, commitId))
  {
  }

  lemma CompletionKeepsQuiet(w: World, t: Token, outcome: Completion, completes: bool)
    requires AllQuiet(w.display.outputs)
    ensures AllQuiet(FinishCompletion(w, t, outcome, completes).0.display.outputs)
  {
    hide FinishCompletion;
    if Preflight(w.display, t).None? {
      CompletionOutputs(w, t, outcome, completes);
    } else {
      RefusedCompletionChangesNothing(w, t, outcome, completes);
    }
  }

  lemma RefusedCompletionChangesNothing(w: World, t: Token, outcome: Completion, completes: bool)
    requires Preflight(w.display, t).Some?
    ensures FinishCompletion(w, t, outcome, completes) == (w, Preflight(w.display, t).value)
  {
  }

  lemma EnabledIsQuiet(r: Runtime, f: Frame, t: Token, scheduler: Scheduler)
    requires !r.disabled
    ensures Quiet(r.(scheduler := scheduler)) && Quiet(SubmissionFailed(r, f)) && Quiet(InFlight(r, f, t))
    ensures SubmissionFailed(r, f).output == r.output && InFlight(r, f, t).output == r.output
  {
  }

  lemma WithQuietRuntime(w: World, id: string, r: Runtime)
    requires AllQuiet(w.display.outputs) && Quiet(r) && r.output.outputId == id
    ensures AllQuiet(WithRuntime(w, id, r).display.outputs)
  {
  }

  lemma QuietAt(w: World, id: string)
    requires AllQuiet(w.display.outputs) && id in w.display.outputs
    ensures w.display.outputs[id].output.outputId == id && Quiet(w.display.outputs[id])
  {
  }

  lemma CommitKeepsQuiet(w: World, id: string, s: Scene, submits: bool, completes: bool)
    requires id in w.display.outputs && AllQuiet(w.display.outputs)
    ensures AllQuiet(CommitOutput(w, id, s, submits, completes).0.display.outputs)
  {
    hide ComposedFrame, ValidatedForDamage, Decodable, FinishCompletion, Quiet, AllQuiet, SubmissionFailed, InFlight;
    QuietAt(w, id);
    var r := w.display.outputs[id];
    var frame := ComposedFrame(w.display, s, r);
    var token := TokenFor(w.backend, frame);
    if !r.disabled {
      EnabledIsQuiet(r, frame, token, r.scheduler.(state := PresentationBlocked));
      EnabledIsQuiet(r, frame, token, r.scheduler.(state := Idle));
      WithQuietRuntime(w, id, r.(scheduler := r.scheduler.(state := PresentationBlocked)));
      WithQuietRuntime(w, id, r.(scheduler := r.scheduler.(state := Idle)));
      WithQuietRuntime(w, id, SubmissionFailed(r, frame));
      var submitted := w.(backend := Submit(w.backend, frame));
      WithQuietRuntime(submitted, id, InFlight(r, frame, token));
      CompletionKeepsQuiet(WithRuntime(submitted, id, InFlight(r, frame, token)), token, Presented, completes);
    }
  }

  lemma AdvanceKeepsQuiet(r: Runtime, generation: U64, now: U64, tickSequence: U64)
    requires Quiet(r)
    ensures var a := AdvancePresentation(r, generation, now, tickSequence); !a.StaleOutput? ==> Quiet(a.runtime) && a.runtime.output == r.output
  {
  }

  lemma TickKeepsQuiet(w: World, e: Event)
    requires e.Tick? && AllQuiet(w.display.outputs)
    ensures AllQuiet(TickOutput(w, e).0.display.outputs)
  {
    hide CommitOutput, AdvancePresentation, Quiet, AllQuiet;
    if e.outputId in w.display.outputs {
      QuietAt(w, e.outputId);
      AdvanceKeepsQuiet(w.display.outputs[e.outputId], e.outputGeneration, e.now, e.tickSequence);
      var a := AdvancePresentation(w.display.outputs[e.outputId], e.outputGeneration, e.now, e.tickSequence);
      if !a.StaleOutput? {
        WithQuietRuntime(w, e.outputId, a.runtime);
      }
      if a.Ticked? && w.display.lastScene.Some? {
        CommitKeepsQuiet(WithRuntime(w, e.outputId, a.runtime), e.outputId, w.display.lastScene.value, e.submits, e.completes);
      }
    }
  }

  lemma ConnectKeepsQuiet(w: World, e: OutputEvent)
    requires e.Up? && AllQuiet(w.display.outputs)
    ensures AllQuiet(Connect(w, e).0.display.outputs)
  {
    hide CheckConnect, Rebind, ReconfigureOutput, RetireOutstanding;
    ConnectableName(w.display, e);
  }

  lemma ConnectableName(d: Display, e: OutputEvent)
    requires e.Up?
    ensures CheckConnect(d, e).Connectable? ==> CheckConnect(d, e).output.outputId == e.outputId
  {
    hide TotalFramebufferBytes;
  }

  lemma RemovalKeepsQuiet(outputs: map<string, Runtime>, ids: set<string>)
    requires AllQuiet(outputs)
    ensures AllQuiet(outputs - ids)
  {
  }

  lemma DisabledIsQuiet(r: Runtime)
    ensures Quiet(DisabledRuntime(r)) && DisabledRuntime(r).output == r.output
  {
  }

  lemma ChangeKeepsQuiet(w: World, e: OutputEvent)
    requires AllQuiet(w.display.outputs)
    ensures AllQuiet(ApplyOutputEvent(w, e).0.display.outputs)
  {
    hide Connect, RetireOutstanding, RemoveOutput, TokensOf, OfInstance, DisabledRuntime, AllQuiet, Quiet;
    var adopted := AdoptEpoch(w, e.instance);
    match e {
      case Up(_, _, _, _, _, _) => ConnectKeepsQuiet(adopted, e);
      case Disabled(_, id, _, _) =>
        if id in w.display.outputs {
          var r := w.display.outputs[id];
          QuietAt(w, id);
          DisabledIsQuiet(r);
          WithQuietRuntime(adopted.(backend := RemoveOutput(RetireOutstanding(adopted.backend, r), id)), id, DisabledRuntime(r));
        }
      case Disconnected(_, id, _, _) => RemovalKeepsQuiet(w.display.outputs, {id});
      case BackendReset(instance, _) => RemovalKeepsQuiet(w.display.outputs, OfInstance(adopted.display, instance));
    }
  }

  /** Every event, without exception, keeps disabled outputs quiet. */
  lemma StepKeepsQuiet(w: World, e: Event)
    requires AllQuiet(w.display.outputs)
    ensures AllQuiet(Step(w, e).0.display.outputs)
  {
    hide Accept, TickOutput, FinishCompletion, ApplyOutputEvent;
    match e
    case Commit(request, fault) => AcceptKeepsQuiet(w, request, fault);
    case Reconcile(epoch, request, fault) => AcceptKeepsQuiet(w, request, fault);
    case BeginReconciliation(epoch) =>
    case Tick(_, _, _, _, _, _) => TickKeepsQuiet(w, e);
    case Complete(token, outcome, completes) => CompletionKeepsQuiet(w, token, outcome, completes);
    case OutputChange(change) => ChangeKeepsQuiet(w, change);
    case Restart(boot) =>
  }

  lemma {:induction false} RunKeepsQuiet(w: World, events: seq<Event>)
    requires AllQuiet(w.display.outputs)
    ensures AllQuiet(Run(w, events).display.outputs)
    decreases |events|
  {
    hide Step, AllQuiet;
    if events != [] {
      StepKeepsQuiet(w, events[0]);
      RunKeepsQuiet(Step(w, events[0]).0, events[1..]);
    }
  }

  /** Every report of a reachable state passes validation, whatever happened on the way. */
  lemma ReachableReportsValidate(kind: BackendKind, boot: Boot, events: seq<Event>, order: seq<string>, rendererAvailable: bool)
    requires Walks(order, Run(Initial(kind, boot), events).display.outputs)
    ensures ValidReport(Report(Run(Initial(kind, boot), events).display, order, rendererAvailable))
  {
    hide Run;
    RunKeepsQuiet(Initial(kind, boot), events);
    ReportValidates(Run(Initial(kind, boot), events).display, order, rendererAvailable);
  }
}
