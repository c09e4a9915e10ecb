/** When a tick may submit: one frame per refresh period, and exactly when something waits. */
module Pacing {
  import opened Machine
  import opened SceneTypes
  import opened Geometry
  import opened Composition
  import opened Renderer
  import opened Admission
  import opened Pipeline
  import opened Refinement
  import opened Readiness

  /** The tick finds its output due. */
  ghost predicate DueTick(w: World, e: Event)
  {
    && e.Tick? && e.outputId in w.display.outputs
    && var a := AdvancePresentation(w.display.outputs[e.outputId], e.outputGeneration, e.now, e.tickSequence);
       a.Ticked? && a.eligible
  }

  /** When the output may submit again, the last due tick having been at `last`. */
  function Earliest(last: Option<U64>, period: U64): U64
  {
    if last.None? then 0 else Min(last.value + period, U64_MAX)
  }

  // --------------------------------------------------------------- what a runtime keeps

  /** Something to submit is something pending; what is in flight has it pending as well; and
      a frame that failed puts it back. */
  ghost predicate Waiting(r: Runtime)
  {
    !r.disabled ==>
      && (r.scheduler.state == DamagePending || r.scheduler.state == SchedulerState.RetryPending ==> r.pendingDamage != [])
      && (r.outstanding.Some? ==> r.pendingDamage != [] && r.outstanding.value.frame.damage != [])
      && r.scheduler.outputGeneration == r.output.generation
  }

  /** The times of the last due ticks, per output since it was (re)connected. */
  type Times = map<string, U64>

  function LastOf(times: Times, k: string): Option<U64>
  {
    if k in times then Some(times[k]) else None
  }

  ghost predicate Paced(times: Times, k: string, r: Runtime)
  {
    Waiting(r) && r.scheduler.nextEligible == Earliest(LastOf(times, k), r.scheduler.period)
  }

  ghost predicate AllPaced(times: Times, outputs: map<string, Runtime>)
  {
    forall k :: k in outputs ==> Paced(times, k, outputs[k])
  }

  /** The same output goes on, with the same period; the step neither replaces it nor ends
      the process. */
  ghost predicate GoesOn(w: World, e: Event, k: string)
  {
    && !e.Restart? && Step(w, e).1 != Died
    && k in w.display.outputs && k in Step(w, e).0.display.outputs
    && Step(w, e).0.display.outputs[k].output == w.display.outputs[k].output
  }

  /** The clock of last due ticks: a due tick sets its output's, a replaced or removed output
      forgets its own. */
  ghost function NextTimes(times: Times, w: World, e: Event): Times
  {
    map k | k in Step(w, e).0.display.outputs.Keys + times.Keys
      && GoesOn(w, e, k) && (k in times || (DueTick(w, e) && e.outputId == k)) ::
      if DueTick(w, e) && e.outputId == k then e.now else times[k]
  }

  ghost function RunTimes(times: Times, w: World, events: seq<Event>): Times
    decreases |events|
  {
    if events == [] then times else RunTimes(NextTimes(times, w, events[0]), Step(w, events[0]).0, events[1..])
  }

  // ------------------------------------------------------------------ one runtime, one step

  /** How a step may leave a runtime that goes on: pace and period as they were, or set by a
      due tick at `now`. */
  ghost predicate Keeps(before: Runtime, after: Runtime)
  {
    && after.output == before.output && after.scheduler.period == before.scheduler.period
    && after.scheduler.nextEligible == before.scheduler.nextEligible
    && (Waiting(before) ==> Waiting(after))
  }

  ghost predicate Fresh(r: Runtime)
  {
    Waiting(r) && r.scheduler.nextEligible == 0
  }

  /** Every runtime after a step without a tick is kept, or fresh; and a fresh one is not the
      output there was. */
  ghost predicate KeptOrFresh(before: map<string, Runtime>, after: map<string, Runtime>)
  {
    forall k :: k in after ==> KeptAt(before, after, k)
  }

  ghost predicate KeptAt(before: map<string, Runtime>, after: map<string, Runtime>, k: string)
    requires k in after
  {
    || (k in before && Keeps(before[k], after[k]))
    || (Fresh(after[k]) && (k in before ==> after[k].output != before[k].output))
  }

  lemma NothingChanges(outputs: map<string, Runtime>)
    ensures KeptOrFresh(outputs, outputs)
  {
  }

  lemma DamageKeeps(outputs: map<string, Runtime>, damage: map<string, seq<Rect>>, v: Version, commitId: U64)
    ensures KeptOrFresh(outputs, DamageOutputs(outputs, damage, v, commitId))
  {
  }

  lemma RemovalKeeps(outputs: map<string, Runtime>, ids: set<string>)
    ensures KeptOrFresh(outputs, outputs - ids)
  {
  }

  lemma UpdateKeeps(outputs: map<string, Runtime>, k: string, r: Runtime)
    requires k in outputs && Keeps(outputs[k], r)
    ensures KeptOrFresh(outputs, outputs[k := r])
  {
    hide Keeps;
    forall j | j in outputs
      ensures Keeps(outputs[j], outputs[j])
    {
      SameKeeps(outputs[j]);
    }
  }

  lemma SameKeeps(r: Runtime)
    ensures Keeps(r, r)
  {
  }

  lemma KeepsTwice(a: Runtime, b: Runtime, c: Runtime)
    requires Keeps(a, b) && Keeps(b, c)
    ensures Keeps(a, c)
  {
  }

  lemma AcceptKeeps(w: World, request: SceneRequest, fault: DiskFault)
    ensures Accept(w, request, fault).1 != Died ==> KeptOrFresh(w.display.outputs, Accept(w, request, fault).0.display.outputs)
  {
    hide Judge, Rebind, DamageOutputs, KeptOrFresh, Load;
    var r := WithCanonicalSurfaces(request);
    var verdict := Judge(w.display, r);
    NothingChanges(w.display.outputs);
    if verdict.Proceed? {
      var commitId := if verdict.replayed.Some? then verdict.replayed.value else w.display.nextCommitId;
      DamageKeeps(w.display.outputs, verdict.damage, r.version, commitId);
    }
  }

  lemma PresentationKeeps(r: Runtime)
    requires r.outstanding.Some? && !r.disabled
    ensures Keeps(r, PresentRuntime(r, r.outstanding.value)) && Keeps(r, FailRuntime(r, r.outstanding.value))
  {
  }

  lemma CompletionKeeps(w: World, t: Token, outcome: Completion, completes: bool)
    requires AllQuiet(w.display.outputs)
    ensures KeptOrFresh(w.display.outputs, FinishCompletion(w, t, outcome, completes).0.display.outputs)
  {
    hide FinishCompletion, Keeps, PresentRuntime, FailRuntime, KeptOrFresh;
    NothingChanges(w.display.outputs);
    if Preflight(w.display, t).None? {
      var r := w.display.outputs[t.outputId];
      CompletionOutputs(w, t, outcome, completes);
      QuietAt(w, t.outputId);
      PresentationKeeps(r);
      UpdateKeeps(w.display.outputs, t.outputId, PresentRuntime(r, r.outstanding.value));
      UpdateKeeps(w.display.outputs, t.outputId, FailRuntime(r, r.outstanding.value));
    } else {
      RefusedCompletionChangesNothing(w, t, outcome, completes);
    }
  }

  lemma ConnectKeeps(w: World, e: OutputEvent)
    requires e.Up?
    ensures Connect(w, e).1 != Died ==> KeptOrFresh(w.display.outputs, Connect(w, e).0.display.outputs)
  {
    hide CheckConnect, Rebind, ReconfigureOutput, RetireOutstanding, Keeps;
    ConnectReplaces(w.display, e);
    forall k | k in w.display.outputs
      ensures Keeps(w.display.outputs[k], w.display.outputs[k])
    {
      SameKeeps(w.display.outputs[k]);
    }
  }

  /** A reconfigured output is of a later generation. */
  lemma ConnectReplaces(d: Display, e: OutputEvent)
    requires e.Up?
    ensures CheckConnect(d, e).Connectable? && e.outputId in d.outputs ==>
      d.outputs[e.outputId].output.generation < CheckConnect(d, e).output.generation
  {
    hide TotalFramebufferBytes;
  }

  lemma DisabledKeeps(r: Runtime)
    ensures Keeps(r, DisabledRuntime(r))
  {
  }

  lemma ChangeKeeps(w: World, e: OutputEvent)
    ensures ApplyOutputEvent(w, e).1 != Died ==> KeptOrFresh(w.display.outputs, ApplyOutputEvent(w, e).0.display.outputs)
  {
    hide Connect, RetireOutstanding, RemoveOutput, TokensOf, OfInstance, DisabledRuntime, KeptOrFresh, Keeps;
    var adopted := AdoptEpoch(w, e.instance);
    NothingChanges(w.display.outputs);
    match e {
      case Up(_, _, _, _, _, _) => ConnectKeeps(adopted, e);
      case Disabled(_, id, _, _) =>
        if id in w.display.outputs {
          DisabledKeeps(w.display.outputs[id]);
          UpdateKeeps(w.display.outputs, id, DisabledRuntime(w.display.outputs[id]));
        }
      case Disconnected(_, id, _, _) => RemovalKeeps(w.display.outputs, {id});
      case BackendReset(instance, _) => RemovalKeeps(w.display.outputs, OfInstance(adopted.display, instance));
    }
  }

  lemma BeginKeeps(w: World, epoch: U64)
    ensures KeptOrFresh(w.display.outputs, Begin(w, epoch).0.display.outputs)
  {
  }

  lemma ScheduledKeeps(r: Runtime, f: Frame, t: Token)
    requires !r.disabled && r.outstanding.None?
    requires f.damage != []
    ensures Keeps(r, r.(scheduler := r.scheduler.(state := Idle)))
    ensures Keeps(r, SubmissionFailed(r, f))
    ensures r.pendingDamage != [] ==> Keeps(r, InFlight(r, f, t))
  {
  }

  lemma BlockedKeeps(r: Runtime)
    ensures Keeps(r, r.(scheduler := r.scheduler.(state := PresentationBlocked)))
    ensures Keeps(r, r.(scheduler := r.scheduler.(state := Idle)))
  {
  }

  lemma ComposedDamageExists(d: Display, s: Scene, r: Runtime)
    ensures ComposedFrame(d, s, r).damage == [] <==> r.pendingDamage == []
  {
  }

  /** Submitting a frame, completed at once or not. */
  lemma SubmissionKeeps(w: World, id: string, f: Frame, completes: bool)
    requires id in w.display.outputs && AllQuiet(w.display.outputs) && f.damage != []
    requires var r := w.display.outputs[id]; !r.disabled && r.outstanding.None? && r.pendingDamage != []
    ensures var inFlight := WithRuntime(w.(backend := Submit(w.backend, f)), id, InFlight(w.display.outputs[id], f, TokenFor(w.backend, f)));
      var after := FinishCompletion(inFlight, TokenFor(w.backend, f), Presented, completes).0;
      && KeptOrFresh(w.display.outputs, inFlight.display.outputs)
      && KeptOrFresh(w.display.outputs, after.display.outputs)
      && SameOutputs(w.display.outputs, inFlight.display.outputs) && SameOutputs(w.display.outputs, after.display.outputs)
  {
    hide FinishCompletion, Keeps, KeptOrFresh, AllQuiet, Quiet, InFlight;
    var r, token := w.display.outputs[id], TokenFor(w.backend, f);
    ScheduledKeeps(r, f, token);
    EnabledIsQuiet(r, f, token, r.scheduler);
    QuietAt(w, id);
    UpdateKeeps(w.display.outputs, id, InFlight(r, f, token));
    var submitted := w.(backend := Submit(w.backend, f));
    var inFlight := WithRuntime(submitted, id, InFlight(r, f, token));
    WithQuietRuntime(submitted, id, InFlight(r, f, token));
    CompletionKeeps(inFlight, token, Presented, completes);
    CompletionKeys(inFlight, token, Presented, completes);
    KeptTwice(w.display.outputs, inFlight.display.outputs, FinishCompletion(inFlight, token, Presented, completes).0.display.outputs);
  }

  lemma CommitKeeps(w: World, id: string, s: Scene, submits: bool, completes: bool)
    requires id in w.display.outputs && AllQuiet(w.display.outputs)
    ensures KeptOrFresh(w.display.outputs, CommitOutput(w, id, s, submits, completes).0.display.outputs)
    ensures SameOutputs(w.display.outputs, CommitOutput(w, id, s, submits, completes).0.display.outputs)
  {
    hide ComposedFrame, ValidatedForDamage, Decodable, FinishCompletion, Keeps, KeptOrFresh, SameOutputs, AllQuiet, SubmissionFailed, InFlight;
    var r := w.display.outputs[id];
    var frame := ComposedFrame(w.display, s, r);
    NothingChanges(w.display.outputs);
    SameUnchanged(w.display.outputs);
    BlockedKeeps(r);
    UpdateKeeps(w.display.outputs, id, r.(scheduler := r.scheduler.(state := PresentationBlocked)));
    UpdateKeeps(w.display.outputs, id, r.(scheduler := r.scheduler.(state := Idle)));
    SameUpdated(w.display.outputs, id, r.(scheduler := r.scheduler.(state := PresentationBlocked)));
    SameUpdated(w.display.outputs, id, r.(scheduler := r.scheduler.(state := Idle)));
    ComposedDamageExists(w.display, s, r);
    if !r.disabled && r.outstanding.None? && r.pendingDamage != [] {
      ScheduledKeeps(r, frame, TokenFor(w.backend, frame));
      EnabledIsQuiet(r, frame, TokenFor(w.backend, frame), r.scheduler);
      UpdateKeeps(w.display.outputs, id, SubmissionFailed(r, frame));
      SameUpdated(w.display.outputs, id, SubmissionFailed(r, frame));
      SubmissionKeeps(w, id, frame, completes);
    }
  }

  lemma SameUnchanged(outputs: map<string, Runtime>)
    ensures SameOutputs(outputs, outputs)
  {
  }

  lemma SameUpdated(outputs: map<string, Runtime>, k: string, r: Runtime)
    requires k in outputs && r.output == outputs[k].output
    ensures SameOutputs(outputs, outputs[k := r])
  {
  }

  /** The same outputs under the same names. */
  ghost predicate SameOutputs(a: map<string, Runtime>, b: map<string, Runtime>)
  {
    a.Keys == b.Keys && forall k :: k in a ==> a[k].output == b[k].output
  }

  lemma CompletionKeys(w: World, t: Token, outcome: Completion, completes: bool)
    ensures SameOutputs(w.display.outputs, FinishCompletion(w, t, outcome, completes).0.display.outputs)
  {
    hide FinishCompletion;
    if Preflight(w.display, t).None? {
      CompletionOutputs(w, t, outcome, completes);
    } else {
      RefusedCompletionChangesNothing(w, t, outcome, completes);
    }
  }

  lemma KeptTwice(a: map<string, Runtime>, b: map<string, Runtime>, c: map<string, Runtime>)
    requires KeptOrFresh(a, b) && KeptOrFresh(b, c) && SameOutputs(a, b) && SameOutputs(b, c)
    ensures KeptOrFresh(a, c)
  {
    hide Keeps, Fresh;
    forall k | k in c
      ensures KeptAt(a, c, k)
    {
      assert KeptAt(a, b, k) && KeptAt(b, c, k);
      KeepsTwice(a[k], b[k], c[k]);
    }
  }

  // ------------------------------------------------------------------------ ticks

  /** What a tick does to the pace: a due one sets it, any other leaves it. */
  lemma TickedPace(r: Runtime, generation: U64, now: U64, tickSequence: U64)
    ensures var a := AdvancePresentation(r, generation, now, tickSequence);
      !a.StaleOutput? ==>
        && a.runtime.output == r.output && a.runtime.scheduler.period == r.scheduler.period
        && a.runtime.scheduler.nextEligible == (if a.Ticked? && a.eligible then Earliest(Some(now), r.scheduler.period) else r.scheduler.nextEligible)
        && (Waiting(r) ==> Waiting(a.runtime))
  {
  }

  /** When a tick is due, from nothing but time, what waits, and what is in flight. */
  ghost predicate DueNow(r: Runtime, e: Event, last: Option<U64>)
    requires e.Tick?
  {
    && e.outputGeneration == r.output.generation
    && r.scheduler.lastTick <= e.now && r.scheduler.lastTickSequence < e.tickSequence
    && Earliest(last, r.scheduler.period) <= e.now
    && r.outstanding.None? && r.pendingDamage != []
  }

  lemma AdvanceExactly(times: Times, k: string, r: Runtime, e: Event)
    requires e.Tick? && e.outputId == k && Paced(times, k, r) && !r.disabled
    ensures var a := AdvancePresentation(r, e.outputGeneration, e.now, e.tickSequence);
      (a.Ticked? && a.eligible) <==> DueNow(r, e, LastOf(times, k))
  {
  }

  lemma DisabledIsNeverDue(w: World, e: Event)
    requires e.Tick? && e.outputId in w.display.outputs && w.display.outputs[e.outputId].disabled
    ensures !DueTick(w, e)
  {
  }

  // ------------------------------------------------------------------------- one step

  lemma KeptIsPaced(times: Times, before: map<string, Runtime>, after: map<string, Runtime>, k: string)
    requires k in after && k in before && KeptAt(before, after, k) && after[k].output == before[k].output && Paced(times, k, before[k])
    ensures Paced(times, k, after[k])
  {
  }

  lemma FreshIsPaced(times: Times, k: string, r: Runtime)
    requires Fresh(r) && k !in times
    ensures Paced(times, k, r)
  {
  }

  lemma BootIsPaced(times: Times, boot: Boot)
    requires times == map[]
    ensures AllPaced(times, BootOutputs(boot))
  {
  }

  /** Any step but a tick: every output keeps its pace, or starts afresh. */
  lemma OtherStepKeepsPace(times: Times, w: World, e: Event)
    requires AllPaced(times, w.display.outputs) && !e.Tick? && !e.Restart? && Step(w, e).1 != Died
    requires KeptOrFresh(w.display.outputs, Step(w, e).0.display.outputs)
    ensures AllPaced(NextTimes(times, w, e), Step(w, e).0.display.outputs)
  {
    hide Step, Paced, Fresh, Keeps;
    var after := Step(w, e).0.display.outputs;
    forall k | k in after
      ensures Paced(NextTimes(times, w, e), k, after[k])
    {
      assert KeptAt(w.display.outputs, after, k);
      NotATick(w, e);
      if GoesOn(w, e, k) {
        KeptIsPaced(times, w.display.outputs, after, k);
        SameTime(times, NextTimes(times, w, e), k, after[k]);
      } else {
        ReplacedIsFresh(w.display.outputs, after, k);
        FreshIsPaced(NextTimes(times, w, e), k, after[k]);
      }
    }
  }

  lemma NotATick(w: World, e: Event)
    requires !e.Tick?
    ensures !DueTick(w, e)
  {
  }

  lemma SameTime(times: Times, later: Times, k: string, r: Runtime)
    requires LastOf(times, k) == LastOf(later, k) && Paced(times, k, r)
    ensures Paced(later, k, r)
  {
  }

  lemma ReplacedIsFresh(before: map<string, Runtime>, after: map<string, Runtime>, k: string)
    requires k in after && KeptAt(before, after, k) && !(k in before && after[k].output == before[k].output)
    ensures Fresh(after[k])
  {
  }

  lemma ProcessEnds(times: Times, w: World, e: Event)
    requires e.Restart? || Step(w, e).1 == Died
    ensures NextTimes(times, w, e) == map[]
  {
    hide Step;
  }

  lemma DeadIsFresh(w: World, e: Event)
    requires e.Restart? || Step(w, e).1 == Died
    ensures exists boot :: Step(w, e).0.display.outputs == BootOutputs(boot)
  {
    hide Judge, Rebind, CheckConnect, FinishCompletion, CommitOutput, BootOutputs, DetachAll, Adopt, AdvancePresentation;
    match e
    case Commit(request, fault) => DeadAcceptance(w, request, fault);
    case Reconcile(_, request, fault) => DeadAcceptance(w, request, fault);
    case Tick(_, _, _, _, _, _) => TickLives(w, e);
    case OutputChange(change) => DeadChange(w, change);
    case Restart(boot) => assert Step(w, e).0.display.outputs == BootOutputs(boot);
    case _ =>
  }

  lemma DeadAcceptance(w: World, request: SceneRequest, fault: DiskFault)
    requires Accept(w, request, fault).1 == Died
    ensures exists boot :: Accept(w, request, fault).0.display.outputs == BootOutputs(boot)
  {
    hide Judge, Rebind, BootOutputs, Adopt;
  }

  lemma DeadChange(w: World, e: OutputEvent)
    requires ApplyOutputEvent(w, e).1 == Died
    ensures exists boot :: ApplyOutputEvent(w, e).0.display.outputs == BootOutputs(boot)
  {
    hide CheckConnect, BootOutputs, DetachAll, Connected;
  }

  lemma TickLives(w: World, e: Event)
    requires e.Tick?
    ensures TickOutput(w, e).1 != Died
  {
    hide AdvancePresentation, CommitOutput;
  }

  /** A tick keeps every other output's pace and sets its own output's when it is due. */
  lemma TickKeepsPace(times: Times, w: World, e: Event)
    requires AllPaced(times, w.display.outputs) && AllQuiet(w.display.outputs) && e.Tick?
    ensures AllPaced(NextTimes(times, w, e), TickOutput(w, e).0.display.outputs)
  {
    hide Step, TickOutput, AllPaced, AllQuiet, TickedAt, SameOutputs, KeptOrFresh, KeptAt;
    var ticked := AfterTick(w, e);
    TickSets(w, e);
    TickCommits(w, e);
    TickStep(w, e);
    TickedTimes(times, w, e, ticked.display.outputs, TickOutput(w, e).0.display.outputs);
  }

  lemma TickStep(w: World, e: Event)
    requires e.Tick?
    ensures Step(w, e).0 == TickOutput(w, e).0 && Step(w, e).1 != Died
  {
    hide TickOutput;
    TickLives(w, e);
  }

  /** The world between the tick and the commit it makes eligible. */
  function AfterTick(w: World, e: Event): World
    requires e.Tick?
  {
    if e.outputId !in w.display.outputs then w
    else
      var a := AdvancePresentation(w.display.outputs[e.outputId], e.outputGeneration, e.now, e.tickSequence);
      if a.StaleOutput? then w else WithRuntime(w, e.outputId, a.runtime)
  }

  lemma TickSets(w: World, e: Event)
    requires e.Tick?
    ensures SameOutputs(w.display.outputs, AfterTick(w, e).display.outputs)
    ensures forall k :: k in AfterTick(w, e).display.outputs ==> TickedAt(w, e, AfterTick(w, e).display.outputs, k)
  {
    hide AdvancePresentation, Keeps, Waiting;
    forall k | k in w.display.outputs
      ensures Keeps(w.display.outputs[k], w.display.outputs[k])
    {
      SameKeeps(w.display.outputs[k]);
    }
    if e.outputId in w.display.outputs {
      TickKeepsOrSets(w.display.outputs[e.outputId], e);
    }
  }

  lemma TickKeepsOrSets(r: Runtime, e: Event)
    requires e.Tick?
    ensures var a := AdvancePresentation(r, e.outputGeneration, e.now, e.tickSequence);
      !a.StaleOutput? ==>
        && a.runtime.output == r.output
        && (if a.Ticked? && a.eligible
            then (Waiting(r) ==> Waiting(a.runtime)) && a.runtime.scheduler.nextEligible == Earliest(Some(e.now), a.runtime.scheduler.period)
            else Keeps(r, a.runtime))
  {
    hide AdvancePresentation, Waiting;
    TickedPace(r, e.outputGeneration, e.now, e.tickSequence);
  }

  lemma TickCommits(w: World, e: Event)
    requires e.Tick? && AllQuiet(w.display.outputs)
    ensures KeptOrFresh(AfterTick(w, e).display.outputs, TickOutput(w, e).0.display.outputs)
    ensures SameOutputs(AfterTick(w, e).display.outputs, TickOutput(w, e).0.display.outputs)
  {
    hide AdvancePresentation, CommitOutput, AllQuiet, KeptOrFresh;
    var ticked := AfterTick(w, e);
    NothingChanges(ticked.display.outputs);
    if e.outputId in w.display.outputs && w.display.lastScene.Some? {
      AdvanceKeepsQuietAt(w, e);
      if ticked != w || AllQuiet(ticked.display.outputs) {
        CommitKeeps(ticked, e.outputId, w.display.lastScene.value, e.submits, e.completes);
      }
    }
  }

  lemma AdvanceKeepsQuietAt(w: World, e: Event)
    requires e.Tick? && e.outputId in w.display.outputs && AllQuiet(w.display.outputs)
    ensures var a := AdvancePresentation(w.display.outputs[e.outputId], e.outputGeneration, e.now, e.tickSequence);
      !a.StaleOutput? ==> AllQuiet(WithRuntime(w, e.outputId, a.runtime).display.outputs)
  {
    hide AdvancePresentation;
    AdvanceKeepsQuiet(w.display.outputs[e.outputId], e.outputGeneration, e.now, e.tickSequence);
  }

  /** A due tick sets the pace of its output; any other leaves it. */
  ghost predicate TickedAt(w: World, e: Event, ticked: map<string, Runtime>, k: string)
    requires e.Tick? && k in ticked && k in w.display.outputs
  {
    if k == e.outputId && DueTick(w, e) then
      && (Waiting(w.display.outputs[k]) ==> Waiting(ticked[k]))
      && ticked[k].scheduler.nextEligible == Earliest(Some(e.now), ticked[k].scheduler.period)
    else
      Keeps(w.display.outputs[k], ticked[k])
  }

  /** From the runtime the tick set, whatever the commit then did. */
  lemma TickedTimes(times: Times, w: World, e: Event, ticked: map<string, Runtime>, after: map<string, Runtime>)
    requires AllPaced(times, w.display.outputs) && e.Tick? && Step(w, e).0.display.outputs == after && Step(w, e).1 != Died
    requires KeptOrFresh(ticked, after) && SameOutputs(ticked, after) && SameOutputs(w.display.outputs, ticked)
    requires forall k :: k in ticked ==> TickedAt(w, e, ticked, k)
    ensures AllPaced(NextTimes(times, w, e), after)
  {
    hide Step, DueTick, Waiting;
    forall k | k in after
      ensures Paced(NextTimes(times, w, e), k, after[k])
    {
      assert KeptAt(ticked, after, k) && TickedAt(w, e, ticked, k);
      assert Paced(times, k, w.display.outputs[k]);
      assert GoesOn(w, e, k);
    }
  }

  // ------------------------------------------------------------------------- runs

  lemma EveryOtherStep(w: World, e: Event)
    requires AllQuiet(w.display.outputs) && !e.Tick? && !e.Restart? && Step(w, e).1 != Died
    ensures KeptOrFresh(w.display.outputs, Step(w, e).0.display.outputs)
  {
    hide Accept, FinishCompletion, ApplyOutputEvent, Begin, KeptOrFresh, AllQuiet;
    NothingChanges(w.display.outputs);
    match e
    case Commit(request, fault) => AcceptKeeps(w, request, fault);
    case Reconcile(epoch, request, fault) => AcceptKeeps(w, request, fault);
    case BeginReconciliation(epoch) => BeginKeeps(w, epoch);
    case Complete(token, outcome, completes) => CompletionKeeps(w, token, outcome, completes);
    case OutputChange(change) => ChangeKeeps(w, change);
    case _ =>
  }

  /** Every step whatever keeps the clock true. */
  lemma StepKeepsPace(times: Times, w: World, e: Event)
    requires AllPaced(times, w.display.outputs) && AllQuiet(w.display.outputs)
    ensures AllPaced(NextTimes(times, w, e), Step(w, e).0.display.outputs)
  {
    hide Step, TickOutput, AllPaced, AllQuiet, NextTimes, KeptOrFresh;
    if e.Restart? || Step(w, e).1 == Died {
      ProcessEnds(times, w, e);
      DeadIsFresh(w, e);
      var boot :| Step(w, e).0.display.outputs == BootOutputs(boot);
      BootIsPaced(map[], boot);
    } else if e.Tick? {
      TickStep(w, e);
      TickKeepsPace(times, w, e);
    } else {
      EveryOtherStep(w, e);
      OtherStepKeepsPace(times, w, e);
    }
  }

  lemma {:induction false} RunKeepsPace(times: Times, w: World, events: seq<Event>)
    requires AllPaced(times, w.display.outputs) && AllQuiet(w.display.outputs)
    ensures AllPaced(RunTimes(times, w, events), Run(w, events).display.outputs) && AllQuiet(Run(w, events).display.outputs)
    decreases |events|
  {
    hide Step, AllPaced, AllQuiet, NextTimes;
    if events != [] {
      StepKeepsPace(times, w, events[0]);
      StepKeepsQuiet(w, events[0]);
      RunKeepsPace(NextTimes(times, w, events[0]), Step(w, events[0]).0, events[1..]);
    }
  }

  lemma InitialIsPaced(kind: BackendKind, boot: Boot)
    ensures AllPaced(map[], Initial(kind, boot).display.outputs) && AllQuiet(Initial(kind, boot).display.outputs)
  {
    BootIsPaced(map[], boot);
  }

  /** In every reachable state a tick on an enabled output is due exactly when it addresses the
      output's generation, is no older than the tick before, comes at least a period after the
      last due one, and finds something pending and nothing in flight. */
  lemma DueExactly(kind: BackendKind, boot: Boot, events: seq<Event>, e: Event)
    requires e.Tick? && e.outputId in Run(Initial(kind, boot), events).display.outputs
    requires !Run(Initial(kind, boot), events).display.outputs[e.outputId].disabled
    ensures var w := Run(Initial(kind, boot), events);
      DueTick(w, e) <==> DueNow(w.display.outputs[e.outputId], e, LastOf(RunTimes(map[], Initial(kind, boot), events), e.outputId))
  {
    hide Run, RunTimes, DueNow, AdvancePresentation;
    InitialIsPaced(kind, boot);
    RunKeepsPace(map[], Initial(kind, boot), events);
    var w, times := Run(Initial(kind, boot), events), RunTimes(map[], Initial(kind, boot), events);
    PacedAt(times, w, e.outputId);
    AdvanceExactly(times, e.outputId, w.display.outputs[e.outputId], e);
  }

  lemma PacedAt(times: Times, w: World, k: string)
    requires AllPaced(times, w.display.outputs) && k in w.display.outputs
    ensures Paced(times, k, w.display.outputs[k])
  {
  }

  /** The output goes on all along. */
  ghost predicate GoesOnAlong(w: World, events: seq<Event>, k: string)
    decreases |events|
  {
    events != [] ==> GoesOn(w, events[0], k) && GoesOnAlong(Step(w, events[0]).0, events[1..], k)
  }

  lemma PeriodStays(times: Times, w: World, e: Event, k: string)
    requires AllQuiet(w.display.outputs) && GoesOn(w, e, k)
    ensures Step(w, e).0.display.outputs[k].scheduler.period == w.display.outputs[k].scheduler.period
  {
    hide Step, TickOutput, AllQuiet, AfterTick;
    if e.Tick? {
      TickStep(w, e);
      TickSets(w, e);
      TickCommits(w, e);
      assert TickedAt(w, e, AfterTick(w, e).display.outputs, k);
      assert KeptAt(AfterTick(w, e).display.outputs, TickOutput(w, e).0.display.outputs, k);
      TickedPeriod(w, e, k);
    } else {
      EveryOtherStep(w, e);
      assert KeptAt(w.display.outputs, Step(w, e).0.display.outputs, k);
    }
  }

  lemma TickedPeriod(w: World, e: Event, k: string)
    requires e.Tick? && k in w.display.outputs
    ensures k in AfterTick(w, e).display.outputs && AfterTick(w, e).display.outputs[k].scheduler.period == w.display.outputs[k].scheduler.period
  {
    hide AdvancePresentation;
    if e.outputId in w.display.outputs {
      TickedPace(w.display.outputs[e.outputId], e.outputGeneration, e.now, e.tickSequence);
    }
  }

  lemma TimeStep(times: Times, w: World, e: Event, k: string)
    requires AllPaced(times, w.display.outputs) && AllQuiet(w.display.outputs) && GoesOn(w, e, k) && k in times
    ensures k in NextTimes(times, w, e) && (NextTimes(times, w, e)[k] >= times[k] || NextTimes(times, w, e)[k] == U64_MAX)
    ensures Step(w, e).0.display.outputs[k].scheduler.period == w.display.outputs[k].scheduler.period
  {
    hide Step, AllPaced, AllQuiet, DueTick;
    PeriodStays(times, w, e, k);
    PacedAt(times, w, k);
    if DueTick(w, e) {
      DueHasOutput(w, e);
      if e.outputId == k {
        DueIsLater(times, w, e);
      }
    }
  }

  lemma GoesOnNow(w: World, events: seq<Event>, k: string)
    requires events != [] && GoesOnAlong(w, events, k)
    ensures GoesOn(w, events[0], k) && k in w.display.outputs && k in Step(w, events[0]).0.display.outputs
    ensures GoesOnAlong(Step(w, events[0]).0, events[1..], k)
  {
    hide Step;
  }

  /** The clock of an output that goes on never falls back. */
  lemma {:induction false} TimeRises(times: Times, w: World, events: seq<Event>, k: string)
    requires AllPaced(times, w.display.outputs) && AllQuiet(w.display.outputs) && GoesOnAlong(w, events, k) && k in times && k in w.display.outputs
    ensures var later := RunTimes(times, w, events); k in later && (later[k] >= times[k] || later[k] == U64_MAX)
    ensures k in Run(w, events).display.outputs
    ensures Run(w, events).display.outputs[k].scheduler.period == w.display.outputs[k].scheduler.period
    decreases |events|
  {
    hide Step, AllPaced, AllQuiet, NextTimes, GoesOn, GoesOnAlong;
    if events != [] {
      GoesOnNow(w, events, k);
      StepKeepsPace(times, w, events[0]);
      StepKeepsQuiet(w, events[0]);
      TimeStep(times, w, events[0], k);
      TimeRises(NextTimes(times, w, events[0]), Step(w, events[0]).0, events[1..], k);
    }
  }

  lemma DueIsLater(times: Times, w: World, e: Event)
    requires DueTick(w, e) && Paced(times, e.outputId, w.display.outputs[e.outputId])
    ensures Earliest(LastOf(times, e.outputId), w.display.outputs[e.outputId].scheduler.period) <= e.now
  {
    var r := w.display.outputs[e.outputId];
    if !r.disabled {
      AdvanceExactly(times, e.outputId, r, e);
    } else {
      DisabledIsNeverDue(w, e);
    }
  }

  /** Two due ticks of one output are at least its refresh period apart, up to saturation. */
  lemma TicksArePaced(kind: BackendKind, boot: Boot, before: seq<Event>, first: Event, between: seq<Event>, second: Event)
    requires var w := Run(Initial(kind, boot), before);
      && DueTick(w, first) && GoesOnAlong(w, [first] + between, first.outputId)
      && DueTick(Run(Step(w, first).0, between), second) && second.outputId == first.outputId
    ensures var r := Run(Initial(kind, boot), before).display.outputs[first.outputId];
      second.now >= Min(first.now + r.scheduler.period, U64_MAX)
  {
    hide Step, Run, RunTimes, DueTick, AllPaced, AllQuiet, NextTimes, Initial, GoesOnAlong;
    InitialIsPaced(kind, boot);
    RunKeepsPace(map[], Initial(kind, boot), before);
    var w, times := Run(Initial(kind, boot), before), RunTimes(map[], Initial(kind, boot), before);
    DueHasOutput(w, first);
    var k := first.outputId;
    FirstGoesOn(w, first, between, k);
    StepKeepsPace(times, w, first);
    StepKeepsQuiet(w, first);
    PeriodStays(times, w, first, k);
    DueSetsTime(times, w, first);
    var s, timed := Step(w, first).0, NextTimes(times, w, first);
    TimeRises(timed, s, between, k);
    RunKeepsPace(timed, s, between);
    var u, later := Run(s, between), RunTimes(timed, s, between);
    PacedAt(later, u, k);
    DueIsLater(later, u, second);
  }

  lemma DueHasOutput(w: World, e: Event)
    requires DueTick(w, e)
    ensures e.Tick? && e.outputId in w.display.outputs
  {
  }

  lemma FirstGoesOn(w: World, first: Event, between: seq<Event>, k: string)
    requires GoesOnAlong(w, [first] + between, k)
    ensures GoesOn(w, first, k) && GoesOnAlong(Step(w, first).0, between, k)
  {
    hide Step;
    assert ([first] + between)[1..] == between;
  }

  lemma DueSetsTime(times: Times, w: World, e: Event)
    requires DueTick(w, e) && GoesOn(w, e, e.outputId)
    ensures var next := NextTimes(times, w, e); e.outputId in next && next[e.outputId] == e.now
  {
    hide Step;
  }

  /** A tick that is not due submits nothing: the backend and whatever is in flight stay. */
  lemma NotDueSubmitsNothing(w: World, e: Event)
    requires e.Tick? && !DueTick(w, e)
    ensures Step(w, e).0.backend == w.backend
    ensures Step(w, e).0.display.outputs.Keys == w.display.outputs.Keys
    ensures forall k :: k in w.display.outputs ==> Step(w, e).0.display.outputs[k].outstanding == w.display.outputs[k].outstanding
  {
    hide CommitOutput, AdvancePresentation, Accept, FinishCompletion, ApplyOutputEvent, Restarted;
    if e.outputId in w.display.outputs {
      AdvanceKeepsFrame(w.display.outputs[e.outputId], e.outputGeneration, e.now, e.tickSequence);
    }
  }

  /** Advancing an output's clock leaves its frame in flight alone. */
  lemma AdvanceKeepsFrame(r: Runtime, outputGeneration: U64, now: U64, tickSequence: U64)
    ensures var a := AdvancePresentation(r, outputGeneration, now, tickSequence);
      !a.StaleOutput? ==> a.runtime.outstanding == r.outstanding
  {
  }
}
