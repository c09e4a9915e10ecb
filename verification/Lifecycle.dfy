/** Output events from the backend: which are taken, which are ignored or refused, and what
    each does to the registry. */
module Lifecycle {
  import opened Machine
  import opened SceneTypes
  import opened Geometry
  import opened Admission
  import opened Pipeline

  // -------------------------------------------------------------------------- the gate

  /** The event comes from the backend displayd listens to, or from the first one it hears. */
  predicate FromOwnBackend(d: Display, e: OutputEvent)
  {
    e.instance == 0 || e.instance == d.displayEpoch || (d.outputs == map[] && d.backendSequences == map[] && d.reconciliation != Recovering)
  }

  predicate Newer(d: Display, e: OutputEvent)
  {
    e.instance in d.backendSequences ==> d.backendSequences[e.instance] < e.sequence
  }

  /** An event of another backend, or older than the last one of its own, is refused; the last
      one again is answered as before; and none of these changes anything. */
  lemma OldEventsChangeNothing(w: World, e: OutputEvent)
    requires !FromOwnBackend(w.display, e) || !Newer(w.display, e)
    ensures ApplyOutputEvent(w, e).0 == w
    ensures ApplyOutputEvent(w, e).1 ==
      if FromOwnBackend(w.display, e) && w.display.backendSequences[e.instance] == e.sequence then Applied else Errored
  {
  }

  /** An applied event is on file; sent again it changes nothing. */
  lemma AppliedOnce(w: World, e: OutputEvent)
    requires ApplyOutputEvent(w, e).1 == Applied
    ensures var after := ApplyOutputEvent(w, e).0;
      && e.instance in after.display.backendSequences && after.display.backendSequences[e.instance] == e.sequence
      && (e.instance != 0 ==> after.display.displayEpoch == e.instance)
      && ApplyOutputEvent(after, e) == (after, Applied)
  {
    hide RemoveOutput, RetireOutstanding, CheckConnect, Rebind, ReconfigureOutput, ConnectedRuntime, DisabledRuntime, TokensOf, OfInstance;
  }

  // -------------------------------------------------------------------- what it changes

  /** A new event of the own backend. */
  predicate Heard(d: Display, e: OutputEvent)
  {
    FromOwnBackend(d, e) && Newer(d, e)
  }

  predicate Names(d: Display, id: string, instance: U64, generation: U64)
  {
    id in d.outputs && d.outputs[id].backendInstance == instance
    && d.outputs[id].output.generation == if instance == 0 then generation else Min(generation + instance, U64_MAX)
  }

  /** A disconnect takes exactly the named output away, when identity and generation fit. */
  lemma DisconnectExactly(w: World, e: OutputEvent)
    requires e.Disconnected? && Heard(w.display, e)
    ensures var (after, reply) := ApplyOutputEvent(w, e);
      && (reply == Applied <==> Names(w.display, e.outputId, e.instance, e.generation))
      && (reply == Applied ==> after.display.outputs == w.display.outputs - {e.outputId})
      && (reply != Applied ==> reply == Errored && after.display.outputs == w.display.outputs)
      && after.display.obligations == w.display.obligations && after.display.feedbacks == w.display.feedbacks
  {
  }

  /** A disabled output keeps its place and picture, with nothing pending, in flight or to be
      retried; the others go on. */
  lemma DisableExactly(w: World, e: OutputEvent)
    requires e.Disabled? && Heard(w.display, e)
    ensures var (after, reply) := ApplyOutputEvent(w, e);
      && (reply == Applied <==> Names(w.display, e.outputId, e.instance, e.generation))
      && after.display.outputs.Keys == w.display.outputs.Keys
      && (forall k :: k in w.display.outputs && (reply != Applied || k != e.outputId) ==> after.display.outputs[k] == w.display.outputs[k])
      && (reply == Applied ==>
            var r, was := after.display.outputs[e.outputId], w.display.outputs[e.outputId];
            && r.disabled && r.pendingDamage == [] && r.outstanding.None? && r.retry.None?
            && r.output == was.output && r.framebuffer == was.framebuffer && r.publishedFrameId == was.publishedFrameId && r.nextFrameId == was.nextFrameId)
  {
  }

  /** A reset takes exactly the outputs of the backend away, and their frames with them. */
  lemma ResetExactly(w: World, e: OutputEvent)
    requires e.BackendReset? && Heard(w.display, e)
    ensures var (after, reply) := ApplyOutputEvent(w, e);
      && reply == Applied
      && (forall k :: k in after.display.outputs <==> k in w.display.outputs && w.display.outputs[k].backendInstance != e.instance)
      && (forall k :: k in after.display.outputs ==> after.display.outputs[k] == w.display.outputs[k])
      && (forall k :: k in w.display.outputs && w.display.outputs[k].backendInstance == e.instance && w.display.outputs[k].outstanding.Some? ==>
            w.display.outputs[k].outstanding.value.token !in after.backend.pending)
  {
    var ids := OfInstance(w.display, e.instance);
    forall k | k in w.display.outputs && w.display.outputs[k].backendInstance == e.instance && w.display.outputs[k].outstanding.Some?
      ensures w.display.outputs[k].outstanding.value.token in TokensOf(w.display.outputs, ids)
    {
      assert k in ids;
    }
  }

  /** The generation under which the output is registered. */
  function Registered(d: Display, e: OutputEvent): U64
    requires e.Up?
  {
    if e.instance == 0 then e.geometry.outputGeneration else Min(e.geometry.outputGeneration + e.instance, U64_MAX)
  }

  /** A geometry displayd can drive. */
  predicate Drivable(g: OutputGeometry)
  {
    && g.outputId != "" && 0 < g.width <= 32_768 && 0 < g.height <= 32_768 && g.format == FORMAT_XRGB8888
    && 4 * g.width <= g.stride && g.stride % 4 == 0 && 0 < g.stride * g.height <= 512 * 1024 * 1024
  }

  /** A connect or reconfigure event is taken exactly for a drivable geometry under its own
      name, with a refresh period, within 64 outputs and 1 GiB of framebuffers, of no other
      backend than the output's, and of a later generation. */
  predicate Connects(d: Display, e: OutputEvent, otherBytes: nat)
    requires e.Up?
  {
    && e.period != 0 && e.geometry.outputId == e.outputId && Drivable(e.geometry)
    && (e.outputId in d.outputs || |d.outputs| < 64)
    && otherBytes + e.geometry.stride * e.geometry.height <= 1024 * 1024 * 1024
    && (e.outputId in d.outputs ==>
          && (d.outputs[e.outputId].backendInstance == 0 || d.outputs[e.outputId].backendInstance == e.instance)
          && d.outputs[e.outputId].output.generation < Registered(d, e))
  }

  lemma DrivableExactly(g: OutputGeometry)
    ensures ValidateGeometry(g).Some? <==> Drivable(g)
    ensures Drivable(g) ==> ValidateGeometry(g).value == OutputState(g.outputId, g.width, g.height, g.stride, g.originX, g.originY, g.outputGeneration)
  {
  }

  lemma ConnectExactly(w: World, e: OutputEvent)
    requires e.Up? && Heard(w.display, e)
    ensures var (after, reply) := ApplyOutputEvent(w, e);
      var fits := e.geometry.originX + e.geometry.width <= I32_MAX && e.geometry.originY + e.geometry.height <= I32_MAX;
      var taken := Connects(w.display, e, TotalFramebufferBytes(w.display.outputs - {e.outputId}));
      && (reply == Applied <==> taken && fits) && (reply == Died <==> taken && !fits) && (reply == Errored <==> !taken)
      && (reply == Applied ==>
            && after.display.outputs.Keys == w.display.outputs.Keys + {e.outputId}
            && (forall k :: k in w.display.outputs && k != e.outputId ==> after.display.outputs[k] == w.display.outputs[k])
            && Installed(w.display, e, after.display.outputs[e.outputId]))
  {
    hide TotalFramebufferBytes, Rebind, ReconfigureOutput, RetireOutstanding, CheckConnect, Connects, Installed, ConnectedRuntime;
    var adopted := AdoptEpoch(w, e.instance);
    CheckedExactly(w.display, adopted.display, e);
    if CheckConnect(adopted.display, e).Connectable? {
      InstalledExactly(w.display, adopted.display, e, CheckConnect(adopted.display, e).output);
    }
  }

  lemma CheckedExactly(d: Display, adopted: Display, e: OutputEvent)
    requires e.Up? && adopted == d.(displayEpoch := if e.instance != 0 then e.instance else d.displayEpoch)
    ensures var checked := CheckConnect(adopted, e);
      var taken := Connects(d, e, TotalFramebufferBytes(d.outputs - {e.outputId}));
      var fits := e.geometry.originX + e.geometry.width <= I32_MAX && e.geometry.originY + e.geometry.height <= I32_MAX;
      && (checked.NotConnectable? <==> !taken) && (checked.Connectable? <==> taken && fits)
      && (checked.Connectable? ==> checked.output == OutputState(e.outputId, e.geometry.width, e.geometry.height, e.geometry.stride,
                                                                 e.geometry.originX, e.geometry.originY, Registered(d, e)))
  {
    hide TotalFramebufferBytes, ValidateGeometry, Drivable;
    var geometry := e.geometry.(outputGeneration := Registered(d, e));
    assert EffectiveGeneration(adopted, e.instance, e.geometry.outputGeneration) == Registered(d, e);
    DrivableExactly(geometry);
    DrivableAnyGeneration(e.geometry, Registered(d, e));
  }

  lemma InstalledExactly(d: Display, adopted: Display, e: OutputEvent, output: LiveOutput)
    requires e.Up? && adopted == d.(displayEpoch := adopted.displayEpoch)
    requires output == OutputState(e.outputId, e.geometry.width, e.geometry.height, e.geometry.stride, e.geometry.originX, e.geometry.originY, Registered(d, e))
    ensures Installed(d, e, ConnectedRuntime(adopted, output, e.instance, e.period))
  {
  }

  lemma DrivableAnyGeneration(g: OutputGeometry, generation: U64)
    ensures Drivable(g.(outputGeneration := generation)) <==> Drivable(g)
  {
  }

  /** A new runtime: nothing shown, everything pending for the newest scene, nothing in flight,
      free to submit at once. */
  predicate Installed(d: Display, e: OutputEvent, r: Runtime)
    requires e.Up?
  {
    && r.output == OutputState(e.outputId, e.geometry.width, e.geometry.height, e.geometry.stride, e.geometry.originX, e.geometry.originY, Registered(d, e))
    && r.backendInstance == e.instance && !r.disabled && r.framebuffer == [] && r.publishedFrameId == 0 && r.nextFrameId == 1
    && r.pendingDamage == [r.output.Bounds()] && r.pendingVersion == d.lastVersion
    && r.pendingCommitId == (if d.lastScene.Some? then d.lastScene.value.commitId else 0)
    && r.outstanding.None? && r.retry.None?
    && r.scheduler.period == e.period && r.scheduler.nextEligible == 0 && r.scheduler.outputGeneration == r.output.generation
  }

  // ----------------------------------------------------------------------- reconciling

  /** Beginning a reconciliation drops every frame in flight and every retry, on both sides,
      even when the epoch is older and then refused; a newer epoch also drops the outputs. */
  lemma BeginExactly(w: World, epoch: U64)
    ensures var (after, reply) := Begin(w, epoch);
      && reply == (if epoch < w.display.displayEpoch then Errored else Began(epoch))
      && (forall k :: k in w.display.outputs && w.display.outputs[k].outstanding.Some? ==> w.display.outputs[k].outstanding.value.token !in after.backend.pending)
      && (epoch <= w.display.displayEpoch ==>
            && after.display.outputs.Keys == w.display.outputs.Keys && after.display.displayEpoch == w.display.displayEpoch
            && forall k :: k in w.display.outputs ==> after.display.outputs[k] == w.display.outputs[k].(outstanding := None, retry := None))
      && (epoch > w.display.displayEpoch ==> after.display.outputs == map[] && after.display.backendSequences == map[] && after.display.displayEpoch == epoch)
      && (epoch >= w.display.displayEpoch ==> after.display.reconciliation == Recovering && after.display.feedbacks == map[])
      && (epoch < w.display.displayEpoch ==> after.display.reconciliation == w.display.reconciliation && after.display.feedbacks == w.display.feedbacks)
      && after.display.obligations == w.display.obligations && after.display.store == w.display.store
  {
  }

  /** A reconciliation scene is answered for the current epoch only, exactly when the scene
      itself is committed, and then ends the recovery. */
  lemma ReconcileExactly(w: World, epoch: U64, request: SceneRequest, fault: DiskFault)
    ensures var (after, reply) := Step(w, Reconcile(epoch, request, fault));
      var (accepted, answer) := Accept(w, request, fault);
      && (reply.Reconciled? <==> epoch == w.display.displayEpoch && answer.Committed?)
      && (reply.Reconciled? ==>
            && reply == Reconciled(epoch, request.version.generation, |request.payloads|)
            && after == accepted.(display := accepted.display.(reconciliation := ReconciledAwaitingPresentation)))
      && (epoch != w.display.displayEpoch ==> (after, reply) == (w, Rejected))
      && (epoch == w.display.displayEpoch && !answer.Committed? ==> (after, reply) == (accepted, answer))
  {
    hide Judge, CarryOut;
    AcceptNeverReconciles(w, request, fault);
    hide Accept;
  }

  lemma AcceptNeverReconciles(w: World, request: SceneRequest, fault: DiskFault)
    ensures !Accept(w, request, fault).1.Reconciled?
  {
    hide Judge;
  }
}
