/** Broker and backend agree on what is in flight; budgets; every token completes once. */
module Flight {
  import opened Machine
  import opened SceneTypes
  import opened Geometry
  import opened Composition
  import opened Renderer
  import opened Admission
  import opened Pipeline

  /** Frame ids of one output only grow, and the frame in flight is the newest. */
  ghost predicate RuntimeInFlight(nextSequence: U64, k: string, r: Runtime)
  {
    && r.output.outputId == k && r.publishedFrameId < r.nextFrameId
    && (r.outstanding.Some? ==>
          var t, f := r.outstanding.value.token, r.outstanding.value.frame;
          && t.Valid() && t.outputId == k && t.outputGeneration == r.output.generation && t.frameId == f.frameId
          && r.publishedFrameId < t.frameId < r.nextFrameId
          && t.sequence < nextSequence)
  }

  ghost predicate RuntimesInFlight(nextSequence: U64, outputs: map<string, Runtime>)
  {
    forall k :: k in outputs ==> RuntimeInFlight(nextSequence, k, outputs[k])
  }

  /** The backend's pending tokens are the broker's outstanding ones. */
  ghost predicate Agreement(b: Backend, outputs: map<string, Runtime>)
  {
    if b.kind == MockImmediate then b.pending == map[] else b.pending.Keys == OutstandingTokens(outputs)
  }

  ghost predicate RegistryOk(outputs: map<string, Runtime>)
  {
    |outputs| <= MAX_OUTPUTS && TotalFramebufferBytes(outputs) <= MAX_TOTAL_FRAMEBUFFER_BYTES
  }

  ghost predicate InFlightOk(w: World)
  {
    && RuntimesInFlight(w.backend.nextSequence, w.display.outputs)
    && Agreement(w.backend, w.display.outputs)
    && RegistryOk(w.display.outputs)
    && w.backend.nextSequence >= 1 && w.backend.instanceId >= 1
  }

  /** Backends have non-zero instance ids, and the two counters are below their ceiling. */
  ghost predicate CountedStep(w: World, e: Event)
  {
    && (e.Restart? ==> e.boot.instanceId >= 1)
    && (e.OutputChange? && e.change.Up? ==> e.change.boot.instanceId >= 1)
    && (e.Commit? || e.Reconcile? ==>
          && (e.fault.DiesBeforeRename? ==> e.fault.boot.instanceId >= 1)
          && (e.fault.DiesAfterRename? ==> e.fault.boot.instanceId >= 1))
    && (e.Tick? ==>
          && w.backend.nextSequence < U64_MAX
          && (e.outputId in w.display.outputs ==> w.display.outputs[e.outputId].nextFrameId < U64_MAX))
  }

  ghost predicate CountedRun(w: World, events: seq<Event>)
    decreases |events|
  {
    events != [] ==> CountedStep(w, events[0]) && CountedRun(Step(w, events[0]).0, events[1..])
  }

  // -------------------------------------------------------------------- byte budget

  lemma {:induction false} BytesRemove(outputs: map<string, Runtime>, k: string)
    requires k in outputs
    ensures TotalFramebufferBytes(outputs) == outputs[k].output.Bytes() + TotalFramebufferBytes(outputs - {k})
    decreases |outputs|
  {
    var j :| j in outputs && TotalFramebufferBytes(outputs) == outputs[j].output.Bytes() + TotalFramebufferBytes(outputs - {j});
    if j != k {
      assert (outputs - {j}).Keys == outputs.Keys - {j} && (outputs - {k}).Keys == outputs.Keys - {k};
      assert |outputs - {j}| == |outputs| - 1 && |outputs - {k}| == |outputs| - 1;
      BytesRemove(outputs - {j}, k);
      assert (outputs - {j}) - {k} == (outputs - {k}) - {j};
      BytesRemove(outputs - {k}, j);
    }
  }

  lemma BytesUpdate(outputs: map<string, Runtime>, k: string, r: Runtime)
    ensures TotalFramebufferBytes(outputs[k := r]) == TotalFramebufferBytes(outputs - {k}) + r.output.Bytes()
  {
    BytesRemove(outputs[k := r], k);
    assert outputs[k := r] - {k} == outputs - {k};
  }

  /** Only the geometries count. */
  lemma {:induction false} BytesSame(a: map<string, Runtime>, b: map<string, Runtime>)
    requires a.Keys == b.Keys && forall k :: k in a ==> a[k].output == b[k].output
    ensures TotalFramebufferBytes(a) == TotalFramebufferBytes(b)
    decreases |a|
  {
    if a == map[] {
      assert b == map[];
    } else {
      var k :| k in a;
      BytesRemove(a, k);
      BytesRemove(b, k);
      assert (a - {k}).Keys == a.Keys - {k};
      BytesSame(a - {k}, b - {k});
    }
  }

  lemma RegistrySame(a: map<string, Runtime>, b: map<string, Runtime>)
    requires a.Keys == b.Keys && forall k :: k in a ==> a[k].output == b[k].output
    requires RegistryOk(a)
    ensures RegistryOk(b)
  {
    BytesSame(a, b);
    assert |a| == |a.Keys| && |b| == |b.Keys|;
  }

  lemma RegistryRemove(outputs: map<string, Runtime>, k: string)
    requires RegistryOk(outputs) && k in outputs
    ensures RegistryOk(outputs - {k})
  {
    BytesRemove(outputs, k);
    assert (outputs - {k}).Keys == outputs.Keys - {k};
    assert |outputs - {k}| == |(outputs - {k}).Keys| && |outputs| == |outputs.Keys|;
  }

  // ------------------------------------------------------------------------- tokens

  function TokenOf(r: Runtime): set<Token>
  {
    if r.outstanding.Some? then {r.outstanding.value.token} else {}
  }

  /** Replacing one runtime replaces its token. */
  lemma TokensUpdate(n: U64, outputs: map<string, Runtime>, k: string, r: Runtime)
    requires RuntimesInFlight(n, outputs) && k in outputs
    ensures OutstandingTokens(outputs[k := r]) == OutstandingTokens(outputs) - TokenOf(outputs[k]) + TokenOf(r)
  {
    var next := outputs[k := r];
    forall t
      ensures t in OutstandingTokens(next) <==> t in OutstandingTokens(outputs) - TokenOf(outputs[k]) + TokenOf(r)
    {
      if t in OutstandingTokens(next) {
        var j :| j in next && next[j].outstanding.Some? && next[j].outstanding.value.token == t;
        if j != k {
          assert RuntimeInFlight(n, j, outputs[j]) && RuntimeInFlight(n, k, outputs[k]);
        }
      }
      if t in OutstandingTokens(outputs) - TokenOf(outputs[k]) {
        var j :| j in outputs && outputs[j].outstanding.Some? && outputs[j].outstanding.value.token == t;
        assert next[j].outstanding == outputs[j].outstanding;
      }
      if t in TokenOf(r) {
        assert next[k].outstanding.Some?;
      }
    }
  }

  lemma TokensInsert(outputs: map<string, Runtime>, k: string, r: Runtime)
    requires k !in outputs
    ensures OutstandingTokens(outputs[k := r]) == OutstandingTokens(outputs) + TokenOf(r)
  {
    var next := outputs[k := r];
    forall t
      ensures t in OutstandingTokens(next) <==> t in OutstandingTokens(outputs) + TokenOf(r)
    {
      if t in OutstandingTokens(outputs) {
        var j :| j in outputs && outputs[j].outstanding.Some? && outputs[j].outstanding.value.token == t;
        assert next[j].outstanding == outputs[j].outstanding;
      }
      if t in TokenOf(r) {
        assert next[k].outstanding.Some?;
      }
    }
  }

  lemma TokensRemove(n: U64, outputs: map<string, Runtime>, k: string)
    requires RuntimesInFlight(n, outputs) && k in outputs
    ensures OutstandingTokens(outputs - {k}) == OutstandingTokens(outputs) - TokenOf(outputs[k])
  {
    var next := outputs - {k};
    forall t
      ensures t in OutstandingTokens(next) <==> t in OutstandingTokens(outputs) - TokenOf(outputs[k])
    {
      if t in OutstandingTokens(next) {
        var j :| j in next && next[j].outstanding.Some? && next[j].outstanding.value.token == t;
        assert RuntimeInFlight(n, j, outputs[j]) && RuntimeInFlight(n, k, outputs[k]);
      }
      if t in OutstandingTokens(outputs) - TokenOf(outputs[k]) {
        var j :| j in outputs && outputs[j].outstanding.Some? && outputs[j].outstanding.value.token == t;
        assert next[j].outstanding == outputs[j].outstanding;
      }
    }
  }

  /** Tokens in flight carry the name of their output. */
  lemma TokenNames(n: U64, outputs: map<string, Runtime>, t: Token)
    requires RuntimesInFlight(n, outputs) && t in OutstandingTokens(outputs)
    ensures t.outputId in outputs && outputs[t.outputId].outstanding.Some? && outputs[t.outputId].outstanding.value.token == t
    ensures t.outputGeneration == outputs[t.outputId].output.generation && t.sequence < n
  {
    var j :| j in outputs && outputs[j].outstanding.Some? && outputs[j].outstanding.value.token == t;
    assert RuntimeInFlight(n, j, outputs[j]);
  }

  // ------------------------------------------------------------------- one output

  /** Replacing a runtime by one with the same geometry. */
  lemma UpdateKeepsFlight(w: World, b: Backend, k: string, r: Runtime)
    requires InFlightOk(w) && k in w.display.outputs && r.output == w.display.outputs[k].output
    requires RuntimeInFlight(b.nextSequence, k, r)
    requires b.kind == w.backend.kind && b.instanceId == w.backend.instanceId && b.nextSequence >= w.backend.nextSequence
    requires b.kind == MockImmediate ==> b.pending == map[]
    requires b.kind != MockImmediate ==> b.pending.Keys == w.backend.pending.Keys - TokenOf(w.display.outputs[k]) + TokenOf(r)
    ensures InFlightOk(WithRuntime(w.(backend := b), k, r))
  {
    hide OutstandingTokens, TotalFramebufferBytes, RegistryOk;
    TokensUpdate(w.backend.nextSequence, w.display.outputs, k, r);
    RegistrySame(w.display.outputs, w.display.outputs[k := r]);
    LaterSequence(w.backend.nextSequence, b.nextSequence, w.display.outputs);
  }

  lemma LaterSequence(m: U64, n: U64, outputs: map<string, Runtime>)
    requires m <= n && RuntimesInFlight(m, outputs)
    ensures RuntimesInFlight(n, outputs)
  {
  }

  lemma RetireKeys(b: Backend, t: Token)
    ensures Retire(b, t).pending.Keys == b.pending.Keys - {t}
  {
  }

  lemma RetireOutstandingKeys(b: Backend, r: Runtime)
    ensures RetireOutstanding(b, r).pending.Keys == b.pending.Keys - TokenOf(r)
  {
  }

  lemma CompletionKeepsFlight(w: World, t: Token, outcome: Completion, completes: bool)
    requires InFlightOk(w)
    ensures InFlightOk(FinishCompletion(w, t, outcome, completes).0)
    ensures Preflight(w.display, t).None? ==>
      var (w', result) := FinishCompletion(w, t, outcome, completes);
      t !in OutstandingTokens(w'.display.outputs) && t.sequence < w.backend.nextSequence
    ensures FinishCompletion(w, t, outcome, completes).0.backend.nextSequence == w.backend.nextSequence
  {
    hide NotePresented, OutstandingTokens, TotalFramebufferBytes, RegistryOk;
    if Preflight(w.display, t).None? {
      var r := w.display.outputs[t.outputId];
      var o := r.outstanding.value;
      var (w', result) := FinishCompletion(w, t, outcome, completes);
      var next := if result == Presented then PresentRuntime(r, o) else FailRuntime(r, o);
      RetireKeys(w.backend, t);
      CompletionWorld(w, t, outcome, completes);
      UpdateKeepsFlight(w, Retire(w.backend, t), t.outputId, next);
      TokensUpdate(w.backend.nextSequence, w.display.outputs, t.outputId, next);
    }
  }

  /** What a completion does to the outputs and the backend. */
  lemma CompletionWorld(w: World, t: Token, outcome: Completion, completes: bool)
    requires Preflight(w.display, t).None?
    ensures var (w', result) := FinishCompletion(w, t, outcome, completes);
            var r := w.display.outputs[t.outputId];
      && w'.backend == Retire(w.backend, t)
      && w'.display.outputs == w.display.outputs[t.outputId :=
           if result == Presented then PresentRuntime(r, r.outstanding.value) else FailRuntime(r, r.outstanding.value)]
  {
    hide PresentRuntime, FailRuntime, NoteOne, Satisfied, InsertAll, Retire;
  }

  /** A presented frame's id is larger than every id its output published before. */
  lemma PublishedIdsIncrease(w: World, t: Token, outcome: Completion, completes: bool)
    requires InFlightOk(w) && FinishCompletion(w, t, outcome, completes).1 == Presented
    requires Preflight(w.display, t).None?
    ensures FinishCompletion(w, t, outcome, completes).0.display.outputs[t.outputId].publishedFrameId
          > w.display.outputs[t.outputId].publishedFrameId
  {
    hide NotePresented, OutstandingTokens, TotalFramebufferBytes;
    CompletionWorld(w, t, outcome, completes);
  }

  /** Scheduling and pending-damage changes. */
  lemma SameFlight(w: World, k: string, r: Runtime)
    requires InFlightOk(w) && k in w.display.outputs && RuntimeInFlight(w.backend.nextSequence, k, r)
    requires r.output == w.display.outputs[k].output && TokenOf(r) == TokenOf(w.display.outputs[k])
    ensures InFlightOk(WithRuntime(w, k, r))
  {
    AlreadyPending(w, k);
    UpdateKeepsFlight(w, w.backend, k, r);
  }

  /** Handing a frame to the backend. */
  lemma SubmitKeepsFlight(w: World, k: string, f: Frame)
    requires InFlightOk(w) && k in w.display.outputs && w.backend.nextSequence < U64_MAX
    requires w.display.outputs[k].outstanding.None? && f.output == w.display.outputs[k].output
    requires f.frameId == w.display.outputs[k].nextFrameId < U64_MAX
    ensures TokenFor(w.backend, f).Valid()
    ensures InFlightOk(WithRuntime(w.(backend := Submit(w.backend, f)), k, InFlight(w.display.outputs[k], f, TokenFor(w.backend, f))))
  {
    hide OutstandingTokens, TotalFramebufferBytes, RegistryOk;
    SubmitKeys(w.backend, f);
    AlreadyPending(w, k);
    assert RuntimeInFlight(w.backend.nextSequence, k, w.display.outputs[k]);
    UpdateKeepsFlight(w, Submit(w.backend, f), k, InFlight(w.display.outputs[k], f, TokenFor(w.backend, f)));
  }

  lemma ComposedFrameIdentity(d: Display, s: Scene, r: Runtime)
    ensures ComposedFrame(d, s, r).output == r.output && ComposedFrame(d, s, r).frameId == r.nextFrameId
  {
  }

  lemma CommitKeepsFlight(w: World, id: string, s: Scene, submits: bool, completes: bool)
    requires InFlightOk(w) && id in w.display.outputs
    requires w.backend.nextSequence < U64_MAX && w.display.outputs[id].nextFrameId < U64_MAX
    ensures InFlightOk(CommitOutput(w, id, s, submits, completes).0)
    ensures CommitOutput(w, id, s, submits, completes).0.backend.nextSequence >= w.backend.nextSequence
  {
    hide InFlightOk, ComposedFrame, ValidatedForDamage, Decodable, FinishCompletion;
    var r := w.display.outputs[id];
    var frame := ComposedFrame(w.display, s, r);
    var token := TokenFor(w.backend, frame);
    KnownRuntime(w, id);
    ComposedFrameIdentity(w.display, s, r);
    SameFlight(w, id, r.(scheduler := r.scheduler.(state := PresentationBlocked)));
    SameFlight(w, id, r.(scheduler := r.scheduler.(state := Idle)));
    SameFlight(w, id, SubmissionFailed(r, frame));
    if r.outstanding.None? {
      SubmitKeepsFlight(w, id, frame);
      CompletionKeepsFlight(WithRuntime(w.(backend := Submit(w.backend, frame)), id, InFlight(r, frame, token)), token, Presented, completes);
    }
  }

  lemma KnownRuntime(w: World, k: string)
    requires InFlightOk(w) && k in w.display.outputs
    ensures RuntimeInFlight(w.backend.nextSequence, k, w.display.outputs[k])
  {
  }

  lemma SubmitKeys(b: Backend, f: Frame)
    ensures Submit(b, f).pending.Keys == if b.kind == MockImmediate then b.pending.Keys else b.pending.Keys + {TokenFor(b, f)}
  {
  }

  lemma AdvanceKeepsFlight(n: U64, k: string, r: Runtime, generation: U64, now: U64, tickSequence: U64)
    requires RuntimeInFlight(n, k, r)
    ensures var a := AdvancePresentation(r, generation, now, tickSequence);
      !a.StaleOutput? ==> RuntimeInFlight(n, k, a.runtime) && a.runtime.output == r.output && TokenOf(a.runtime) == TokenOf(r)
                          && a.runtime.nextFrameId == r.nextFrameId
  {
  }

  lemma TickKeepsFlight(w: World, e: Event)
    requires InFlightOk(w) && e.Tick? && CountedStep(w, e)
    ensures InFlightOk(TickOutput(w, e).0)
    ensures TickOutput(w, e).0.backend.nextSequence >= w.backend.nextSequence
  {
    hide AdvancePresentation, CommitOutput, OutstandingTokens, TotalFramebufferBytes, RegistryOk, RuntimeInFlight;
    if e.outputId in w.display.outputs {
      var r := w.display.outputs[e.outputId];
      AdvanceKeepsFlight(w.backend.nextSequence, e.outputId, r, e.outputGeneration, e.now, e.tickSequence);
      var a := AdvancePresentation(r, e.outputGeneration, e.now, e.tickSequence);
      if !a.StaleOutput? {
        AlreadyPending(w, e.outputId);
        UpdateKeepsFlight(w, w.backend, e.outputId, a.runtime);
        if w.display.lastScene.Some? {
          CommitKeepsFlight(WithRuntime(w, e.outputId, a.runtime), e.outputId, w.display.lastScene.value, e.submits, e.completes);
        }
      }
    }
  }

  lemma AlreadyPending(w: World, k: string)
    requires InFlightOk(w) && k in w.display.outputs
    ensures w.backend.kind == MockImmediate ==> w.backend.pending == map[]
    ensures w.backend.kind != MockImmediate ==>
      w.backend.pending.Keys == w.backend.pending.Keys - TokenOf(w.display.outputs[k]) + TokenOf(w.display.outputs[k])
  {
  }

  // ---------------------------------------------------------------------- lifecycle

  lemma DropOutputKeys(w: World, k: string, generation: U64)
    requires InFlightOk(w) && k in w.display.outputs
    requires w.display.outputs[k].output.generation != generation
    ensures var b := RetireOutstanding(w.backend, w.display.outputs[k]);
      && RemoveOutput(b, k).pending.Keys == b.pending.Keys
      && ReconfigureOutput(b, k, generation).pending.Keys == b.pending.Keys
      && b.pending.Keys == w.backend.pending.Keys - TokenOf(w.display.outputs[k])
  {
    hide OutstandingTokens;
    var b := RetireOutstanding(w.backend, w.display.outputs[k]);
    RetireOutstandingKeys(w.backend, w.display.outputs[k]);
    forall t | t in b.pending && w.backend.kind != MockImmediate
      ensures t.outputId != k
    {
      TokenNames(w.backend.nextSequence, w.display.outputs, t);
    }
    assert forall t :: t in b.pending ==> t in RemoveOutput(b, k).pending && t in ReconfigureOutput(b, k, generation).pending;
  }

  lemma DetachKeepsFlight(w: World, k: string)
    requires InFlightOk(w) && k in w.display.outputs
    ensures InFlightOk(Detach(w, k)) && Detach(w, k).backend.nextSequence == w.backend.nextSequence
  {
    hide OutstandingTokens, TotalFramebufferBytes, RegistryOk, RemoveOutput, RetireOutstanding, RuntimesInFlight;
    var other := if w.display.outputs[k].output.generation == 0 then 1 else 0;
    DropOutputKeys(w, k, other);
    DetachKeepsCounters(w, k);
    OthersInFlight(w.backend.nextSequence, w.display.outputs, k);
    TokensRemove(w.backend.nextSequence, w.display.outputs, k);
    RegistryRemove(w.display.outputs, k);
  }

  lemma DetachKeepsCounters(w: World, k: string)
    requires k in w.display.outputs
    ensures var b := RemoveOutput(RetireOutstanding(w.backend, w.display.outputs[k]), k);
      b == w.backend.(pending := b.pending)
  {
  }

  lemma OthersInFlight(n: U64, outputs: map<string, Runtime>, k: string)
    requires RuntimesInFlight(n, outputs)
    ensures RuntimesInFlight(n, outputs - {k})
  {
  }

  lemma {:induction false} DetachAllKeepsFlight(w: World, ids: set<string>)
    requires InFlightOk(w) && ids <= w.display.outputs.Keys
    ensures InFlightOk(DetachAll(w, ids)) && DetachAll(w, ids).backend.nextSequence == w.backend.nextSequence
    decreases |ids|
  {
    hide InFlightOk;
    DetachNone(w);
    if ids != {} {
      var id :| id in ids;
      DetachOne(w, ids, id);
      DetachKeepsFlight(w, id);
      DetachAllKeepsFlight(Detach(w, id), ids - {id});
    }
  }

  lemma ConnectRegistry(outputs: map<string, Runtime>, k: string, r: Runtime)
    requires RegistryOk(outputs)
    requires k in outputs || |outputs| < MAX_OUTPUTS
    requires TotalFramebufferBytes(outputs - {k}) + r.output.Bytes() <= MAX_TOTAL_FRAMEBUFFER_BYTES
    ensures RegistryOk(outputs[k := r])
  {
    BytesUpdate(outputs, k, r);
    assert outputs[k := r].Keys == outputs.Keys + {k};
    assert |outputs[k := r]| == |outputs[k := r].Keys| && |outputs| == |outputs.Keys|;
    if k in outputs {
      assert outputs.Keys + {k} == outputs.Keys;
    }
  }

  /** Putting a fresh runtime in the registry, once its predecessor's frame is retired. */
  lemma InsertKeepsFlight(w: World, k: string, r: Runtime, b: Backend, d: Display)
    requires InFlightOk(w) && RuntimeInFlight(w.backend.nextSequence, k, r) && r.outstanding.None?
    requires k in w.display.outputs || |w.display.outputs| < MAX_OUTPUTS
    requires TotalFramebufferBytes(w.display.outputs - {k}) + r.output.Bytes() <= MAX_TOTAL_FRAMEBUFFER_BYTES
    requires b == if k in w.display.outputs
                  then ReconfigureOutput(RetireOutstanding(w.backend, w.display.outputs[k]), k, r.output.generation) else w.backend
    requires k in w.display.outputs ==> w.display.outputs[k].output.generation != r.output.generation
    requires d.outputs == w.display.outputs[k := r]
    ensures InFlightOk(w.(backend := b, display := d)) && b.nextSequence == w.backend.nextSequence
  {
    hide OutstandingTokens, TotalFramebufferBytes, RegistryOk, RuntimesInFlight;
    ConnectRegistry(w.display.outputs, k, r);
    RuntimesInsert(w.backend.nextSequence, w.display.outputs, k, r);
    if k in w.display.outputs {
      DropOutputKeys(w, k, r.output.generation);
      TokensUpdate(w.backend.nextSequence, w.display.outputs, k, r);
      assert b.pending.Keys == w.backend.pending.Keys - TokenOf(w.display.outputs[k]);
      assert Agreement(b, d.outputs);
    } else {
      TokensInsert(w.display.outputs, k, r);
    }
  }

  lemma RuntimesInsert(n: U64, outputs: map<string, Runtime>, k: string, r: Runtime)
    requires RuntimesInFlight(n, outputs) && RuntimeInFlight(n, k, r)
    ensures RuntimesInFlight(n, outputs[k := r])
  {
  }

  lemma ConnectedInFlight(n: U64, d: Display, output: LiveOutput, instance: U64, period: U64)
    ensures RuntimeInFlight(n, output.outputId, ConnectedRuntime(d, output, instance, period))
    ensures ConnectedRuntime(d, output, instance, period).outstanding.None? && ConnectedRuntime(d, output, instance, period).output == output
  {
  }

  lemma ConnectKeepsFlight(w: World, e: OutputEvent)
    requires InFlightOk(w) && e.Up? && e.boot.instanceId >= 1
    ensures InFlightOk(Connect(w, e).0)
    ensures Connect(w, e).1 != Died ==> Connect(w, e).0.backend.nextSequence == w.backend.nextSequence
  {
    hide TotalFramebufferBytes, InFlightOk, Rebind, ConnectedRuntime, Load, ReconfigureOutput, RetireOutstanding;
    if Connect(w, e).1 == Died {
      RestartKeepsFlight(w, e.boot);
    } else if Connect(w, e).1 == Applied {
      var d := w.display;
      var geometry := e.geometry.(outputGeneration := EffectiveGeneration(d, e.instance, e.geometry.outputGeneration));
      var next := ValidateGeometry(geometry).value;
      ConnectedInFlight(w.backend.nextSequence, d, next, e.instance, e.period);
      InsertKeepsFlight(w, e.outputId, ConnectedRuntime(d, next, e.instance, e.period), Connect(w, e).0.backend, Connect(w, e).0.display);
    }
  }

  lemma RestartKeepsFlight(w: World, boot: Boot)
    requires boot.instanceId >= 1
    ensures InFlightOk(Restarted(w, boot))
  {
    var outputs := Restarted(w, boot).display.outputs;
    if !boot.clearOutputs {
      var none: map<string, Runtime> := map[];
      BytesUpdate(none, "eDP-1", NewRuntime(DefaultOutput()));
      assert none - {"eDP-1"} == none;
      assert outputs == none["eDP-1" := NewRuntime(DefaultOutput())];
    }
    assert OutstandingTokens(outputs) == {};
  }

  lemma DisableKeepsFlight(w: World, k: string)
    requires InFlightOk(w) && k in w.display.outputs
    ensures var r := w.display.outputs[k];
            var b := RemoveOutput(RetireOutstanding(w.backend, r), k);
            InFlightOk(WithRuntime(w.(backend := b), k, DisabledRuntime(r))) && b.nextSequence == w.backend.nextSequence
  {
    hide OutstandingTokens, TotalFramebufferBytes, RegistryOk;
    var r := w.display.outputs[k];
    var other := if r.output.generation == 0 then 1 else 0;
    DropOutputKeys(w, k, other);
    UpdateKeepsFlight(w, RemoveOutput(RetireOutstanding(w.backend, r), k), k, DisabledRuntime(r));
  }

  lemma ChangeKeepsFlight(w: World, e: OutputEvent)
    requires InFlightOk(w) && (e.Up? ==> e.boot.instanceId >= 1)
    ensures InFlightOk(ApplyOutputEvent(w, e).0)
    ensures ApplyOutputEvent(w, e).1 != Died ==> ApplyOutputEvent(w, e).0.backend.nextSequence == w.backend.nextSequence
  {
    hide Connect, DetachAll, RuntimesInFlight, Agreement, RegistryOk;
    var adopted := if e.instance != 0 && e.instance != w.display.displayEpoch
                   then w.(display := w.display.(displayEpoch := e.instance)) else w;
    match e {
      case Up(_, _, _, _, _, boot) => ConnectKeepsFlight(adopted, e);
      case Disabled(instance, id, _, generation) =>
        if Addresses(adopted.display, id, instance, generation) { DisableKeepsFlight(adopted, id); }
      case Disconnected(instance, id, _, generation) =>
        if Addresses(adopted.display, id, instance, generation) { DetachKeepsFlight(adopted, id); }
      case BackendReset(instance, _) => DetachAllKeepsFlight(adopted, OfInstance(adopted.display, instance));
    }
  }

  lemma RetireAllKeepsFlight(w: World)
    requires InFlightOk(w)
    ensures InFlightOk(RetireAll(w)) && OutstandingTokens(RetireAll(w).display.outputs) == {}
    ensures RetireAll(w).backend.nextSequence == w.backend.nextSequence
  {
    hide TotalFramebufferBytes, RegistryOk;
    var retired := RetireAll(w);
    assert OutstandingTokens(retired.display.outputs) == {};
    assert retired.backend.pending.Keys == w.backend.pending.Keys - OutstandingTokens(w.display.outputs);
    RegistrySame(w.display.outputs, retired.display.outputs);
  }

  lemma EmptyRegistry(w: World, d: Display)
    requires InFlightOk(w) && OutstandingTokens(w.display.outputs) == {} && d.outputs == map[]
    ensures InFlightOk(w.(display := d))
  {
    NoBytes();
    assert OutstandingTokens(d.outputs) == {};
  }

  lemma BeginKeepsFlight(w: World, epoch: U64)
    requires InFlightOk(w)
    ensures InFlightOk(Begin(w, epoch).0) && Begin(w, epoch).0.backend.nextSequence == w.backend.nextSequence
  {
    hide RetireAll, RegistryOk, RuntimesInFlight, Agreement;
    RetireAllKeepsFlight(w);
    if epoch > RetireAll(w).display.displayEpoch {
      EmptyRegistry(RetireAll(w), Begin(w, epoch).0.display);
    }
  }

  lemma NoBytes()
    ensures TotalFramebufferBytes(map[]) == 0
  {
  }

  lemma CarryOutKeepsFlight(w: World, r: SceneRequest, fault: DiskFault, verdict: Verdict)
    requires InFlightOk(w) && verdict.Proceed?
    requires fault.DiesBeforeRename? ==> fault.boot.instanceId >= 1
    requires fault.DiesAfterRename? ==> fault.boot.instanceId >= 1
    ensures InFlightOk(CarryOut(w, r, fault, verdict).0)
    ensures CarryOut(w, r, fault, verdict).1 != Died ==> CarryOut(w, r, fault, verdict).0.backend == w.backend
  {
    hide TotalFramebufferBytes, OutstandingTokens, Rebind, RegistryOk, Load, RuntimesInFlight, DamageOutputs;
    var s := SceneOf(r, w.display.nextCommitId);
    var commitId := if verdict.replayed.Some? then verdict.replayed.value else s.commitId;
    DamagedOutputs(w.backend.nextSequence, w.display.outputs, verdict.damage, r.version, commitId);
    if fault.DiesBeforeRename? || fault.DiesAfterRename? {
      RestartKeepsFlight(w, fault.boot);
      RestartKeepsFlight(Persisted(w, s), fault.boot);
    }
  }

  /** Merging damage touches neither geometries nor frames in flight. */
  lemma DamagedOutputs(n: U64, outputs: map<string, Runtime>, damage: map<string, seq<Rect>>, v: Version, commitId: U64)
    requires RuntimesInFlight(n, outputs) && RegistryOk(outputs)
    ensures var next := DamageOutputs(outputs, damage, v, commitId);
      RuntimesInFlight(n, next) && RegistryOk(next) && OutstandingTokens(next) == OutstandingTokens(outputs)
  {
    hide TotalFramebufferBytes, RegistryOk;
    var next := DamageOutputs(outputs, damage, v, commitId);
    RegistrySame(outputs, next);
    forall t
      ensures t in OutstandingTokens(next) <==> t in OutstandingTokens(outputs)
    {
      if t in OutstandingTokens(outputs) {
        var j :| j in outputs && outputs[j].outstanding.Some? && outputs[j].outstanding.value.token == t;
        assert next[j].outstanding == outputs[j].outstanding;
      }
      if t in OutstandingTokens(next) {
        var j :| j in next && next[j].outstanding.Some? && next[j].outstanding.value.token == t;
        assert next[j].outstanding == outputs[j].outstanding;
      }
    }
  }

  lemma AcceptKeepsFlight(w: World, request: SceneRequest, fault: DiskFault)
    requires InFlightOk(w)
    requires fault.DiesBeforeRename? ==> fault.boot.instanceId >= 1
    requires fault.DiesAfterRename? ==> fault.boot.instanceId >= 1
    ensures InFlightOk(Accept(w, request, fault).0)
    ensures Accept(w, request, fault).1 != Died ==> Accept(w, request, fault).0.backend == w.backend
  {
    hide Judge, CarryOut, InFlightOk;
    var r := WithCanonicalSurfaces(request);
    if Judge(w.display, r).Proceed? {
      CarryOutKeepsFlight(w, r, fault, Judge(w.display, r));
    }
  }

  /** After every step broker and backend agree, frame ids have grown, and the registry is
      within its output and byte budgets; the token counter never falls within a process. */
  lemma StepKeepsFlight(w: World, e: Event)
    requires InFlightOk(w) && CountedStep(w, e)
    ensures InFlightOk(Step(w, e).0)
    ensures !e.Restart? && Step(w, e).1 != Died ==> Step(w, e).0.backend.nextSequence >= w.backend.nextSequence
  {
    hide Accept, TickOutput, FinishCompletion, ApplyOutputEvent, Begin, RuntimesInFlight, Agreement, RegistryOk, Load;
    match e
    case Commit(request, fault) => AcceptKeepsFlight(w, request, fault);
    case Reconcile(epoch, request, fault) => AcceptKeepsFlight(w, request, fault);
    case BeginReconciliation(epoch) => BeginKeepsFlight(w, epoch);
    case Tick(_, _, _, _, _, _) => TickKeepsFlight(w, e);
    case Complete(token, outcome, completes) => CompletionKeepsFlight(w, token, outcome, completes);
    case OutputChange(change) => ChangeKeepsFlight(w, change);
    case Restart(boot) => RestartKeepsFlight(w, boot);
  }

  lemma {:induction false} RunKeepsFlight(w: World, events: seq<Event>)
    requires InFlightOk(w) && CountedRun(w, events)
    ensures InFlightOk(Run(w, events))
    decreases |events|
  {
    hide InFlightOk, Step, CountedStep;
    if events != [] {
      StepKeepsFlight(w, events[0]);
      RunKeepsFlight(Step(w, events[0]).0, events[1..]);
    }
  }

  // ------------------------------------------------------------------ at most once

  /** A token that was issued and is no longer outstanding anywhere. */
  ghost predicate Spent(w: World, t: Token)
  {
    t.sequence < w.backend.nextSequence && t !in OutstandingTokens(w.display.outputs)
  }

  lemma SpentIsRefused(w: World, t: Token, outcome: Completion, completes: bool)
    requires InFlightOk(w) && Spent(w, t)
    ensures FinishCompletion(w, t, outcome, completes).0 == w
    ensures FinishCompletion(w, t, outcome, completes).1 in {UnknownToken, Completion.StaleGeneration}
  {
    PreflightOutstanding(w.display, t);
  }

  lemma PreflightOutstanding(d: Display, t: Token)
    ensures Preflight(d, t).None? ==> t in OutstandingTokens(d.outputs)
  {
  }

  /** Every token outstanding after a step was so before, or is new. */
  lemma StepIssuesFreshTokens(w: World, e: Event, t: Token)
    requires InFlightOk(w) && CountedStep(w, e) && !e.Restart? && Step(w, e).1 != Died
    requires t in OutstandingTokens(Step(w, e).0.display.outputs)
    ensures t in OutstandingTokens(w.display.outputs) || t.sequence >= w.backend.nextSequence
  {
    hide Accept, TickOutput, FinishCompletion, ApplyOutputEvent, InFlightOk, Load;
    match e
    case Commit(request, fault) => AcceptTokens(w, request, fault);
    case Reconcile(epoch, request, fault) => AcceptTokens(w, request, fault);
    case BeginReconciliation(epoch) =>
    case Tick(_, _, _, _, _, _) => TickTokens(w, e, t);
    case Complete(token, outcome, completes) => CompletionTokens(w, token, outcome, completes);
    case OutputChange(change) => ChangeTokens(w, change);
    case Restart(boot) =>
  }

  lemma AcceptTokens(w: World, request: SceneRequest, fault: DiskFault)
    requires InFlightOk(w)
    ensures Accept(w, request, fault).1 != Died ==>
      OutstandingTokens(Accept(w, request, fault).0.display.outputs) == OutstandingTokens(w.display.outputs)
  {
    hide Judge, OutstandingTokens, TotalFramebufferBytes, Rebind, DamageOutputs, RegistryOk;
    var r := WithCanonicalSurfaces(request);
    var verdict := Judge(w.display, r);
    if verdict.Proceed? {
      var commitId := if verdict.replayed.Some? then verdict.replayed.value else w.display.nextCommitId;
      DamagedOutputs(w.backend.nextSequence, w.display.outputs, verdict.damage, r.version, commitId);
    }
  }

  lemma CompletionTokens(w: World, t: Token, outcome: Completion, completes: bool)
    requires InFlightOk(w)
    ensures OutstandingTokens(FinishCompletion(w, t, outcome, completes).0.display.outputs) <= OutstandingTokens(w.display.outputs)
  {
    hide NotePresented, OutstandingTokens, TotalFramebufferBytes;
    if Preflight(w.display, t).None? {
      var r := w.display.outputs[t.outputId];
      var (w', result) := FinishCompletion(w, t, outcome, completes);
      CompletionWorld(w, t, outcome, completes);
      TokensUpdate(w.backend.nextSequence, w.display.outputs, t.outputId,
                   if result == Presented then PresentRuntime(r, r.outstanding.value) else FailRuntime(r, r.outstanding.value));
    }
  }

  lemma CommitTokens(w: World, id: string, s: Scene, submits: bool, completes: bool, t: Token)
    requires InFlightOk(w) && id in w.display.outputs
    requires w.backend.nextSequence < U64_MAX && w.display.outputs[id].nextFrameId < U64_MAX
    requires t in OutstandingTokens(CommitOutput(w, id, s, submits, completes).0.display.outputs)
    ensures t in OutstandingTokens(w.display.outputs) || t.sequence >= w.backend.nextSequence
  {
    hide InFlightOk, ComposedFrame, ValidatedForDamage, Decodable, FinishCompletion, OutstandingTokens;
    var r := w.display.outputs[id];
    var frame := ComposedFrame(w.display, s, r);
    var token := TokenFor(w.backend, frame);
    ComposedFrameIdentity(w.display, s, r);
    UpdatedTokens(w, id, r.(scheduler := r.scheduler.(state := PresentationBlocked)));
    UpdatedTokens(w, id, r.(scheduler := r.scheduler.(state := Idle)));
    UpdatedTokens(w, id, SubmissionFailed(r, frame));
    UpdatedTokens(w, id, InFlight(r, frame, token));
    if r.outstanding.None? {
      SubmitKeepsFlight(w, id, frame);
      CompletionTokens(WithRuntime(w.(backend := Submit(w.backend, frame)), id, InFlight(r, frame, token)), token, Presented, completes);
    }
  }

  lemma UpdatedTokens(w: World, k: string, r: Runtime)
    requires InFlightOk(w) && k in w.display.outputs
    ensures OutstandingTokens(w.display.outputs[k := r]) == OutstandingTokens(w.display.outputs) - TokenOf(w.display.outputs[k]) + TokenOf(r)
    ensures TokenOf(w.display.outputs[k]) <= OutstandingTokens(w.display.outputs)
  {
    TokensUpdate(w.backend.nextSequence, w.display.outputs, k, r);
  }

  lemma TickTokens(w: World, e: Event, t: Token)
    requires InFlightOk(w) && e.Tick? && CountedStep(w, e)
    requires t in OutstandingTokens(TickOutput(w, e).0.display.outputs)
    ensures t in OutstandingTokens(w.display.outputs) || t.sequence >= w.backend.nextSequence
  {
    hide AdvancePresentation, CommitOutput, OutstandingTokens, TotalFramebufferBytes, RegistryOk, RuntimeInFlight;
    if e.outputId in w.display.outputs {
      var r := w.display.outputs[e.outputId];
      AdvanceKeepsFlight(w.backend.nextSequence, e.outputId, r, e.outputGeneration, e.now, e.tickSequence);
      var a := AdvancePresentation(r, e.outputGeneration, e.now, e.tickSequence);
      if !a.StaleOutput? {
        AlreadyPending(w, e.outputId);
        UpdateKeepsFlight(w, w.backend, e.outputId, a.runtime);
        UpdatedTokens(w, e.outputId, a.runtime);
        var ticked := WithRuntime(w, e.outputId, a.runtime);
        if w.display.lastScene.Some? && TickOutput(w, e).0 != ticked {
          CommitTokens(ticked, e.outputId, w.display.lastScene.value, e.submits, e.completes, t);
        }
      }
    }
  }

  lemma {:induction false} DetachAllTokens(w: World, ids: set<string>)
    requires InFlightOk(w) && ids <= w.display.outputs.Keys
    ensures OutstandingTokens(DetachAll(w, ids).display.outputs) <= OutstandingTokens(w.display.outputs)
    decreases |ids|
  {
    hide OutstandingTokens, TotalFramebufferBytes;
    DetachNone(w);
    if ids != {} {
      var id :| id in ids;
      DetachOne(w, ids, id);
      TokensRemove(w.backend.nextSequence, w.display.outputs, id);
      DetachKeepsFlight(w, id);
      DetachAllTokens(Detach(w, id), ids - {id});
    }
  }

  lemma ConnectTokens(w: World, e: OutputEvent)
    requires InFlightOk(w) && e.Up?
    ensures Connect(w, e).1 != Died ==> OutstandingTokens(Connect(w, e).0.display.outputs) <= OutstandingTokens(w.display.outputs)
  {
    hide OutstandingTokens, TotalFramebufferBytes, RegistryOk, Rebind;
    if Connect(w, e).1 == Applied {
      var d := w.display;
      var geometry := e.geometry.(outputGeneration := EffectiveGeneration(d, e.instance, e.geometry.outputGeneration));
      var r := ConnectedRuntime(d, ValidateGeometry(geometry).value, e.instance, e.period);
      if e.outputId in d.outputs {
        TokensUpdate(w.backend.nextSequence, d.outputs, e.outputId, r);
      } else {
        TokensInsert(d.outputs, e.outputId, r);
      }
    }
  }

  lemma ChangeTokens(w: World, e: OutputEvent)
    requires InFlightOk(w)
    ensures ApplyOutputEvent(w, e).1 != Died ==>
      OutstandingTokens(ApplyOutputEvent(w, e).0.display.outputs) <= OutstandingTokens(w.display.outputs)
  {
    hide Connect, DetachAll, OutstandingTokens, RegistryOk;
    var adopted := if e.instance != 0 && e.instance != w.display.displayEpoch
                   then w.(display := w.display.(displayEpoch := e.instance)) else w;
    match e {
      case Up(_, _, _, _, _, boot) => ConnectTokens(adopted, e);
      case Disabled(instance, id, _, generation) =>
        if Addresses(adopted.display, id, instance, generation) {
          TokensUpdate(w.backend.nextSequence, w.display.outputs, id, DisabledRuntime(w.display.outputs[id]));
        }
      case Disconnected(instance, id, _, generation) =>
        if Addresses(adopted.display, id, instance, generation) { TokensRemove(w.backend.nextSequence, w.display.outputs, id); }
      case BackendReset(instance, _) => DetachAllTokens(adopted, OfInstance(adopted.display, instance));
    }
  }

  /** Events of one process lifetime. */
  ghost predicate OneLifetime(w: World, events: seq<Event>)
    decreases |events|
  {
    events != [] ==> !events[0].Restart? && Step(w, events[0]).1 != Died && OneLifetime(Step(w, events[0]).0, events[1..])
  }

  lemma {:induction false} SpentStaysSpent(w: World, events: seq<Event>, t: Token)
    requires InFlightOk(w) && CountedRun(w, events) && OneLifetime(w, events) && Spent(w, t)
    ensures InFlightOk(Run(w, events)) && Spent(Run(w, events), t)
    decreases |events|
  {
    hide InFlightOk, Step, CountedStep;
    if events != [] {
      var next := Step(w, events[0]).0;
      StepKeepsFlight(w, events[0]);
      if t in OutstandingTokens(next.display.outputs) {
        StepIssuesFreshTokens(w, events[0], t);
      }
      SpentStaysSpent(next, events[1..], t);
    }
  }

  /** A token completes at most once: after a first completion, whatever its outcome, every
      later one in the process's lifetime is refused and changes nothing. */
  lemma CompletesAtMostOnce(w: World, t: Token, outcome: Completion, completes: bool, events: seq<Event>, again: Completion, answer: bool)
    requires InFlightOk(w) && Preflight(w.display, t).None?
    requires var first := FinishCompletion(w, t, outcome, completes).0; CountedRun(first, events) && OneLifetime(first, events)
    ensures var later := Run(FinishCompletion(w, t, outcome, completes).0, events);
      && FinishCompletion(later, t, again, answer).0 == later
      && FinishCompletion(later, t, again, answer).1 in {UnknownToken, Completion.StaleGeneration}
  {
    hide InFlightOk, FinishCompletion;
    CompletionKeepsFlight(w, t, outcome, completes);
    var first := FinishCompletion(w, t, outcome, completes).0;
    SpentStaysSpent(first, events, t);
    SpentIsRefused(Run(first, events), t, again, answer);
  }
}
