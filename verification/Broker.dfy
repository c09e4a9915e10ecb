/** displayd as the object it is: fields updated step by step, every method proved to do
    what the corresponding transition of `Pipeline` says. */
module Broker {
  import opened Machine
  import opened SceneTypes
  import opened Geometry
  import opened Blend
  import opened Composition
  import opened Renderer
  import opened Damage
  import opened Admission
  import opened PixelStore
  import opened Pipeline
  import opened Flight

  /** Damage never leaves its output, so composing it cannot fail on bounds. */
  ghost predicate DamageInside(r: Runtime)
  {
    && Within(r.pendingDamage, r.output.Bounds())
    && (r.outstanding.Some? ==>
          r.outstanding.value.frame.output == r.output && Within(r.outstanding.value.frame.damage, r.output.Bounds()))
  }

  ghost predicate AllInside(outputs: map<string, Runtime>)
  {
    forall k :: k in outputs ==> DamageInside(outputs[k])
  }

  lemma NormalizedInside(rects: seq<Rect>, o: LiveOutput)
    requires Within(rects, o.Bounds())
    ensures Within(NormalizeDamage(rects, o.Bounds()), o.Bounds())
  {
    NormalizeDamageCovers(rects, o.Bounds());
  }

  lemma DamageForInside(previous: Option<seq<Surface>>, surfaces: seq<Surface>, r: Runtime)
    requires DamageInside(r)
    ensures Within(DamageFor(previous, surfaces, r), r.output.Bounds())
  {
    var bounds := r.output.Bounds();
    EffectiveDamageWithin(previous, surfaces, r.Initialised(), bounds);
    var arriving := if surfaces == [] && previous.None? then [] else EffectiveDamage(previous, surfaces, r.Initialised(), bounds);
    WithinConcat(arriving, r.pendingDamage, bounds);
    NormalizedInside(arriving + r.pendingDamage, r.output);
  }

  lemma DamagedInside(outputs: map<string, Runtime>, d: Display, surfaces: seq<Surface>, v: Version, commitId: U64)
    requires AllInside(outputs) && d.outputs == outputs
    ensures AllInside(DamageOutputs(outputs, DamageByOutput(d, surfaces), v, commitId))
  {
    hide DamageFor;
    forall k | k in outputs
      ensures DamageInside(DamageOutputs(outputs, DamageByOutput(d, surfaces), v, commitId)[k])
    {
      DamageForInside(PreviousSurfaces(d), surfaces, outputs[k]);
    }
  }

  class DisplayBroker {
    var displayEpoch: U64
    var reconciliation: Reconciliation
    var lastScene: Option<Scene>
    var lastVersion: Version
    var nextCommitId: U64
    var feedbacks: map<U64, Feedback>
    var obligations: map<U64, Obligation>
    var outputs: map<string, Runtime>
    var pixelTransport: DisplayPixelTransportStore
    var backendSequences: map<U64, U64>
    var backend: Backend
    var disk: Option<Scene>
    const avx2: bool
    ghost var ledger: map<Version, Scene>

    ghost predicate Valid()
      reads this, pixelTransport, pixelTransport.inner
    {
      pixelTransport.Valid() && AllInside(outputs)
    }

    ghost function Display(): Pipeline.Display
      reads this, pixelTransport
    {
      Pipeline.Display(displayEpoch, reconciliation, lastScene, lastVersion, nextCommitId,
                       feedbacks, obligations, outputs, pixelTransport.payloads, backendSequences)
    }

    ghost function Model(): World
      reads this, pixelTransport
    {
      World(Display(), backend, disk, ledger)
    }

    /** A first start, with nothing on disk. */
    constructor (kind: BackendKind, boot: Boot, avx2: bool)
      ensures Valid()
      ensures Model() == World(Load(None, boot), Backend(kind, boot.instanceId, map[], 1), None, map[])
    {
      this.avx2 := avx2;
      displayEpoch, reconciliation, lastScene, lastVersion := boot.displayEpoch, ReconciledAwaitingPresentation, None, UNVERSIONED;
      nextCommitId, feedbacks, obligations, backendSequences := 1, map[], map[], map[];
      outputs := BootOutputs(boot);
      pixelTransport := new DisplayPixelTransportStore();
      backend := Backend(kind, boot.instanceId, map[], 1);
      disk, ledger := None, map[];
    }

    /** `DisplayState::load` in a new process. */
    method Restart(boot: Boot)
      requires Valid()
      modifies this
      ensures Valid() && fresh(pixelTransport) && fresh(pixelTransport.inner)
      ensures Model() == Restarted(old(Model()), boot)
    {
      hide Load, DisplayPixelTransportStore.Valid;
      var empty := new DisplayPixelTransportStore();
      pixelTransport := empty;
      LoadState(boot);
      backend := Backend(backend.kind, boot.instanceId, map[], 1);
    }

    /** Every field of the state but the transport store. */
    method LoadState(boot: Boot)
      requires pixelTransport.payloads == map[]
      modifies this`displayEpoch, this`reconciliation, this`lastScene, this`lastVersion, this`nextCommitId,
               this`feedbacks, this`obligations, this`backendSequences, this`outputs
      ensures AllInside(outputs) && Display() == Load(disk, boot)
    {
      feedbacks, obligations, backendSequences := map[], map[], map[];
      displayEpoch, reconciliation := boot.displayEpoch, ReconciledAwaitingPresentation;
      lastScene := disk;
      lastVersion := if disk.Some? then disk.value.version else UNVERSIONED;
      nextCommitId := if disk.Some? then Inc(disk.value.commitId) else 1;
      outputs := BootOutputs(boot);
      BootInside(boot);
    }

    // ------------------------------------------------------------ scene acceptance

    /** `rebind_unavailable_obligations`. */
    method RebindUnavailableObligations(v: Version, required: set<string>)
      modifies this`obligations
      ensures obligations == Rebind(old(obligations), ActiveOutputs(outputs), v, required)
    {
      if required == {} {
        return;
      }
      var active := ActiveOutputs(outputs);
      var todo := obligations.Keys;
      while todo != {}
        invariant todo <= obligations.Keys == old(obligations).Keys
        invariant forall c :: c in obligations ==>
          obligations[c] == if c in todo then old(obligations)[c] else RebindOne(old(obligations)[c], active, v, required)
        decreases todo
      {
        var c :| c in todo;
        var o := obligations[c];
        if VersionCovers(v, o) && o.required !! active {
          obligations := obligations[c := Obligation(o.version, required, {})];
        }
        todo := todo - {c};
      }
    }

    /** The loop over the outputs: effective damage, merged with what is pending. */
    method CollectDamage(surfaces: seq<Surface>, prepared: Store, allowMissing: bool) returns (ok: bool, damage: map<string, seq<Rect>>)
      ensures ok ==> damage == DamageByOutput(Display(), surfaces)
      ensures ok <==> allowMissing || PayloadsSuffice(prepared, surfaces, DamageByOutput(Display(), surfaces))
    {
      hide ValidatedForDamage, DamageFor;
      damage := map[];
      ghost var all := DamageByOutput(Display(), surfaces);
      var previous := if lastScene.Some? then Some(lastScene.value.surfaces) else None;
      assert previous == PreviousSurfaces(Display());
      var layers := StoreLayers(prepared, surfaces);
      var todo := outputs.Keys;
      while todo != {}
        invariant todo <= outputs.Keys
        invariant damage.Keys == all.Keys - todo
        invariant forall k :: k in damage ==> damage[k] == all[k]
        invariant !allowMissing ==> forall k :: k in damage ==> ValidatedForDamage(layers, all[k])
        decreases todo
      {
        var k :| k in todo;
        todo := todo - {k};
        if !outputs[k].disabled {
          assert k in all && all[k] == DamageFor(previous, surfaces, outputs[k]);
          var merged := MergeDamage(previous, surfaces, outputs[k]);
          if !allowMissing {
            var valid := ValidateSurfacePixelsForDamage(layers, merged);
            if !valid {
              return false, damage;
            }
          }
          damage := damage[k := merged];
        }
      }
      assert damage == all;
      ok := true;
    }

    /** Preparing the store and the damage: the part of acceptance that changes nothing. */
    method PlanScene(r: SceneRequest, replayed: Option<U64>) returns (verdict: Verdict, prepared: DisplayPixelTransportStore?)
      requires Valid() && DisplayAdmits(r)
      ensures verdict == Plan(Display(), r, replayed) && !verdict.AlreadyAccepted?
      ensures verdict.Proceed? ==> prepared != null && fresh(prepared) && fresh(prepared.inner) && prepared.Valid()
                                   && prepared.payloads == verdict.store
    {
      hide DamageByOutput, PayloadsSuffice, Prepare, AllInside;
      var allowMissing := AllowMissing(reconciliation, r.payloads);
      var store := pixelTransport.PreparedForScene(r.surfaces, r.version, r.payloads, allowMissing);
      if store.None? {
        return Refuse, null;
      }
      var ok, damage := CollectDamage(r.surfaces, store.value.payloads, allowMissing);
      if !ok {
        return Refuse, null;
      }
      var required := RequiredOutputs(outputs, r.target, damage, lastScene.Some? || AnyVisible(r.surfaces));
      verdict, prepared := Proceed(replayed, store.value.payloads, damage, required), store.value;
    }

    /** The publication loop of acceptance: pending damage, version and commit id per output. */
    method AdoptDamage(damage: map<string, seq<Rect>>, v: Version, commitId: U64)
      modifies this`outputs
      ensures outputs == DamageOutputs(old(outputs), damage, v, commitId)
    {
      var todo := damage.Keys;
      while todo != {}
        invariant todo <= damage.Keys && outputs.Keys == old(outputs).Keys
        invariant forall k :: k in outputs ==>
          outputs[k] == if k in damage && k !in todo && damage[k] != [] then WithDamage(old(outputs)[k], damage[k], v, commitId) else old(outputs)[k]
        decreases todo
      {
        var k :| k in todo;
        todo := todo - {k};
        if k in outputs && damage[k] != [] {
          outputs := outputs[k := WithDamage(outputs[k], damage[k], v, commitId)];
        }
      }
    }

    /** The in-memory half of acceptance. */
    method AdoptScene(r: SceneRequest, commitId: U64, verdict: Verdict, prepared: DisplayPixelTransportStore)
      requires verdict.Proceed? && prepared.payloads == verdict.store
      modifies this`pixelTransport, this`outputs, this`obligations, this`feedbacks
      ensures pixelTransport == prepared && outputs == DamageOutputs(old(outputs), verdict.damage, r.version, commitId)
      ensures Display() == Adopt(old(Display()), r.version, commitId, verdict.store, verdict.damage, verdict.required)
    {
      hide DamageOutputs;
      pixelTransport := prepared;
      AdoptDamage(verdict.damage, r.version, commitId);
      if verdict.required != {} {
        obligations := obligations[commitId := Obligation(r.version, verdict.required, {})];
      }
      feedbacks := feedbacks - {commitId};
    }

    /** `record_commit`: the file is replaced first, then memory follows. A write error changes
        nothing; a crash before the rename loses the scene, one after it finds it on disk. */
    method RecordCommit(s: Scene, fault: DiskFault) returns (reply: Reply)
      requires Valid()
      modifies this
      ensures Valid() && (pixelTransport == old(pixelTransport) || (fresh(pixelTransport) && fresh(pixelTransport.inner)))
      ensures (Model(), reply) == match fault
        case Writes => (Persisted(old(Model()), s).(display := Recorded(old(Display()), s)), Committed(s.commitId))
        case WriteFails => (old(Model()), Errored)
        case DiesBeforeRename(boot) => (Restarted(old(Model()), boot), Died)
        case DiesAfterRename(boot) => (Restarted(Persisted(old(Model()), s), boot), Died)
      ensures fault.Writes? ==> pixelTransport == old(pixelTransport) && outputs == old(outputs)
    {
      hide Load, AllInside;
      if fault.WriteFails? {
        return Errored;
      }
      if fault.DiesBeforeRename? {
        Restart(fault.boot);
        return Died;
      }
      disk := Some(s);
      ledger := ledger[s.version := s];
      if fault.DiesAfterRename? {
        Restart(fault.boot);
        return Died;
      }
      nextCommitId := Inc(s.commitId);
      if s.version.generation != 0 {
        lastVersion := s.version;
      }
      lastScene := Some(s);
      reply := Committed(s.commitId);
    }

    /** Binding obligations, persisting, adopting. */
    method CarryOutScene(r: SceneRequest, verdict: Verdict, prepared: DisplayPixelTransportStore, fault: DiskFault) returns (reply: Reply)
      requires Valid() && verdict.Proceed?
      requires prepared.Valid() && prepared.payloads == verdict.store
      requires verdict.damage == DamageByOutput(Display(), r.surfaces)
      modifies this
      ensures Valid() && (pixelTransport == old(pixelTransport) || pixelTransport == prepared || (fresh(pixelTransport) && fresh(pixelTransport.inner)))
      ensures (Model(), reply) == CarryOut(old(Model()), r, fault, verdict)
    {
      hide DamageByOutput, Rebind, DamageOutputs, AllInside, Load, Adopt;
      var commitId := if verdict.replayed.Some? then verdict.replayed.value else nextCommitId;
      DamagedInside(outputs, Display(), r.surfaces, r.version, commitId);
      RebindUnavailableObligations(r.version, verdict.required);
      if verdict.required != {} && |obligations| >= MAX_PRESENTATION_OBLIGATIONS {
        return Rejected;
      }
      if verdict.replayed.None? {
        var s := SceneOf(r, commitId);
        RestartForgetsObligations(old(Model()), Model(), s, fault);
        reply := RecordCommit(s, fault);
        if !fault.Writes? {
          return;
        }
      }
      AdoptScene(r, commitId, verdict, prepared);
      reply := Committed(commitId);
    }

    /** `handle_scene_acceptance`. */
    method HandleSceneAcceptance(request: SceneRequest, fault: DiskFault) returns (reply: Reply)
      requires Valid()
      modifies this
      ensures Valid() && (pixelTransport == old(pixelTransport) || (fresh(pixelTransport) && fresh(pixelTransport.inner)))
      ensures (Model(), reply) == Accept(old(Model()), request, fault)
    {
      hide Plan, CarryOut, DisplayAdmits, AllInside, PayloadsCompatible, HydrationNeeded, DamageByOutput;
      var r := WithCanonicalSurfaces(request);
      var admitted := ValidateSceneAdmission(r);
      if !admitted {
        return Rejected;
      }
      if VersionIsStale(lastVersion, r.version) {
        return Rejected;
      }
      var replayed := None;
      if VersionIsEqual(lastVersion, r.version) {
        if lastScene.None? {
          return Rejected;
        }
        if !SameSceneIdentity(lastScene.value, r) || !PayloadsCompatible(pixelTransport.payloads, r.payloads) {
          return Rejected;
        }
        if reconciliation != Recovering && !HydrationNeeded(pixelTransport.payloads, r.payloads) {
          return Committed(lastScene.value.commitId);
        }
        replayed := Some(lastScene.value.commitId);
      }
      var verdict, prepared := PlanScene(r, replayed);
      assert verdict == Judge(Display(), r);
      if verdict.Refuse? {
        return Rejected;
      }
      PlanDamage(Display(), r, replayed);
      reply := CarryOutScene(r, verdict, prepared, fault);
    }

    // ------------------------------------------------------------------- completion

    /** `insert_bounded_feedback`: the oldest entries make room. */
    method InsertBoundedFeedback(c: U64, f: Feedback)
      modifies this`feedbacks
      ensures feedbacks == InsertBounded(old(feedbacks), c, f)
    {
      while |feedbacks| >= MAX_PRESENTATION_FEEDBACKS
        invariant Evicted(feedbacks) == Evicted(old(feedbacks))
        decreases |feedbacks|
      {
        var oldest := OldestKey(feedbacks.Keys);
        assert (feedbacks - {oldest}).Keys == feedbacks.Keys - {oldest};
        feedbacks := feedbacks - {oldest};
      }
      feedbacks := feedbacks[c := f];
    }

    /** `note_presented_obligations`. */
    method NotePresentedObligations(frame: Frame, outputId: string, feedback: Feedback)
      modifies this`obligations, this`feedbacks
      ensures Display() == NotePresented(old(Display()), frame, outputId, feedback)
    {
      hide NoteOne, Satisfied, InsertAll;
      var satisfied := Satisfied(obligations, frame, outputId);
      SatisfiedAreOwed(obligations, frame, outputId);
      MarkPresented(frame, outputId);
      ghost var marked := obligations;
      Acknowledge(satisfied, feedback);
      assert obligations == NotePresented(old(Display()), frame, outputId, feedback).obligations;
    }

    method AcknowledgeOne(c: U64, feedback: Feedback)
      modifies this`obligations, this`feedbacks
      ensures obligations == old(obligations) - {c} && feedbacks == InsertBounded(old(feedbacks), c, feedback)
    {
      InsertBoundedFeedback(c, feedback);
      obligations := obligations - {c};
    }

    /** Its second loop: every satisfied commit gets its feedback, oldest first, and leaves. */
    method Acknowledge(satisfied: set<U64>, feedback: Feedback)
      requires satisfied <= obligations.Keys
      modifies this`obligations, this`feedbacks
      ensures obligations == old(obligations) - satisfied
      ensures feedbacks == InsertAll(old(feedbacks), satisfied, feedback)
    {
      hide InsertBounded, InsertAll;
      var matching := satisfied;
      InsertAllNone(feedbacks, feedback);
      while matching != {}
        invariant matching <= satisfied
        invariant obligations == old(obligations) - (satisfied - matching)
        invariant InsertAll(feedbacks, matching, feedback) == InsertAll(old(feedbacks), satisfied, feedback)
        decreases matching
      {
        var c := OldestKey(matching);
        InsertAllOldest(feedbacks, matching, feedback);
        LeaveOne(old(obligations), satisfied, matching, c);
        AcknowledgeOne(c, feedback);
        matching := matching - {c};
      }
      InsertAllNone(feedbacks, feedback);
      assert satisfied - matching == satisfied;
    }

    /** Its first loop: the output is ticked off every matching obligation. */
    method MarkPresented(frame: Frame, outputId: string)
      modifies this`obligations
      ensures obligations.Keys == old(obligations).Keys
      ensures forall c :: c in obligations ==> obligations[c] == NoteOne(c, old(obligations)[c], frame, outputId)
    {
      var todo := obligations.Keys;
      while todo != {}
        invariant todo <= obligations.Keys == old(obligations).Keys
        invariant forall c :: c in obligations ==>
          obligations[c] == if c in todo then old(obligations)[c] else NoteOne(c, old(obligations)[c], frame, outputId)
        decreases todo
      {
        var c :| c in todo;
        todo := todo - {c};
        var o := obligations[c];
        if ObligationMatches(c, o, frame) && outputId in o.required {
          obligations := obligations[c := o.(presented := o.presented + {outputId})];
        }
      }
    }

    /** `complete_presentation`, behind its preflight. */
    method FinishPresentation(t: Token, outcome: Completion)
      requires Valid() && Preflight(Display(), t).None?
      modifies this`outputs, this`obligations, this`feedbacks, this`reconciliation
      ensures Valid()
      ensures Display() == CompletePresentation(old(Display()), t, outcome)
    {
      hide NotePresented, AllPublished;
      var r := outputs[t.outputId];
      var outstanding := r.outstanding.value;
      assert DamageInside(r);
      if outcome != Presented {
        outputs := outputs[t.outputId := FailRuntime(r, outstanding)];
        return;
      }
      var shown := r.(outstanding := None, framebuffer := outstanding.frame.pixels,
                      publishedFrameId := t.frameId, lastPublishedSceneGeneration := t.sceneGeneration);
      if r.pendingVersion.AtMost(Version(outstanding.frame.version.epoch, t.sceneGeneration)) {
        shown := shown.(pendingDamage := [], pendingCommitId := 0, retry := None, scheduler := shown.scheduler.(state := Idle));
      } else {
        shown := shown.(scheduler := shown.scheduler.(state := DamagePending));
      }
      outputs := outputs[t.outputId := shown];
      ghost var published := Display();
      assert published == old(Display()).(outputs := old(outputs)[t.outputId := PresentRuntime(r, outstanding)]);
      var refreshNs: U32 := Min(r.scheduler.period, U32_MAX);
      NotePresentedObligations(outstanding.frame, t.outputId, Feedback(refreshNs, t.sequence));
      NotePresentedOutputs(published, outstanding.frame, t.outputId, Feedback(refreshNs, t.sequence));
      if reconciliation == ReconciledAwaitingPresentation && AllPublished(outputs) {
        reconciliation := Ready;
      }
    }

    /** `preflight_presentation_token`. */
    method PreflightToken(t: Token) returns (refused: Option<Completion>)
      ensures refused == Preflight(Display(), t)
    {
      if !t.Valid() || t.outputId !in outputs {
        return Some(UnknownToken);
      }
      var r := outputs[t.outputId];
      if r.output.generation != t.outputGeneration {
        return Some(Completion.StaleGeneration);
      }
      if r.backendInstance != 0 && r.backendInstance != t.backendInstance {
        return Some(Completion.StaleGeneration);
      }
      if r.outstanding.None? || r.outstanding.value.token != t {
        return Some(UnknownToken);
      }
      refused := None;
    }

    /** `finish_backend_completion`. */
    method FinishBackendCompletion(t: Token, outcome: Completion, completes: bool) returns (result: Completion)
      requires Valid()
      modifies this
      ensures Valid() && pixelTransport == old(pixelTransport)
      ensures (Model(), result) == FinishCompletion(old(Model()), t, outcome, completes)
    {
      hide Preflight, CompletePresentation;
      var refused := PreflightToken(t);
      if refused.Some? {
        return refused.value;
      }
      result := outcome;
      if outcome == Presented && !completes {
        result := BackendUnavailable;
      }
      backend := Retire(backend, t);
      FinishPresentation(t, result);
    }

    // ------------------------------------------------------------------------ ticks

    /** Composing the frame of one output into a scratch array. */
    method ComposeFrame(s: Scene, r: Runtime) returns (composed: Option<Frame>, valid: bool)
      requires Valid() && DamageInside(r)
      ensures valid <==> ValidatedForDamage(StoreLayers(pixelTransport.payloads, Canonicalize(s.surfaces)), ComposedFrame(Display(), s, r).damage)
      ensures valid ==> (composed.Some? <==>
        Decodable(StoreLayers(pixelTransport.payloads, Canonicalize(s.surfaces)), ComposedFrame(Display(), s, r).damage))
      ensures valid && composed.Some? ==> composed.value == ComposedFrame(Display(), s, r)
    {
      hide Decodable, ValidatedForDamage, Canonicalize, Repaint, Repainted, NormalizeDamage, AllInside;
      var o := r.output;
      var damage := NormalizeDamage(r.pendingDamage, o.Bounds());
      NormalizedInside(r.pendingDamage, o);
      InsideMeans(damage, o);
      var surfaces := Canonicalize(s.surfaces);
      var layers := StoreLayers(pixelTransport.payloads, surfaces);
      valid := ValidateSurfacePixelsForDamage(layers, damage);
      composed := None;
      if valid {
        var scratch := Scratch(r);
        var framebuffer := new Word[o.Words()](i requires 0 <= i < |scratch| => scratch[i]);
        assert framebuffer[..] == scratch;
        var ok := ComposeDamageRects(framebuffer, o, pixelTransport.payloads, s.surfaces, damage, avx2);
        if ok {
          RepaintedIsUnique(scratch, framebuffer[..], o, layers, damage);
          composed := Some(Frame(r.nextFrameId, r.pendingCommitId, o, s.version, framebuffer[..], damage));
        }
      }
    }

    /** `handle_multi_output_commit`. */
    method CommitSelectedOutput(id: string, s: Scene, submits: bool, completes: bool) returns (reply: Reply)
      requires Valid() && id in outputs
      modifies this
      ensures Valid() && pixelTransport == old(pixelTransport)
      ensures (Model(), reply) == CommitOutput(old(Model()), id, s, submits, completes)
    {
      hide Decodable, ValidatedForDamage, ComposedFrame, FinishCompletion;
      var r := outputs[id];
      assert DamageInside(r);
      if r.disabled {
        return Advanced(false);
      }
      if r.outstanding.Some? {
        outputs := outputs[id := r.(scheduler := r.scheduler.(state := PresentationBlocked))];
        return Advanced(false);
      }
      if r.pendingDamage == [] {
        outputs := outputs[id := r.(scheduler := r.scheduler.(state := Idle))];
        return Advanced(false);
      }
      var composed, valid := ComposeFrame(s, r);
      if !valid {
        return Rejected;
      }
      if composed.None? {
        return Errored;
      }
      var frame := composed.value;
      ComposedInside(Display(), s, r);
      if !submits {
        outputs := outputs[id := SubmissionFailed(r, frame)];
        return Advanced(false);
      }
      var token := TokenFor(backend, frame);
      backend := Submit(backend, frame);
      if !token.Valid() {
        return Errored;
      }
      outputs := outputs[id := InFlight(r, frame, token)];
      if backend.kind != MockDeferred {
        var _ := FinishBackendCompletion(token, Presented, completes);
      }
      reply := Advanced(true);
    }

    /** `AdvancePresentation`: the tick, then the commit it makes eligible. */
    method Tick(e: Event) returns (reply: Reply)
      requires Valid() && e.Tick?
      modifies this
      ensures Valid() && pixelTransport == old(pixelTransport)
      ensures (Model(), reply) == TickOutput(old(Model()), e)
    {
      hide CommitOutput, AdvancePresentation, DamageInside;
      if e.outputId !in outputs {
        return Errored;
      }
      var advance := AdvanceRuntime(outputs[e.outputId], e.outputGeneration, e.now, e.tickSequence);
      if advance.StaleOutput? {
        return Errored;
      }
      outputs := outputs[e.outputId := advance.runtime];
      if advance.BadTick? {
        return Errored;
      }
      reply := Advanced(advance.eligible);
      if advance.eligible && lastScene.Some? {
        var committed := CommitSelectedOutput(e.outputId, lastScene.value, e.submits, e.completes);
        if committed == Errored {
          reply := Errored;
        }
      }
    }

    // -------------------------------------------------------------- output lifecycle

    /** The byte sum over the other outputs. */
    method SumOtherBytes(except: string) returns (bytes: nat)
      ensures bytes == TotalFramebufferBytes(outputs - {except})
    {
      bytes := 0;
      var rest := outputs - {except};
      ghost var all := rest;
      while rest != map[]
        invariant bytes + TotalFramebufferBytes(rest) == TotalFramebufferBytes(all)
        decreases |rest|
      {
        var k :| k in rest.Keys;
        BytesRemove(rest, k);
        bytes := bytes + rest[k].output.Bytes();
        assert |rest - {k}| == |rest| - 1 by { assert (rest - {k}).Keys == rest.Keys - {k}; }
        rest := rest - {k};
      }
    }

    /** The tests of the connect and reconfigure arm. */
    method TestConnect(e: OutputEvent) returns (r: Connectable)
      requires e.Up?
      ensures r == CheckConnect(Display(), e)
    {
      hide TotalFramebufferBytes;
      if e.period == 0 {
        return NotConnectable;
      }
      var geometry := e.geometry;
      if e.instance != 0 {
        geometry := geometry.(outputGeneration := Min(geometry.outputGeneration + displayEpoch, U64_MAX));
      }
      if e.outputId !in outputs && |outputs| >= MAX_OUTPUTS {
        return NotConnectable;
      }
      if geometry.outputId != e.outputId {
        return NotConnectable;
      }
      var next := ValidateGeometry(geometry);
      if next.None? {
        return NotConnectable;
      }
      var others := SumOtherBytes(e.outputId);
      if others + next.value.Bytes() > MAX_TOTAL_FRAMEBUFFER_BYTES {
        return NotConnectable;
      }
      if e.outputId in outputs {
        var previous := outputs[e.outputId];
        if previous.backendInstance != 0 && previous.backendInstance != e.instance {
          return NotConnectable;
        }
        if next.value.generation <= previous.output.generation {
          return NotConnectable;
        }
      }
      r := if next.value.ExtentFits() then Connectable(next.value) else Overflows;
    }

    /** Installing the new runtime. */
    method InstallOutput(e: OutputEvent, output: LiveOutput)
      requires e.Up? && AllInside(outputs)
      modifies this`backend, this`outputs, this`obligations
      ensures AllInside(outputs)
      ensures Model() == Connected(old(Model()), e, output)
    {
      hide Rebind, ReconfigureOutput, RetireOutstanding;
      if e.outputId in outputs {
        backend := ReconfigureOutput(RetireOutstanding(backend, outputs[e.outputId]), e.outputId, output.generation);
      }
      var r := NewRuntime(output);
      r := r.(backendInstance := e.instance, scheduler := r.scheduler.(period := e.period));
      r := r.(pendingDamage := [r.output.Bounds()], pendingVersion := lastVersion,
              pendingCommitId := if lastScene.Some? then lastScene.value.commitId else 0);
      outputs := outputs[e.outputId := r];
      if lastScene.Some? && lastScene.value.target == e.outputId {
        RebindUnavailableObligations(lastVersion, {e.outputId});
      }
    }

    /** The connect and reconfigure arm of `apply_backend_output_event`. */
    method ConnectOutput(e: OutputEvent) returns (reply: Reply)
      requires Valid() && e.Up?
      modifies this
      ensures Valid() && (pixelTransport == old(pixelTransport) || (fresh(pixelTransport) && fresh(pixelTransport.inner)))
      ensures (Model(), reply) == Connect(old(Model()), e)
    {
      hide CheckConnect, Connected, AllInside, Load;
      var checked := TestConnect(e);
      match checked {
        case NotConnectable =>
          reply := Errored;
        case Overflows =>
          Restart(e.boot);
          reply := Died;
        case Connectable(output) =>
          InstallOutput(e, output);
          reply := Applied;
      }
    }

    /** One output leaves: its frame is retired, the backend and the registry drop it. */
    method DetachOutput(id: string)
      requires Valid() && id in outputs
      modifies this`outputs, this`backend
      ensures Valid() && Model() == Detach(old(Model()), id)
    {
      var r := outputs[id];
      if r.outstanding.Some? {
        backend := Retire(backend, r.outstanding.value.token);
      }
      backend := RemoveOutput(backend, id);
      outputs := outputs - {id};
    }

    /** The reset loop. */
    method DetachInstance(instance: U64)
      requires Valid()
      modifies this`outputs, this`backend
      ensures Valid() && Model() == DetachAll(old(Model()), OfInstance(old(Display()), instance))
    {
      hide DetachAll, Detach, AllInside;
      var todo := set k | k in outputs && outputs[k].backendInstance == instance;
      ghost var goal := DetachAll(Model(), todo);
      while todo != {}
        invariant Valid() && todo <= outputs.Keys
        invariant DetachAll(Model(), todo) == goal
        decreases todo
      {
        var id :| id in todo;
        DetachOne(Model(), todo, id);
        DetachedKeys(Model(), id);
        DetachOutput(id);
        todo := todo - {id};
      }
      DetachNone(Model());
    }

    /** The disable arm. */
    method DisableOutput(id: string)
      requires Valid() && id in outputs
      modifies this`outputs, this`backend
      ensures Valid()
      ensures Model() == WithRuntime(old(Model()).(backend := RemoveOutput(RetireOutstanding(old(backend), old(outputs)[id]), id)), id, DisabledRuntime(old(outputs)[id]))
    {
      hide RemoveOutput, Retire;
      var r := outputs[id];
      if r.outstanding.Some? {
        backend := Retire(backend, r.outstanding.value.token);
      }
      backend := RemoveOutput(backend, id);
      outputs := outputs[id := r.(outstanding := None, pendingDamage := [], retry := None, disabled := true)];
    }

    /** The change an event makes once it is through the gate. */
    method ChangeOutput(e: OutputEvent) returns (reply: Reply)
      requires Valid()
      modifies this
      ensures Valid() && (pixelTransport == old(pixelTransport) || (fresh(pixelTransport) && fresh(pixelTransport.inner)))
      ensures (Model(), reply) == ApplyChange(old(Model()), e)
    {
      hide Connect, DetachAll, Detach, RemoveOutput, RetireOutstanding, DisabledRuntime, AllInside;
      match e {
        case Up(_, _, _, _, _, _) =>
          reply := ConnectOutput(e);
        case Disabled(instance, id, _, generation) =>
          if !Addressed(id, instance, generation) {
            return Errored;
          }
          DisableOutput(id);
          reply := Applied;
        case Disconnected(instance, id, _, generation) =>
          if !Addressed(id, instance, generation) {
            return Errored;
          }
          DetachOutput(id);
          reply := Applied;
        case BackendReset(instance, _) =>
          DetachInstance(instance);
          reply := Applied;
      }
    }

    /** `apply_backend_output_event`. */
    method ApplyBackendOutputEvent(e: OutputEvent) returns (reply: Reply)
      requires Valid()
      modifies this
      ensures Valid() && (pixelTransport == old(pixelTransport) || (fresh(pixelTransport) && fresh(pixelTransport.inner)))
      ensures (Model(), reply) == ApplyOutputEvent(old(Model()), e)
    {
      hide ApplyChange, AllInside;
      if e.instance != 0 && e.instance != displayEpoch {
        if outputs == map[] && backendSequences == map[] && reconciliation != Recovering {
          displayEpoch := e.instance;
        } else {
          return Errored;
        }
      }
      if e.instance in backendSequences {
        if e.sequence == backendSequences[e.instance] {
          return Applied;
        }
        if e.sequence < backendSequences[e.instance] {
          return Errored;
        }
      }
      assert Model() == AdoptEpoch(old(Model()), e.instance);
      reply := ChangeOutput(e);
      if reply == Applied {
        backendSequences := backendSequences[e.instance := e.sequence];
      }
    }

    predicate Addressed(id: string, instance: U64, generation: U64)
      reads this
    {
      && id in outputs
      && outputs[id].backendInstance == instance
      && outputs[id].output.generation == if instance == 0 then generation else Min(generation + displayEpoch, U64_MAX)
    }

    // -------------------------------------------------------------- reconciliation

    /** One runtime forgets its frame. */
    method RetireOne(k: string)
      requires k in outputs
      modifies this`outputs, this`backend
      ensures outputs == old(outputs)[k := old(outputs)[k].(outstanding := None, retry := None)]
      ensures backend == RetireOutstanding(old(backend), old(outputs)[k])
    {
      var r := outputs[k];
      if r.outstanding.Some? {
        backend := Retire(backend, r.outstanding.value.token);
      }
      outputs := outputs[k := r.(outstanding := None, retry := None)];
    }

    /** `retire_all_runtime_submissions`. */
    method RetireAllRuntimeSubmissions()
      requires Valid()
      modifies this`outputs, this`backend
      ensures Valid() && Model() == RetireAll(old(Model()))
    {
      hide TokensOf, AllInside, RetireAll, DisplayPixelTransportStore.Valid;
      RetireEveryRuntime();
      RetireEvery(old(Model()), Model());
      RetiredInside(old(outputs), outputs);
    }

    method RetireEveryRuntime()
      modifies this`outputs, this`backend
      ensures outputs.Keys == old(outputs).Keys
      ensures forall k :: k in outputs ==> outputs[k] == old(outputs)[k].(outstanding := None, retry := None)
      ensures backend == old(backend).(pending := old(backend).pending - TokensOf(old(outputs), old(outputs).Keys))
    {
      hide TokensOf, RetireOutstanding, RetiredOutputs;
      var todo := outputs.Keys;
      ghost var before, pending, done := outputs, backend.pending, {};
      RetireNone(before, pending);
      while todo != {}
        invariant todo <= before.Keys && done == before.Keys - todo && outputs == RetiredOutputs(before, done)
        invariant backend == old(backend).(pending := pending - TokensOf(before, done))
        decreases todo
      {
        var k :| k in todo;
        RetireNext(before, old(backend), pending, done, k);
        RetiredNext(before, done, k);
        RetireOne(k);
        todo := todo - {k};
        done := done + {k};
      }
      assert done == before.Keys;
      RetiredAll(before);
    }

    /** `BeginReconciliation` and `begin_restart`. */
    method Begin(epoch: U64) returns (reply: Reply)
      requires Valid()
      modifies this
      ensures Valid() && pixelTransport == old(pixelTransport)
      ensures (Model(), reply) == Pipeline.Begin(old(Model()), epoch)
    {
      hide RetireAll, AllInside;
      RetireAllRuntimeSubmissions();
      if epoch < displayEpoch {
        return Errored;
      }
      reconciliation := Recovering;
      feedbacks := map[];
      if epoch != displayEpoch {
        displayEpoch := epoch;
        outputs := map[];
        backendSequences := map[];
        NothingInside();
      }
      reply := Began(epoch);
    }

    /** `handle_display_command`, output events and restarts included. */
    method Handle(e: Event) returns (reply: Reply)
      requires Valid()
      modifies this
      ensures Valid() && (pixelTransport == old(pixelTransport) || (fresh(pixelTransport) && fresh(pixelTransport.inner)))
      ensures (Model(), reply) == Step(old(Model()), e)
    {
      hide Accept, TickOutput, FinishCompletion, ApplyOutputEvent, Pipeline.Begin, AllInside, Load;
      match e {
        case Commit(request, fault) =>
          reply := HandleSceneAcceptance(request, fault);
        case Reconcile(epoch, request, fault) =>
          if epoch != displayEpoch {
            return Rejected;
          }
          reply := HandleSceneAcceptance(request, fault);
          if reply.Committed? {
            reconciliation := ReconciledAwaitingPresentation;
            reply := Reconciled(epoch, request.version.generation, |request.payloads|);
          }
        case BeginReconciliation(epoch) =>
          reply := Begin(epoch);
        case Tick(_, _, _, _, _, _) =>
          reply := Tick(e);
        case Complete(token, outcome, completes) =>
          var result := FinishBackendCompletion(token, outcome, completes);
          reply := Completed(result);
        case OutputChange(change) =>
          reply := ApplyBackendOutputEvent(change);
        case Restart(boot) =>
          Restart(boot);
          reply := Applied;
      }
    }
  }

  // ------------------------------------------------------------------------- helpers

  /** `advance_presentation` on the runtime it looks up. */
  method AdvanceRuntime(runtime: Runtime, outputGeneration: U64, now: U64, tickSequence: U64) returns (advance: Advance)
    ensures advance == AdvancePresentation(runtime, outputGeneration, now, tickSequence)
    ensures !advance.StaleOutput? && DamageInside(runtime) ==> DamageInside(advance.runtime)
  {
    var r := runtime;
    if r.output.generation != outputGeneration || r.scheduler.outputGeneration != outputGeneration {
      return StaleOutput;
    }
    if r.retry.Some? && !RetryIsCurrent(r, r.retry.value) {
      r := r.(retry := None);
      if r.pendingDamage != [] {
        r := r.(scheduler := r.scheduler.(state := DamagePending));
      }
    }
    if r.disabled {
      return Ticked(r.(scheduler := r.scheduler.(lastTick := now, lastTickSequence := tickSequence)), false);
    }
    if now < r.scheduler.lastTick || tickSequence <= r.scheduler.lastTickSequence {
      return BadTick(r);
    }
    var scheduler := r.scheduler.(lastTick := now, lastTickSequence := tickSequence);
    var eligible := now >= scheduler.nextEligible && r.outstanding.None?
      && (r.pendingDamage != [] || scheduler.state == DamagePending || scheduler.state == SchedulerState.RetryPending);
    if eligible {
      scheduler := scheduler.(state := SubmissionEligible, nextEligible := Min(now + scheduler.period, U64_MAX));
    } else if r.outstanding.Some? {
      scheduler := scheduler.(state := PresentationBlocked);
    }
    advance := Ticked(r.(scheduler := scheduler), eligible);
  }

  /** One output's share of the loop. */
  method MergeDamage(previous: Option<seq<Surface>>, surfaces: seq<Surface>, r: Runtime) returns (merged: seq<Rect>)
    ensures merged == DamageFor(previous, surfaces, r)
  {
    hide EffectiveDamage, NormalizeDamage;
    var bounds := r.output.Bounds();
    var arriving := [];
    if !(surfaces == [] && previous.None?) {
      arriving := ComputeEffectiveDamage(previous, surfaces, r.Initialised(), bounds);
    }
    merged := NormalizeDamage(arriving + r.pendingDamage, bounds);
  }

  /** The smallest key. */
  method OldestKey(keys: set<U64>) returns (oldest: U64)
    requires keys != {}
    ensures oldest == Smallest(keys)
  {
    oldest :| oldest in keys;
    var rest := keys - {oldest};
    while rest != {}
      invariant rest <= keys && oldest in keys
      invariant forall k :: k in keys && k !in rest ==> oldest <= k
      decreases rest
    {
      var k :| k in rest;
      if k < oldest {
        oldest := k;
      }
      rest := rest - {k};
    }
  }

  /** A crash forgets the obligations that were just rebound. */
  lemma RestartForgetsObligations(w: World, v: World, s: Scene, fault: DiskFault)
    requires w.disk == v.disk && w.ledger == v.ledger && w.backend.kind == v.backend.kind
    ensures fault.DiesBeforeRename? ==> Restarted(w, fault.boot) == Restarted(v, fault.boot)
    ensures fault.DiesAfterRename? ==> Restarted(Persisted(w, s), fault.boot) == Restarted(Persisted(v, s), fault.boot)
  {
  }

  lemma SatisfiedAreOwed(obligations: map<U64, Obligation>, f: Frame, outputId: string)
    ensures Satisfied(obligations, f, outputId) <= obligations.Keys
  {
  }

  lemma InsertAllNone(feedbacks: map<U64, Feedback>, f: Feedback)
    ensures InsertAll(feedbacks, {}, f) == feedbacks
  {
  }

  lemma InsertAllOldest(feedbacks: map<U64, Feedback>, cs: set<U64>, f: Feedback)
    requires cs != {}
    ensures InsertAll(feedbacks, cs, f) == InsertAll(InsertBounded(feedbacks, Smallest(cs), f), cs - {Smallest(cs)}, f)
  {
    hide InsertBounded;
  }

  lemma LeaveOne(owed: map<U64, Obligation>, satisfied: set<U64>, matching: set<U64>, c: U64)
    requires c in matching && matching <= satisfied
    ensures owed - (satisfied - matching) - {c} == owed - (satisfied - (matching - {c}))
  {
  }

  lemma PlanDamage(d: Pipeline.Display, r: SceneRequest, replayed: Option<U64>)
    ensures Plan(d, r, replayed).Proceed? ==> Plan(d, r, replayed).damage == DamageByOutput(d, r.surfaces)
  {
  }

  lemma NotePresentedOutputs(d: Pipeline.Display, f: Frame, outputId: string, feedback: Feedback)
    ensures NotePresented(d, f, outputId, feedback).outputs == d.outputs
    ensures NotePresented(d, f, outputId, feedback).reconciliation == d.reconciliation
    ensures NotePresented(d, f, outputId, feedback).store == d.store
  {
  }

  lemma InsideMeans(damage: seq<Rect>, o: LiveOutput)
    requires Within(damage, o.Bounds())
    ensures forall d :: 0 <= d < |damage| ==> RectIn(damage[d], o)
  {
  }

  lemma ComposedInside(d: Pipeline.Display, s: Scene, r: Runtime)
    requires DamageInside(r)
    ensures ComposedFrame(d, s, r).output == r.output && Within(ComposedFrame(d, s, r).damage, r.output.Bounds())
  {
    NormalizedInside(r.pendingDamage, r.output);
  }

  lemma DetachedKeys(w: World, id: string)
    requires id in w.display.outputs
    ensures Detach(w, id).display.outputs.Keys == w.display.outputs.Keys - {id}
  {
  }

  lemma RetireNone(outputs: map<string, Runtime>, pending: map<Token, Frame>)
    ensures pending - TokensOf(outputs, {}) == pending
    ensures RetiredOutputs(outputs, {}) == outputs
  {
    assert TokensOf(outputs, {}) == {};
  }

  /** The outputs when those of `done` have been retired. */
  ghost function RetiredOutputs(outputs: map<string, Runtime>, done: set<string>): map<string, Runtime>
  {
    map k | k in outputs :: if k in done then outputs[k].(outstanding := None, retry := None) else outputs[k]
  }

  lemma RetiredNext(outputs: map<string, Runtime>, done: set<string>, k: string)
    requires k in outputs && k !in done
    ensures k in RetiredOutputs(outputs, done) && RetiredOutputs(outputs, done)[k] == outputs[k]
    ensures RetiredOutputs(outputs, done)[k := outputs[k].(outstanding := None, retry := None)] == RetiredOutputs(outputs, done + {k})
  {
  }

  lemma RetiredAll(outputs: map<string, Runtime>)
    ensures var after := RetiredOutputs(outputs, outputs.Keys);
      after.Keys == outputs.Keys && forall k :: k in after ==> after[k] == outputs[k].(outstanding := None, retry := None)
  {
  }

  lemma RetireNext(outputs: map<string, Runtime>, b: Backend, pending: map<Token, Frame>, done: set<string>, k: string)
    requires k in outputs
    ensures RetireOutstanding(b.(pending := pending - TokensOf(outputs, done)), outputs[k]) == b.(pending := pending - TokensOf(outputs, done + {k}))
  {
    var r := outputs[k];
    assert TokensOf(outputs, done + {k}) == TokensOf(outputs, done) + if r.outstanding.Some? then {r.outstanding.value.token} else {};
  }

  lemma RetireEvery(was: World, now: World)
    requires now.backend == was.backend.(pending := was.backend.pending - TokensOf(was.display.outputs, was.display.outputs.Keys))
    requires now == was.(backend := now.backend, display := was.display.(outputs := now.display.outputs))
    requires now.display.outputs.Keys == was.display.outputs.Keys
    requires forall k :: k in now.display.outputs ==> now.display.outputs[k] == was.display.outputs[k].(outstanding := None, retry := None)
    ensures now == RetireAll(was)
  {
    assert TokensOf(was.display.outputs, was.display.outputs.Keys) == OutstandingTokens(was.display.outputs);
    assert now.display.outputs == RetireAll(was).display.outputs;
  }

  lemma RetiredInside(before: map<string, Runtime>, after: map<string, Runtime>)
    requires AllInside(before) && before.Keys == after.Keys
    requires forall k :: k in after ==> after[k] == before[k].(outstanding := None, retry := None)
    ensures AllInside(after)
  {
  }

  lemma BootInside(boot: Boot)
    ensures AllInside(BootOutputs(boot))
  {
  }

  lemma NothingInside()
    ensures AllInside(map[])
  {
  }
}
