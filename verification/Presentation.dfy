/** What submitting a frame records, and what its completion or failure leaves. */
module Presentation {
  import opened Machine
  import opened SceneTypes
  import opened Geometry
  import opened Composition
  import opened Renderer
  import opened Pipeline
  import opened Ledger
  import opened Refinement
  import opened Flight
  import opened Discipline

  // ------------------------------------------------------------------------ the token

  /** A completion is let through exactly when its token is the one in flight on its output,
      and the output's backend, if it names one, is the token's. */
  lemma PreflightExactly(w: World, t: Token)
    requires InFlightOk(w)
    ensures Preflight(w.display, t).None? <==>
      && t.outputId in w.display.outputs && w.display.outputs[t.outputId].outstanding.Some?
      && w.display.outputs[t.outputId].outstanding.value.token == t
      && (w.display.outputs[t.outputId].backendInstance == 0 || w.display.outputs[t.outputId].backendInstance == t.backendInstance)
  {
    hide OutstandingTokens, TotalFramebufferBytes, Agreement, RegistryOk;
    if t.outputId in w.display.outputs {
      KnownRuntime(w, t.outputId);
    }
  }

  /** A frame is presented exactly when the token is let through, the caller says so and the
      backend agrees; a backend that does not makes it a failure. */
  lemma OutcomeExactly(w: World, t: Token, outcome: Completion, completes: bool)
    ensures var (after, result) := FinishCompletion(w, t, outcome, completes);
      && (Preflight(w.display, t).Some? ==> after == w && result == Preflight(w.display, t).value)
      && (Preflight(w.display, t).None? ==>
            && result == (if outcome == Presented && !completes then BackendUnavailable else outcome)
            && after.backend.pending == w.backend.pending - {t})
  {
    hide CompletePresentation, Preflight;
  }

  // ------------------------------------------------------------------ presented, failed

  /** The picture on screen is the frame's; its ids are those published; nothing is in flight.
      A frame of the newest scene leaves nothing pending and nothing to retry; an older one
      leaves both as they are. The other outputs do not notice. */
  lemma PresentedExactly(w: World, t: Token)
    requires DisciplineOk(w) && Preflight(w.display, t).None?
    ensures var (after, result) := FinishCompletion(w, t, Presented, true);
      var was := w.display.outputs[t.outputId];
      && was.outstanding.Some? && t.outputId in after.display.outputs
      && var f, r := was.outstanding.value.frame, after.display.outputs[t.outputId];
      && result == Presented && after.display.outputs.Keys == w.display.outputs.Keys
      && (forall k :: k in w.display.outputs && k != t.outputId ==> after.display.outputs[k] == w.display.outputs[k])
      && r.framebuffer == f.pixels && r.publishedFrameId == t.frameId && r.lastPublishedSceneGeneration == t.sceneGeneration
      && r.outstanding.None? && r.output == was.output && r.nextFrameId == was.nextFrameId && r.disabled == was.disabled
      && (if f.version == w.display.lastVersion then r.pendingDamage == [] && r.retry.None?
          else r.pendingDamage == was.pendingDamage && r.retry == was.retry && r.pendingVersion == was.pendingVersion && r.pendingCommitId == was.pendingCommitId)
  {
    hide FinishCompletion, NotePresented, Disciplined;
    CompletionOutputs(w, t, Presented, true);
    OutcomeExactly(w, t, Presented, true);
    FlyingDisciplined(w, t);
  }

  lemma FlyingDisciplined(w: World, t: Token)
    requires DisciplineOk(w) && Preflight(w.display, t).None?
    ensures var r := w.display.outputs[t.outputId];
      && r.outstanding.Some? && r.outstanding.value.token == t && !r.disabled
      && r.pendingDamage != [] && r.pendingVersion == w.display.lastVersion
      && r.outstanding.value.token.sceneGeneration == r.outstanding.value.frame.version.generation
      && (r.pendingVersion.AtMost(r.outstanding.value.frame.version) <==> r.outstanding.value.frame.version == w.display.lastVersion)
  {
    DisciplinedAt(w, t.outputId);
    VersionOrder(w.display.outputs[t.outputId].outstanding.value.frame.version, w.display.lastVersion);
  }

  /** A frame that failed shows nothing: screen and published ids stay. What it would have
      shown is pending again, under the newest version, and is to be retried: the record names
      the frame. */
  lemma FailedExactly(w: World, t: Token, outcome: Completion, completes: bool)
    requires DisciplineOk(w) && Preflight(w.display, t).None? && !(outcome == Presented && completes)
    ensures var (after, result) := FinishCompletion(w, t, outcome, completes);
      var was := w.display.outputs[t.outputId];
      && was.outstanding.Some? && t.outputId in after.display.outputs
      && var f, r := was.outstanding.value.frame, after.display.outputs[t.outputId];
      && result != Presented && after.display.outputs.Keys == w.display.outputs.Keys
      && (forall k :: k in w.display.outputs && k != t.outputId ==> after.display.outputs[k] == w.display.outputs[k])
      && r.framebuffer == was.framebuffer && r.publishedFrameId == was.publishedFrameId
      && r.outstanding.None? && r.output == was.output && r.nextFrameId == was.nextFrameId
      && r.retry == Some(Retry(f.version, t.outputGeneration, t.frameId, f.commitId))
      && r.pendingVersion == w.display.lastVersion && r.pendingDamage != []
      && (if f.version == w.display.lastVersion then r.pendingDamage == f.damage && r.pendingCommitId == f.commitId
          else r.pendingDamage == was.pendingDamage && r.pendingCommitId == was.pendingCommitId)
      && after.display.obligations == w.display.obligations && after.display.feedbacks == w.display.feedbacks
  {
    hide FinishCompletion, NotePresented, Disciplined;
    CompletionOutputs(w, t, outcome, completes);
    OutcomeExactly(w, t, outcome, completes);
    FailureTables(w, t, outcome, completes);
    FlyingDisciplined(w, t);
    DisciplinedFrame(w, t);
  }

  lemma DisciplinedFrame(w: World, t: Token)
    requires DisciplineOk(w) && Preflight(w.display, t).None?
    ensures w.display.outputs[t.outputId].outstanding.Some? && w.display.outputs[t.outputId].outstanding.value.frame.damage != []
  {
    DisciplinedAt(w, t.outputId);
  }

  lemma FailureTables(w: World, t: Token, outcome: Completion, completes: bool)
    requires Preflight(w.display, t).None? && !(outcome == Presented && completes)
    ensures FinishCompletion(w, t, outcome, completes).0.display.obligations == w.display.obligations
    ensures FinishCompletion(w, t, outcome, completes).0.display.feedbacks == w.display.feedbacks
    ensures FinishCompletion(w, t, outcome, completes).0.display.reconciliation == w.display.reconciliation
  {
  }

  /** displayd becomes ready with a presented frame, after a restart or reconciliation, exactly
      when every enabled output has shown a frame and has nothing pending. */
  lemma ReadyExactly(w: World, t: Token)
    requires Preflight(w.display, t).None?
    ensures var after := FinishCompletion(w, t, Presented, true).0.display;
      after.reconciliation ==
        if w.display.reconciliation == ReconciledAwaitingPresentation
           && forall k :: k in after.outputs && !after.outputs[k].disabled ==> after.outputs[k].publishedFrameId != 0 && after.outputs[k].pendingDamage == []
        then Ready else w.display.reconciliation
  {
    hide PresentRuntime, NoteOne, Satisfied, InsertAll;
  }

  // ------------------------------------------------------------------------- submitted

  /** What the selected output has in flight after its commit: a frame with the next id, of
      the newest scene and for the commit that is pending, of the damage that is pending, and
      a token that names it; or, when the backend does not take it, a record to retry it. */
  lemma SubmittedExactly(w: World, k: string, s: Scene, submits: bool, completes: bool)
    requires k in w.display.outputs && w.backend.kind == MockDeferred && !w.display.outputs[k].disabled
    requires w.display.outputs[k].outstanding.None? && w.display.outputs[k].pendingDamage != []
    requires TokenFor(w.backend, ComposedFrame(w.display, s, w.display.outputs[k])).Valid()
    requires var layers := StoreLayers(w.display.store, Canonicalize(s.surfaces));
      var damage := NormalizeDamage(w.display.outputs[k].pendingDamage, w.display.outputs[k].output.Bounds());
      ValidatedForDamage(layers, damage) && Decodable(layers, damage)
    ensures var (after, reply) := CommitOutput(w, k, s, submits, completes);
      var was := w.display.outputs[k];
      var damage := NormalizeDamage(was.pendingDamage, was.output.Bounds());
      && k in after.display.outputs && after.display.outputs.Keys == w.display.outputs.Keys
      && var r := after.display.outputs[k];
      && r.framebuffer == was.framebuffer && r.pendingVersion == was.pendingVersion && r.pendingCommitId == was.pendingCommitId
      && (submits ==>
            && reply == Advanced(true) && r.outstanding.Some? && r.nextFrameId == Inc(was.nextFrameId) && r.pendingDamage == was.pendingDamage
            && var f, t := r.outstanding.value.frame, r.outstanding.value.token;
            && f.frameId == was.nextFrameId && f.commitId == was.pendingCommitId && f.output == was.output && f.version == s.version && f.damage == damage
            && f.pixels == Repaint(Scratch(was), was.output, StoreLayers(w.display.store, Canonicalize(s.surfaces)), damage)
            && t == Token(w.backend.instanceId, w.backend.nextSequence, was.output.outputId, was.output.generation, s.version.generation, was.nextFrameId)
            && t in after.backend.pending && after.backend.pending[t] == f && after.backend.nextSequence == Inc(w.backend.nextSequence))
      && (!submits ==>
            && reply == Advanced(false) && r.outstanding.None? && r.nextFrameId == was.nextFrameId && r.pendingDamage == damage
            && r.retry == Some(Retry(s.version, was.output.generation, was.nextFrameId, was.pendingCommitId))
            && after.backend == w.backend)
  {
    hide ValidatedForDamage, Decodable, Repaint, StoreLayers, NormalizeDamage, FinishCompletion;
  }

  /** Every output a committed scene has something to show on waits for that very commit. */
  lemma DamagedOutputsWait(outputs: map<string, Runtime>, damage: map<string, seq<Rect>>, v: Version, commitId: U64, k: string)
    requires k in outputs
    ensures var r := DamageOutputs(outputs, damage, v, commitId)[k];
      && (k in damage && damage[k] != [] ==>
            && r.pendingDamage == damage[k] && r.pendingVersion == v && r.pendingCommitId == commitId
            && r.scheduler.sceneGeneration == v.generation
            && r.outstanding == outputs[k].outstanding && r.framebuffer == outputs[k].framebuffer && r.retry == outputs[k].retry)
      && (k !in damage || damage[k] == [] ==> r == outputs[k])
  {
  }
}
