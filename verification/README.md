# Waybroker scene-to-screen model

This project models how a scene travels from compd to a screen in waybroker, and proves what
that journey guarantees. displayd accepts versioned scenes, derives damage, repaints
incrementally into framebuffers, keeps one frame in flight per output and acknowledges
commits; compd relays scenes to it over a link that loses messages; around them stand the
pixel renderer, two payload stores, shared-memory publication, the Vulkan submission ledger
and compd's registry reconciliation.

State machines are written twice. Pure transition functions (`Pipeline`, `Gate`, `Relay`,
`Vulkan`, `Registry`) say what each operation does; run theorems are about them. Classes
(`Broker.DisplayBroker`, `Gate.CompdRelayState`, `Compd.DisplayLink`, `Compd.RelayScene`,
`PixelStore`'s two stores, `HeadlessShm`'s two classes, `VulkanBackend.VulkanBackendInner`)
carry the program's own fields and loops, and each method is proved to reach exactly the
state and answer of its function. Framebuffers and shared-memory slots are arrays written
word by word and byte by byte.

| file | content |
|---|---|
| Machine, Ordering, SceneTypes | integer widths, sorting, the shared data types |
| Geometry, Blend, Composition, Renderer | rectangles, source-over, the canonical pixel, the array renderer with its row, vector and per-pixel paths |
| Damage | effective damage and what it covers |
| Admission, PixelStore | the two scene validators; the payload store and displayd's store on top of it |
| Pipeline | displayd's state and transitions, backend and disk included |
| Ledger, Refinement, Discipline, Acknowledgement, Flight, Residency, Readiness, Progress, Pacing | run theorems about displayd |
| Acceptance, Presentation, Lifecycle | exactly what one scene, one completion and one output event do, and when |
| Broker | displayd as an object, method by method equal to Pipeline |
| Gate, Relay, Recovery, Conflict, Compd | compd's version gate, the relay protocol, what becomes of lost exchanges, scenes refused yet acknowledged, the relay as objects over a live displayd |
| HeadlessShm | two-slot publication |
| Vulkan, VulkanRuns, VulkanDeadlines, VulkanBackend | the submission ledger: functions, run theorems, verdicts against the clock, object |
| Registry | fitting a scene to the surface registry |

## Hypotheses

They appear as predicates on runs (`Ledger.VersionedRun`, `Discipline.VersionedScene`,
`Refinement.FaithfulRun`, `Flight.CountedRun`, `Relay.AllFeasible`, `VulkanRuns.AllowedRun`),
never as restrictions of a function. Residency, readiness, the obligation tables and
`Acknowledgement.NoObligationLost` need none; `Discipline` needs the first only.

- Scenes are versioned: epoch and generation non-zero. Unversioned scenes are in the
  functions, not in the run theorems: a zero version compares as old and loses its damage.
- Damage is honest (`Damage.HonestScenes`): a surface that keeps id, placement and buffer
  generation changes pixels only inside its declared damage, whose extents fit an i32, and
  keeps layer class, creation sequence and presence of a transport handle.
- A transport handle used by two successive scenes names one payload, and an attached
  payload is its client's own (`Refinement.FaithfulScene`).
- Commit, frame and submission counters stay below 2^64 - 1. Vulkan's handle space is
  exempt: its exhaustion is part of what is proved.
- Only `Flight` asks for non-zero backend instance ids.
- Vulkan callers use handles the backend gave them, and a wait finishes only on a verdict a
  poll of that handle answered (`VulkanRuns.Allowed`).

The recovery path that accepts a scene without its payloads is part of the transitions and
covered by the run theorems.

## Where the code falls short of a promise

Each is stated with the exact condition, for all inputs, and with a concrete input.

- A damage rectangle reaching past the largest i32 is silently dropped, although it names
  visible pixels: `Damage.DeclaredDamageKept`, `Damage.OversizedDamageIsLost`.
- `OutputState::validate` accepts geometries whose bounds overflow, and `bounds()` then
  panics: `Geometry.BoundsExistExactly`, `Geometry.ValidatedGeometryMayOverflow`. displayd
  then dies on the connect event: `Pipeline.ConnectDiesExactly`.
- The snapshot probe compares version and target only, so scenes of an accepted version that
  displayd refuses are acknowledged: `Conflict.RefusalIsExact` and
  `Conflict.AcceptedVersionIsAcknowledged` say when, `Conflict.ConflictIsAcknowledged` (other
  content) and `Conflict.OtherPixelsAreAcknowledged` (other bytes) give inputs. The commit id
  is still the recorded one. When a version names one scene the recorded content is that
  scene's too, pixels aside: `Relay.AcknowledgedIsRecorded`; and what displayd itself answers
  covers the pixels: `Conflict.AnsweredPixelsAreResident`.
- The headless backend wants width times height pixels while displayd's framebuffers include
  row padding: `HeadlessShm.PaddedFramesAreRefused`, `HeadlessShm.PaddedFrameExample`.
- Reconciliation keeps a focus found in the registry even when the scene does not contain
  that surface, and both validators then refuse the scene: `Registry.FocusMayLeaveTheScene`,
  `Registry.StrayFocusIsRefused`, `Registry.StrayFocusExample`.
- compd has no damage budget, displayd has: the one clause of `Admission.ValidatorsAgree`,
  `Admission.DamageBudgetExample`.
- Obligations are rebound before the budget test and before persistence, so a refused scene
  may leave them changed: `Residency.RefusalChangesObligationsOnly`,
  `Residency.UnpersistedSceneRebinds`.

## Model

| member | source | states |
|---|---|---|
| Refinement.IncrementalRefinesFull | crates/displayd/src/main.rs:1972-2052 | After any run of faithful clients, every pixel of an enabled, initialised output outside its pending damage has the from-scratch colour of the newest scene; with nothing pending the framebuffer is a full repaint |
| Refinement.FramesInFlightAreFull | crates/displayd/src/main.rs:2153-2265 | Every frame in flight is the full repaint of the recorded scene it was composed from; pending damage is non-empty, of the newest version, covers the frame's damage, and outside it the frame already shows the newest scene |
| Refinement.StepKeepsWorld | crates/displayd/src/main.rs:848-1077 | Each single event (commit, reconcile, tick, completion, output change, begin of reconciliation, restart) keeps the main invariant, including that pending damage carries the newest version and covers everything on an uninitialised output |
| Refinement.RunKeepsWorld | crates/displayd/src/main.rs:848-1077 | The main invariant holds along every run |
| Refinement.InitialIsOk | crates/displayd/src/main.rs:3826-3876 | A first start satisfies the main invariant |
| Refinement.ComposedFrameIsFullRepaint | crates/displayd/src/main.rs:2153-2216 | A frame composed from the pending damage alone is the full repaint of the newest scene |
| Refinement.PresentKeepsRuntime | crates/displayd/src/main.rs:4119-4142 | Presenting any frame, also one of an older scene, keeps the invariant of its output: what stays pending covers every difference between the screen and the newest scene |
| Refinement.FailKeepsRuntime | crates/displayd/src/main.rs:4144-4163 | Failing any frame keeps the invariant of its output: damage of a newer scene is not lost, that of the frame is pending again |
| Refinement.NewSceneKeepsRuntime | crates/displayd/src/main.rs:1972-2052 | Merging a new scene's damage with what is pending covers every pixel the framebuffer, or the frame in flight, now lacks |
| Refinement.SubmissionKeepsRuntime | crates/displayd/src/main.rs:2232-2290 | Handing a frame to the backend, or failing to, keeps the output's invariant |
| Progress.TickReachesScreen | crates/displayd/src/main.rs:2097-2290 | An eligible tick on a working immediate backend leaves nothing pending and the full repaint of the newest scene on the screen |
| Progress.DeferredTickSubmits | crates/displayd/src/main.rs:2097-2290 | An eligible tick on a deferred backend leaves a frame of the newest scene in flight under a token of its own |
| Progress.DeferredTickReachesScreen | crates/displayd/src/main.rs:4103-4177 | After such a tick and any run of the process without a newer scene, completing the frame leaves the full repaint of the newest scene on the screen and nothing pending, or is refused because the frame was given up |
| Progress.PresentedNewestIsFull | crates/displayd/src/main.rs:4103-4177 | Presenting a frame of the newest scene leaves nothing pending and the screen fully repainted |
| Progress.InitialKeepsEverything | crates/displayd/src/main.rs:3826-3876 | A first start satisfies the run invariants at once |
| Pacing.TicksArePaced | crates/displayd/src/main.rs:4198-4254 | Over any run two due ticks of one output are at least its refresh period apart, up to saturation, while the output is not replaced |
| Pacing.DueExactly | crates/displayd/src/main.rs:4198-4254 | In every reachable state a tick on an enabled output is due exactly when it addresses its generation, is not older than the tick before, comes a period after the last due one, and finds something pending or to be retried and nothing in flight |
| Pacing.NotDueSubmitsNothing | crates/displayd/src/main.rs:4198-4254 | Any other tick leaves the backend and every frame in flight alone |
| Pacing.RunKeepsPace | crates/displayd/src/main.rs:4198-4254 | Along every run the clock of each output agrees with the ticks it has seen |
| Damage.DamageCoversEveryChange | crates/displayd/src/main.rs:4394-4443 | Between two scenes of honest clients, a pixel outside the effective damage has the same canonical colour in both |
| Damage.DeclaredDamageKept | crates/displayd/src/main.rs:4364-4392 | A declared damage rectangle touching the visible surface is kept, as exactly its pixels, if and only if its far corner and the surface size fit an i32 |
| Damage.OversizedDamageIsLost | crates/displayd/src/main.rs:4364-4392 | A concrete declaration beyond that range names a visible pixel and yields no damage at all |
| Damage.EffectiveDamageWithin | crates/displayd/src/main.rs:4394-4443 | Effective damage stays inside the output and within the rectangle budget |
| Damage.EffectiveDamageExactly | crates/displayd/src/main.rs:4394-4443 | Within the rectangle budget a pixel is damaged exactly when a surface there arrived, moved, was redrawn or declares it, or one that was there left, moved or was redrawn: nothing more is repainted |
| Damage.SurfaceDamageRectExactly | crates/displayd/src/main.rs:4364-4392 | One declared rectangle covers exactly its own pixels of the visible surface, when its extents fit |
| Damage.ComputeEffectiveDamage | crates/displayd/src/main.rs:4394-4443 | The two passes over new and old surfaces compute the specified damage list |
| Damage.ComputeSurfaceDamage | crates/displayd/src/main.rs:4364-4392 | The clipping loop computes the specified rectangles of one surface |
| Damage.ResidentLayersShowContent | crates/displayd/src/main.rs:4741-4794 | Composing from the resident store shows the clients' own pixels wherever the needed payloads are theirs |
| Geometry.Rect.Intersect | crates/displayd/src/main.rs:4296-4318 | The intersection contains exactly the common pixels and exists exactly when there is one |
| Geometry.FromOriginSize | crates/displayd/src/main.rs:4275-4282 | A rectangle exists exactly for non-zero sizes whose far corner is an i32 |
| Geometry.NormalizeDamageCovers | crates/displayd/src/main.rs:1985-1992 | Sorting, removing duplicates and collapsing to the full bounds never loses a damaged pixel |
| Geometry.ValidateGeometry | crates/displayd/src/main.rs:2498-2527 | An accepted geometry is non-empty, within the dimension, stride and byte limits, under the requested name and generation |
| Geometry.BoundsExistExactly | crates/displayd/src/main.rs:2498-2531 | For every validated geometry the bounds rectangle exists exactly when both far edges are an i32; the origin is never validated |
| Geometry.ValidatedGeometryMayOverflow | crates/displayd/src/main.rs:2529-2531 | A concrete validated geometry has no bounds rectangle |
| Pipeline.ConnectDiesExactly | crates/displayd/src/main.rs:663-711 | A connect or reconfigure event past every test stops displayd exactly when a far edge of the output leaves the i32 range, and is applied otherwise |
| Geometry.AtInRange | crates/displayd/src/main.rs:4692-4710 | Every on-screen pixel has its framebuffer offset in range |
| Geometry.AtInjective | crates/displayd/src/main.rs:4692-4710 | Two on-screen pixels never share an offset |
| Renderer.ComposeDamageRects | crates/displayd/src/main.rs:4454-4487 | For any in-bounds damage list, overlapping or repeated, composition succeeds exactly when every covering source decodes, and then repaints exactly the damaged pixels with the canonical fold |
| Renderer.ComposeDamageRect | crates/displayd/src/main.rs:4454-4487 | One rectangle: background, then every layer back to front, touching no pixel outside |
| Composition.RepaintedIsUnique | crates/displayd/src/main.rs:4454-4487 | The repaint contract determines the framebuffer |
| Composition.RepaintDependsOnCoverOnly | crates/displayd/src/main.rs:1985-1992 | Two damage lists covering the same pixels repaint alike: order, duplicates and overlap do not matter |
| Composition.RepaintMoreIsHarmless | crates/displayd/src/main.rs:1985-1992 | Repainting more than necessary changes no pixel that was already right |
| Composition.SameContributionsSamePixel | crates/displayd/src/main.rs:4454-4487 | A pixel depends only on the covering surfaces, their stacking keys and their source pixels there |
| Composition.BlendStackOpaque | crates/displayd/src/main.rs:4817-4835 | Every composed pixel is opaque |
| Composition.TopmostShows | crates/displayd/src/main.rs:4454-4487 | The surface stacked highest at a pixel is blended over all below it, and hides it when opaque there |
| Composition.BackgroundShows | crates/displayd/src/main.rs:4454-4487 | Where no surface is, the background shows |
| Composition.ArgbBytes | crates/displayd/src/main.rs:4796-4815 | The bytes of an ARGB pixel are blue, green, red, alpha; it decodes exactly when no colour exceeds its alpha |
| Composition.XrgbBytes | crates/displayd/src/main.rs:4796-4815 | The bytes of an XRGB pixel are blue, green, red and one unused; it is always opaque |
| Composition.OtherSources | crates/displayd/src/main.rs:4741-4815 | Any other format is an error; a surface without a payload shows blue for a panel and red otherwise |
| Renderer.FillFramebufferRect | crates/displayd/src/main.rs:4564-4582 | Exactly the rectangle is filled |
| Renderer.CopyXrgbRowAvx2 | crates/displayd/src/main.rs:4666-4690 | The eight-lane loop with its scalar tail writes exactly the opaque source words of the row |
| Renderer.CopyXrgbRow | crates/displayd/src/main.rs:4645-4664 | Both row forms write the same words and never fail on a matching length |
| Renderer.CopySurfaceRectXrgb | crates/displayd/src/main.rs:4584-4643 | The row path stores exactly the payload bytes of the rectangle with the alpha byte set, for any accepted stride, origin and offset, all indices in range |
| Renderer.CopySurfaceRectGeneric | crates/displayd/src/main.rs:4584-4643 | The per-pixel path blends exactly the rectangle, and fails exactly on an undecodable source |
| Renderer.CopySurfaceRect | crates/displayd/src/main.rs:4584-4643 | Whichever path is taken, the result is the per-pixel blend |
| Renderer.PathsAgree | crates/displayd/src/main.rs:4584-4710 | On every validated rectangle, storing rows of payload bytes is decoding and blending pixel by pixel: each result satisfies one description exactly when it satisfies the other |
| Renderer.ValidatedAccess | crates/displayd/src/main.rs:4508-4562 | Validation of a rectangle puts every source access inside the payload |
| Renderer.ValidateSurfacePixelsForDamage | crates/displayd/src/main.rs:4489-4506 | Accepts exactly the damage whose needed payloads are resident and large enough |
| Blend.ClampsNeverBind | crates/displayd/src/main.rs:4817-4839 | For premultiplied sources the clamps of the blend never bind |
| Blend.SourceOverIsExact | crates/displayd/src/main.rs:4817-4839 | In numbers: every channel of a visible premultiplied source over any pixel is source plus destination times one minus alpha, off by less than half a step, and the result is opaque |
| Blend.SourceOverExtremes | crates/displayd/src/main.rs:4817-4839 | A transparent source changes nothing, an opaque one leaves nothing of what is below |
| Blend.ShortcutsAgreeWithGeneral | crates/displayd/src/main.rs:4817-4839 | The alpha shortcuts compute what the general formula does: the opaque one always, the transparent one exactly when the destination is opaque |
| Blend.Div255RoundsToNearest | crates/displayd/src/main.rs:4837-4839 | Adding 127 and dividing by 255 is off from the exact quotient by less than half a step |
| Blend.MaskIsRedundant | crates/displayd/src/main.rs:4666-4690 | Bitwise or with the alpha mask equals masking the low 24 bits and setting the alpha byte: the vector lane equals the scalar word |
| Blend.OverKeepsOpaque | crates/displayd/src/main.rs:4817-4835 | Source-over keeps an opaque destination opaque |
| Ledger.AcceptKeepsLedger | crates/displayd/src/main.rs:1855-2095 | Acceptance, with any persistence fault or crash, only extends the ledger; a receipt names the recorded id, under exactly the requested content |
| Ledger.StepKeepsLedger | crates/displayd/src/main.rs:848-1077 | Every step keeps versions and commit ids one strictly increasing map, memory and disk agreeing on the newest entry, and rewrites nothing |
| Ledger.RunKeepsLedger | crates/displayd/src/main.rs:3826-3926 | The same over every run, restarts and crashes on either side of the rename included |
| Ledger.OneIdPerVersion | crates/displayd/src/main.rs:3878-3926 | At any two points of a run, ids are equal exactly when versions are, and ordered exactly as versions are |
| Ledger.ReplayReturnsOriginalId | crates/displayd/src/main.rs:1901-1953 | Replaying the accepted scene, surfaces in any order, answers the original id or a refusal, and moves no id, version or disk state |
| SceneTypes.CanonicalizeIgnoresOrder | crates/displayd/src/main.rs:1624-1633 | Any reordering of a scene's surfaces canonicalizes to the same sequence |
| SceneTypes.CanonicalizeIsCanonical | crates/displayd/src/main.rs:1624-1633 | Canonical surfaces are strictly ordered by layer class, z, creation sequence and id |
| SceneTypes.CanonicalStacks | crates/displayd/src/main.rs:1624-1633 | Later surfaces are of a higher class, or of the same and higher z, or level and created later, or later by name |
| Acceptance.NewerSceneIsCommitted | crates/displayd/src/main.rs:1855-2095 | A newer scene is committed exactly when it is admitted, no reference is older than what is on file, every needed payload is at hand and fits, the bytes and the obligation table have room, and the disk takes it; and then under the next id |
| Acknowledgement.NoEarlyAcknowledgement | crates/displayd/src/main.rs:4061-4101 | Feedback for a commit appears only in a step that presents, on its last required output, the full repaint of a scene of its epoch no older than it |
| Acknowledgement.StepKeepsObligations | crates/displayd/src/main.rs:1808-1846 | Every step, whatever its scene, keeps every live obligation non-empty and unfulfilled, obligations and feedbacks disjoint and within 4096 each; with versioned scenes also that each obligation names a recorded commit |
| Acknowledgement.RunKeepsTables | crates/displayd/src/main.rs:2013-2065 | The unconditional part along every run |
| Acknowledgement.RunKeepsObligations | crates/displayd/src/main.rs:2013-2065 | All of it along every run of versioned scenes |
| Acknowledgement.NoObligationLost | crates/displayd/src/main.rs:4061-4101 | In every reachable state a step takes a commit off the table only with the process, or when it presents the frame that was all the commit waited for; its feedback is then there, or displaced by 4096 younger ones |
| Acceptance.AcceptedSceneIsOwed | crates/displayd/src/main.rs:1788-1836 | A newly committed scene is owed by its target exactly when the target is active and now has something pending, or is not active and a scene existed or something is visible; older obligations whose outputs are all gone come over, no other changes |
| Acceptance.PresentedCommitIsAnswered | crates/displayd/src/main.rs:4061-4101 | Presenting a frame of the scene on the last output a commit waits for puts its feedback, with sequence and refresh, on the table and takes the obligation off |
| Acceptance.TickAnswers | crates/displayd/src/main.rs:4198-4254 | On a working immediate backend an eligible tick of the target answers the newest commit at once |
| Flight.StepKeepsFlight | crates/displayd/src/main.rs:672-798 | Every step keeps the backend's pending tokens equal to the broker's outstanding ones, frame ids increasing, at most 64 outputs and 1 GiB of framebuffers |
| Flight.RunKeepsFlight | crates/displayd/src/main.rs:672-798 | The same along every run, lifecycle events included |
| Flight.CompletesAtMostOnce | crates/displayd/src/main.rs:4179-4196 | After a token's first completion every later one in the process's lifetime is refused and changes nothing |
| Flight.SpentIsRefused | crates/displayd/src/main.rs:4040-4059 | A token that is not outstanding changes neither broker nor backend |
| Flight.PublishedIdsIncrease | crates/displayd/src/main.rs:4119-4123 | A presented frame's id exceeds every id its output published before |
| Presentation.PreflightExactly | crates/displayd/src/main.rs:4040-4059 | A completion is let through exactly when its token is the one in flight on its output and the output is not of another backend |
| Presentation.OutcomeExactly | crates/displayd/src/main.rs:4179-4196 | A frame is presented exactly when let through, reported so and confirmed by the backend; its token is pending no longer either way |
| Presentation.PresentedExactly | crates/displayd/src/main.rs:4119-4142 | The screen is the frame's picture under its ids; a frame of the newest scene leaves nothing pending or to be retried, an older one leaves both; other outputs do not notice |
| Presentation.FailedExactly | crates/displayd/src/main.rs:4144-4163 | Screen and published ids stay; what the frame would have shown is pending again under the newest version, with a record to retry it; tables stay |
| Presentation.ReadyExactly | crates/displayd/src/main.rs:4103-4177 | After a restart displayd becomes ready exactly when every enabled output has shown a frame and has nothing pending |
| Presentation.SubmittedExactly | crates/displayd/src/main.rs:2216-2290 | The frame in flight has the next id, the pending damage and the pending commit, and its token names it; a refused one leaves the record to retry it |
| Presentation.DamagedOutputsWait | crates/displayd/src/main.rs:2039-2052 | Every output a committed scene damages waits for that very commit, whatever is in flight on it; the others stay |
| Lifecycle.OldEventsChangeNothing | crates/displayd/src/main.rs:630-662 | An event of another epoch, or older than the last one of its backend, is refused and the last one again is answered as before; none changes anything |
| Lifecycle.AppliedOnce | crates/displayd/src/main.rs:630-798 | An applied event sent again changes nothing |
| Lifecycle.ConnectExactly | crates/displayd/src/main.rs:663-731 | A connect or reconfigure event is applied exactly when every test passes, and then the output has the announced geometry, its whole picture pending and nothing in flight, others untouched |
| Lifecycle.DisableExactly | crates/displayd/src/main.rs:732-754 | A disabled output keeps its place and picture, with nothing pending, in flight or to be retried |
| Lifecycle.DisconnectExactly | crates/displayd/src/main.rs:755-779 | A disconnect takes exactly the named output away, when identity and generation fit |
| Lifecycle.ResetExactly | crates/displayd/src/main.rs:780-796 | A reset takes exactly the backend's outputs away, and their frames with them |
| Lifecycle.BeginExactly | crates/displayd/src/main.rs:3809-3824 | Beginning drops every frame in flight and every retry even when the epoch is then refused; a newer epoch also drops the outputs |
| Lifecycle.ReconcileExactly | crates/displayd/src/main.rs:931-968 | Answered exactly for the current epoch and a committed scene, and then ends the recovery |
| Discipline.InFlightDiscipline | crates/displayd/src/main.rs:4118-4164 | In every state reachable with versioned scenes, honest or not: pending damage carries the last accepted version; a frame in flight has pending damage that covers its own, for a version at least the frame's; what was never shown is pending as a whole; a retry has something pending on an enabled output |
| Discipline.StepKeepsDiscipline | crates/displayd/src/main.rs:2232-2265 | Every step with a versioned scene, or with none, keeps that discipline |
| Readiness.Validate | crates/waybroker-common/src/ipc.rs:478-518 | Accepts exactly the consistent reports |
| Readiness.ReportValidates | crates/displayd/src/main.rs:3979-4038 | A derived report validates exactly when no disabled output still holds a retry record |
| Readiness.ReportSays | crates/displayd/src/main.rs:3979-4038 | Ready exactly when the renderer is there and all of one or more outputs have arrived, partially when some have, failed when none; every output listed as it is |
| Readiness.OutputReportSays | crates/displayd/src/main.rs:3979-4038 | The state of each output: ready, disabled, to be retried and submitted each under its exact condition |
| Readiness.StepKeepsQuiet | crates/displayd/src/main.rs:729-754 | Every event keeps every output under its name, and every disabled output free of retry and frame in flight |
| Readiness.ReachableReportsValidate | crates/displayd/src/main.rs:3979-4038 | Every report of every reachable state validates, with no hypothesis on the run |
| Residency.RunKeepsResidency | crates/displayd/src/main.rs:1508-1575 | Along every run whatever there is at most one resident payload per surface, only ones the newest scene references, at most 4096 and 256 MiB |
| Residency.AcceptedStoreIsExact | crates/displayd/src/main.rs:1954-1971 | After an acceptance that was no plain repetition and required its payloads, the resident handles are exactly the referenced ones |
| Residency.CommittedPayloadsAreResident | crates/displayd/src/main.rs:1901-1971 | Whenever displayd answers that a scene is committed, first time or again, the payloads sent along are resident as sent |
| Residency.RefusalChangesObligationsOnly | crates/displayd/src/main.rs:2013-2037 | A refused or unpersisted scene changes nothing, except that obligations may already be rebound when only the obligation budget or persistence failed |
| Residency.UnpersistedSceneRebinds | crates/displayd/src/main.rs:2013-2037 | A concrete scene the disk refuses leaves other obligations behind |
| PixelStore.PreparedStore | crates/displayd/src/main.rs:1508-1575 | A prepared store holds referenced handles only, all of them when required, one per surface, within both budgets |
| PixelStore.ReplacementKeepsStore | crates/waybroker-common/src/pixel_transport.rs:72-100 | Replacing one client leaves one payload per surface, every replacement on file, other clients as they were |
| PixelStore.PixelTransportStore.Submit | crates/waybroker-common/src/pixel_transport.rs:45-66 | Stores in place of the surface's previous payload, or changes nothing for a malformed or older one |
| PixelStore.PixelTransportStore.ReplaceClient | crates/waybroker-common/src/pixel_transport.rs:72-100 | All replacements or none, decided exactly by their shape, client and distinct surfaces |
| PixelStore.PixelTransportStore.InvalidateClient | crates/waybroker-common/src/pixel_transport.rs:102-104 | Exactly the client's payloads go |
| PixelStore.PixelTransportStore.LatestHandleForSurface | crates/waybroker-common/src/pixel_transport.rs:131-142 | The newest handle of the surface, if any |
| PixelStore.DisplayPixelTransportStore.Submit | crates/displayd/src/main.rs:1465-1480 | Index and inner store move together or not at all, and the byte total stays exact |
| PixelStore.DisplayPixelTransportStore.PreparedForScene | crates/displayd/src/main.rs:1508-1575 | For an admitted scene, succeeds exactly when the specification does, the rebuilt layers agree, and the old store is untouched |
| PixelStore.DisplayPixelTransportStore.Rebuild | crates/displayd/src/main.rs:1570-1574 | Rebuilding the inner store cannot fail, in whatever order the payloads are submitted |
| PixelStore.DisplayPixelTransportStore.FindStale | crates/displayd/src/main.rs:1516-1532 | Finds exactly the references older than what is on file |
| Admission.ValidatorsAgree | crates/compd/src/main.rs:184-319 | compd accepts with required payloads exactly when displayd admits and every referenced handle has its payload, up to the damage budget only displayd has |
| Admission.DamageBudgetExample | crates/displayd/src/main.rs:1684-1692 | A concrete scene of 4097 damage rectangles passes compd and not displayd |
| Admission.ValidateSceneAdmission | crates/displayd/src/main.rs:1635-1786 | displayd's nested loops accept exactly the admissible scenes |
| Admission.ValidateRelayScene | crates/compd/src/main.rs:184-319 | compd's loops accept exactly the relayable scenes |
| Admission.SaturatingSum | crates/compd/src/main.rs:173-182 | The saturating byte sum is the exact one, capped |
| Broker.DisplayBroker.Handle | crates/displayd/src/main.rs:848-1077 | The dispatcher on live state takes exactly the step of the transition system, field by field |
| Broker.DisplayBroker.HandleSceneAcceptance | crates/displayd/src/main.rs:1855-2095 | Scene acceptance on live state: new state and reply as specified, for every persistence fault |
| Broker.DisplayBroker.CollectDamage | crates/displayd/src/main.rs:1975-2008 | Per-output damage is merged as specified; it stops exactly when a payload does not suffice |
| Broker.DisplayBroker.RebindUnavailableObligations | crates/displayd/src/main.rs:1808-1836 | Exactly the covered obligations without an active required output are rebound |
| Broker.DisplayBroker.NotePresentedObligations | crates/displayd/src/main.rs:4061-4101 | Both loops: outputs ticked off, satisfied commits acknowledged oldest first, into the bounded table |
| Broker.DisplayBroker.InsertBoundedFeedback | crates/displayd/src/main.rs:1838-1846 | The smallest ids make room |
| Broker.DisplayBroker.FinishPresentation | crates/displayd/src/main.rs:4103-4177 | Completion updates runtime, obligations, feedbacks and readiness state as specified |
| Broker.DisplayBroker.PreflightToken | crates/displayd/src/main.rs:4040-4059 | The token tests, in their order |
| Broker.DisplayBroker.FinishBackendCompletion | crates/displayd/src/main.rs:4179-4196 | A refused token changes nothing; any other is retired from the backend and completed |
| Broker.DisplayBroker.ComposeFrame | crates/displayd/src/main.rs:2153-2216 | The frame composed in a scratch array is the specified one, and composing fails exactly when a source is missing or does not decode |
| Broker.DisplayBroker.CommitSelectedOutput | crates/displayd/src/main.rs:2097-2290 | The selected output's commit as specified, backend failure and rejected tokens included |
| Broker.AdvanceRuntime | crates/displayd/src/main.rs:4198-4254 | Tick gating, stale retry removal and eligibility as specified |
| Broker.DisplayBroker.Tick | crates/displayd/src/main.rs:969-999 | A tick and the commit it makes eligible |
| Broker.DisplayBroker.ApplyBackendOutputEvent | crates/displayd/src/main.rs:630-798 | Epoch gate, sequence gate and the change itself, as specified |
| Broker.DisplayBroker.TestConnect | crates/displayd/src/main.rs:663-706 | The connect and reconfigure tests in their order, with the exact byte budget over the other outputs |
| Broker.DisplayBroker.InstallOutput | crates/displayd/src/main.rs:699-738 | The replaced output's frame is retired, the new runtime is pending over its whole bounds, obligations follow |
| Broker.DisplayBroker.DetachInstance | crates/displayd/src/main.rs:780-796 | The reset loop detaches exactly the instance's outputs, in any order |
| Broker.DisplayBroker.RetireAllRuntimeSubmissions | crates/displayd/src/main.rs:606-616 | Every outstanding frame and retry is dropped on both sides |
| Broker.DisplayBroker.Begin | crates/displayd/src/main.rs:923-930 | Submissions are retired even when the epoch is then refused; a newer epoch empties the registry |
| Broker.DisplayBroker.RecordCommit | crates/displayd/src/main.rs:3878-3926 | For each fault: a write error changes nothing, a crash before the rename loses the scene, one after it restarts with the scene on disk, and otherwise memory follows the disk |
| Broker.DisplayBroker.Restart | crates/displayd/src/main.rs:3826-3876 | Exactly what is on disk survives |
| Gate.PassKeepsTrace | crates/compd/src/main.rs:113-171 | One gated scene keeps the gate's invariant; floor and forwarded version never decrease |
| Gate.RunKeepsTrace | crates/compd/src/main.rs:113-171 | Along every run the pending marker is ahead of what was forwarded and is the newest deferred scene, every deferred version is at most the floor, and deferred equals superseded plus resolved plus the marker held, up to saturation |
| Gate.AcknowledgedOnce | crates/compd/src/main.rs:144-156 | Acknowledged versioned scenes strictly increase, so none is acknowledged twice |
| Gate.DeferredIsAccountedFor | crates/compd/src/main.rs:158-171 | A deferred version is at most the marker, which is the last deferred, or at most an acknowledged one |
| Gate.RejectsExactly | crates/compd/src/main.rs:123-142 | A versioned scene is turned away exactly when one at least as new was forwarded or a newer one is marked, an unversioned one when anything versioned was either |
| Gate.PassedIsRemembered | crates/compd/src/main.rs:144-171 | A forwarded scene is the newest version with no marker left; a deferred one is the marker |
| Gate.CompdRelayState.VersionFloor | crates/compd/src/main.rs:114-121 | The larger of forwarded version and marker |
| Gate.CompdRelayState.ShouldRejectVersion | crates/compd/src/main.rs:123-142 | Rejects exactly below the floor, at it unless it is the marker's retry, and unversioned once anything versioned passed |
| Gate.CompdRelayState.NoteForwarded | crates/compd/src/main.rs:144-156 | The new state of every field |
| Gate.CompdRelayState.DeferLatest | crates/compd/src/main.rs:158-171 | The new state of every field |
| Relay.ExactlyOnce | crates/compd/src/main.rs:868-1032 | Over any list of client requests, link losses, retries, compd and displayd restarts: two acknowledgements carry one id exactly when they are for one version, in version order, and the id is displayd's record |
| Relay.ForwardedIsAccepted | crates/compd/src/main.rs:868-1032 | compd's forwarded version never exceeds displayd's accepted one |
| Relay.ForwardCommitIsTruthful | crates/compd/src/main.rs:868-973 | One relayed commit: at most fourteen messages, every scene message carries the original payload list, an acknowledgement is displayd's record, and the gate moves only as it may |
| Relay.ForwardReconcileIsTruthful | crates/compd/src/main.rs:974-1030 | One relayed reconciliation scene, likewise, with one message |
| Relay.ReconciliationIsTrue | crates/compd/src/main.rs:1209-1298 | The retry loop sends at most four messages an attempt and returns only receipts on displayd's record |
| Recovery.LostCommitIsRecovered | crates/compd/src/main.rs:956-962 | However the direct message was lost, and after up to two attempts lost as well: once the next messages reach a displayd that has the scene or takes it, the client is answered with displayd's record of its version and no marker is left |
| Recovery.LostCommitExactly | crates/compd/src/main.rs:956-972 | A lost exchange ends in deferral exactly when all three attempts met a loss, or the first that did not found the scene nowhere; otherwise it is acknowledged |
| Recovery.LoopExactly | crates/compd/src/main.rs:1209-1298 | The loop ends at the first attempt that met no loss and returns what that attempt found |
| Recovery.AttemptExactly | crates/compd/src/main.rs:1209-1298 | An attempt is repeated exactly after a loss and delivers exactly when the scene was found on record |
| Recovery.QuietAttemptReaches | crates/compd/src/main.rs:1209-1298 | An attempt whose four messages arrive at a displayd that has the scene or takes it finds it on record |
| Recovery.AnsweredCommit | crates/compd/src/main.rs:930-955 | An id is acknowledged; a refusal is acknowledged exactly when the probe finds the scene on record |
| Recovery.RelayedOnce | crates/compd/src/main.rs:974-1030 | A reconciliation scene is sent once, the client gets displayd's own answer, the gate moves exactly for a reconciled scene, and no answer defers it |
| Recovery.TurnedAway | crates/compd/src/main.rs:868-1030 | A malformed or rejected scene is refused, with nothing sent and nothing changed |
| Relay.ProbeIsTrue | crates/compd/src/main.rs:845-866 | A matching snapshot yields the recorded id and surface count |
| Relay.SendKeepsLink | crates/compd/src/main.rs:814-832 | Lost, processed with the answer lost, or answered: displayd's ledger stays in order and every answer is true of it |
| Relay.AcknowledgedIsRecorded | crates/compd/src/main.rs:868-973 | When nobody uses the version for another scene, an acknowledged scene is, surfaces, focus, selection and id, the one on displayd's record; the record holds no pixels |
| Conflict.RefusalIsExact | crates/displayd/src/main.rs:1901-2020 | displayd refuses a relayed scene of the version it has accepted exactly when it is over the damage budget, is another scene, brings other bytes for a resident payload, or has to be taken in again and its payloads do not suffice or the obligation table is full |
| Conflict.AcceptedVersionIsAcknowledged | crates/compd/src/main.rs:845-866 | Over a reliable link every scene of the accepted version and target is acknowledged under the recorded id; the acknowledgement follows a refusal exactly when displayd was asked and had one of those reasons, and a refused scene leaves no pixel behind |
| Conflict.OtherPixelsAreAcknowledged | crates/compd/src/main.rs:945-952 | The accepted scene with other bytes under a resident handle is refused by displayd and acknowledged by compd |
| Conflict.AnsweredPixelsAreResident | crates/compd/src/main.rs:814-832 | Whenever displayd itself answers committed or reconciled, every payload of the message is resident as sent: only the probe acknowledges pixels unseen |
| Conflict.ConflictIsAcknowledged | crates/compd/src/main.rs:945-952 | A scene with another selection is refused by displayd and acknowledged by compd |
| Compd.DisplayLink.Send | crates/compd/src/main.rs:814-832 | One exchange with a live displayd is the specified one |
| Compd.RelayScene.TakeCommitCommand | crates/compd/src/main.rs:62-72 | The message takes the whole payload list along |
| Compd.RelayScene.TakeReconcileCommand | crates/compd/src/main.rs:74-85 | The message takes the whole payload list along |
| Compd.RelayScene.RestorePayloadsFromCommand | crates/compd/src/main.rs:87-93 | The list comes back from the message |
| Compd.MatchingSnapshotReceipt | crates/compd/src/main.rs:845-866 | The probe on a live link is the specified one |
| Compd.SendReconcileScene | crates/compd/src/main.rs:1250-1290 | Sending with the payload list moved out and back, then receipt, probe or retry, as specified |
| Compd.ReconcileRelayScene | crates/compd/src/main.rs:1209-1298 | The retry loop is the specified one and leaves the scene whole |
| Compd.ForwardSceneCommit | crates/compd/src/main.rs:868-973 | The relay on live state ends in the specified gate, link and answer |
| Compd.ForwardSceneReconcile | crates/compd/src/main.rs:974-1030 | Likewise for reconciliation scenes |
| Compd.MeasureUsage | crates/compd/src/main.rs:173-182 | Counts and saturating byte sum of the scene |
| HeadlessShm.HeadlessShmOutput.Publish | crates/displayd/src/main.rs:2993-3040 | After the switch the active slot decodes to exactly the frame; after every single byte written before it, the old active slot read as before, and it still does |
| HeadlessShm.HeadlessShmDisplayBackend.EnsureRegion | crates/displayd/src/main.rs:2962-2991 | The kept mapping, or a new blank one for another generation or size, or nothing when memory is refused |
| HeadlessShm.HeadlessShmDisplayBackend.PublishAtomic | crates/displayd/src/main.rs:2951-3042 | Succeeds exactly for an acceptable frame with a mapping kept or allocated; otherwise nothing changes. The frame is then what its output shows and every other output shows what it showed; meanwhile readers of a kept mapping saw the frame before and readers of a new one saw none |
| HeadlessShm.HeadlessShmDisplayBackend.SubmitFrame | crates/displayd/src/main.rs:3097-3122 | A frame is pending under its token exactly when it can be published within 64 pending frames and 1 GiB of them; both budgets are kept |
| HeadlessShm.PublishedIsRead | crates/displayd/src/main.rs:3000-3036 | Header fields at their offsets and pixels at row times stride plus four times column read back as published |
| HeadlessShm.HeadlessShmOutput.PutByte | crates/displayd/src/main.rs:3000-3036 | Every write lands in the inactive slot |
| HeadlessShm.HeadlessShmOutput.PutRow | crates/displayd/src/main.rs:3004-3013 | A row is its little-endian pixels followed by zero padding |
| HeadlessShm.ValidateFrame | crates/displayd/src/main.rs:2874-2915 | Accepts exactly the consistent frames and answers the payload length |
| HeadlessShm.PaddedFramesAreRefused | crates/displayd/src/main.rs:2906-2914 | A frame of displayd is accepted exactly when the output has no row padding |
| HeadlessShm.PaddedFrameExample | crates/displayd/src/main.rs:2906-2914 | A concrete frame of a live output that is refused |
| HeadlessShm.LittleEndianRoundTrip | crates/displayd/src/main.rs:3008-3011 | Little-endian bytes decode to the integer they came from |
| VulkanRuns.NextKeepsTrace | crates/vulkan-backend/src/lib.rs:629-1088 | Every call, whatever the device answers, keeps memory, terminal records, handles, verdicts and results in order |
| VulkanRuns.MemoryIsConserved | crates/vulkan-backend/src/lib.rs:795-802 | Along every run live and quarantined submissions are disjoint and at most 64, the byte count is exactly theirs and at most 256 MiB, the peak never below it |
| VulkanRuns.ReleasedOnlyWhenSignalled | crates/vulkan-backend/src/lib.rs:1285-1325 | Every GPU submission is held or released, never both, and released only after its fence was seen signalled |
| VulkanRuns.VerdictsAreStable | crates/vulkan-backend/src/lib.rs:919-990 | After a poll answered completed, timed out or missing, no later poll of that handle answers pending or another verdict; only missing may follow |
| VulkanRuns.OneGpuResult | crates/vulkan-backend/src/lib.rs:992-1055 | At most one waiter of a handle gets the GPU result |
| VulkanRuns.HandlesIncrease | crates/vulkan-backend/src/lib.rs:1157-1179 | Keys strictly increase across the wrap of the id, none is given twice, and after exhaustion only the reserved key of the CPU fallback is left |
| VulkanRuns.TerminalHistoryIsBounded | crates/vulkan-backend/src/lib.rs:1220-1244 | The terminal queue lists exactly the recorded keys, each once, at most 128 |
| VulkanDeadlines.FirstVerdict | crates/vulkan-backend/src/lib.rs:919-990 | After any run a poll of an undecided handle answers timed out exactly from its submission plus its timeout on with the fence unsignalled, pending exactly before, completed exactly on a signalled fence, on a device that answers |
| VulkanDeadlines.SubmittedTimeout | crates/vulkan-backend/src/lib.rs:629-713 | The deadline follows the submission by a positive timeout of at most five seconds, never more than asked for |
| VulkanDeadlines.RunKeepsTimed | crates/vulkan-backend/src/lib.rs:629-1088 | Along every run each held submission has the deadline of its own submission |
| VulkanDeadlines.EffectiveTimeoutExactly | crates/vulkan-backend/src/lib.rs:1139-1151 | The shortest of the requested, the configured and five seconds; 250 ms when neither is given |
| VulkanDeadlines.SubmitExactly | crates/vulkan-backend/src/lib.rs:629-771 | A submission goes to the GPU exactly when admitted with a handle and memory to spare, under the next key; otherwise there is a reason and nothing is held |
| VulkanDeadlines.FinishExactly | crates/vulkan-backend/src/lib.rs:992-1055 | A wait gets the GPU result exactly for a completed submission still held and without a record; otherwise the recorded reason |
| VulkanDeadlines.RetireExactly | crates/vulkan-backend/src/lib.rs:1057-1088 | A retired submission is neither live nor on record; its memory is returned, or it is quarantined, under the exact condition |
| VulkanDeadlines.ReapExactly | crates/vulkan-backend/src/lib.rs:1260-1283 | Quarantine keeps exactly what is not signalled or cannot be released; the backend faults exactly on an erring fence or a failed release |
| Vulkan.EffectiveTimeout | crates/vulkan-backend/src/lib.rs:1139-1151 | A positive timeout, at most the hard maximum and the requested one |
| VulkanBackend.VulkanBackendInner.InitializeDevice | crates/vulkan-backend/src/lib.rs:463-494 | Initialization ends as specified, once |
| VulkanBackend.VulkanBackendInner.SubmitBatch | crates/vulkan-backend/src/lib.rs:629-713 | Submission on live state ends as specified |
| VulkanBackend.VulkanBackendInner.AdmissionFallbackReason | crates/vulkan-backend/src/lib.rs:715-771 | The admission tests in their order |
| VulkanBackend.VulkanBackendInner.PollCompletion | crates/vulkan-backend/src/lib.rs:919-990 | Polling on live state answers and ends as specified |
| VulkanBackend.VulkanBackendInner.FinishWait | crates/vulkan-backend/src/lib.rs:994-1050 | What a wait does after a verdict, as specified |
| VulkanBackend.VulkanBackendInner.RetireSubmission | crates/vulkan-backend/src/lib.rs:1057-1088 | Retiring on live state ends as specified |
| VulkanBackend.VulkanBackendInner.ReapQuarantined | crates/vulkan-backend/src/lib.rs:1260-1283 | The reaping loop, in any key order, releases exactly the signalled and releasable submissions |
| VulkanBackend.VulkanBackendInner.InsertTerminalResult | crates/vulkan-backend/src/lib.rs:1220-1235 | The eviction loop and the insertion |
| VulkanBackend.VulkanBackendInner.TakeTerminalResult | crates/vulkan-backend/src/lib.rs:1237-1244 | Map entry and queue entry go together |
| VulkanBackend.VulkanBackendInner.AllocateHandle | crates/vulkan-backend/src/lib.rs:1157-1179 | The next key, with wrap and exhaustion |
| VulkanBackend.VulkanBackendInner.ReleaseGpuSubmission | crates/vulkan-backend/src/lib.rs:1285-1325 | Released bytes are given back, or on failure nothing changes |
| Registry.ReconcileIsFixpoint | crates/compd/src/main.rs:1432-1493 | A second pass against the same registry and output returns the same scene, with no drop and no app-id update |
| Registry.KeptAndDroppedPartition | crates/compd/src/main.rs:1448-1468 | Kept and dropped surfaces partition the input, both in order, the dropped ones inactive |
| Registry.ReconciledIsCurrent | crates/compd/src/main.rs:1448-1493 | Every surface of the result is an active one of the scene, brought up to date and laid out |
| Registry.ActiveExactly | crates/compd/src/main.rs:1432-1447 | Active are the mapped surfaces with a buffer, the last of a name counting |
| Registry.LayerLiesAtItsMargins | crates/compd/src/main.rs:1499-1559 | An anchored layer surface starts and ends at its margins, as tall as its exclusive zone or 36 |
| Registry.LayersStack | crates/compd/src/main.rs:1499-1559 | Background, two low layers, toplevels, two high layers; a toplevel rises above those only by its own z; nothing is hidden, and popups, locks and cursors stay |
| Registry.SlotExactly | crates/compd/src/main.rs:1637-1670 | A live owner keeps its slot; a dead one is replaced by a focus that can take it, without payload or serial |
| Registry.FocusIsActive | crates/compd/src/main.rs:1561-1594 | The focus is an active focusable surface, or none when no visible focusable one is kept |
| Registry.TopCandidateIsTopmost | crates/compd/src/main.rs:1578-1594 | The fallback is the last of the highest visible focusable surfaces |
| Registry.OwnersAreActive | crates/compd/src/main.rs:1637-1670 | Every selection owner is active, and no slot keeps payload or serial without an owner |
| Registry.FocusMayLeaveTheScene | crates/compd/src/main.rs:1561-1576 | The focus lies in the scene exactly when the previous one did or was not to be kept |
| Registry.StrayFocusIsRefused | crates/compd/src/main.rs:184-319 | Both validators refuse any scene whose focus it does not contain |
| Registry.StrayFocusExample | crates/compd/src/main.rs:1561-1576 | A scene whose reconciled focus is not among its surfaces, refused by both validators |
| Registry.ReconcileSceneWithRegistry | crates/compd/src/main.rs:1432-1493 | The filtering and layout loops compute the specified result |

## Left out

- Sockets, JSON, timeouts of the sockets, threads, logging, command line: a link is a script of lost, half-lost and delivered messages, time is an input, persistence replaces the disk cell wholly or not at all.
- The display link state of compd (connected, reconnecting, failed): it is written and never read.
- `commit_scene_to_displayd`: compd's own demo commit, the relay path without the gate.
- Topology subscriptions and their mirror, capture, recording, screenshots, session and lock commands.
- Wall-clock stamps of scenes and feedback, and the scene's originating service.
- Statistics that no decision reads: composition and scanout counters, Vulkan's submission, fallback, fault and zeroization counts.
- Vulkan object creation, shaders and the optional GPU assist in a presentation tick: a submission is its allocation size, deadline, completion time and zeroization flag; a fence is what the device answers, errors included.
- `GetPresentationFeedback` driving ticks: it is a sequence of the ticks modelled here.
- The headless backend's `presented` copy and capture, and its retirement of pending frames with their outputs: the abstract backend of `Pipeline` carries the pending tokens.
- DRM/KMS and evdev backends: foreign calls with little logic of their own.
- Freshness of handles ignores the epoch, so a new epoch with restarted generations can be refused; no claim is made that a newer version is always admitted.
- `Registry.Reconcile` wraps 32-bit sums of margins as an optimized build does; a debug build would stop there.
- Flight.CompletesAtMostOnce: within one process lifetime, because a restarted process starts its sequence numbers again.
