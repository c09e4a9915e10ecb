/** compd relaying scenes to displayd over a link that may lose a request, or process it and
    lose the answer: the protocol as functions of what the link does. */
module Relay {
  import opened Machine
  import opened Ordering
  import opened SceneTypes
  import opened Admission
  import opened Pipeline
  import opened Ledger
  import Gate

  const DISPLAY_RECONNECT_RETRY_LIMIT := 3

  // ---------------------------------------------------------------------------- link

  datatype Command =
    | CommitScene(request: SceneRequest)
    | ReconcileScene(epoch: U64, request: SceneRequest)
    | GetReconciliation
    | StartReconciliation(epoch: U64)
    | GetSceneSnapshot(output: string)

  datatype Answer = Answered(reply: Reply) | EpochIs(epoch: U64) | Snapshot(scene: Option<Scene>)

  datatype Fate = RequestLost | AnswerLost | Arrives

  /** What happens to one message: what displayd lives through before it (ticks, completions,
      output events, other clients, restarts), and how delivery goes. */
  datatype Delivery = Delivery(before: seq<Event>, fate: Fate, fault: DiskFault)

  /** displayd at the far end, the deliveries to come, and the record of what was sent. When
      the script runs out the link is dead. */
  datatype Link = Link(world: World, script: seq<Delivery>, sent: seq<Command>)

  /** `scene_for_output`. */
  function SceneForOutput(d: Display, output: string): Option<Scene>
  {
    if d.lastScene.Some? && d.lastScene.value.target == output then d.lastScene else None
  }

  ghost function Serve(w: World, c: Command, fault: DiskFault): (World, Answer)
  {
    match c
    case CommitScene(r) => var (w', reply) := Step(w, Commit(r, fault)); (w', Answered(reply))
    case ReconcileScene(epoch, r) => var (w', reply) := Step(w, Reconcile(epoch, r, fault)); (w', Answered(reply))
    case StartReconciliation(epoch) => var (w', reply) := Step(w, BeginReconciliation(epoch)); (w', Answered(reply))
    case GetReconciliation => (w, EpochIs(w.display.displayEpoch))
    case GetSceneSnapshot(output) => (w, Snapshot(SceneForOutput(w.display, output)))
  }

  /** An error in displayd closes the connection: the sender sees a transport loss. */
  predicate NoAnswer(a: Answer)
  {
    a.Answered? && (a.reply == Errored || a.reply == Died)
  }

  /** `send_display_command`. */
  ghost function Send(l: Link, c: Command): (Link, Option<Answer>)
  {
    if l.script == [] then (l.(sent := l.sent + [c]), None)
    else
      var d := l.script[0];
      var w := Run(l.world, d.before);
      if d.fate == RequestLost then (Link(w, l.script[1..], l.sent + [c]), None)
      else
        var (w', a) := Serve(w, c, d.fault);
        (Link(w', l.script[1..], l.sent + [c]), if d.fate == AnswerLost || NoAnswer(a) then None else Some(a))
  }

  // ------------------------------------------------------------------------ recovery

  /** `SceneCommitReceipt`. */
  datatype Receipt = Receipt(surfaceCount: nat, commitId: U64)

  predicate SnapshotMatches(s: Scene, r: SceneRequest)
  {
    s.target == r.target && s.version == r.version && s.commitId != 0
  }

  /** `matching_snapshot_receipt`, an error and no match alike giving nothing. */
  ghost function Probe(l: Link, r: SceneRequest): (Link, Option<Receipt>)
  {
    var (l', a) := Send(l, GetSceneSnapshot(r.target));
    (l', if a.Some? && a.value.Snapshot? && a.value.scene.Some? && SnapshotMatches(a.value.scene.value, r)
         then Some(Receipt(|a.value.scene.value.surfaces|, a.value.scene.value.commitId)) else None)
  }

  datatype Outcome = Delivered(receipt: Receipt) | GivenUp | Again

  /** One attempt of `reconcile_relay_scene_to_displayd`. */
  ghost function Attempt(l: Link, r: SceneRequest): (Link, Outcome)
  {
    var (l1, a) := Send(l, GetReconciliation);
    match a
    case None => (l1, Again)
    case Some(EpochIs(epoch)) => AttemptBegin(l1, r, epoch)
    case Some(_) => (l1, GivenUp)
  }

  ghost function AttemptBegin(l: Link, r: SceneRequest, epoch: U64): (Link, Outcome)
  {
    var (l1, a) := Send(l, StartReconciliation(epoch));
    match a
    case None => (l1, Again)
    case Some(Answered(Began(accepted))) => if accepted == epoch then AttemptScene(l1, r, epoch) else (l1, GivenUp)
    case Some(_) => (l1, GivenUp)
  }

  ghost function AttemptScene(l: Link, r: SceneRequest, epoch: U64): (Link, Outcome)
  {
    var (l1, a) := Send(l, ReconcileScene(epoch, r));
    match a
    case None =>
      var (l2, receipt) := Probe(l1, r);
      (l2, if receipt.Some? then Delivered(receipt.value) else Again)
    case Some(Answered(Reconciled(accepted, generation, _))) =>
      if accepted == epoch && generation == r.version.generation then AttemptReceipt(l1, r) else (l1, GivenUp)
    case Some(Answered(Rejected)) =>
      var (l2, receipt) := Probe(l1, r);
      (l2, if receipt.Some? then Delivered(receipt.value) else GivenUp)
    case Some(_) => (l1, GivenUp)
  }

  /** The snapshot query and `reconciliation_commit_id`. */
  ghost function AttemptReceipt(l: Link, r: SceneRequest): (Link, Outcome)
  {
    var (l', receipt) := Probe(l, r);
    (l', if receipt.Some? then Delivered(Receipt(|r.surfaces|, receipt.value.commitId)) else GivenUp)
  }

  /** `reconcile_relay_scene_to_displayd`, with `n` attempts left. */
  ghost function Attempts(l: Link, r: SceneRequest, n: nat): (Link, Option<Receipt>)
    decreases n
  {
    if n == 0 then (l, None)
    else
      match Attempt(l, r)
      case (l', Delivered(receipt)) => (l', Some(receipt))
      case (l', GivenUp) => (l', None)
      case (l', Again) => Attempts(l', r, n - 1)
  }

  // ------------------------------------------------------------------------- relaying

  predicate HandleLess(a: Handle, b: Handle)
  {
    a.clientId < b.clientId
    || (a.clientId == b.clientId && (StringLess(a.surfaceId, b.surfaceId)
    || (a.surfaceId == b.surfaceId && (a.bufferGeneration < b.bufferGeneration
    || (a.bufferGeneration == b.bufferGeneration && a.sceneGeneration < b.sceneGeneration)))))
  }

  /** `canonicalize_relay_scene`. */
  function CanonicalRequest(r: SceneRequest): SceneRequest
  {
    r.(surfaces := Canonicalize(r.surfaces), payloads := Sort((a: Payload, b: Payload) => HandleLess(a.handle, b.handle), r.payloads))
  }

  function UsageOf(r: SceneRequest): Gate.Usage
  {
    Gate.Usage(|r.surfaces|, |r.payloads|, SaturatingPixelBytes(r.payloads))
  }

  datatype RelayAnswer = Acknowledged(receipt: Receipt) | Relayed(reply: Reply) | Refused

  const TRANSPORT_LOSS := "displayd transport loss"

  /** The three ways a scene leaves compd's gate. */
  ghost function Forwarding(g: Gate.State, l: Link, r: SceneRequest, receipt: Receipt): (Gate.State, Link, RelayAnswer)
  {
    (g.NoteForwarded(r.version), l, Acknowledged(receipt))
  }

  ghost function Deferring(g: Gate.State, l: Link, r: SceneRequest): (Gate.State, Link, RelayAnswer)
  {
    (g.DeferLatest(Gate.Marker(r.version, UsageOf(r), TRANSPORT_LOSS)), l, Refused)
  }

  /** `forward_display_command` on a scene commit. */
  ghost function ForwardCommit(g: Gate.State, l: Link, request: SceneRequest): (Gate.State, Link, RelayAnswer)
  {
    var r := CanonicalRequest(request);
    if !RelayAccepts(r, true) || g.Rejects(r.version) then (g, l, Refused)
    else if g.pending.Some? && g.pending.value.version == r.version then
      var (l1, receipt) := Probe(l, r);
      if receipt.Some? then Forwarding(g, l1, r, receipt.value) else SendDirect(g, l1, r)
    else SendDirect(g, l, r)
  }

  ghost function SendDirect(g: Gate.State, l: Link, r: SceneRequest): (Gate.State, Link, RelayAnswer)
  {
    var (l1, a) := Send(l, CommitScene(r));
    match a
    case Some(Answered(Committed(commitId))) => Forwarding(g, l1, r, Receipt(|r.surfaces|, commitId))
    case Some(Answered(Rejected)) =>
      var (l2, receipt) := Probe(l1, r);
      if receipt.Some? then Forwarding(g, l2, r, receipt.value) else (g, l2, Refused)
    case Some(_) => (g, l1, Refused)
    case None =>
      var (l2, receipt) := Attempts(l1, r, DISPLAY_RECONNECT_RETRY_LIMIT);
      if receipt.Some? then Forwarding(g, l2, r, receipt.value) else Deferring(g, l2, r)
  }

  /** `forward_display_command` on a reconciliation scene. */
  ghost function ForwardReconcile(g: Gate.State, l: Link, epoch: U64, request: SceneRequest): (Gate.State, Link, RelayAnswer)
  {
    var r := CanonicalRequest(request);
    if !RelayAccepts(r, true) || g.Rejects(r.version) then (g, l, Refused)
    else
      var (l1, a) := Send(l, ReconcileScene(epoch, r));
      match a
      case Some(Answered(reply)) =>
        if reply.Reconciled? then (g.NoteForwarded(r.version), l1, Relayed(reply)) else (g, l1, Relayed(reply))
      case Some(_) => (g, l1, Refused)
      case None => Deferring(g, l1, r)
  }

  // ------------------------------------------------------------------------ hypotheses

  ghost predicate EventsVersioned(events: seq<Event>)
  {
    forall i :: 0 <= i < |events| && Asks(events[i]) ==> events[i].request.version != UNVERSIONED
  }

  ghost predicate ScriptVersioned(script: seq<Delivery>)
  {
    forall i :: 0 <= i < |script| ==> EventsVersioned(script[i].before)
  }

  /** How many commit ids a script can use up at most. */
  function Work(script: seq<Delivery>): nat
  {
    if script == [] then 0 else |script[0].before| + 1 + Work(script[1..])
  }

  /** displayd's ledger is in order, only versioned scenes reach it, and its commit counter
      stays below its ceiling however the script plays out. */
  ghost predicate LinkOk(l: Link)
  {
    && LedgerOk(l.world) && ScriptVersioned(l.script)
    && l.world.display.nextCommitId + Work(l.script) < U64_MAX
  }

  ghost predicate CommandVersioned(c: Command)
  {
    c.CommitScene? || c.ReconcileScene? ==> c.request.version != UNVERSIONED
  }

  // ------------------------------------------------------------------- displayd's side

  lemma CarryOutCounts(w: World, r: SceneRequest, fault: DiskFault, verdict: Verdict)
    requires LedgerOk(w) && verdict.Proceed?
    ensures CarryOut(w, r, fault, verdict).0.display.nextCommitId <= w.display.nextCommitId + 1
  {
    hide Rebind, LedgerIncreases;
    var d := Rebound(w.display, r, verdict.required);
    if verdict.replayed.Some? {
      AdoptKeepsIdentity(d, r.version, verdict.replayed.value, verdict);
    } else {
      var s := SceneOf(r, d.nextCommitId);
      AdoptKeepsIdentity(Recorded(d, s), r.version, s.commitId, verdict);
    }
  }

  lemma AcceptCounts(w: World, request: SceneRequest, fault: DiskFault)
    requires LedgerOk(w)
    ensures Accept(w, request, fault).0.display.nextCommitId <= w.display.nextCommitId + 1
  {
    hide Judge, CarryOut, LedgerIncreases;
    var r := WithCanonicalSurfaces(request);
    if Judge(w.display, r).Proceed? {
      CarryOutCounts(w, r, fault, Judge(w.display, r));
    }
  }

  /** A step uses at most one commit id. */
  lemma StepCounts(w: World, e: Event)
    requires LedgerOk(w)
    ensures Step(w, e).0.display.nextCommitId <= w.display.nextCommitId + 1
  {
    hide Accept, ApplyOutputEvent, TickOutput, FinishCompletion, LedgerIncreases;
    match e
    case Commit(request, fault) => AcceptCounts(w, request, fault);
    case Reconcile(epoch, request, fault) => AcceptCounts(w, request, fault);
    case BeginReconciliation(epoch) =>
    case Tick(_, _, _, _, _, _) => TickKeepsRecord(w, e);
    case Complete(token, outcome, completes) => CompletionKeepsRecord(w, token, outcome, completes);
    case OutputChange(change) =>
      ChangeKeepsRecord(w, change);
    case Restart(boot) =>
  }

  lemma ExtendsTransitive(a: map<Version, Scene>, b: map<Version, Scene>, c: map<Version, Scene>)
    requires Extends(a, b) && Extends(b, c)
    ensures Extends(a, c)
  {
  }

  lemma {:induction false} RunCounts(w: World, events: seq<Event>)
    requires LedgerOk(w) && EventsVersioned(events) && w.display.nextCommitId + |events| < U64_MAX
    ensures LedgerOk(Run(w, events)) && Extends(w.ledger, Run(w, events).ledger)
    ensures Run(w, events).display.nextCommitId <= w.display.nextCommitId + |events|
    decreases |events|
  {
    hide Step, LedgerOk;
    if events != [] {
      StepKeepsLedger(w, events[0]);
      StepCounts(w, events[0]);
      RunCounts(Step(w, events[0]).0, events[1..]);
    }
  }

  /** What an answer of displayd says about its ledger. */
  ghost predicate AnswerTrue(ledger: map<Version, Scene>, c: Command, a: Answer)
  {
    && (c.CommitScene? && a.Answered? && a.reply.Committed? ==>
          Holds(ledger, c.request, Receipt(|c.request.surfaces|, a.reply.commitId)))
    && (c.ReconcileScene? && a.Answered? && a.reply.Reconciled? ==>
          c.request.version in ledger && |ledger[c.request.version].surfaces| == |c.request.surfaces|)
    && (a.Snapshot? && a.scene.Some? ==> a.scene.value.version in ledger && ledger[a.scene.value.version] == a.scene.value)
  }

  /** The receipt is the ledger's entry for the version of the scene. */
  ghost predicate Holds(ledger: map<Version, Scene>, r: SceneRequest, receipt: Receipt)
  {
    && r.version in ledger
    && ledger[r.version].commitId == receipt.commitId
    && |ledger[r.version].surfaces| == receipt.surfaceCount
    && ledger[r.version].target == r.target
  }

  lemma SameCount(r: SceneRequest)
    ensures |WithCanonicalSurfaces(r).surfaces| == |r.surfaces|
  {
    SameElements(Canonicalize(r.surfaces), r.surfaces);
  }

  lemma AcceptReplies(w: World, r: SceneRequest, fault: DiskFault)
    ensures !Accept(w, r, fault).1.Reconciled?
  {
    hide Judge;
  }

  lemma ServeKeepsLedger(w: World, c: Command, fault: DiskFault)
    requires LedgerOk(w) && CommandVersioned(c) && w.display.nextCommitId < U64_MAX
    ensures LedgerOk(Serve(w, c, fault).0) && Extends(w.ledger, Serve(w, c, fault).0.ledger)
    ensures Serve(w, c, fault).0.display.nextCommitId <= w.display.nextCommitId + 1
    ensures AnswerTrue(Serve(w, c, fault).0.ledger, c, Serve(w, c, fault).1)
  {
    hide Accept, LedgerIncreases, Begin;
    match c {
      case CommitScene(r) =>
        StepKeepsLedger(w, Commit(r, fault));
        StepCounts(w, Commit(r, fault));
        AcceptKeepsLedger(w, r, fault);
        SameCount(r);
      case ReconcileScene(epoch, r) =>
        StepKeepsLedger(w, Reconcile(epoch, r, fault));
        StepCounts(w, Reconcile(epoch, r, fault));
        AcceptKeepsLedger(w, r, fault);
        AcceptReplies(w, r, fault);
        SameCount(r);
      case StartReconciliation(epoch) =>
        StepKeepsLedger(w, BeginReconciliation(epoch));
        StepCounts(w, BeginReconciliation(epoch));
      case _ =>
    }
  }

  // ------------------------------------------------------------------------ the link

  /** One exchange, however it goes. */
  lemma SendKeepsLink(l: Link, c: Command)
    requires LinkOk(l) && CommandVersioned(c)
    ensures var (l', a) := Send(l, c);
      && LinkOk(l') && Extends(l.world.ledger, l'.world.ledger)
      && l'.sent == l.sent + [c]
      && (a.Some? ==> AnswerTrue(l'.world.ledger, c, a.value))
  {
    hide Serve, LedgerOk, AnswerTrue, CommandVersioned;
    if l.script != [] {
      var d := l.script[0];
      RunCounts(l.world, d.before);
      var w := Run(l.world, d.before);
      ServeKeepsLedger(w, c, d.fault);
      ExtendsTransitive(l.world.ledger, w.ledger, Serve(w, c, d.fault).0.ledger);
      assert forall i :: 0 <= i < |l.script[1..]| ==> l.script[1..][i] == l.script[i + 1];
    }
  }

  // -------------------------------------------------------- one version, one scene

  /** Two requests that displayd would record alike. */
  predicate SameRequest(a: SceneRequest, b: SceneRequest)
  {
    a.target == b.target && a.focus == b.focus && a.selection == b.selection && Canonicalize(a.surfaces) == Canonicalize(b.surfaces)
  }

  ghost predicate NamedEvents(events: seq<Event>, r: SceneRequest)
  {
    forall i :: 0 <= i < |events| && Asks(events[i]) && events[i].request.version == r.version ==> SameRequest(events[i].request, r)
  }

  ghost predicate NamedLedger(ledger: map<Version, Scene>, r: SceneRequest)
  {
    r.version in ledger ==> SameSceneIdentity(ledger[r.version], WithCanonicalSurfaces(r))
  }

  /** Nobody uses the version of `r` for another scene, neither on record nor to come. */
  ghost predicate Named(l: Link, r: SceneRequest)
  {
    NamedLedger(l.world.ledger, r) && forall i :: 0 <= i < |l.script| ==> NamedEvents(l.script[i].before, r)
  }

  lemma AcceptAdds(w: World, request: SceneRequest, fault: DiskFault)
    ensures Accept(w, request, fault).0.ledger == w.ledger
         || Accept(w, request, fault).0.ledger == w.ledger[request.version := SceneOf(WithCanonicalSurfaces(request), w.display.nextCommitId)]
  {
    hide Judge, Rebind, DamageOutputs;
  }

  lemma StepKeepsNamed(w: World, e: Event, r: SceneRequest)
    requires NamedLedger(w.ledger, r) && NamedEvents([e], r)
    ensures NamedLedger(Step(w, e).0.ledger, r)
  {
    hide Accept, ApplyOutputEvent, TickOutput, FinishCompletion;
    assert [e][0] == e;
    match e
    case Commit(request, fault) => AcceptAdds(w, request, fault);
    case Reconcile(epoch, request, fault) => AcceptAdds(w, request, fault);
    case BeginReconciliation(epoch) =>
    case Tick(_, _, _, _, _, _) => TickKeepsRecord(w, e);
    case Complete(token, outcome, completes) => CompletionKeepsRecord(w, token, outcome, completes);
    case OutputChange(change) => ChangeKeepsRecord(w, change);
    case Restart(boot) =>
  }

  lemma {:induction false} RunKeepsNamed(w: World, events: seq<Event>, r: SceneRequest)
    requires NamedLedger(w.ledger, r) && NamedEvents(events, r)
    ensures NamedLedger(Run(w, events).ledger, r)
    decreases |events|
  {
    hide Step, NamedLedger;
    if events != [] {
      assert NamedEvents([events[0]], r);
      StepKeepsNamed(w, events[0], r);
      RunKeepsNamed(Step(w, events[0]).0, events[1..], r);
    }
  }

  lemma SendKeepsNamed(l: Link, c: Command, r: SceneRequest)
    requires Named(l, r) && (c.CommitScene? || c.ReconcileScene? ==> c.request == r)
    ensures Named(Send(l, c).0, r)
  {
    hide Run, Step, NamedLedger, NamedEvents, SameRequest;
    if l.script != [] {
      var d := l.script[0];
      RunKeepsNamed(l.world, d.before, r);
      var w := Run(l.world, d.before);
      assert forall i :: 0 <= i < |l.script[1..]| ==> l.script[1..][i] == l.script[i + 1];
      OwnEvents(c, d.fault, r);
      match c {
        case CommitScene(q) => StepKeepsNamed(w, Commit(q, d.fault), r);
        case ReconcileScene(epoch, q) => StepKeepsNamed(w, Reconcile(epoch, q, d.fault), r);
        case StartReconciliation(epoch) => StepKeepsNamed(w, BeginReconciliation(epoch), r);
        case _ =>
      }
    }
  }

  lemma OwnEvents(c: Command, fault: DiskFault, r: SceneRequest)
    ensures NamedEvents([Commit(r, fault)], r)
    ensures forall epoch: U64 :: NamedEvents([Reconcile(epoch, r, fault)], r) && NamedEvents([BeginReconciliation(epoch)], r)
  {
  }

  // ------------------------------------------------------------------ the messages

  /** Every message about a scene carries that scene, payload list included. */
  ghost predicate SendsOnly(before: seq<Command>, after: seq<Command>, r: SceneRequest)
  {
    && before <= after
    && forall i :: |before| <= i < |after| && (after[i].CommitScene? || after[i].ReconcileScene?) ==> after[i].request == r
  }

  /** What a part of the protocol keeps: the link, the ledger's past, the original payloads. */
  ghost predicate Keeps(l: Link, l': Link, r: SceneRequest)
  {
    && LinkOk(l') && Extends(l.world.ledger, l'.world.ledger) && SendsOnly(l.sent, l'.sent, r)
    && (Named(l, r) ==> Named(l', r))
  }

  lemma KeepsTransitive(a: Link, b: Link, c: Link, r: SceneRequest)
    requires Keeps(a, b, r) && Keeps(b, c, r)
    ensures Keeps(a, c, r)
  {
    hide LinkOk;
    ExtendsTransitive(a.world.ledger, b.world.ledger, c.world.ledger);
    forall i | |a.sent| <= i < |c.sent| && (c.sent[i].CommitScene? || c.sent[i].ReconcileScene?)
      ensures c.sent[i].request == r
    {
      if i < |b.sent| {
        assert c.sent[i] == b.sent[i];
      }
    }
  }

  lemma SendKeeps(l: Link, c: Command, r: SceneRequest)
    requires LinkOk(l) && CommandVersioned(c)
    requires c.CommitScene? || c.ReconcileScene? ==> c.request == r
    ensures Keeps(l, Send(l, c).0, r)
    ensures Send(l, c).1.Some? ==> AnswerTrue(Send(l, c).0.world.ledger, c, Send(l, c).1.value)
    ensures |Send(l, c).0.sent| == |l.sent| + 1
  {
    hide LinkOk, Send, AnswerTrue, Named;
    SendKeepsLink(l, c);
    if Named(l, r) {
      SendKeepsNamed(l, c, r);
    }
  }

  /** A snapshot receipt is the ledger's entry. */
  lemma ProbeIsTrue(l: Link, r: SceneRequest)
    requires LinkOk(l)
    ensures Keeps(l, Probe(l, r).0, r) && |Probe(l, r).0.sent| == |l.sent| + 1
    ensures Probe(l, r).1.Some? ==> Holds(Probe(l, r).0.world.ledger, r, Probe(l, r).1.value)
  {
    hide LinkOk, Send;
    SendKeeps(l, GetSceneSnapshot(r.target), r);
  }

  ghost predicate OutcomeTrue(ledger: map<Version, Scene>, r: SceneRequest, o: Outcome)
  {
    o.Delivered? ==> Holds(ledger, r, o.receipt)
  }

  lemma AttemptReceiptIsTrue(l: Link, r: SceneRequest)
    requires LinkOk(l)
    requires r.version in l.world.ledger && |l.world.ledger[r.version].surfaces| == |r.surfaces|
    ensures Keeps(l, AttemptReceipt(l, r).0, r) && |AttemptReceipt(l, r).0.sent| == |l.sent| + 1
    ensures OutcomeTrue(AttemptReceipt(l, r).0.world.ledger, r, AttemptReceipt(l, r).1)
  {
    hide LinkOk, Probe;
    ProbeIsTrue(l, r);
  }

  lemma AttemptSceneIsTrue(l: Link, r: SceneRequest, epoch: U64)
    requires LinkOk(l) && r.version != UNVERSIONED
    ensures Keeps(l, AttemptScene(l, r, epoch).0, r) && |AttemptScene(l, r, epoch).0.sent| <= |l.sent| + 2
    ensures OutcomeTrue(AttemptScene(l, r, epoch).0.world.ledger, r, AttemptScene(l, r, epoch).1)
  {
    hide LinkOk, Send, Probe, AttemptReceipt, Keeps, Holds;
    var (l1, a) := Send(l, ReconcileScene(epoch, r));
    SendKeeps(l, ReconcileScene(epoch, r), r);
    KeptLink(l, l1, r);
    ProbeIsTrue(l1, r);
    KeepsTransitive(l, l1, Probe(l1, r).0, r);
    if a.Some? && a.value.Answered? && a.value.reply.Reconciled? {
      AttemptReceiptIsTrue(l1, r);
      KeepsTransitive(l, l1, AttemptReceipt(l1, r).0, r);
    }
  }

  lemma KeptLink(l: Link, l': Link, r: SceneRequest)
    requires Keeps(l, l', r)
    ensures LinkOk(l') && Extends(l.world.ledger, l'.world.ledger)
  {
  }

  lemma AttemptIsTrue(l: Link, r: SceneRequest)
    requires LinkOk(l) && r.version != UNVERSIONED
    ensures Keeps(l, Attempt(l, r).0, r) && |Attempt(l, r).0.sent| <= |l.sent| + 4
    ensures OutcomeTrue(Attempt(l, r).0.world.ledger, r, Attempt(l, r).1)
  {
    hide LinkOk, Send, AttemptScene, Keeps, Holds;
    var (l1, a) := Send(l, GetReconciliation);
    SendKeeps(l, GetReconciliation, r);
    KeptLink(l, l1, r);
    if a.Some? && a.value.EpochIs? {
      var epoch := a.value.epoch;
      var (l2, b) := Send(l1, StartReconciliation(epoch));
      SendKeeps(l1, StartReconciliation(epoch), r);
      KeptLink(l1, l2, r);
      KeepsTransitive(l, l1, l2, r);
      AttemptSceneIsTrue(l2, r, epoch);
      KeepsTransitive(l, l2, AttemptScene(l2, r, epoch).0, r);
    }
  }

  /** The retry loop: at most four messages an attempt, and only a true receipt. */
  lemma {:induction false} ReconciliationIsTrue(l: Link, r: SceneRequest, n: nat)
    requires LinkOk(l) && r.version != UNVERSIONED
    ensures Keeps(l, Attempts(l, r, n).0, r) && |Attempts(l, r, n).0.sent| <= |l.sent| + 4 * n
    ensures Attempts(l, r, n).1.Some? ==> Holds(Attempts(l, r, n).0.world.ledger, r, Attempts(l, r, n).1.value)
    decreases n
  {
    hide LinkOk, Attempt, Keeps, Holds;
    if n == 0 {
      NothingSent(l, r);
    } else {
      AttemptIsTrue(l, r);
      var (l1, o) := Attempt(l, r);
      KeptLink(l, l1, r);
      if o.Again? {
        ReconciliationIsTrue(l1, r, n - 1);
        KeepsTransitive(l, l1, Attempts(l1, r, n - 1).0, r);
      }
    }
  }

  lemma NothingSent(l: Link, r: SceneRequest)
    requires LinkOk(l)
    ensures Keeps(l, l, r)
  {
  }

  // -------------------------------------------------------------------------- relaying

  /** What compd has noted as forwarded, displayd has on record. */
  ghost predicate Known(g: Gate.State, ledger: map<Version, Scene>)
  {
    g.forwarded != UNVERSIONED ==> g.forwarded in ledger
  }

  /** The gate moved only as it may: not at all, or by one scene it does not reject. */
  ghost predicate Moved(g: Gate.State, g': Gate.State, v: Version)
  {
    g' == g || exists p: Gate.Passage :: p.Of() == v && g' == Gate.Pass(Gate.Trace(g, [], [], 0), p).state
  }

  /** Everything one client request is answered with is true. */
  ghost predicate Truthful(g: Gate.State, l: Link, r: SceneRequest, g': Gate.State, l': Link, answer: RelayAnswer)
  {
    && Keeps(l, l', r) && Known(g', l'.world.ledger) && Moved(g, g', r.version)
    && (answer.Acknowledged? ==> Holds(l'.world.ledger, r, answer.receipt) && g' == g.NoteForwarded(r.version))
    && (answer.Relayed? && answer.reply.Reconciled? ==> r.version in l'.world.ledger && g' == g.NoteForwarded(r.version))
  }

  lemma KnownLater(g: Gate.State, before: map<Version, Scene>, after: map<Version, Scene>)
    requires Known(g, before) && Extends(before, after)
    ensures Known(g, after)
  {
  }

  lemma ForwardingIsTruthful(g: Gate.State, l: Link, l': Link, r: SceneRequest, receipt: Receipt)
    requires Keeps(l, l', r) && Known(g, l.world.ledger) && !g.Rejects(r.version)
    requires Holds(l'.world.ledger, r, receipt)
    ensures var (g', l1, answer) := Forwarding(g, l', r, receipt); Truthful(g, l, r, g', l1, answer)
  {
    hide LinkOk, SendsOnly;
    KnownLater(g, l.world.ledger, l'.world.ledger);
    assert Gate.Forwarded(r.version).Of() == r.version;
    assert Gate.Pass(Gate.Trace(g, [], [], 0), Gate.Forwarded(r.version)).state == g.NoteForwarded(r.version);
  }

  lemma DeferringIsTruthful(g: Gate.State, l: Link, l': Link, r: SceneRequest)
    requires Keeps(l, l', r) && Known(g, l.world.ledger) && !g.Rejects(r.version)
    ensures var (g', l1, answer) := Deferring(g, l', r); Truthful(g, l, r, g', l1, answer)
  {
    hide LinkOk, SendsOnly;
    KnownLater(g, l.world.ledger, l'.world.ledger);
    var m := Gate.Marker(r.version, UsageOf(r), TRANSPORT_LOSS);
    assert Gate.Deferred(m).Of() == r.version;
    assert Gate.Pass(Gate.Trace(g, [], [], 0), Gate.Deferred(m)).state == g.DeferLatest(m);
  }

  lemma RefusingIsTruthful(g: Gate.State, l: Link, l': Link, r: SceneRequest, answer: RelayAnswer)
    requires Keeps(l, l', r) && Known(g, l.world.ledger)
    requires answer.Refused? || (answer.Relayed? && !answer.reply.Reconciled?)
    ensures Truthful(g, l, r, g, l', answer)
  {
    hide LinkOk, SendsOnly;
    KnownLater(g, l.world.ledger, l'.world.ledger);
  }

  lemma SendDirectIsTruthful(g: Gate.State, l: Link, r: SceneRequest)
    requires LinkOk(l) && Known(g, l.world.ledger) && r.version != UNVERSIONED && !g.Rejects(r.version)
    ensures var (g', l', answer) := SendDirect(g, l, r); Truthful(g, l, r, g', l', answer) && |l'.sent| <= |l.sent| + 13
  {
    hide LinkOk, Send, Probe, Attempts, Keeps, Holds, Truthful, Known;
    var (l1, a) := Send(l, CommitScene(r));
    SendKeeps(l, CommitScene(r), r);
    KeptLink(l, l1, r);
    match a {
      case Some(Answered(Committed(commitId))) =>
        ForwardingIsTruthful(g, l, l1, r, Receipt(|r.surfaces|, commitId));
      case Some(Answered(Rejected)) =>
        ProbeIsTrue(l1, r);
        var (l2, receipt) := Probe(l1, r);
        KeepsTransitive(l, l1, l2, r);
        if receipt.Some? { ForwardingIsTruthful(g, l, l2, r, receipt.value); }
        RefusingIsTruthful(g, l, l2, r, Refused);
      case Some(_) =>
        RefusingIsTruthful(g, l, l1, r, Refused);
      case None =>
        ReconciliationIsTrue(l1, r, DISPLAY_RECONNECT_RETRY_LIMIT);
        var (l2, receipt) := Attempts(l1, r, DISPLAY_RECONNECT_RETRY_LIMIT);
        KeepsTransitive(l, l1, l2, r);
        if receipt.Some? { ForwardingIsTruthful(g, l, l2, r, receipt.value); }
        DeferringIsTruthful(g, l, l2, r);
    }
  }

  /** A relayed scene commit, whatever the link and displayd do meanwhile: at most fourteen
      messages, each about the scene carrying its original payloads; an acknowledgement is
      displayd's own record of the version. */
  lemma ForwardCommitIsTruthful(g: Gate.State, l: Link, request: SceneRequest)
    requires LinkOk(l) && Known(g, l.world.ledger) && request.version != UNVERSIONED
    ensures var (g', l', answer) := ForwardCommit(g, l, request);
      && Truthful(g, l, CanonicalRequest(request), g', l', answer)
      && |l'.sent| <= |l.sent| + 14
  {
    hide LinkOk, Send, Probe, SendDirect, Keeps, Holds, Truthful, Known, RelayAccepts, CanonicalRequest;
    var r := CanonicalRequest(request);
    CanonicalVersion(request);
    NothingSent(l, r);
    RefusingIsTruthful(g, l, l, r, Refused);
    if RelayAccepts(r, true) && !g.Rejects(r.version) {
      SendDirectIsTruthful(g, l, r);
      ProbeIsTrue(l, r);
      var (l1, receipt) := Probe(l, r);
      KeptLink(l, l1, r);
      if receipt.Some? {
        ForwardingIsTruthful(g, l, l1, r, receipt.value);
      } else {
        KnownLater(g, l.world.ledger, l1.world.ledger);
        SendDirectIsTruthful(g, l1, r);
        var (g', l', answer) := SendDirect(g, l1, r);
        TruthfulAfter(g, l, l1, r, g', l', answer);
      }
    }
  }

  lemma CanonicalVersion(request: SceneRequest)
    ensures CanonicalRequest(request).version == request.version && CanonicalRequest(request).target == request.target
    ensures multiset(CanonicalRequest(request).payloads) == multiset(request.payloads)
    ensures multiset(CanonicalRequest(request).surfaces) == multiset(request.surfaces)
  {
  }

  lemma TruthfulAfter(g: Gate.State, l: Link, l1: Link, r: SceneRequest, g': Gate.State, l': Link, answer: RelayAnswer)
    requires Keeps(l, l1, r) && Truthful(g, l1, r, g', l', answer)
    ensures Truthful(g, l, r, g', l', answer)
  {
    hide Keeps;
    KeepsTransitive(l, l1, l', r);
  }

  lemma ForwardReconcileIsTruthful(g: Gate.State, l: Link, epoch: U64, request: SceneRequest)
    requires LinkOk(l) && Known(g, l.world.ledger) && request.version != UNVERSIONED
    ensures var (g', l', answer) := ForwardReconcile(g, l, epoch, request);
      && Truthful(g, l, CanonicalRequest(request), g', l', answer)
      && |l'.sent| <= |l.sent| + 1
  {
    hide LinkOk, Send, Keeps, Holds, RelayAccepts, CanonicalRequest;
    var r := CanonicalRequest(request);
    CanonicalVersion(request);
    NothingSent(l, r);
    RefusingIsTruthful(g, l, l, r, Refused);
    if RelayAccepts(r, true) && !g.Rejects(r.version) {
      var (l1, a) := Send(l, ReconcileScene(epoch, r));
      SendKeeps(l, ReconcileScene(epoch, r), r);
      KeptLink(l, l1, r);
      DeferringIsTruthful(g, l, l1, r);
      RefusingIsTruthful(g, l, l1, r, Refused);
      if a.Some? && a.value.Answered? {
        if a.value.reply.Reconciled? {
          KnownLater(g, l.world.ledger, l1.world.ledger);
          assert Gate.Forwarded(r.version).Of() == r.version;
          assert Gate.Pass(Gate.Trace(g, [], [], 0), Gate.Forwarded(r.version)).state == g.NoteForwarded(r.version);
        } else {
          RefusingIsTruthful(g, l, l1, r, Relayed(a.value.reply));
        }
      }
    }
  }

  // ------------------------------------------------------------------------ many requests

  /** What compd goes through: client requests, each with what the link does to it, and
      restarts that lose its memory. */
  datatype Session =
    | ClientCommits(request: SceneRequest, script: seq<Delivery>)
    | ClientReconciles(epoch: U64, request: SceneRequest, script: seq<Delivery>)
    | CompdRestarts

  /** An acknowledgement handed to a client. */
  datatype Issued = Issued(version: Version, commitId: U64)

  datatype System = System(gate: Gate.State, world: World, issued: seq<Issued>)

  ghost function Play(s: System, session: Session): System
  {
    match session
    case ClientCommits(request, script) =>
      var (g, l, answer) := ForwardCommit(s.gate, Link(s.world, script, []), request);
      System(g, l.world, if answer.Acknowledged? then s.issued + [Issued(request.version, answer.receipt.commitId)] else s.issued)
    case ClientReconciles(epoch, request, script) =>
      var (g, l, answer) := ForwardReconcile(s.gate, Link(s.world, script, []), epoch, request);
      System(g, l.world, s.issued)
    case CompdRestarts => s.(gate := Gate.EMPTY)
  }

  ghost function PlayAll(s: System, sessions: seq<Session>): System
    decreases |sessions|
  {
    if sessions == [] then s else PlayAll(Play(s, sessions[0]), sessions[1..])
  }

  /** Every client request is about a versioned scene, and the commit counter has room. */
  ghost predicate Feasible(w: World, session: Session)
  {
    session.CompdRestarts?
    || (session.request.version != UNVERSIONED && ScriptVersioned(session.script)
        && w.display.nextCommitId + Work(session.script) < U64_MAX)
  }

  ghost predicate AllFeasible(s: System, sessions: seq<Session>)
    decreases |sessions|
  {
    sessions != [] ==> Feasible(s.world, sessions[0]) && AllFeasible(Play(s, sessions[0]), sessions[1..])
  }

  ghost predicate IssuedTrue(ledger: map<Version, Scene>, issued: seq<Issued>)
  {
    forall i :: 0 <= i < |issued| ==> issued[i].version in ledger && ledger[issued[i].version].commitId == issued[i].commitId
  }

  ghost predicate SystemOk(s: System)
  {
    LedgerOk(s.world) && Known(s.gate, s.world.ledger) && IssuedTrue(s.world.ledger, s.issued)
  }

  lemma PlayKeepsSystem(s: System, session: Session)
    requires SystemOk(s) && Feasible(s.world, session)
    ensures SystemOk(Play(s, session)) && Extends(s.world.ledger, Play(s, session).world.ledger)
  {
    hide LedgerOk, ForwardCommit, ForwardReconcile, ScriptVersioned, Work, CanonicalRequest, SendsOnly, Moved;
    match session
    case ClientCommits(request, script) =>
      ForwardCommitIsTruthful(s.gate, Link(s.world, script, []), request);
      CanonicalVersion(request);
    case ClientReconciles(epoch, request, script) =>
      ForwardReconcileIsTruthful(s.gate, Link(s.world, script, []), epoch, request);
    case CompdRestarts =>
  }

  lemma {:induction false} PlayAllKeepsSystem(s: System, sessions: seq<Session>)
    requires SystemOk(s) && AllFeasible(s, sessions)
    ensures SystemOk(PlayAll(s, sessions)) && Extends(s.world.ledger, PlayAll(s, sessions).world.ledger)
    decreases |sessions|
  {
    hide SystemOk, Play, Feasible;
    if sessions != [] {
      PlayKeepsSystem(s, sessions[0]);
      PlayAllKeepsSystem(Play(s, sessions[0]), sessions[1..]);
      ExtendsTransitive(s.world.ledger, Play(s, sessions[0]).world.ledger, PlayAll(s, sessions).world.ledger);
    }
  }

  /** Exactly once: however often scenes are sent, lost, replayed and recovered, two
      acknowledgements carry one commit id if and only if they are for one version, and later
      versions carry larger ids. */
  lemma ExactlyOnce(s: System, sessions: seq<Session>, i: nat, j: nat)
    requires SystemOk(s) && AllFeasible(s, sessions)
    requires i < |PlayAll(s, sessions).issued| && j < |PlayAll(s, sessions).issued|
    ensures var issued := PlayAll(s, sessions).issued;
      && (issued[i].commitId == issued[j].commitId <==> issued[i].version == issued[j].version)
      && (issued[i].commitId < issued[j].commitId <==> issued[i].version.Less(issued[j].version))
      && issued[i].version in PlayAll(s, sessions).world.ledger
      && PlayAll(s, sessions).world.ledger[issued[i].version].commitId == issued[i].commitId
  {
    hide PlayAll, AllFeasible;
    PlayAllKeepsSystem(s, sessions);
    var issued := PlayAll(s, sessions).issued;
    VersionOrder(issued[i].version, issued[j].version);
  }

  /** compd never believes to have forwarded more than displayd has accepted. */
  lemma ForwardedIsAccepted(s: System, sessions: seq<Session>)
    requires SystemOk(s) && AllFeasible(s, sessions)
    ensures PlayAll(s, sessions).gate.forwarded.AtMost(PlayAll(s, sessions).world.display.lastVersion)
  {
    hide PlayAll, AllFeasible;
    PlayAllKeepsSystem(s, sessions);
    var t := PlayAll(s, sessions);
    VersionOrder(UNVERSIONED, t.world.display.lastVersion);
  }

  // ------------------------------------------------------------- what was acknowledged

  /** When a version names one scene, an acknowledgement means that this very scene is on
      displayd's record, under the acknowledged id. The record is what displayd persists:
      target, focus, selection, surfaces, version and id, but no pixels. */
  lemma AcknowledgedIsRecorded(g: Gate.State, l: Link, request: SceneRequest)
    requires LinkOk(l) && Known(g, l.world.ledger) && request.version != UNVERSIONED
    requires Named(l, CanonicalRequest(request))
    ensures var (g', l', answer) := ForwardCommit(g, l, request);
      answer.Acknowledged? ==>
        && request.version in l'.world.ledger
        && l'.world.ledger[request.version] == SceneOf(WithCanonicalSurfaces(CanonicalRequest(request)), answer.receipt.commitId)
  {
    hide LinkOk, ForwardCommit, CanonicalRequest, Canonicalize, SendsOnly, Moved;
    ForwardCommitIsTruthful(g, l, request);
    CanonicalVersion(request);
    var (g', l', answer) := ForwardCommit(g, l, request);
    if answer.Acknowledged? {
      LedgerNames(l', request.version);
    }
  }

  lemma LedgerNames(l: Link, v: Version)
    requires LinkOk(l) && v in l.world.ledger
    ensures l.world.ledger[v].version == v
  {
  }
}
