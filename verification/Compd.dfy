/** compd's relay as the code runs it: a scene whose payload list is moved into each message
    and put back afterwards, a link to a live displayd, and the retry loop. */
module Compd {
  import opened Machine
  import opened Ordering
  import opened SceneTypes
  import opened Admission
  import opened Pipeline
  import opened Broker
  import opened Relay
  import Gate

  /** The socket to displayd, with the script of what happens on it. */
  class DisplayLink {
    const displayd: DisplayBroker
    var script: seq<Delivery>
    ghost var sent: seq<Command>

    ghost predicate Valid()
      reads this, displayd, displayd.pixelTransport, displayd.pixelTransport.inner
    {
      displayd.Valid()
    }

    ghost function Model(): Link
      reads this, displayd, displayd.pixelTransport
    {
      Link(displayd.Model(), script, sent)
    }

    constructor (displayd: DisplayBroker, script: seq<Delivery>)
      requires displayd.Valid()
      ensures Valid() && this.displayd == displayd && Model() == Link(displayd.Model(), script, [])
    {
      this.displayd := displayd;
      this.script := script;
      sent := [];
    }

    /** displayd's own life between two messages. */
    method Meanwhile(events: seq<Event>)
      requires Valid()
      modifies displayd
      ensures Valid() && displayd.Model() == Run(old(displayd.Model()), events)
    {
      hide Step;
      for i := 0 to |events|
        invariant Valid() && Run(displayd.Model(), events[i..]) == Run(old(displayd.Model()), events)
      {
        var _ := displayd.Handle(events[i]);
        assert events[i..][0] == events[i] && events[i..][1..] == events[i + 1..];
      }
    }

    /** displayd handling one message. */
    method ServeHere(c: Command, fault: DiskFault) returns (a: Answer)
      requires Valid()
      modifies displayd
      ensures Valid() && (displayd.Model(), a) == Serve(old(displayd.Model()), c, fault)
    {
      hide Step;
      match c {
        case CommitScene(r) =>
          var reply := displayd.Handle(Commit(r, fault));
          a := Answered(reply);
        case ReconcileScene(epoch, r) =>
          var reply := displayd.Handle(Reconcile(epoch, r, fault));
          a := Answered(reply);
        case StartReconciliation(epoch) =>
          var reply := displayd.Handle(BeginReconciliation(epoch));
          a := Answered(reply);
        case GetReconciliation =>
          a := EpochIs(displayd.displayEpoch);
        case GetSceneSnapshot(output) =>
          a := Snapshot(if displayd.lastScene.Some? && displayd.lastScene.value.target == output then displayd.lastScene else None);
      }
    }

    /** `send_display_command`. */
    method Send(c: Command) returns (a: Option<Answer>)
      requires Valid()
      modifies this, displayd
      ensures Valid() && (Model(), a) == Relay.Send(old(Model()), c)
    {
      hide Run, Serve;
      sent := sent + [c];
      if script == [] {
        return None;
      }
      var delivery := script[0];
      script := script[1..];
      Meanwhile(delivery.before);
      if delivery.fate == RequestLost {
        return None;
      }
      var answer := ServeHere(c, delivery.fault);
      a := if delivery.fate == AnswerLost || NoAnswer(answer) then None else Some(answer);
    }
  }

  /** `RelayScene`: the payload list leaves with each message and comes back after it. */
  class RelayScene {
    const target: string
    const focus: Focus
    const selection: Selection
    const version: Version
    var surfaces: seq<Surface>
    var pixelPayloads: seq<Payload>

    function Whole(): SceneRequest
      reads this
    {
      SceneRequest(target, focus, selection, surfaces, pixelPayloads, version)
    }

    constructor (r: SceneRequest)
      ensures Whole() == r
    {
      target, focus, selection, version := r.target, r.focus, r.selection, r.version;
      surfaces, pixelPayloads := r.surfaces, r.payloads;
    }

    /** `canonicalize_relay_scene`. */
    method CanonicalizeScene()
      modifies this
      ensures Whole() == CanonicalRequest(old(Whole()))
    {
      surfaces := Canonicalize(surfaces);
      pixelPayloads := Sort((a: Payload, b: Payload) => HandleLess(a.handle, b.handle), pixelPayloads);
    }

    method TakeCommitCommand() returns (c: Command)
      modifies this`pixelPayloads
      ensures c == CommitScene(old(Whole())) && pixelPayloads == []
    {
      c := CommitScene(SceneRequest(target, focus, selection, surfaces, pixelPayloads, version));
      pixelPayloads := [];
    }

    method TakeReconcileCommand(epoch: U64) returns (c: Command)
      modifies this`pixelPayloads
      ensures c == ReconcileScene(epoch, old(Whole())) && pixelPayloads == []
    {
      c := ReconcileScene(epoch, SceneRequest(target, focus, selection, surfaces, pixelPayloads, version));
      pixelPayloads := [];
    }

    method RestorePayloadsFromCommand(c: Command)
      modifies this`pixelPayloads
      ensures pixelPayloads == if c.CommitScene? || c.ReconcileScene? then c.request.payloads else []
    {
      match c {
        case CommitScene(r) => pixelPayloads := r.payloads;
        case ReconcileScene(_, r) => pixelPayloads := r.payloads;
        case _ => pixelPayloads := [];
      }
    }
  }

  /** `matching_snapshot_receipt`. */
  method MatchingSnapshotReceipt(link: DisplayLink, relay: RelayScene) returns (receipt: Option<Receipt>)
    requires link.Valid()
    modifies link, link.displayd
    ensures link.Valid() && (link.Model(), receipt) == Probe(old(link.Model()), relay.Whole())
  {
    hide Send;
    receipt := None;
    var answer := link.Send(GetSceneSnapshot(relay.target));
    if answer.Some? && answer.value.Snapshot? && answer.value.scene.Some? {
      var snapshot := answer.value.scene.value;
      if snapshot.target != relay.target || snapshot.version != relay.version || snapshot.commitId == 0 {
        return;
      }
      receipt := Some(Receipt(|snapshot.surfaces|, snapshot.commitId));
    }
  }

  /** One round of the retry loop, from the epoch query to a receipt. */
  method ReconcileOnce(link: DisplayLink, relay: RelayScene) returns (outcome: Outcome)
    requires link.Valid()
    modifies link, link.displayd, relay
    ensures link.Valid() && (link.Model(), outcome) == Attempt(old(link.Model()), old(relay.Whole()))
    ensures relay.Whole() == old(relay.Whole())
  {
    hide Send, AttemptBegin;
    var reconciliation := link.Send(GetReconciliation);
    if reconciliation.None? {
      return Again;
    }
    if !reconciliation.value.EpochIs? {
      return GivenUp;
    }
    outcome := ReconcileFrom(link, relay, reconciliation.value.epoch);
  }

  method ReconcileFrom(link: DisplayLink, relay: RelayScene, epoch: U64) returns (outcome: Outcome)
    requires link.Valid()
    modifies link, link.displayd, relay
    ensures link.Valid() && (link.Model(), outcome) == AttemptBegin(old(link.Model()), old(relay.Whole()), epoch)
    ensures relay.Whole() == old(relay.Whole())
  {
    hide Send, AttemptScene;
    var begun := link.Send(StartReconciliation(epoch));
    if begun.None? {
      return Again;
    }
    if begun.value != Answered(Began(epoch)) {
      return GivenUp;
    }
    outcome := SendReconcileScene(link, relay, epoch);
  }

  method SendReconcileScene(link: DisplayLink, relay: RelayScene, epoch: U64) returns (outcome: Outcome)
    requires link.Valid()
    modifies link, link.displayd, relay
    ensures link.Valid() && (link.Model(), outcome) == AttemptScene(old(link.Model()), old(relay.Whole()), epoch)
    ensures relay.Whole() == old(relay.Whole())
  {
    hide Send, Probe;
    var command := relay.TakeReconcileCommand(epoch);
    var answer := link.Send(command);
    relay.RestorePayloadsFromCommand(command);
    assert relay.Whole() == old(relay.Whole());
    if answer.None? {
      var receipt := MatchingSnapshotReceipt(link, relay);
      return if receipt.Some? then Delivered(receipt.value) else Again;
    }
    if answer.value.Answered? && answer.value.reply.Reconciled? {
      var reply := answer.value.reply;
      if reply.epoch != epoch || reply.generation != relay.version.generation {
        return GivenUp;
      }
      var receipt := MatchingSnapshotReceipt(link, relay);
      return if receipt.Some? then Delivered(Receipt(|relay.surfaces|, receipt.value.commitId)) else GivenUp;
    }
    if answer.value == Answered(Rejected) {
      var receipt := MatchingSnapshotReceipt(link, relay);
      return if receipt.Some? then Delivered(receipt.value) else GivenUp;
    }
    outcome := GivenUp;
  }

  /** `reconcile_relay_scene_to_displayd`. */
  method ReconcileRelayScene(link: DisplayLink, relay: RelayScene) returns (receipt: Option<Receipt>)
    requires link.Valid()
    modifies link, link.displayd, relay
    ensures link.Valid()
    ensures (link.Model(), receipt) == Attempts(old(link.Model()), old(relay.Whole()), DISPLAY_RECONNECT_RETRY_LIMIT)
    ensures relay.Whole() == old(relay.Whole())
  {
    hide Attempt;
    for attempt := 0 to DISPLAY_RECONNECT_RETRY_LIMIT
      invariant link.Valid() && relay.Whole() == old(relay.Whole())
      invariant Attempts(link.Model(), old(relay.Whole()), DISPLAY_RECONNECT_RETRY_LIMIT - attempt)
             == Attempts(old(link.Model()), old(relay.Whole()), DISPLAY_RECONNECT_RETRY_LIMIT)
    {
      var outcome := ReconcileOnce(link, relay);
      match outcome {
        case Delivered(r) => return Some(r);
        case GivenUp => return None;
        case Again =>
      }
    }
    receipt := None;
  }

  /** The direct attempt of `forward_display_command`, and recovery when it fails. */
  method CommitDirectly(state: Gate.CompdRelayState, link: DisplayLink, relay: RelayScene) returns (answer: RelayAnswer)
    requires link.Valid()
    modifies state, link, link.displayd, relay
    ensures link.Valid()
    ensures (state.Abstract(), link.Model(), answer) == SendDirect(old(state.Abstract()), old(link.Model()), old(relay.Whole()))
  {
    hide Send, Probe, Attempts;
    var command := relay.TakeCommitCommand();
    var result := link.Send(command);
    relay.RestorePayloadsFromCommand(command);
    assert relay.Whole() == old(relay.Whole());
    answer := Refused;
    if result.None? {
      var receipt := ReconcileRelayScene(link, relay);
      if receipt.Some? {
        state.NoteForwarded(relay.version);
        return Acknowledged(receipt.value);
      }
      var usage := MeasureUsage(relay);
      state.DeferLatest(relay.version, usage, TRANSPORT_LOSS);
      return;
    }
    if result.value.Answered? && result.value.reply.Committed? {
      state.NoteForwarded(relay.version);
      return Acknowledged(Receipt(|relay.surfaces|, result.value.reply.commitId));
    }
    if result.value == Answered(Rejected) {
      var receipt := MatchingSnapshotReceipt(link, relay);
      if receipt.Some? {
        state.NoteForwarded(relay.version);
        return Acknowledged(receipt.value);
      }
    }
  }

  /** `relay_resource_usage`. */
  method MeasureUsage(relay: RelayScene) returns (usage: Gate.Usage)
    ensures usage == UsageOf(relay.Whole())
  {
    var bytes := RelayPixelBytes(relay.pixelPayloads);
    usage := Gate.Usage(|relay.surfaces|, |relay.pixelPayloads|, bytes);
  }

  /** `forward_display_command` on a scene commit. */
  method ForwardSceneCommit(state: Gate.CompdRelayState, link: DisplayLink, request: SceneRequest) returns (answer: RelayAnswer)
    requires link.Valid()
    modifies state, link, link.displayd
    ensures link.Valid()
    ensures (state.Abstract(), link.Model(), answer) == ForwardCommit(old(state.Abstract()), old(link.Model()), request)
  {
    hide Probe, SendDirect, RelayAccepts, CanonicalRequest;
    var relay := new RelayScene(request);
    relay.CanonicalizeScene();
    var accepted := ValidateRelayScene(relay.Whole(), true);
    if !accepted {
      return Refused;
    }
    var stale := state.ShouldRejectVersion(relay.version);
    if stale {
      return Refused;
    }
    if state.pending.Some? && state.pending.value.version == relay.version {
      var receipt := MatchingSnapshotReceipt(link, relay);
      if receipt.Some? {
        state.NoteForwarded(relay.version);
        return Acknowledged(receipt.value);
      }
    }
    answer := CommitDirectly(state, link, relay);
  }

  /** `forward_display_command` on a reconciliation scene. */
  method ForwardSceneReconcile(state: Gate.CompdRelayState, link: DisplayLink, epoch: U64, request: SceneRequest) returns (answer: RelayAnswer)
    requires link.Valid()
    modifies state, link, link.displayd
    ensures link.Valid()
    ensures (state.Abstract(), link.Model(), answer) == ForwardReconcile(old(state.Abstract()), old(link.Model()), epoch, request)
  {
    hide Send, RelayAccepts, CanonicalRequest;
    var relay := new RelayScene(request);
    relay.CanonicalizeScene();
    ghost var whole := relay.Whole();
    var accepted := ValidateRelayScene(relay.Whole(), true);
    if !accepted {
      return Refused;
    }
    var stale := state.ShouldRejectVersion(relay.version);
    if stale {
      return Refused;
    }
    var command := relay.TakeReconcileCommand(epoch);
    var result := link.Send(command);
    relay.RestorePayloadsFromCommand(command);
    assert relay.Whole() == whole;
    if result.None? {
      var usage := MeasureUsage(relay);
      state.DeferLatest(relay.version, usage, TRANSPORT_LOSS);
      return Refused;
    }
    if !result.value.Answered? {
      return Refused;
    }
    if result.value.reply.Reconciled? {
      state.NoteForwarded(relay.version);
    }
    answer := Relayed(result.value.reply);
  }
}
