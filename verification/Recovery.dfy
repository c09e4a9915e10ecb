/** What compd makes of a lost exchange: when the retry loop recovers the scene, and when it
    may give up and defer. */
module Recovery {
  import opened Machine
  import opened SceneTypes
  import opened Admission
  import opened Pipeline
  import opened Ledger
  import opened Relay
  import opened Conflict
  import Gate

  // -------------------------------------------------------------------- one attempt

  /** One of the exchanges of an attempt got no answer; for the scene itself, the probe after
      it found nothing either. */
  ghost predicate MetLoss(l: Link, r: SceneRequest)
  {
    var (l1, a) := Send(l, GetReconciliation);
    a.None? || (a.value.EpochIs? && MetLossBegun(l1, r, a.value.epoch))
  }

  ghost predicate MetLossBegun(l: Link, r: SceneRequest, epoch: U64)
  {
    var (l1, a) := Send(l, StartReconciliation(epoch));
    a.None? || (a == Some(Answered(Began(epoch))) && MetLossSent(l1, r, epoch))
  }

  ghost predicate MetLossSent(l: Link, r: SceneRequest, epoch: U64)
  {
    var (l1, a) := Send(l, ReconcileScene(epoch, r));
    a.None? && Probe(l1, r).1.None?
  }

  /** The attempt found the scene on displayd's record: it was reconciled, or its answer was
      lost or a refusal, and the snapshot that follows matches. */
  ghost predicate Found(l: Link, r: SceneRequest, epoch: U64)
  {
    var (l1, a) := Send(l, ReconcileScene(epoch, r));
    && Probe(l1, r).1.Some?
    && (a.None? || a == Some(Answered(Rejected)) ||
        (a.value.Answered? && a.value.reply.Reconciled? && a.value.reply.epoch == epoch && a.value.reply.generation == r.version.generation))
  }

  ghost predicate Reached(l: Link, r: SceneRequest)
  {
    var (l1, a) := Send(l, GetReconciliation);
    a.Some? && a.value.EpochIs? &&
    var (l2, b) := Send(l1, StartReconciliation(a.value.epoch));
    b == Some(Answered(Began(a.value.epoch))) && Found(l2, r, a.value.epoch)
  }

  lemma SentExactly(l: Link, r: SceneRequest, epoch: U64)
    ensures AttemptScene(l, r, epoch).1 == Again <==> MetLossSent(l, r, epoch)
    ensures AttemptScene(l, r, epoch).1.Delivered? <==> Found(l, r, epoch)
  {
    hide Send, Probe;
  }

  /** An attempt is repeated exactly after a loss, delivers exactly when it found the scene on
      record, and gives up otherwise: on a refusal or an answer that does not fit. */
  lemma AttemptExactly(l: Link, r: SceneRequest)
    ensures Attempt(l, r).1 == Again <==> MetLoss(l, r)
    ensures Attempt(l, r).1.Delivered? <==> Reached(l, r)
  {
    hide Send, AttemptScene, MetLossSent, Found;
    var (l1, a) := Send(l, GetReconciliation);
    if a.Some? && a.value.EpochIs? {
      SentExactly(Send(l1, StartReconciliation(a.value.epoch)).0, r, a.value.epoch);
    }
  }

  // ----------------------------------------------------------------------- the loop

  /** The link after `k` attempts. */
  ghost function AfterAttempts(l: Link, r: SceneRequest, k: nat): Link
  {
    if k == 0 then l else Attempt(AfterAttempts(l, r, k - 1), r).0
  }

  /** The first `k` attempts each met a loss. */
  ghost predicate AllLost(l: Link, r: SceneRequest, k: nat)
  {
    forall i :: 0 <= i < k ==> MetLoss(AfterAttempts(l, r, i), r)
  }

  lemma {:induction false} LaterAttempts(l: Link, r: SceneRequest, k: nat)
    ensures AfterAttempts(Attempt(l, r).0, r, k) == AfterAttempts(l, r, k + 1)
  {
    hide Attempt;
    if k == 0 {
      assert AfterAttempts(l, r, 0) == l;
    } else {
      LaterAttempts(l, r, k - 1);
    }
  }

  lemma FirstLost(l: Link, r: SceneRequest, k: nat)
    requires k > 0
    ensures AllLost(l, r, k) <==> MetLoss(l, r) && AllLost(Attempt(l, r).0, r, k - 1)
  {
    hide Attempt, MetLoss, AfterAttempts;
    assert AfterAttempts(l, r, 0) == l by { FirstIsNow(l, r); }
    forall i | 0 <= i < k - 1
      ensures AfterAttempts(Attempt(l, r).0, r, i) == AfterAttempts(l, r, i + 1)
    {
      LaterAttempts(l, r, i);
    }
    if AllLost(l, r, k) {
      forall i | 0 <= i < k - 1
        ensures MetLoss(AfterAttempts(Attempt(l, r).0, r, i), r)
      {
        assert MetLoss(AfterAttempts(l, r, i + 1), r);
      }
    }
    if MetLoss(l, r) && AllLost(Attempt(l, r).0, r, k - 1) {
      forall i | 0 <= i < k
        ensures MetLoss(AfterAttempts(l, r, i), r)
      {
        if i > 0 { assert MetLoss(AfterAttempts(Attempt(l, r).0, r, i - 1), r); }
      }
    }
  }

  lemma FirstIsNow(l: Link, r: SceneRequest)
    ensures AfterAttempts(l, r, 0) == l
  {
  }

  /** The `k`-th attempt is made and decides. */
  ghost predicate DecidedAt(l: Link, r: SceneRequest, k: nat)
  {
    AllLost(l, r, k) && !MetLoss(AfterAttempts(l, r, k), r)
  }

  /** The loop stops at the first attempt that met no loss, and its receipt is that attempt's;
      with none among `n`, it ends empty-handed. */
  lemma {:induction false} LoopExactly(l: Link, r: SceneRequest, n: nat)
    ensures forall k :: 0 <= k < n && DecidedAt(l, r, k) ==>
      Attempts(l, r, n).1 == (if Attempt(AfterAttempts(l, r, k), r).1.Delivered? then Some(Attempt(AfterAttempts(l, r, k), r).1.receipt) else None)
    ensures AllLost(l, r, n) ==> Attempts(l, r, n).1 == None
    ensures AllLost(l, r, n) || exists k :: 0 <= k < n && DecidedAt(l, r, k)
    decreases n
  {
    hide Attempt, MetLoss, AfterAttempts, AllLost, DecidedAt;
    if n == 0 {
      NoneLost(l, r);
    } else {
      AttemptExactly(l, r);
      FirstIsNow(l, r);
      FirstDecided(l, r, 0);
      var next := Attempt(l, r).0;
      FirstLost(l, r, n);
      LoopExactly(next, r, n - 1);
      forall k | 0 < k < n
        ensures DecidedAt(l, r, k) <==> MetLoss(l, r) && DecidedAt(next, r, k - 1)
        ensures AfterAttempts(next, r, k - 1) == AfterAttempts(l, r, k)
      {
        FirstDecided(l, r, k);
        LaterAttempts(l, r, k - 1);
      }
      if MetLoss(l, r) && !AllLost(l, r, n) {
        var k :| 0 <= k < n - 1 && DecidedAt(next, r, k);
        assert DecidedAt(l, r, k + 1);
      }
    }
  }

  lemma NoneLost(l: Link, r: SceneRequest)
    ensures AllLost(l, r, 0)
  {
    hide MetLoss, AfterAttempts;
  }

  /** The first attempt decides unless it met a loss; then a later one does, seen from there. */
  lemma FirstDecided(l: Link, r: SceneRequest, k: nat)
    ensures DecidedAt(l, r, k) <==> if k == 0 then !MetLoss(l, r) else MetLoss(l, r) && DecidedAt(Attempt(l, r).0, r, k - 1)
  {
    hide Attempt, MetLoss, AfterAttempts, AllLost;
    FirstIsNow(l, r);
    if k == 0 {
      NoneLost(l, r);
    } else {
      FirstLost(l, r, k);
      LaterAttempts(l, r, k - 1);
    }
  }

  // -------------------------------------------------------------------- the direct message

  /** A direct answer is passed on: an id is acknowledged, a refusal is acknowledged exactly
      when the probe finds the scene on record all the same. */
  lemma AnsweredCommit(g: Gate.State, l: Link, r: SceneRequest)
    requires Send(l, CommitScene(r)).1.Some?
    ensures var (l1, a) := Send(l, CommitScene(r));
      var (g', l', answer) := SendDirect(g, l, r);
      && (a.value.Answered? && a.value.reply.Committed? ==>
            answer == Acknowledged(Receipt(|r.surfaces|, a.value.reply.commitId)) && g' == g.NoteForwarded(r.version))
      && (a.value == Answered(Rejected) ==>
            if Probe(l1, r).1.Some? then answer == Acknowledged(Probe(l1, r).1.value) && g' == g.NoteForwarded(r.version)
            else answer == Refused && g' == g)
  {
    hide Send, Probe, Attempts;
  }

  /** A lost exchange is deferred exactly when every attempt met a loss, or the first that did
      not found the scene nowhere; otherwise it is acknowledged. */
  lemma LostCommitExactly(g: Gate.State, l: Link, r: SceneRequest)
    requires Send(l, CommitScene(r)).1.None?
    ensures var l1 := Send(l, CommitScene(r)).0;
      var (g', l', answer) := SendDirect(g, l, r);
      && (answer == Refused <==>
            || AllLost(l1, r, DISPLAY_RECONNECT_RETRY_LIMIT)
            || exists k :: 0 <= k < DISPLAY_RECONNECT_RETRY_LIMIT && DecidedAt(l1, r, k) && !Reached(AfterAttempts(l1, r, k), r))
      && (answer == Refused ==> g'.deferred == Inc(g.deferred) && g'.forwarded == g.forwarded)
      && (answer != Refused ==> answer.Acknowledged? && g' == g.NoteForwarded(r.version))
  {
    hide Send, Attempts, AllLost, DecidedAt, Reached, Attempt, AfterAttempts;
    var l1 := Send(l, CommitScene(r)).0;
    LoopExactly(l1, r, DISPLAY_RECONNECT_RETRY_LIMIT);
    forall k | 0 <= k < DISPLAY_RECONNECT_RETRY_LIMIT && DecidedAt(l1, r, k)
      ensures Attempt(AfterAttempts(l1, r, k), r).1.Delivered? <==> Reached(AfterAttempts(l1, r, k), r)
    {
      AttemptExactly(AfterAttempts(l1, r, k), r);
    }
    if AllLost(l1, r, DISPLAY_RECONNECT_RETRY_LIMIT) {
      forall k | 0 <= k < DISPLAY_RECONNECT_RETRY_LIMIT
        ensures !DecidedAt(l1, r, k)
      {
        LostIsUndecided(l1, r, DISPLAY_RECONNECT_RETRY_LIMIT, k);
      }
    }
  }

  lemma LostIsUndecided(l: Link, r: SceneRequest, n: nat, k: nat)
    requires AllLost(l, r, n) && k < n
    ensures !DecidedAt(l, r, k)
  {
    hide MetLoss, AfterAttempts;
  }

  /** A malformed scene and one the gate rejects are refused, and nothing is sent or changed. */
  lemma TurnedAway(g: Gate.State, l: Link, epoch: U64, request: SceneRequest)
    requires !RelayAccepts(CanonicalRequest(request), true) || g.Rejects(request.version)
    ensures ForwardCommit(g, l, request) == (g, l, Refused)
    ensures ForwardReconcile(g, l, epoch, request) == (g, l, Refused)
  {
    hide CanonicalRequest, RelayAccepts;
    CanonicalVersion(request);
  }

  /** A reconciliation scene is sent once. What displayd answers is what the client gets, and
      only a scene displayd reconciled moves the gate; without an answer it is deferred. */
  lemma RelayedOnce(g: Gate.State, l: Link, epoch: U64, request: SceneRequest)
    requires RelayAccepts(CanonicalRequest(request), true) && !g.Rejects(request.version) && l.script != []
    ensures var (g', l', answer) := ForwardReconcile(g, l, epoch, request);
      var r := CanonicalRequest(request);
      var d := l.script[0];
      var before := Run(l.world, d.before);
      var (after, reply) := Step(before, Reconcile(epoch, r, d.fault));
      && l'.sent == l.sent + [ReconcileScene(epoch, r)]
      && l'.world == (if d.fate == RequestLost then before else after)
      && (if d.fate == Arrives && reply != Errored && reply != Died
          then answer == Relayed(reply) && g' == (if reply.Reconciled? then g.NoteForwarded(request.version) else g)
          else answer == Refused && g'.forwarded == g.forwarded && g'.deferred == Inc(g.deferred))
  {
    hide CanonicalRequest, RelayAccepts, Run, Step;
    CanonicalVersion(request);
  }

  // ------------------------------------------------------------------------ recovery

  /** The next `n` messages arrive, with nothing happening in between. */
  predicate Quiet(script: seq<Delivery>, n: nat)
  {
    n <= |script| && forall i :: 0 <= i < n ==> script[i].before == [] && script[i].fate == Arrives
  }

  predicate OnRecord(d: Display, r: SceneRequest)
  {
    d.lastScene.Some? && d.lastScene.value.target == r.target && d.lastScene.value.version == r.version
  }

  /** displayd has the scene already, or takes it once reconciliation has begun. */
  ghost predicate HasOrTakes(w: World, r: SceneRequest, fault: DiskFault)
  {
    OnRecord(w.display, r) || Accept(Begin(w, w.display.displayEpoch).0, r, fault).1.Committed?
  }

  lemma QuietSend(l: Link, c: Command)
    requires Quiet(l.script, 1)
    ensures var (w', a) := Serve(l.world, c, l.script[0].fault);
      Send(l, c) == (Link(w', l.script[1..], l.sent + [c]), if NoAnswer(a) then None else Some(a))
  {
  }

  lemma QuietRest(script: seq<Delivery>, n: nat)
    requires n > 0 && Quiet(script, n)
    ensures Quiet(script, 1) && Quiet(script[1..], n - 1)
  {
    forall i | 0 <= i < n - 1
      ensures script[1..][i].before == [] && script[1..][i].fate == Arrives
    {
      assert script[1..][i] == script[i + 1];
    }
  }

  lemma BegunRecord(w: World)
    ensures var (b, reply) := Begin(w, w.display.displayEpoch);
      reply == Began(w.display.displayEpoch) && SameRecord(w, b) && b.display.displayEpoch == w.display.displayEpoch
  {
  }

  lemma AcceptedEpoch(w: World, r: SceneRequest, fault: DiskFault)
    ensures Accept(w, r, fault).1.Committed? || Accept(w, r, fault).1 == Rejected ==> Accept(w, r, fault).0.display.displayEpoch == w.display.displayEpoch
  {
    hide Judge, Rebind, DamageOutputs;
  }

  /** After the scene was sent, it is on record. */
  lemma ReconciledIsOnRecord(w: World, r: SceneRequest, fault: DiskFault)
    requires LedgerOk(w) && r.version != UNVERSIONED && w.display.nextCommitId < U64_MAX
    requires OnRecord(w.display, r) || Accept(w, r, fault).1.Committed?
    ensures OnRecord(Accept(w, r, fault).0.display, r) && Accept(w, r, fault).0.display.lastScene.value.commitId >= 1
    ensures Accept(w, r, fault).1.Committed? || Accept(w, r, fault).1 == Rejected
  {
    hide Accept, LedgerIncreases, Canonicalize;
    AcceptKeepsLedger(w, r, fault);
    if OnRecord(w.display, r) {
      ReplayAnswers(w, r, fault);
    } else {
      NewestIsAccepted(w, r, fault);
    }
    RecordedId(Accept(w, r, fault).0);
  }

  lemma NewestIsAccepted(w: World, r: SceneRequest, fault: DiskFault)
    requires LedgerOk(w) && r.version != UNVERSIONED && w.display.nextCommitId < U64_MAX
    requires Accept(w, r, fault).1.Committed?
    ensures OnRecord(Accept(w, r, fault).0.display, r)
  {
    hide Judge, Rebind, DamageOutputs, LedgerIncreases;
    PlanKeepsReplay(w.display, WithCanonicalSurfaces(r));
  }

  lemma RecordedId(w: World)
    requires LedgerOk(w) && w.display.lastScene.Some?
    ensures w.display.lastScene.value.commitId >= 1
  {
  }

  /** An attempt whose four messages arrive at a displayd that has the scene or takes it finds
      it on record. */
  lemma QuietAttemptReaches(l: Link, r: SceneRequest)
    requires LedgerOk(l.world) && r.version != UNVERSIONED && l.world.display.nextCommitId < U64_MAX
    requires Quiet(l.script, 4) && HasOrTakes(l.world, r, l.script[2].fault)
    ensures Reached(l, r) && !MetLoss(l, r)
  {
    hide Accept, LedgerIncreases, Begin, Send, Found, MetLossSent;
    var w, epoch := l.world, l.world.display.displayEpoch;
    QuietRest(l.script, 4);
    QuietRest(l.script[1..], 3);
    QuietRest(l.script[2..], 2);
    assert l.script[1..][1..] == l.script[2..] && l.script[2..][1..] == l.script[3..];
    QuietSend(l, GetReconciliation);
    var l1 := Send(l, GetReconciliation).0;
    BegunRecord(w);
    QuietSend(l1, StartReconciliation(epoch));
    var l2 := Send(l1, StartReconciliation(epoch)).0;
    var b := Begin(w, epoch).0;
    assert l2.world == b && l2.script == l.script[2..] && LedgerOk(b);
    ReconciledIsOnRecord(b, r, l.script[2].fault);
    AcceptedEpoch(b, r, l.script[2].fault);
    QuietFound(l2, r, epoch);
    SentExactly(l2, r, epoch);
    assert Found(l2, r, epoch) && !MetLossSent(l2, r, epoch);
  }

  lemma QuietFound(l: Link, r: SceneRequest, epoch: U64)
    requires Quiet(l.script, 2) && l.world.display.displayEpoch == epoch
    requires var (a, reply) := Accept(l.world, r, l.script[0].fault);
      (reply.Committed? || reply == Rejected) && OnRecord(a.display, r) && a.display.lastScene.value.commitId >= 1
    ensures Found(l, r, epoch)
  {
    hide Accept;
    QuietRest(l.script, 2);
    QuietSend(l, ReconcileScene(epoch, r));
    var l1 := Send(l, ReconcileScene(epoch, r)).0;
    QuietSend(l1, GetSceneSnapshot(r.target));
  }

  /** The link when the direct message goes out: a retried version is probed for before. */
  ghost function BeforeDirect(g: Gate.State, l: Link, r: SceneRequest): Link
  {
    if Retrying(g, r.version) then Probe(l, r).0 else l
  }

  /** A lost exchange is recovered. However the direct message was lost, and after up to two
      attempts lost as well, once the next messages arrive at a displayd that has the scene or
      takes it, the client is answered with displayd's own record of its version, and no
      marker is left behind. */
  lemma LostCommitIsRecovered(g: Gate.State, l: Link, request: SceneRequest, k: nat)
    requires LinkOk(l) && Known(g, l.world.ledger) && request.version != UNVERSIONED
    requires var r := CanonicalRequest(request);
      && RelayAccepts(r, true) && !g.Rejects(r.version)
      && Send(BeforeDirect(g, l, r), CommitScene(r)).1.None?
      && k < DISPLAY_RECONNECT_RETRY_LIMIT
      && AllLost(Send(BeforeDirect(g, l, r), CommitScene(r)).0, r, k)
      && var m := AfterAttempts(Send(BeforeDirect(g, l, r), CommitScene(r)).0, r, k);
         Quiet(m.script, 4) && HasOrTakes(m.world, r, m.script[2].fault)
    ensures var (g', l', answer) := ForwardCommit(g, l, request);
      && answer.Acknowledged? && Holds(l'.world.ledger, CanonicalRequest(request), answer.receipt)
      && g'.pending.None? && g'.forwarded == request.version
  {
    hide LinkOk, Send, SendDirect, Probe, RelayAccepts, CanonicalRequest, AllLost, AfterAttempts, HasOrTakes, Quiet, Truthful, Known, Holds, DecidedAt, Reached, MetLoss;
    var r := CanonicalRequest(request);
    CanonicalVersion(request);
    ProbeIsTrue(l, r);
    KeptLink(l, Probe(l, r).0, r);
    var start := BeforeDirect(g, l, r);
    var l1 := Send(start, CommitScene(r)).0;
    SendKeeps(start, CommitScene(r), r);
    KeptLink(start, l1, r);
    AttemptsKeepLink(l1, r, k);
    var m := AfterAttempts(l1, r, k);
    LinkParts(m);
    QuietAttemptReaches(m, r);
    DecidedNow(l1, r, k);
    LostCommitExactly(g, start, r);
    OneDecision(l1, r, k);
    ForwardCommitIsTruthful(g, l, request);
    var (g', l', answer) := ForwardCommit(g, l, request);
    TruthfulReceipt(g, l, r, g', l', answer);
    GatePassed(g, r.version);
  }

  lemma TruthfulReceipt(g: Gate.State, l: Link, r: SceneRequest, g': Gate.State, l': Link, answer: RelayAnswer)
    requires Truthful(g, l, r, g', l', answer) && answer.Acknowledged?
    ensures Holds(l'.world.ledger, r, answer.receipt) && g' == g.NoteForwarded(r.version)
  {
    hide Holds, Keeps, Known, Moved;
  }

  lemma GatePassed(g: Gate.State, v: Version)
    requires !g.Rejects(v) && v != UNVERSIONED
    ensures g.NoteForwarded(v).pending.None? && g.NoteForwarded(v).forwarded == v
  {
    VersionOrder(g.forwarded, v);
    VersionOrder(g.Floor(), v);
    if g.pending.Some? {
      VersionOrder(g.pending.value.version, v);
      VersionOrder(g.pending.value.version, g.forwarded);
    }
  }

  lemma LinkParts(l: Link)
    requires LinkOk(l)
    ensures LedgerOk(l.world) && l.world.display.nextCommitId < U64_MAX
  {
    hide LedgerOk;
  }

  lemma {:induction false} AttemptsKeepLink(l: Link, r: SceneRequest, k: nat)
    requires LinkOk(l) && r.version != UNVERSIONED
    ensures LinkOk(AfterAttempts(l, r, k))
  {
    hide LinkOk, Attempt;
    if k > 0 {
      AttemptsKeepLink(l, r, k - 1);
      AttemptIsTrue(AfterAttempts(l, r, k - 1), r);
      KeptLink(AfterAttempts(l, r, k - 1), AfterAttempts(l, r, k), r);
    }
  }

  lemma DecidedNow(l: Link, r: SceneRequest, k: nat)
    requires AllLost(l, r, k) && !MetLoss(AfterAttempts(l, r, k), r)
    ensures DecidedAt(l, r, k)
  {
    hide AllLost, MetLoss, AfterAttempts;
  }

  /** Only one attempt can be the first without a loss. */
  lemma OneDecision(l: Link, r: SceneRequest, k: nat)
    requires DecidedAt(l, r, k)
    ensures forall j: nat :: DecidedAt(l, r, j) ==> j == k
    ensures forall n: nat :: k < n ==> !AllLost(l, r, n)
  {
    hide MetLoss, AfterAttempts;
  }
}
