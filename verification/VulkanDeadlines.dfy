/** What a poll may answer when: verdicts tied to fences and deadlines, deadlines to the time
    of submission. */
module VulkanDeadlines {
  import opened Machine
  import opened Vulkan
  import opened VulkanRuns

  /** A history that also remembers when each GPU submission was made, and the timeout it was
      given. */
  datatype Timed = Timed(t: Trace, submitted: map<Key, nat>, timeout: map<Key, nat>)

  const BEGINNING := Timed(START, map[], map[])

  ghost function NextTimed(config: Config, x: Timed, c: Call, d: Device): Timed
  {
    var t := Next(config, x.t, c, d);
    if c.Submits? && |t.handles| > 0 && t.handles[|t.handles| - 1].path == Gpu then
      var key := t.handles[|t.handles| - 1].key;
      Timed(t, x.submitted[key := c.now], x.timeout[key := EffectiveTimeout(c.submission.timeout, config.submitTimeout)])
    else Timed(t, x.submitted, x.timeout)
  }

  ghost function AfterTimed(config: Config, x: Timed, run: seq<Occurrence>): Timed
    decreases |run|
  {
    if run == [] then x else AfterTimed(config, NextTimed(config, x, run[0].call, run[0].device), run[1..])
  }

  lemma {:induction false} SameHistory(config: Config, x: Timed, run: seq<Occurrence>)
    ensures AfterTimed(config, x, run).t == After(config, x.t, run)
    decreases |run|
  {
    hide Next;
    if run != [] {
      SameHistory(config, NextTimed(config, x, run[0].call, run[0].device), run[1..]);
    }
  }

  /** The deadline of every live submission is the time it was made plus its timeout, and
      every final verdict on file has been answered to a poll. */
  ghost predicate TimedOk(x: Timed)
  {
    && (forall k :: k in x.t.g.submissions ==>
          k in x.submitted && k in x.timeout && x.t.g.submissions[k].deadline == x.submitted[k] + x.timeout[k])
    && (forall k :: k in x.t.g.submissions && x.t.g.submissions[k].completedAt.Some? ==> Answer(k, Completed) in x.t.answers)
    && (forall k :: k in x.t.g.terminal ==> Answer(k, x.t.g.terminal[k].status) in x.t.answers)
  }

  // ------------------------------------------------------------------ what calls leave alone

  /** Submissions and records may go, nothing else happens to them. */
  ghost predicate Fewer(g: Inner, h: Inner)
  {
    && (forall k :: k in h.submissions ==> k in g.submissions && h.submissions[k] == g.submissions[k])
    && (forall k :: k in h.terminal ==> k in g.terminal && h.terminal[k] == g.terminal[k])
  }

  lemma FewerKeepsTimed(x: Timed, u: Trace)
    requires TimedOk(x) && Fewer(x.t.g, u.g) && x.t.answers <= u.answers
    ensures TimedOk(Timed(u, x.submitted, x.timeout))
  {
  }

  lemma ReapIsFewer(g: Inner, d: Device)
    ensures Fewer(g, Reap(g, d))
  {
    hide Reap;
    ReapShape(g, d);
  }

  lemma TakeIsFewer(g: Inner, k: Key)
    ensures Fewer(g, TakeTerminal(g, k))
  {
    hide Without;
  }

  lemma LeaveIsFewer(g: Inner, k: Key, d: Device)
    requires k in g.submissions
    ensures Fewer(g, ReleaseOrQuarantine(Dropped(g, k), k, g.submissions[k], d))
  {
  }

  lemma FinishIsFewer(g: Inner, h: Handle, status: Status, now: nat, d: Device)
    ensures Fewer(g, Finish(g, h, status, now, d).0)
  {
    hide TakeTerminal, ReleaseOrQuarantine;
    TakeIsFewer(g, h.key);
    if h.key in g.submissions {
      LeaveIsFewer(g, h.key, d);
    }
  }

  lemma RetireIsFewer(g: Inner, k: Key, d: Device)
    ensures Fewer(g, RetireReaped(g, k, d))
  {
    hide TakeTerminal, ReleaseOrQuarantine, Fewer;
    TakeIsFewer(g, k);
    if k in g.submissions {
      var s := g.submissions[k];
      LeaveIsFewer(g, k, d);
      QuarantinedIsFewer(g, k);
      var left := if g.device && d.fence(k) == Signalled then ReleaseOrQuarantine(Dropped(g, k), k, s, d)
                  else if !g.device || d.fence(k) == DeviceError then Fault(Quarantined(g, k)) else Quarantined(g, k);
      TakeIsFewer(left, k);
      FewerTwice(g, left, TakeTerminal(left, k));
      assert RetireReaped(g, k, d) == TakeTerminal(left, k);
    }
  }

  lemma QuarantinedIsFewer(g: Inner, k: Key)
    requires k in g.submissions
    ensures Fewer(g, Quarantined(g, k)) && Fewer(g, Fault(Quarantined(g, k)))
  {
  }

  lemma FewerTwice(a: Inner, b: Inner, c: Inner)
    requires Fewer(a, b) && Fewer(b, c)
    ensures Fewer(a, c)
  {
  }

  lemma AllocateIsFewer(g: Inner)
    ensures Fewer(g, Allocate(g).0) && Fewer(g, Fault(Allocate(g).0))
  {
  }

  // ------------------------------------------------------------------------- each call

  lemma SubmitKeepsTimed(config: Config, x: Timed, s: Submission, a: Attempt, now: nat, d: Device)
    requires TimedOk(x)
    ensures TimedOk(NextTimed(config, x, Submits(s, a, now), d))
  {
    hide Reap, Allocate, AdmissionReason, Fault, SignalledNow, Held;
    var g := x.t.g;
    var r := Reap(g, d);
    var (n, key) := Allocate(r);
    ReapIsFewer(g, d);
    AllocateIsFewer(r);
    FewerTwice(g, r, n);
    FewerTwice(g, r, Fault(n));
    var u := NextTimed(config, x, Submits(s, a, now), d);
    var (after, h) := Submit(config, g, s, a, now, d);
    assert u.t.handles == x.t.handles + [h] && u.t.g == after && u.t.answers == x.t.answers;
    if h.path == CpuFallback {
      FewerKeepsTimed(x, u.t);
    }
  }

  /** One submission ends with a record. */
  ghost predicate Ends(g: Inner, h: Inner, k: Key, r: Record)
  {
    && h.submissions == g.submissions - {k}
    && (forall y :: y in h.terminal ==> if y == k then h.terminal[y] == r else y in g.terminal && h.terminal[y] == g.terminal[y])
  }

  lemma TerminalizeEnds(g: Inner, k: Key, r: Record)
    requires k in g.submissions && TerminalOk(g)
    ensures Ends(g, Fault(Terminalize(g, k, r)), k, r)
  {
    hide InsertTerminal, TerminalOk;
    QuarantineKeepsTerminal(g, k);
    InsertKeeps(Quarantined(g, k), k, r);
    InsertKeepsTerminal(Quarantined(g, k), k, r);
  }

  lemma EndedTimed(x: Timed, g: Inner, k: Key, r: Record, u: Trace)
    requires TimedOk(x) && Fewer(x.t.g, g) && Ends(g, u.g, k, r)
    requires u.answers == x.t.answers + {Answer(k, r.status)}
    ensures TimedOk(Timed(u, x.submitted, x.timeout))
  {
  }

  lemma MarkedTimed(x: Timed, g: Inner, k: Key, now: nat, u: Trace)
    requires TimedOk(x) && Fewer(x.t.g, g) && k in g.submissions && u.g == Marked(g, k, now)
    requires u.answers == x.t.answers + {Answer(k, Completed)}
    ensures TimedOk(Timed(u, x.submitted, x.timeout))
  {
  }

  lemma PolledTimed(x: Timed, g: Inner, k: Key, now: nat, d: Device, u: Trace)
    requires u.g == PollReaped(g, k, now, d).0 && u.answers == x.t.answers + {Answer(k, PollReaped(g, k, now, d).1)}
    requires Fewer(x.t.g, g) && TimedOk(x) && TerminalOk(g)
    ensures TimedOk(Timed(u, x.submitted, x.timeout))
  {
    hide Terminalize, Fault, TimedOk, Fewer, Ends, TerminalOk;
    var status := PollReaped(g, k, now, d).1;
    if k in g.terminal || k !in g.submissions || g.submissions[k].completedAt.Some? {
      FewerKeepsTimed(x, u);
    } else if g.device && d.fence(k) == Signalled {
      MarkedTimed(x, g, k, now, u);
    } else if status == Pending {
      FewerKeepsTimed(x, u);
    } else {
      var r := if status == TimedOut then Record(TimedOut, Timeout, now) else Record(Missing, DriverUnavailable, now);
      TerminalizeEnds(g, k, r);
      EndedTimed(x, g, k, r, u);
    }
  }

  lemma PollKeepsTimed(config: Config, x: Timed, h: Handle, now: nat, d: Device)
    requires TimedOk(x) && TraceOk(x.t)
    ensures TimedOk(NextTimed(config, x, Polls(h, now), d))
  {
    hide Reap, PollReaped, TraceOk, SignalledNow, Held, TimedOk;
    var r := Reap(x.t.g, d);
    TraceParts(x.t);
    ReapIsFewer(x.t.g, d);
    ReapKeepsTerminal(x.t.g, d);
    var u := NextTimed(config, x, Polls(h, now), d);
    if h.path == Gpu {
      PolledTimed(x, r, h.key, now, d, u.t);
    } else {
      NothingFewer(x.t.g);
      FewerKeepsTimed(x, u.t);
    }
  }

  lemma NothingFewer(g: Inner)
    ensures Fewer(g, g)
  {
  }

  lemma StepKeepsTimed(config: Config, x: Timed, c: Call, d: Device)
    requires TimedOk(x) && TraceOk(x.t)
    ensures TimedOk(NextTimed(config, x, c, d))
  {
    hide TimedOk, TraceOk, Reap, RetireReaped, Finish, Submit, Poll, SignalledNow, Held;
    var g := x.t.g;
    NothingFewer(g);
    match c
    case Submits(s, a, now) => SubmitKeepsTimed(config, x, s, a, now, d);
    case Polls(h, now) => PollKeepsTimed(config, x, h, now, d);
    case Finishes(h, status, now) =>
      FinishIsFewer(g, h, status, now, d);
      FewerKeepsTimed(x, NextTimed(config, x, c, d).t);
    case Retires(h) =>
      ReapIsFewer(g, d);
      RetireIsFewer(Reap(g, d), h.key, d);
      FewerTwice(g, Reap(g, d), RetireReaped(Reap(g, d), h.key, d));
      FewerKeepsTimed(x, NextTimed(config, x, c, d).t);
    case ReadsMetrics =>
      ReapIsFewer(g, d);
      FewerKeepsTimed(x, NextTimed(config, x, c, d).t);
    case Initializes(works) =>
      FewerKeepsTimed(x, NextTimed(config, x, c, d).t);
  }

  lemma {:induction false} RunKeepsTimed(config: Config, x: Timed, run: seq<Occurrence>)
    requires TimedOk(x) && TraceOk(x.t) && AllowedRun(config, x.t, run)
    ensures TimedOk(AfterTimed(config, x, run)) && TraceOk(AfterTimed(config, x, run).t)
    decreases |run|
  {
    hide TimedOk, TraceOk, Next, Allowed;
    if run != [] {
      StepKeepsTimed(config, x, run[0].call, run[0].device);
      NextKeepsTrace(config, x.t, run[0].call, run[0].device);
      RunKeepsTimed(config, NextTimed(config, x, run[0].call, run[0].device), run[1..]);
    }
  }

  // -------------------------------------------------------------------------- verdicts

  /** No final verdict was answered for the handle so far. */
  ghost predicate Undecided(t: Trace, k: Key)
  {
    Answer(k, Completed) !in t.answers && Answer(k, TimedOut) !in t.answers && Answer(k, Missing) !in t.answers
  }

  lemma UndecidedIsOpen(x: Timed, k: Key, d: Device)
    requires TimedOk(x) && TraceOk(x.t) && Undecided(x.t, k)
    ensures k !in Reap(x.t.g, d).terminal
    ensures Reap(x.t.g, d).submissions == x.t.g.submissions
    ensures k in x.t.g.submissions ==> x.t.g.submissions[k].completedAt.None?
    ensures Reap(x.t.g, d).device == x.t.g.device
  {
    hide Reap, HistoryOk, MemoryOk, TerminalOk;
    ReapShape(x.t.g, d);
    RecordsAreFinal(x.t);
  }

  lemma RecordsAreFinal(t: Trace)
    requires TraceOk(t)
    ensures forall k :: k in t.g.terminal ==> t.g.terminal[k].status == TimedOut || t.g.terminal[k].status == Missing
  {
    hide MemoryOk, TerminalOk, HandlesOk, StoredOk, ResultsOk, GpuKeys;
  }

  /** The verdict that ends the waiting for a handle. After any run, a poll of a handle that
      was given none yet answers timed out only at or after its submission plus its timeout,
      its fence unsignalled; pending only before that; completed only on a signalled fence;
      and of a submission still held, on a device that answers, each exactly then. */
  lemma FirstVerdict(config: Config, run: seq<Occurrence>, h: Handle, now: nat, d: Device)
    requires AllowedRun(config, START, run)
    requires var t := After(config, START, run); h in t.handles && h.path == Gpu && Undecided(t, h.key)
    ensures var x := AfterTimed(config, BEGINNING, run);
      var answer := Poll(x.t.g, h, now, d).1;
      var k := h.key;
      && x.t == After(config, START, run)
      && (k in x.t.g.submissions ==> k in x.submitted && k in x.timeout)
      && (answer == TimedOut ==> k in x.t.g.submissions && d.fence(k) == NotYet && now >= x.submitted[k] + x.timeout[k])
      && (answer == Pending ==> k in x.t.g.submissions && d.fence(k) == NotYet && now < x.submitted[k] + x.timeout[k])
      && (answer == Completed ==> k in x.t.g.submissions && d.fence(k) == Signalled)
      && (k in x.t.g.submissions && x.t.g.device ==>
            match d.fence(k)
            case Signalled => answer == Completed
            case NotYet => answer == if now >= x.submitted[k] + x.timeout[k] then TimedOut else Pending
            case DeviceError => answer == Missing)
  {
    hide AfterTimed, After, AllowedRun, Reap, Terminalize, TraceOk;
    SameHistory(config, BEGINNING, run);
    StartIsOk();
    RunKeepsTimed(config, BEGINNING, run);
    UndecidedIsOpen(AfterTimed(config, BEGINNING, run), h.key, d);
  }

  /** A submission is queued with a timeout of at most five seconds, never more than was asked
      for, and its deadline follows its own submission. */
  lemma SubmittedTimeout(config: Config, x: Timed, s: Submission, a: Attempt, now: nat, d: Device)
    requires Submit(config, x.t.g, s, a, now, d).1.path == Gpu
    ensures var y := NextTimed(config, x, Submits(s, a, now), d);
      var k := Submit(config, x.t.g, s, a, now, d).1.key;
      && k in y.submitted && y.submitted[k] == now
      && k in y.timeout && 0 < y.timeout[k] <= MAX_TIMEOUT_MS && (s.timeout != 0 ==> y.timeout[k] <= s.timeout)
      && k in y.t.g.submissions && y.t.g.submissions[k].deadline == now + y.timeout[k]
  {
    hide Reap, Allocate, AdmissionReason, SignalledNow, Held;
  }

  // ------------------------------------------------------------------------ decisions

  /** What it takes to run on the GPU, once the quarantine was reaped. */
  predicate GpuWorthy(config: Config, g: Inner, s: Submission, a: Attempt)
  {
    && 0 < s.payloadLen <= MAX_GPU_PAYLOAD_BYTES
    && s.words.Some? && 0 < s.words.value <= MAX_SURFACE_WORDS && 4 * s.words.value == s.payloadLen
    && (s.workload.PacketPreclassification? ==> config.packetMinBatchBytes <= s.payloadLen)
    && s.allowsGpu
    && g.state == Ready && g.computeAvailable && g.device
    && |g.submissions| + |g.quarantined| < 64
    && !g.exhausted && g.nextId != 0
    && a.Queued? && g.currentBytes + a.size <= 256 * 1024 * 1024
  }

  lemma AdmittedExactly(config: Config, g: Inner, s: Submission, a: Attempt)
    ensures GpuWorthy(config, g, s, a) <==>
      AdmissionReason(config, g, s).None? && !g.exhausted && g.nextId != 0 && a.Queued? && g.currentBytes + a.size <= 256 * 1024 * 1024
    ensures s.payloadLen == 0 || s.payloadLen > MAX_GPU_PAYLOAD_BYTES ==> AdmissionReason(config, g, s) == Some(SubmissionRejected)
  {
  }

  /** A submission goes to the GPU exactly when it is worth it and there is room, under the
      next key; otherwise it is answered with a reason and nothing is held for it. */
  lemma SubmitExactly(config: Config, g: Inner, s: Submission, a: Attempt, now: nat, d: Device)
    ensures var r := Reap(g, d);
      var (after, h) := Submit(config, g, s, a, now, d);
      && (h.path == Gpu <==> GpuWorthy(config, r, s, a))
      && (h.path == Gpu ==> h.reason.None? && h.key == Key(r.generation, r.nextId) && after.submissions.Keys == r.submissions.Keys + {h.key})
      && (h.path == CpuFallback ==> h.reason.Some? && after.submissions == r.submissions && after.currentBytes == r.currentBytes)
      && (s.payloadLen == 0 || s.payloadLen > MAX_GPU_PAYLOAD_BYTES ==> h.reason == Some(SubmissionRejected))
  {
    hide Reap, AdmissionReason, GpuWorthy, EffectiveTimeout, Allocate, Store;
    var r := Reap(g, d);
    AdmittedExactly(config, r, s, a);
    NextKey(r);
    if a.Queued? {
      StoredKeys(Allocate(r).0, Allocate(r).1, Stored(a.size, now + EffectiveTimeout(s.timeout, config.submitTimeout), None, s.requiresZeroize));
    }
  }

  lemma NextKey(g: Inner)
    ensures var (n, key) := Allocate(g);
      && n.submissions == g.submissions && n.currentBytes == g.currentBytes
      && key == if g.exhausted then Key(0, 0) else Key(g.generation, g.nextId)
  {
  }

  lemma StoredKeys(g: Inner, k: Key, s: Stored)
    ensures Store(g, k, s).submissions == g.submissions[k := s]
    ensures Store(g, k, s).submissions.Keys == g.submissions.Keys + {k}
  {
  }

  /** After a wait took its verdict: the GPU's result exactly for a completed submission still
      held and without a terminal record; any other wait falls back, with the recorded reason. */
  lemma FinishExactly(g: Inner, h: Handle, status: Status, now: nat, d: Device)
    requires h.path == Gpu
    ensures var (after, result) := Finish(g, h, status, now, d);
      && (result.path == Gpu <==> status == Completed && h.key in g.submissions && h.key !in g.terminal)
      && (result.path == Gpu ==> result.reason.None? && h.key !in after.submissions)
      && (h.key in g.terminal ==> result.reason == Some(g.terminal[h.key].reason) && h.key !in after.terminal)
      && (result.path != Gpu ==> after.submissions == g.submissions && after.quarantined == g.quarantined)
  {
    hide Without;
  }

  /** The resources can be given back now. */
  predicate Returnable(g: Inner, k: Key, s: Stored, d: Device)
  {
    g.device && d.fence(k) == Signalled && (!s.requiresZeroize || s.size == 0 || d.zeroes(k))
  }

  lemma TakeShape(g: Inner, k: Key)
    ensures TakeTerminal(g, k) == g.(terminal := TakeTerminal(g, k).terminal, order := TakeTerminal(g, k).order)
    ensures k !in TakeTerminal(g, k).terminal
  {
    hide Without;
  }

  /** A retired handle is held no longer as live and has no record; its resources are given
      back if its fence was signalled and they could be, and kept in quarantine otherwise. */
  lemma RetireExactly(g: Inner, k: Key, d: Device)
    requires k in g.submissions && k !in g.quarantined
    ensures var after := RetireReaped(g, k, d);
      && k !in after.submissions && k !in after.terminal
      && (if Returnable(g, k, g.submissions[k], d)
          then after.quarantined == g.quarantined && after.currentBytes == Max(g.currentBytes - g.submissions[k].size, 0)
          else after.quarantined == g.quarantined[k := g.submissions[k]] && after.currentBytes == g.currentBytes)
  {
    hide TakeTerminal;
    var s := g.submissions[k];
    var left := if g.device && d.fence(k) == Signalled then ReleaseOrQuarantine(Dropped(g, k), k, s, d)
                else if !g.device || d.fence(k) == DeviceError then Fault(Quarantined(g, k)) else Quarantined(g, k);
    TakeShape(left, k);
    assert RetireReaped(g, k, d) == TakeTerminal(left, k);
  }

  /** Reaping leaves in quarantine exactly what is not signalled or cannot be released, and
      faults the backend exactly for an erring fence or a failed release. */
  lemma ReapExactly(g: Inner, d: Device)
    requires g.device
    ensures var after := Reap(g, d);
      && (forall k :: k in g.quarantined ==> (k in after.quarantined <==> !Returnable(g, k, g.quarantined[k], d)))
      && after.quarantined.Keys <= g.quarantined.Keys
      && ((exists k :: k in after.quarantined && d.fence(k) != NotYet) <==> ReapFaults(g, d))
      && (ReapFaults(g, d) ==> after.state == Faulted && !after.computeAvailable)
      && (!ReapFaults(g, d) ==> after.state == g.state && after.computeAvailable == g.computeAvailable)
  {
    hide SumBytes, Restrict;
    var after := Reap(g, d);
    assert after.quarantined == g.quarantined - Reapable(g, d);
    forall k | k in g.quarantined
      ensures FaultsAt(g, k, d) <==> k in after.quarantined && d.fence(k) != NotYet
    {
    }
    if ReapFaults(g, d) {
      var k :| k in g.quarantined && FaultsAt(g, k, d);
    }
  }

  /** The timeout used is the shortest of those that apply: what was asked for, what is
      configured, five seconds; and 250 ms when neither is given. */
  lemma EffectiveTimeoutExactly(requested: nat, configured: nat)
    ensures requested == 0 && configured == 0 ==> EffectiveTimeout(requested, configured) == 250
    ensures requested == 0 && configured != 0 ==> EffectiveTimeout(requested, configured) == if configured < 5_000 then configured else 5_000
    ensures requested != 0 ==>
      (EffectiveTimeout(requested, configured) == Min(requested, EffectiveTimeout(0, configured)))
  {
  }
}
