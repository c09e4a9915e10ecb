/** The Vulkan backend as the object behind its lock: maps, a queue and counters updated in
    place, every method proved to do what its function in `Vulkan` says. */
module VulkanBackend {
  import opened Machine
  import opened Vulkan
  import opened VulkanRuns

  class VulkanBackendInner {
    var state: BackendState
    var computeAvailable: bool
    var device: bool
    var nextSubmissionId: U64
    var submissionGeneration: U64
    var handleSpaceExhausted: bool
    var submissions: map<Key, Stored>
    var quarantined: map<Key, Stored>
    var terminalResults: map<Key, Record>
    var terminalOrder: seq<Key>
    var currentGpuAllocationBytes: U64
    var peakGpuAllocationBytes: U64
    const config: Config

    ghost function Model(): Inner
      reads this
    {
      Inner(state, computeAvailable, device, nextSubmissionId, submissionGeneration, handleSpaceExhausted,
            submissions, quarantined, terminalResults, terminalOrder, currentGpuAllocationBytes, peakGpuAllocationBytes)
    }

    constructor (config: Config)
      ensures Model() == FRESH && this.config == config
    {
      this.config := config;
      state, computeAvailable, device := Uninitialized, false, false;
      nextSubmissionId, submissionGeneration, handleSpaceExhausted := 1, 1, false;
      submissions, quarantined, terminalResults, terminalOrder := map[], map[], map[], [];
      currentGpuAllocationBytes, peakGpuAllocationBytes := 0, 0;
    }

    method InitializeDevice(works: bool)
      modifies this
      ensures Model() == Initialize(config, old(Model()), works)
    {
      if state != Uninitialized {
        return;
      }
      if !config.enabled {
        state := Disabled;
        return;
      }
      if works {
        computeAvailable, device, state := true, true, Ready;
      } else {
        MarkFaulted();
      }
    }

    method MarkFaulted()
      modifies this`state, this`computeAvailable
      ensures Model() == Fault(old(Model()))
    {
      state := Faulted;
      computeAvailable := false;
    }

    method AllocateHandle() returns (key: Key)
      modifies this`nextSubmissionId, this`submissionGeneration, this`handleSpaceExhausted
      ensures (Model(), key) == Allocate(old(Model()))
    {
      if handleSpaceExhausted {
        return Key(0, 0);
      }
      key := Key(submissionGeneration, nextSubmissionId);
      if nextSubmissionId == U64_MAX {
        if submissionGeneration == U64_MAX {
          handleSpaceExhausted := true;
        } else {
          nextSubmissionId := 1;
          submissionGeneration := submissionGeneration + 1;
        }
      } else {
        nextSubmissionId := nextSubmissionId + 1;
      }
    }

    /** `release_gpu_submission`. */
    method ReleaseGpuSubmission(k: Key, s: Stored, d: Device) returns (ok: bool)
      modifies this`currentGpuAllocationBytes
      ensures ok == Releasable(old(Model()), k, s, d)
      ensures Model() == if ok then Freed(old(Model()), s.size) else old(Model())
    {
      if !device {
        return false;
      }
      if s.requiresZeroize && s.size != 0 && !d.zeroes(k) {
        return false;
      }
      currentGpuAllocationBytes := Max(currentGpuAllocationBytes - s.size, 0);
      ok := true;
    }

    /** One key of the reaping loop. */
    method ReapKey(k: Key, d: Device)
      requires device && k in quarantined
      modifies this`quarantined, this`currentGpuAllocationBytes, this`state, this`computeAvailable
      ensures Model() == ReapOne(old(Model()), k, d)
    {
      match d.fence(k) {
        case Signalled =>
          var s := quarantined[k];
          ghost var before := quarantined;
          quarantined := quarantined - {k};
          var released := ReleaseGpuSubmission(k, s, d);
          if !released {
            quarantined := quarantined[k := s];
            assert quarantined == before;
            MarkFaulted();
          }
        case NotYet =>
        case DeviceError =>
          MarkFaulted();
      }
    }

    /** `reap_quarantined`. */
    method ReapQuarantined(d: Device)
      modifies this`quarantined, this`currentGpuAllocationBytes, this`state, this`computeAvailable
      ensures Model() == Reap(old(Model()), d)
    {
      hide ReapOne, ReapSome, Reap;
      ReapNothing(Model(), d);
      if !device {
        return;
      }
      var todo := quarantined.Keys;
      ghost var done := {};
      ghost var before := Model();
      while todo != {}
        invariant todo !! done && todo + done == before.quarantined.Keys && device == before.device
        invariant Model() == ReapSome(before, done, d)
        decreases todo
      {
        var k :| k in todo;
        ReapNext(before, done, k, d);
        ReapKey(k, d);
        todo := todo - {k};
        done := done + {k};
      }
      assert done == before.quarantined.Keys;
      ReapEverything(before, d);
    }

    /** `insert_terminal_result`. */
    method InsertTerminalResult(k: Key, r: Record)
      modifies this`terminalResults, this`terminalOrder
      ensures Model() == InsertTerminal(old(Model()), k, r)
    {
      if k !in terminalResults {
        while |terminalResults| >= MAX_TERMINAL_RESULTS && terminalOrder != []
          invariant Model() == old(Model()).(terminal := terminalResults, order := terminalOrder)
          invariant EvictTerminal(Model()) == EvictTerminal(old(Model()))
          decreases |terminalOrder|
        {
          var oldest := terminalOrder[0];
          terminalOrder := terminalOrder[1..];
          terminalResults := terminalResults - {oldest};
        }
        terminalOrder := terminalOrder + [k];
      }
      terminalResults := terminalResults[k := r];
    }

    /** `take_terminal_result`. */
    method TakeTerminalResult(k: Key) returns (r: Option<Record>)
      modifies this`terminalResults, this`terminalOrder
      ensures Model() == TakeTerminal(old(Model()), k)
      ensures r == if k in old(terminalResults) then Some(old(terminalResults)[k]) else None
    {
      if k !in terminalResults {
        return None;
      }
      r := Some(terminalResults[k]);
      terminalResults := terminalResults - {k};
      var kept := [];
      for i := 0 to |terminalOrder|
        invariant kept + Without(terminalOrder[i..], k) == Without(terminalOrder, k)
      {
        if terminalOrder[i] != k {
          kept := kept + [terminalOrder[i]];
        }
      }
      terminalOrder := kept;
    }

    /** `terminalize_submission`. */
    method TerminalizeSubmission(k: Key, r: Record)
      requires k in submissions
      modifies this`submissions, this`quarantined, this`terminalResults, this`terminalOrder
      ensures Model() == Terminalize(old(Model()), k, r)
    {
      hide InsertTerminal;
      var s := submissions[k];
      submissions := submissions - {k};
      quarantined := quarantined[k := s];
      InsertTerminalResult(k, r);
    }

    /** `admission_fallback_reason`. */
    method AdmissionFallbackReason(s: Submission) returns (reason: Option<Reason>)
      ensures reason == AdmissionReason(config, Model(), s)
    {
      if s.payloadLen == 0 || s.payloadLen > MAX_GPU_PAYLOAD_BYTES {
        return Some(SubmissionRejected);
      }
      if s.words.Some? {
        if s.words.value == 0 || s.words.value > MAX_SURFACE_WORDS || s.words.value * 4 != s.payloadLen {
          return Some(SubmissionRejected);
        }
      }
      if s.workload == PacketPreclassification && s.payloadLen < config.packetMinBatchBytes {
        return Some(BelowBatchThreshold);
      }
      if !s.allowsGpu {
        return Some(DisabledByPolicy);
      }
      match state {
        case Uninitialized => return Some(NotInitialized);
        case Disabled => return Some(DisabledByPolicy);
        case Faulted => return Some(DriverUnavailable);
        case Ready =>
      }
      if |submissions| + |quarantined| >= MAX_PENDING_GPU_SUBMISSIONS {
        return Some(SubmissionRejected);
      }
      if !computeAvailable || !device {
        return Some(CapabilityUnavailable);
      }
      reason := if s.words.None? then Some(CapabilityUnavailable) else None;
    }

    /** `submit_batch`. */
    method SubmitBatch(s: Submission, attempt: Attempt, now: nat, d: Device) returns (handle: Handle)
      modifies this
      ensures (Model(), handle) == Submit(config, old(Model()), s, attempt, now, d)
    {
      hide Reap, AdmissionReason, Allocate;
      ReapQuarantined(d);
      var reason := AdmissionFallbackReason(s);
      var key := AllocateHandle();
      if reason.Some? {
        return Handle(key, CpuFallback, reason);
      }
      if key.id == 0 {
        return Handle(key, CpuFallback, Some(SubmissionRejected));
      }
      match attempt {
        case Queued(size) =>
          if currentGpuAllocationBytes + size > MAX_TOTAL_GPU_ALLOCATION_BYTES {
            return Handle(key, CpuFallback, Some(SubmissionRejected));
          }
          submissions := submissions[key := Stored(size, now + EffectiveTimeout(s.timeout, config.submitTimeout), None, s.requiresZeroize)];
          currentGpuAllocationBytes := Min(currentGpuAllocationBytes + size, U64_MAX);
          peakGpuAllocationBytes := Max(peakGpuAllocationBytes, currentGpuAllocationBytes);
          handle := Handle(key, Gpu, None);
        case Refused =>
          handle := Handle(key, CpuFallback, Some(SubmissionRejected));
        case DeviceLost =>
          MarkFaulted();
          handle := Handle(key, CpuFallback, Some(DriverUnavailable));
      }
    }

    /** `poll_completion`. */
    method PollCompletion(h: Handle, now: nat, d: Device) returns (status: Status)
      modifies this
      ensures (Model(), status) == Poll(old(Model()), h, now, d)
    {
      hide Reap, Terminalize;
      if h.path == CpuFallback {
        return Completed;
      }
      ReapQuarantined(d);
      if h.key in terminalResults {
        return terminalResults[h.key].status;
      }
      if h.key !in submissions {
        return Missing;
      }
      var s := submissions[h.key];
      if s.completedAt.Some? {
        return Completed;
      }
      if !device {
        TerminalizeSubmission(h.key, Record(Missing, DriverUnavailable, now));
        MarkFaulted();
        return Missing;
      }
      match d.fence(h.key) {
        case Signalled =>
          submissions := submissions[h.key := s.(completedAt := Some(now))];
          status := Completed;
        case NotYet =>
          if now >= s.deadline {
            TerminalizeSubmission(h.key, Record(TimedOut, Timeout, now));
            MarkFaulted();
            status := TimedOut;
          } else {
            status := Pending;
          }
        case DeviceError =>
          TerminalizeSubmission(h.key, Record(Missing, DriverUnavailable, now));
          MarkFaulted();
          status := Missing;
      }
    }

    /** The half of `wait_for_completion` that follows a poll's answer. */
    method FinishWait(h: Handle, status: Status, now: nat, d: Device) returns (result: Result)
      modifies this
      ensures (Model(), result) == Finish(old(Model()), h, status, now, d)
    {
      hide TakeTerminal;
      if h.path == CpuFallback {
        return FallbackResult(h, h.reason, now);
      }
      var found := h.key in terminalResults;
      if found {
        var record := TakeTerminalResult(h.key);
        return FallbackResult(h, Some(record.value.reason), record.value.completedAt);
      }
      if status != Completed || h.key !in submissions {
        return FallbackResult(h, Some(SubmissionRejected), now);
      }
      var s := submissions[h.key];
      submissions := submissions - {h.key};
      var released := ReleaseGpuSubmission(h.key, s, d);
      if !released {
        quarantined := quarantined[h.key := s];
        MarkFaulted();
      }
      result := Result(h, Gpu, None, if s.completedAt.Some? then s.completedAt.value else now);
    }

    /** `retire_submission`. */
    method RetireSubmission(h: Handle, d: Device)
      modifies this
      ensures Model() == Retire(old(Model()), h, d)
    {
      hide Reap, TakeTerminal;
      if h.path == CpuFallback {
        return;
      }
      ReapQuarantined(d);
      if h.key in submissions {
        var s := submissions[h.key];
        submissions := submissions - {h.key};
        var signalled := device && d.fence(h.key) == Signalled;
        if !device || d.fence(h.key) == DeviceError {
          MarkFaulted();
        }
        if signalled {
          var released := ReleaseGpuSubmission(h.key, s, d);
          if !released {
            quarantined := quarantined[h.key := s];
            MarkFaulted();
          }
        } else {
          quarantined := quarantined[h.key := s];
        }
      }
      var _ := TakeTerminalResult(h.key);
    }
  }

  // ----------------------------------------------------------------------- the reaping

  function ReapOne(g: Inner, k: Key, d: Device): Inner
    requires k in g.quarantined
  {
    match d.fence(k)
    case Signalled => if Releasable(g, k, g.quarantined[k], d) then Freed(g.(quarantined := g.quarantined - {k}), g.quarantined[k].size) else Fault(g)
    case NotYet => g
    case DeviceError => Fault(g)
  }

  /** Reaping restricted to some of the keys. */
  ghost function ReapSome(g: Inner, keys: set<Key>, d: Device): Inner
  {
    var reaped := Reaped(g, Reapable(g, d) * keys);
    if exists k :: k in keys && k in g.quarantined && FaultsAt(g, k, d) then Fault(reaped) else reaped
  }

  lemma ReapNothing(g: Inner, d: Device)
    ensures ReapSome(g, {}, d) == g
    ensures !g.device ==> Reap(g, d) == g
  {
    assert Reapable(g, d) * {} == {};
    assert Restrict(g.quarantined, {}) == map[];
    assert g.quarantined - {} == g.quarantined;
  }

  lemma ReapEverything(g: Inner, d: Device)
    requires g.device
    ensures ReapSome(g, g.quarantined.Keys, d) == Reap(g, d)
  {
    assert Reapable(g, d) * g.quarantined.Keys == Reapable(g, d);
  }

  lemma ReapedOneMore(g: Inner, gone: set<Key>, k: Key)
    requires k in g.quarantined && k !in gone
    ensures Reaped(g, gone + {k}) == Freed(Reaped(g, gone).(quarantined := Reaped(g, gone).quarantined - {k}), g.quarantined[k].size)
  {
    var more := Restrict(g.quarantined, gone + {k});
    SumRemove(more, k);
    assert more - {k} == Restrict(g.quarantined, gone);
    assert g.quarantined - (gone + {k}) == g.quarantined - gone - {k};
  }

  lemma ReapNext(g: Inner, done: set<Key>, k: Key, d: Device)
    requires g.device && k in g.quarantined && k !in done
    ensures k in ReapSome(g, done, d).quarantined
    ensures ReapSome(g, done + {k}, d) == ReapOne(ReapSome(g, done, d), k, d)
  {
    hide SumBytes, Restrict;
    var gone := Reapable(g, d) * done;
    ReapedOneMore(g, gone, k);
    if k in Reapable(g, d) {
      assert Reapable(g, d) * (done + {k}) == gone + {k};
    } else {
      assert Reapable(g, d) * (done + {k}) == gone;
    }
    var r := ReapSome(g, done, d);
    assert r.quarantined[k] == g.quarantined[k] && r.device;
    assert (exists x :: x in done + {k} && x in g.quarantined && FaultsAt(g, x, d))
       <==> (exists x :: x in done && x in g.quarantined && FaultsAt(g, x, d)) || FaultsAt(g, k, d);
  }
}
