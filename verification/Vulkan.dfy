/** The GPU submission ledger of the Vulkan backend as functions of what the device answers:
    handles, live and quarantined submissions, terminal records, memory accounting. */
module Vulkan {
  import opened Machine

  const MAX_PENDING_GPU_SUBMISSIONS := 64
  const MAX_TERMINAL_RESULTS := 128
  const MAX_GPU_PAYLOAD_BYTES := 64 * 1024 * 1024
  const MAX_SURFACE_WORDS := 1_048_576
  const MAX_TOTAL_GPU_ALLOCATION_BYTES := 256 * 1024 * 1024

  // ------------------------------------------------------------------------- the state

  /** `SubmissionKey`. */
  datatype Key = Key(generation: U64, id: U64)

  predicate KeyBefore(a: Key, b: Key)
  {
    a.generation < b.generation || (a.generation == b.generation && a.id < b.id)
  }

  datatype Workload = MaintenanceHashing | AuditScan | PacketPreclassification | BulkPrefilter | ScreenshotRefine | SceneComposition

  datatype Path = Gpu | CpuFallback

  datatype Status = Pending | Completed | TimedOut | Missing

  datatype Reason =
    NotInitialized | DisabledByPolicy | CapabilityUnavailable | BelowBatchThreshold | Timeout | SubmissionRejected | DriverUnavailable

  /** `VulkanBatchHandle`. */
  datatype Handle = Handle(key: Key, path: Path, reason: Option<Reason>)

  /** `VulkanBatchSubmission`; of the words only their number matters. */
  datatype Submission = Submission(workload: Workload, payloadLen: nat, words: Option<nat>, timeout: nat, requiresZeroize: bool, allowsGpu: bool)

  /** `VulkanStoredSubmission`, its Vulkan objects reduced to their size. */
  datatype Stored = Stored(size: U64, deadline: nat, completedAt: Option<nat>, requiresZeroize: bool)

  /** `VulkanTerminalRecord`. */
  datatype Record = Record(status: Status, reason: Reason, completedAt: nat)

  datatype BackendState = Uninitialized | Ready | Disabled | Faulted

  /** `VulkanBackendInner`. */
  datatype Inner = Inner(
    state: BackendState, computeAvailable: bool, device: bool,
    nextId: U64, generation: U64, exhausted: bool,
    submissions: map<Key, Stored>, quarantined: map<Key, Stored>,
    terminal: map<Key, Record>, order: seq<Key>,
    currentBytes: U64, peakBytes: U64)

  const FRESH := Inner(Uninitialized, false, false, 1, 1, false, map[], map[], map[], [], 0, 0)

  // ------------------------------------------------------------------- the environment

  datatype Fence = Signalled | NotYet | DeviceError

  /** What the device answers during one call: fence states, and whose memory it can zero. */
  datatype Device = Device(fence: Key -> Fence, zeroes: Key -> bool)

  /** What `try_submit` meets on its way to the queue. */
  datatype Attempt = Queued(size: U64) | Refused | DeviceLost

  /** `VulkanBackendConfig`. */
  datatype Config = Config(enabled: bool, packetMinBatchBytes: nat, submitTimeout: nat)

  const DEFAULT_TIMEOUT_MS := 250
  const MAX_TIMEOUT_MS := 5_000

  /** `effective_timeout`, in milliseconds. */
  function EffectiveTimeout(requested: nat, configured: nat): (r: nat)
    ensures 0 < r <= MAX_TIMEOUT_MS
    ensures requested != 0 ==> r <= requested
  {
    var c := if configured == 0 then DEFAULT_TIMEOUT_MS else Min(configured, MAX_TIMEOUT_MS);
    if requested == 0 then c else Min(Min(requested, c), MAX_TIMEOUT_MS)
  }

  // --------------------------------------------------------------------------- handles

  /** `allocate_handle`. */
  function Allocate(g: Inner): (Inner, Key)
  {
    if g.exhausted then (g, Key(0, 0))
    else
      (if g.nextId == U64_MAX then
         if g.generation == U64_MAX then g.(exhausted := true) else g.(nextId := 1, generation := g.generation + 1)
       else g.(nextId := g.nextId + 1),
       Key(g.generation, g.nextId))
  }

  // ---------------------------------------------------------------- release and reaping

  /** `mark_faulted`. */
  function Fault(g: Inner): Inner
  {
    g.(state := Faulted, computeAvailable := false)
  }

  /** Does `release_gpu_submission` succeed? */
  predicate Releasable(g: Inner, k: Key, s: Stored, d: Device)
  {
    g.device && (!s.requiresZeroize || s.size == 0 || d.zeroes(k))
  }

  /** `saturating_sub` on the byte count. */
  function Freed(g: Inner, bytes: nat): Inner
  {
    g.(currentBytes := Max(g.currentBytes - bytes, 0))
  }

  ghost function SumBytes(m: map<Key, Stored>): nat
  {
    if m == map[] then 0
    else var k :| k in m; m[k].size + SumBytes(m - {k})
  }

  function Reapable(g: Inner, d: Device): set<Key>
  {
    set k | k in g.quarantined && d.fence(k) == Signalled && Releasable(g, k, g.quarantined[k], d)
  }

  /** A quarantined submission whose fence errs, or which cannot be released, is a fault. */
  predicate ReapFaults(g: Inner, d: Device)
  {
    exists k :: k in g.quarantined && FaultsAt(g, k, d)
  }

  predicate FaultsAt(g: Inner, k: Key, d: Device)
    requires k in g.quarantined
  {
    d.fence(k) == DeviceError || (d.fence(k) == Signalled && !Releasable(g, k, g.quarantined[k], d))
  }

  function Restrict(m: map<Key, Stored>, keys: set<Key>): map<Key, Stored>
  {
    map k | k in m && k in keys :: m[k]
  }

  /** `reap_quarantined`, whatever order it visits the keys in. */
  ghost function Reap(g: Inner, d: Device): Inner
  {
    if !g.device then g
    else if ReapFaults(g, d) then Fault(Reaped(g, Reapable(g, d)))
    else Reaped(g, Reapable(g, d))
  }

  /** These quarantined submissions are released. */
  ghost function Reaped(g: Inner, gone: set<Key>): Inner
  {
    Freed(g.(quarantined := g.quarantined - gone), SumBytes(Restrict(g.quarantined, gone)))
  }

  // ------------------------------------------------------------------ terminal records

  function Without(order: seq<Key>, k: Key): (r: seq<Key>)
    ensures forall x :: x in r <==> x in order && x != k
    ensures |r| <= |order|
  {
    if order == [] then []
    else if order[0] == k then Without(order[1..], k)
    else [order[0]] + Without(order[1..], k)
  }

  /** The eviction loop of `insert_terminal_result`. */
  function EvictTerminal(g: Inner): Inner
    decreases |g.order|
  {
    if |g.terminal| >= MAX_TERMINAL_RESULTS && g.order != [] then
      EvictTerminal(g.(order := g.order[1..], terminal := g.terminal - {g.order[0]}))
    else g
  }

  /** `insert_terminal_result`. */
  function InsertTerminal(g: Inner, k: Key, r: Record): Inner
  {
    if k in g.terminal then g.(terminal := g.terminal[k := r])
    else
      var e := EvictTerminal(g);
      e.(order := e.order + [k], terminal := e.terminal[k := r])
  }

  /** `take_terminal_result`. */
  function TakeTerminal(g: Inner, k: Key): Inner
  {
    if k in g.terminal then g.(terminal := g.terminal - {k}, order := Without(g.order, k)) else g
  }

  /** `terminalize_submission`, for a live submission. */
  function Terminalize(g: Inner, k: Key, r: Record): Inner
    requires k in g.submissions
  {
    InsertTerminal(g.(submissions := g.submissions - {k}, quarantined := g.quarantined[k := g.submissions[k]]), k, r)
  }

  // ---------------------------------------------------------------------------- calls

  /** `admission_fallback_reason`. */
  function AdmissionReason(config: Config, g: Inner, s: Submission): Option<Reason>
  {
    if s.payloadLen == 0 || s.payloadLen > MAX_GPU_PAYLOAD_BYTES then Some(SubmissionRejected)
    else if s.words.Some? && (s.words.value == 0 || s.words.value > MAX_SURFACE_WORDS || s.words.value * 4 != s.payloadLen) then Some(SubmissionRejected)
    else if s.workload == PacketPreclassification && s.payloadLen < config.packetMinBatchBytes then Some(BelowBatchThreshold)
    else if !s.allowsGpu then Some(DisabledByPolicy)
    else
      match g.state
      case Uninitialized => Some(NotInitialized)
      case Disabled => Some(DisabledByPolicy)
      case Faulted => Some(DriverUnavailable)
      case Ready =>
        if |g.submissions| + |g.quarantined| >= MAX_PENDING_GPU_SUBMISSIONS then Some(SubmissionRejected)
        else if !g.computeAvailable || !g.device then Some(CapabilityUnavailable)
        else if s.words.None? then Some(CapabilityUnavailable)
        else None
  }

  /** `try_submit`: the aggregate budget is tested before anything is queued. */
  function TrySubmit(g: Inner, a: Attempt): Attempt
  {
    if a.Queued? && g.currentBytes + a.size > MAX_TOTAL_GPU_ALLOCATION_BYTES then Refused else a
  }

  function Store(g: Inner, k: Key, s: Stored): Inner
  {
    var current := Min(g.currentBytes + s.size, U64_MAX);
    g.(submissions := g.submissions[k := s], currentBytes := current, peakBytes := Max(g.peakBytes, current))
  }

  /** `submit_batch`. */
  ghost function Submit(config: Config, g: Inner, s: Submission, a: Attempt, now: nat, d: Device): (Inner, Handle)
  {
    var r := Reap(g, d);
    var reason := AdmissionReason(config, r, s);
    var (n, key) := Allocate(r);
    if reason.Some? then (n, Handle(key, CpuFallback, reason))
    else if key.id == 0 then (n, Handle(key, CpuFallback, Some(SubmissionRejected)))
    else
      match TrySubmit(n, a)
      case Queued(size) =>
        (Store(n, key, Stored(size, now + EffectiveTimeout(s.timeout, config.submitTimeout), None, s.requiresZeroize)), Handle(key, Gpu, None))
      case Refused => (n, Handle(key, CpuFallback, Some(SubmissionRejected)))
      case DeviceLost => (Fault(n), Handle(key, CpuFallback, Some(DriverUnavailable)))
  }

  /** `poll_completion`. */
  ghost function Poll(g: Inner, h: Handle, now: nat, d: Device): (Inner, Status)
  {
    if h.path == CpuFallback then (g, Completed) else PollReaped(Reap(g, d), h.key, now, d)
  }

  function PollReaped(g: Inner, k: Key, now: nat, d: Device): (Inner, Status)
  {
    if k in g.terminal then (g, g.terminal[k].status)
    else if k !in g.submissions then (g, Missing)
    else
      var s := g.submissions[k];
      if s.completedAt.Some? then (g, Completed)
      else if !g.device then (Fault(Terminalize(g, k, Record(Missing, DriverUnavailable, now))), Missing)
      else
        match d.fence(k)
        case Signalled => (g.(submissions := g.submissions[k := s.(completedAt := Some(now))]), Completed)
        case NotYet =>
          if now >= s.deadline then (Fault(Terminalize(g, k, Record(TimedOut, Timeout, now))), TimedOut) else (g, Pending)
        case DeviceError => (Fault(Terminalize(g, k, Record(Missing, DriverUnavailable, now))), Missing)
  }

  /** `VulkanBatchResult`. */
  datatype Result = Result(handle: Handle, path: Path, reason: Option<Reason>, completedAt: nat)

  function FallbackResult(h: Handle, reason: Option<Reason>, completedAt: nat): Result
  {
    Result(h, CpuFallback, if reason.Some? then reason else h.reason, completedAt)
  }

  /** Giving a submission's resources back, or keeping them in quarantine. */
  function ReleaseOrQuarantine(g: Inner, k: Key, s: Stored, d: Device): Inner
  {
    if Releasable(g, k, s, d) then Freed(g, s.size) else Fault(g.(quarantined := g.quarantined[k := s]))
  }

  /** What `wait_for_completion` does once a poll has answered `status`, other than pending. */
  function Finish(g: Inner, h: Handle, status: Status, now: nat, d: Device): (Inner, Result)
  {
    if h.path == CpuFallback then (g, FallbackResult(h, h.reason, now))
    else if h.key in g.terminal then
      var r := g.terminal[h.key];
      (TakeTerminal(g, h.key), FallbackResult(h, Some(r.reason), r.completedAt))
    else if status == Completed && h.key in g.submissions then
      var s := g.submissions[h.key];
      (ReleaseOrQuarantine(g.(submissions := g.submissions - {h.key}), h.key, s, d),
       Result(h, Gpu, None, if s.completedAt.Some? then s.completedAt.value else now))
    else (g, FallbackResult(h, Some(SubmissionRejected), now))
  }

  /** `retire_submission`. */
  ghost function Retire(g: Inner, h: Handle, d: Device): Inner
  {
    if h.path == CpuFallback then g else RetireReaped(Reap(g, d), h.key, d)
  }

  function RetireReaped(g: Inner, k: Key, d: Device): Inner
  {
    if k !in g.submissions then TakeTerminal(g, k)
    else
      var s := g.submissions[k];
      var dropped := g.(submissions := g.submissions - {k});
      var f := if !g.device || d.fence(k) == DeviceError then Fault(dropped) else dropped;
      TakeTerminal(if g.device && d.fence(k) == Signalled then ReleaseOrQuarantine(f, k, s, d)
                   else f.(quarantined := f.quarantined[k := s]), k)
  }

  /** `initialize`; `works` is how Vulkan's own initialization ends. */
  function Initialize(config: Config, g: Inner, works: bool): Inner
  {
    if g.state != Uninitialized then g
    else if !config.enabled then g.(state := Disabled)
    else if works then g.(state := Ready, computeAvailable := true, device := true)
    else Fault(g)
  }
}
