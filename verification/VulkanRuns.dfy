/** Every interleaving of submissions, polls, waits, retirements and metric reads on the
    Vulkan backend: memory, handles, verdicts, terminal records. */
module VulkanRuns {
  import opened Machine
  import opened Vulkan

  // -------------------------------------------------------------------------- the inner

  ghost predicate NoDuplicates<T>(s: seq<T>)
  {
    forall i, j :: 0 <= i < j < |s| ==> s[i] != s[j]
  }

  /** Memory: live and quarantined submissions are apart, few, and exactly accounted for. */
  ghost predicate MemoryOk(g: Inner)
  {
    && g.submissions.Keys !! g.quarantined.Keys
    && |g.submissions| + |g.quarantined| <= MAX_PENDING_GPU_SUBMISSIONS
    && g.currentBytes == SumBytes(g.submissions) + SumBytes(g.quarantined)
    && g.currentBytes <= MAX_TOTAL_GPU_ALLOCATION_BYTES
    && g.currentBytes <= g.peakBytes
  }

  /** Terminal records: the queue lists exactly the keys of the map, once each, and no live
      submission has one. */
  ghost predicate TerminalOk(g: Inner)
  {
    && NoDuplicates(g.order)
    && (forall k :: k in g.terminal <==> k in g.order)
    && |g.terminal| == |g.order| <= MAX_TERMINAL_RESULTS
    && g.terminal.Keys !! g.submissions.Keys
  }

  // ------------------------------------------------------------------------- byte sums

  lemma {:induction false} SumRemove(m: map<Key, Stored>, k: Key)
    requires k in m
    ensures SumBytes(m) == m[k].size + SumBytes(m - {k})
    decreases |m|
  {
    var c :| c in m && SumBytes(m) == m[c].size + SumBytes(m - {c});
    if c != k {
      assert |m - {c}| == |m| - 1 by { assert (m - {c}).Keys == m.Keys - {c}; }
      assert |m - {k}| == |m| - 1 by { assert (m - {k}).Keys == m.Keys - {k}; }
      SumRemove(m - {c}, k);
      SumRemove(m - {k}, c);
      assert (m - {c}) - {k} == (m - {k}) - {c};
    }
  }

  lemma SumInsert(m: map<Key, Stored>, k: Key, s: Stored)
    requires k !in m
    ensures SumBytes(m[k := s]) == s.size + SumBytes(m)
    ensures |m[k := s]| == |m| + 1
  {
    SumRemove(m[k := s], k);
    assert m[k := s] - {k} == m;
    assert m[k := s].Keys == m.Keys + {k};
  }

  lemma SizeRemove(m: map<Key, Stored>, k: Key)
    requires k in m
    ensures |m - {k}| == |m| - 1
  {
    assert (m - {k}).Keys == m.Keys - {k};
  }

  lemma SumUpdate(m: map<Key, Stored>, k: Key, s: Stored)
    requires k in m && m[k].size == s.size
    ensures SumBytes(m[k := s]) == SumBytes(m) && |m[k := s]| == |m|
  {
    SumRemove(m, k);
    SumRemove(m[k := s], k);
    assert m[k := s] - {k} == m - {k};
    assert m[k := s].Keys == m.Keys;
  }

  lemma RestrictInside(m: map<Key, Stored>, keys: set<Key>, k: Key)
    requires k in m && k in keys
    ensures k in Restrict(m, keys) && Restrict(m, keys)[k] == m[k]
    ensures Restrict(m, keys) - {k} == Restrict(m - {k}, keys) && m - keys == (m - {k}) - keys
  {
  }

  lemma RestrictOutside(m: map<Key, Stored>, keys: set<Key>, k: Key)
    requires k in m && k !in keys
    ensures k in m - keys && (m - keys)[k] == m[k]
    ensures Restrict(m, keys) == Restrict(m - {k}, keys) && (m - keys) - {k} == (m - {k}) - keys
  {
  }

  /** What a set of submissions holds and what the others hold add up. */
  lemma {:induction false} SumSplit(m: map<Key, Stored>, keys: set<Key>)
    ensures SumBytes(m) == SumBytes(Restrict(m, keys)) + SumBytes(m - keys)
    ensures |m - keys| <= |m|
    decreases |m|
  {
    hide Restrict, SumBytes;
    if m == map[] {
      NothingSplit(m, keys);
    } else {
      var k :| k in m;
      SumRemove(m, k);
      SizeRemove(m, k);
      SumSplit(m - {k}, keys);
      if k in keys {
        RestrictInside(m, keys, k);
        SumRemove(Restrict(m, keys), k);
      } else {
        RestrictOutside(m, keys, k);
        SumRemove(m - keys, k);
        SizeRemove(m - keys, k);
      }
    }
  }

  lemma NothingSplit(none: map<Key, Stored>, keys: set<Key>)
    requires none == map[]
    ensures SumBytes(none) == SumBytes(Restrict(none, keys)) + SumBytes(none - keys)
    ensures |none - keys| == |none|
  {
    assert Restrict(none, keys) == none && none - keys == none;
  }

  // ---------------------------------------------------------------- each piece, memory

  /** Reaping touches the quarantine, the byte count and the fault state, nothing else. */
  lemma ReapShape(g: Inner, d: Device)
    ensures var r := Reap(g, d);
      && r == g.(quarantined := r.quarantined, currentBytes := r.currentBytes, state := r.state, computeAvailable := r.computeAvailable)
      && r.quarantined == g.quarantined - (if g.device then Reapable(g, d) else {})
      && r.currentBytes == (if g.device then Reaped(g, Reapable(g, d)).currentBytes else g.currentBytes)
  {
    hide SumBytes, Reapable, ReapFaults, Restrict;
    if !g.device {
      assert g.quarantined - {} == g.quarantined;
    }
  }

  lemma ReapedBytes(g: Inner, gone: set<Key>)
    requires g.currentBytes == SumBytes(g.submissions) + SumBytes(g.quarantined)
    ensures Reaped(g, gone).currentBytes == SumBytes(g.submissions) + SumBytes(g.quarantined - gone) <= g.currentBytes
    ensures |g.quarantined - gone| <= |g.quarantined|
  {
    hide SumBytes, Restrict;
    SumSplit(g.quarantined, gone);
  }

  lemma MemoryBytes(g: Inner)
    requires MemoryOk(g)
    ensures g.currentBytes == SumBytes(g.submissions) + SumBytes(g.quarantined)
  {
  }

  lemma FewerQuarantined(g: Inner, r: Inner, gone: set<Key>)
    requires MemoryOk(g) && r.submissions == g.submissions && r.quarantined == g.quarantined - gone
    requires |r.quarantined| <= |g.quarantined|
    requires r.currentBytes == SumBytes(r.submissions) + SumBytes(r.quarantined) <= g.currentBytes && r.peakBytes == g.peakBytes
    ensures MemoryOk(r)
  {
    hide SumBytes;
  }

  lemma ReapKeepsMemory(g: Inner, d: Device)
    requires MemoryOk(g)
    ensures MemoryOk(Reap(g, d))
  {
    hide SumBytes, Reapable, Reap, Reaped, MemoryOk;
    ReapShape(g, d);
    var gone := if g.device then Reapable(g, d) else {};
    MemoryBytes(g);
    ReapedBytes(g, gone);
    if !g.device {
      assert g.quarantined - {} == g.quarantined;
    }
    FewerQuarantined(g, Reap(g, d), gone);
  }

  lemma AllocateKeeps(g: Inner)
    ensures var (n, key) := Allocate(g);
      n == g.(nextId := n.nextId, generation := n.generation, exhausted := n.exhausted)
  {
  }

  lemma StoreKeepsMemory(g: Inner, k: Key, s: Stored)
    requires MemoryOk(g) && k !in g.submissions && k !in g.quarantined
    requires |g.submissions| + |g.quarantined| < MAX_PENDING_GPU_SUBMISSIONS
    requires g.currentBytes + s.size <= MAX_TOTAL_GPU_ALLOCATION_BYTES
    ensures MemoryOk(Store(g, k, s))
  {
    hide SumBytes;
    SumInsert(g.submissions, k, s);
  }

  lemma {:induction false} EvictKeeps(g: Inner)
    ensures EvictTerminal(g) == g.(terminal := EvictTerminal(g).terminal, order := EvictTerminal(g).order)
    decreases |g.order|
  {
    if |g.terminal| >= MAX_TERMINAL_RESULTS && g.order != [] {
      EvictKeeps(g.(order := g.order[1..], terminal := g.terminal - {g.order[0]}));
    }
  }

  lemma InsertKeeps(g: Inner, k: Key, r: Record)
    ensures InsertTerminal(g, k, r) == g.(terminal := InsertTerminal(g, k, r).terminal, order := InsertTerminal(g, k, r).order)
  {
    hide EvictTerminal;
    EvictKeeps(g);
  }

  /** A submission moves from live to quarantine. */
  lemma QuarantineKeepsMemory(g: Inner, k: Key)
    requires MemoryOk(g) && k in g.submissions
    ensures MemoryOk(g.(submissions := g.submissions - {k}, quarantined := g.quarantined[k := g.submissions[k]]))
  {
    hide SumBytes;
    SumRemove(g.submissions, k);
    SizeRemove(g.submissions, k);
    SumInsert(g.quarantined, k, g.submissions[k]);
  }

  lemma ReleaseKeepsMemory(g: Inner, k: Key)
    requires MemoryOk(g) && k in g.submissions
    ensures MemoryOk(Freed(g.(submissions := g.submissions - {k}), g.submissions[k].size))
  {
    hide SumBytes;
    SumRemove(g.submissions, k);
    SizeRemove(g.submissions, k);
  }

  // ------------------------------------------------------- each piece, terminal records

  lemma {:induction false} EvictKeepsTerminal(g: Inner)
    requires TerminalOk(g)
    ensures TerminalOk(EvictTerminal(g)) && |EvictTerminal(g).terminal| < MAX_TERMINAL_RESULTS
    ensures EvictTerminal(g).terminal.Keys <= g.terminal.Keys
    ensures forall k :: k in EvictTerminal(g).terminal ==> EvictTerminal(g).terminal[k] == g.terminal[k]
    decreases |g.order|
  {
    if |g.terminal| >= MAX_TERMINAL_RESULTS && g.order != [] {
      var next := g.(order := g.order[1..], terminal := g.terminal - {g.order[0]});
      assert next.terminal.Keys == g.terminal.Keys - {g.order[0]};
      EvictKeepsTerminal(next);
    }
  }

  lemma AppendRecord(g: Inner, k: Key, r: Record)
    requires TerminalOk(g) && |g.terminal| < MAX_TERMINAL_RESULTS && k !in g.submissions && k !in g.terminal
    ensures TerminalOk(g.(order := g.order + [k], terminal := g.terminal[k := r]))
  {
    hide NoDuplicates;
    assert g.terminal[k := r].Keys == g.terminal.Keys + {k};
    AppendDistinct(g.order, k);
  }

  lemma AppendDistinct(order: seq<Key>, k: Key)
    requires NoDuplicates(order) && k !in order
    ensures NoDuplicates(order + [k])
    ensures forall x :: x in order + [k] <==> x in order || x == k
  {
  }

  lemma ReplaceRecord(g: Inner, k: Key, r: Record)
    requires TerminalOk(g) && k in g.terminal
    ensures TerminalOk(g.(terminal := g.terminal[k := r]))
  {
    assert g.terminal[k := r].Keys == g.terminal.Keys;
  }

  lemma InsertKeepsTerminal(g: Inner, k: Key, r: Record)
    requires TerminalOk(g) && k !in g.submissions
    ensures TerminalOk(InsertTerminal(g, k, r))
    ensures k in InsertTerminal(g, k, r).terminal && InsertTerminal(g, k, r).terminal[k] == r
    ensures forall x :: x in InsertTerminal(g, k, r).terminal && x != k ==>
      x in g.terminal && InsertTerminal(g, k, r).terminal[x] == g.terminal[x]
  {
    hide EvictTerminal, TerminalOk;
    if k in g.terminal {
      ReplaceRecord(g, k, r);
    } else {
      EvictKeepsTerminal(g);
      EvictKeeps(g);
      AppendRecord(EvictTerminal(g), k, r);
    }
  }

  lemma {:induction false} WithoutKeepsDistinct(order: seq<Key>, k: Key)
    requires NoDuplicates(order)
    ensures NoDuplicates(Without(order, k))
    ensures |Without(order, k)| == |order| - if k in order then 1 else 0
  {
    if order != [] {
      WithoutKeepsDistinct(order[1..], k);
      assert order[0] !in order[1..];
    }
  }

  lemma TakeKeepsTerminal(g: Inner, k: Key)
    requires TerminalOk(g)
    ensures TerminalOk(TakeTerminal(g, k)) && k !in TakeTerminal(g, k).terminal
    ensures TakeTerminal(g, k).terminal == g.terminal - {k}
    ensures TakeTerminal(g, k) == g.(terminal := TakeTerminal(g, k).terminal, order := TakeTerminal(g, k).order)
  {
    WithoutKeepsDistinct(g.order, k);
    assert (g.terminal - {k}).Keys == g.terminal.Keys - {k};
    if k !in g.terminal {
      assert g.terminal - {k} == g.terminal;
    }
  }

  // -------------------------------------------------------------------------- histories

  /** A call of the backend, with the time it is made at. */
  datatype Call =
    | Submits(submission: Submission, attempt: Attempt, now: nat)
    | Polls(handle: Handle, now: nat)
    | Finishes(handle: Handle, status: Status, now: nat)
    | Retires(handle: Handle)
    | ReadsMetrics
    | Initializes(works: bool)

  datatype Answer = Answer(key: Key, status: Status)

  /** The backend with its past: the handles it gave out, the fences the device reported
      signalled, the submissions it released, its poll answers, and the keys whose waiter
      got the GPU's result. */
  datatype Trace = Trace(g: Inner, handles: seq<Handle>, signalled: set<Key>, released: set<Key>, answers: set<Answer>, results: seq<Key>)

  const START := Trace(FRESH, [], {}, {}, {}, [])

  function Held(g: Inner): set<Key>
  {
    g.submissions.Keys + g.quarantined.Keys
  }

  function SignalledNow(g: Inner, d: Device): set<Key>
  {
    set k | k in Held(g) && d.fence(k) == Signalled
  }

  /** The state moves; what is no longer held has been released. */
  function Advance(t: Trace, g: Inner): Trace
  {
    t.(g := g, released := t.released + (Held(t.g) - Held(g)))
  }

  /** Handles come from the backend, and a wait finishes only on an answer it was given. */
  ghost predicate Allowed(t: Trace, c: Call)
  {
    match c
    case Polls(h, _) => h in t.handles
    case Finishes(h, status, _) => h in t.handles && (h.path == Gpu ==> Answer(h.key, status) in t.answers && status != Pending)
    case Retires(h) => h in t.handles
    case _ => true
  }

  ghost function Next(config: Config, t0: Trace, c: Call, d: Device): Trace
  {
    var t := t0.(signalled := t0.signalled + SignalledNow(t0.g, d));
    match c
    case Submits(s, a, now) =>
      var (g, h) := Submit(config, t.g, s, a, now, d);
      Advance(t, g).(handles := t.handles + [h])
    case Polls(h, now) =>
      var (g, status) := Poll(t.g, h, now, d);
      if h.path == CpuFallback then t else Advance(t, g).(answers := t.answers + {Answer(h.key, status)})
    case Finishes(h, status, now) =>
      var (g, result) := Finish(t.g, h, status, now, d);
      if result.path == Gpu then Advance(t, g).(results := t.results + [h.key]) else Advance(t, g)
    case Retires(h) => Advance(t, Retire(t.g, h, d))
    case ReadsMetrics => Advance(t, Reap(t.g, d))
    case Initializes(works) => Advance(t, Initialize(config, t.g, works))
  }

  // ------------------------------------------------------------------ what history keeps

  ghost predicate KeyFresh(g: Inner, k: Key)
  {
    k == Key(0, 0) || (if g.exhausted then k == Key(g.generation, g.nextId) || KeyBefore(k, Key(g.generation, g.nextId)) else KeyBefore(k, Key(g.generation, g.nextId)))
  }

  /** Keys were handed out in strictly increasing order; the reserved key only once there
      are no more, and never for work on the GPU. */
  ghost predicate HandlesOk(g: Inner, handles: seq<Handle>)
  {
    && 1 <= g.nextId && 1 <= g.generation
    && (g.exhausted ==> g.nextId == U64_MAX && g.generation == U64_MAX)
    && (forall i :: 0 <= i < |handles| ==>
          && KeyFresh(g, handles[i].key)
          && (handles[i].key == Key(0, 0) ==> g.exhausted && handles[i].path == CpuFallback))
    && (forall i, j :: 0 <= i < j < |handles| ==> KeyFollows(handles[i].key, handles[j].key))
  }

  predicate KeyFollows(a: Key, b: Key)
  {
    b == Key(0, 0) || (a != Key(0, 0) && KeyBefore(a, b))
  }

  ghost function GpuKeys(handles: seq<Handle>): set<Key>
  {
    set h <- handles | h.path == Gpu :: h.key
  }

  /** Every submission is live, quarantined, or released, never two of these; and released
      only after its fence was seen signalled. */
  ghost predicate StoredOk(t: Trace)
  {
    && Held(t.g) + t.released == GpuKeys(t.handles)
    && Held(t.g) !! t.released
    && t.released <= t.signalled
    && (forall k :: k in t.g.submissions && t.g.submissions[k].completedAt.Some? ==> k in t.signalled)
  }

  ghost predicate AnswerOk(g: Inner, a: Answer)
  {
    match a.status
    case Pending => true
    case Completed => a.key !in g.terminal && (a.key in g.submissions ==> g.submissions[a.key].completedAt.Some?)
    case _ => a.key !in g.submissions && (a.key in g.terminal ==> g.terminal[a.key].status == a.status)
  }

  ghost predicate AnswersOk(t: Trace)
  {
    && (forall a :: a in t.answers ==> a.key in GpuKeys(t.handles) && AnswerOk(t.g, a))
    && (forall k :: k in t.g.terminal ==> k in GpuKeys(t.handles) && (t.g.terminal[k].status == TimedOut || t.g.terminal[k].status == Missing))
  }

  ghost predicate ResultsOk(t: Trace)
  {
    && NoDuplicates(t.results)
    && (forall i :: 0 <= i < |t.results| ==> t.results[i] !in t.g.submissions && t.results[i] in GpuKeys(t.handles) && t.results[i] in t.signalled)
  }

  ghost predicate HistoryOk(t: Trace)
  {
    HandlesOk(t.g, t.handles) && StoredOk(t) && AnswersOk(t) && ResultsOk(t)
  }

  ghost predicate TraceOk(t: Trace)
  {
    MemoryOk(t.g) && TerminalOk(t.g) && HistoryOk(t)
  }

  /** A move that starts nothing new: submissions and records may go, a submission may be
      marked complete once its fence was signalled, or get a terminal record when it was
      not; nothing unsignalled is released. */
  ghost predicate Calm(t: Trace, g: Inner)
  {
    && g.nextId == t.g.nextId && g.generation == t.g.generation && g.exhausted == t.g.exhausted
    && (forall k :: k in g.submissions ==> CalmLive(t, g, k))
    && (forall k :: k in g.terminal ==> CalmRecord(t, g, k))
    && Held(g) <= Held(t.g) && Held(t.g) - Held(g) <= t.signalled
  }

  ghost predicate CalmLive(t: Trace, g: Inner, k: Key)
    requires k in g.submissions
  {
    && k in t.g.submissions
    && (t.g.submissions[k].completedAt.Some? ==> g.submissions[k].completedAt.Some?)
    && (g.submissions[k].completedAt.Some? ==> t.g.submissions[k].completedAt.Some? || k in t.signalled)
  }

  ghost predicate CalmRecord(t: Trace, g: Inner, k: Key)
    requires k in g.terminal
  {
    || (k in t.g.terminal && g.terminal[k] == t.g.terminal[k])
    || (k in t.g.submissions && k !in g.submissions && t.g.submissions[k].completedAt.None?
        && (g.terminal[k].status == TimedOut || g.terminal[k].status == Missing))
  }

  lemma CalmKeepsStored(t: Trace, g: Inner)
    requires StoredOk(t) && Calm(t, g)
    ensures StoredOk(Advance(t, g))
  {
    hide GpuKeys;
  }

  lemma CalmKeepsAnswers(t: Trace, g: Inner)
    requires StoredOk(t) && AnswersOk(t) && Calm(t, g)
    ensures AnswersOk(Advance(t, g))
  {
    hide GpuKeys;
    var u := Advance(t, g);
    forall a | a in u.answers
      ensures AnswerOk(u.g, a)
    {
      assert AnswerOk(t.g, a);
    }
    forall k | k in g.terminal
      ensures k in GpuKeys(u.handles) && (g.terminal[k].status == TimedOut || g.terminal[k].status == Missing)
    {
      assert CalmRecord(t, g, k);
      assert k in t.g.submissions ==> k in Held(t.g);
    }
  }

  lemma CalmKeepsHistory(t: Trace, g: Inner)
    requires HistoryOk(t) && Calm(t, g)
    ensures HistoryOk(Advance(t, g))
  {
    hide GpuKeys, StoredOk, AnswersOk, Held;
    CalmKeepsStored(t, g);
    CalmKeepsAnswers(t, g);
    assert ResultsOk(Advance(t, g));
    assert HandlesOk(g, t.handles);
  }

  lemma MoreSignalled(t: Trace, seen: set<Key>)
    requires HistoryOk(t)
    ensures HistoryOk(t.(signalled := t.signalled + seen))
  {
    hide GpuKeys, HandlesOk;
  }

  /** Two moves one after the other. */
  lemma AdvanceTwice(t: Trace, g: Inner, h: Inner)
    requires Held(h) <= Held(g) <= Held(t.g)
    ensures Advance(Advance(t, g), h) == Advance(t, h)
  {
    hide Held;
    assert t.released + (Held(t.g) - Held(g)) + (Held(g) - Held(h)) == t.released + (Held(t.g) - Held(h));
  }

  lemma ReapIsCalm(t: Trace, d: Device)
    requires SignalledNow(t.g, d) <= t.signalled
    ensures Calm(t, Reap(t.g, d))
  {
    hide Reap;
    ReapShape(t.g, d);
  }

  lemma ReapKeepsTerminal(g: Inner, d: Device)
    requires TerminalOk(g)
    ensures TerminalOk(Reap(g, d))
  {
    hide Reap;
    ReapShape(g, d);
  }

  lemma ReapKeepsTrace(t: Trace, d: Device)
    requires TraceOk(t) && SignalledNow(t.g, d) <= t.signalled
    ensures TraceOk(Advance(t, Reap(t.g, d)))
    ensures Held(Reap(t.g, d)) <= Held(t.g)
    ensures SignalledNow(Reap(t.g, d), d) <= t.signalled
  {
    hide Reap, TerminalOk, MemoryOk, HistoryOk;
    ReapIsCalm(t, d);
    CalmKeepsHistory(t, Reap(t.g, d));
    ReapKeepsMemory(t.g, d);
    ReapKeepsTerminal(t.g, d);
  }

  // --------------------------------------------------------------------------- polling

  lemma GpuKeyOf(handles: seq<Handle>, h: Handle)
    requires h in handles && h.path == Gpu
    ensures h.key in GpuKeys(handles)
  {
  }

  lemma AnswerKeepsTrace(t: Trace, a: Answer)
    requires TraceOk(t) && a.key in GpuKeys(t.handles) && AnswerOk(t.g, a)
    ensures TraceOk(t.(answers := t.answers + {a}))
  {
    hide GpuKeys, HandlesOk, MemoryOk, TerminalOk, AnswerOk;
  }

  function Marked(g: Inner, k: Key, now: nat): Inner
    requires k in g.submissions
  {
    g.(submissions := g.submissions[k := g.submissions[k].(completedAt := Some(now))])
  }

  lemma SameHeld(t: Trace, g: Inner)
    requires Held(g) == Held(t.g)
    ensures Advance(t, g) == t.(g := g)
  {
    assert t.released + {} == t.released;
  }

  lemma MarkIsCalm(t: Trace, k: Key, now: nat)
    requires k in t.g.submissions && k in t.signalled
    ensures Calm(t, Marked(t.g, k, now))
  {
    assert Marked(t.g, k, now).submissions.Keys == t.g.submissions.Keys;
  }

  lemma MarkKeepsInner(g: Inner, k: Key, now: nat)
    requires k in g.submissions
    ensures MemoryOk(g) ==> MemoryOk(Marked(g, k, now))
    ensures TerminalOk(g) ==> TerminalOk(Marked(g, k, now))
  {
    hide SumBytes, NoDuplicates;
    var m := Marked(g, k, now);
    assert m.submissions.Keys == g.submissions.Keys;
    SumUpdate(g.submissions, k, m.submissions[k]);
  }

  lemma MarkKeepsTrace(t: Trace, k: Key, now: nat)
    requires TraceOk(t) && k in t.g.submissions && k in t.signalled
    ensures TraceOk(Advance(t, Marked(t.g, k, now)))
  {
    hide HistoryOk, TerminalOk, MemoryOk, Marked, Calm;
    MarkIsCalm(t, k, now);
    MarkKeepsInner(t.g, k, now);
    CalmKeepsHistory(t, Marked(t.g, k, now));
  }

  lemma QuarantineKeepsHeld(g: Inner, k: Key)
    requires k in g.submissions
    ensures Held(Quarantined(g, k)) == Held(g)
  {
  }

  function Quarantined(g: Inner, k: Key): Inner
    requires k in g.submissions
  {
    g.(submissions := g.submissions - {k}, quarantined := g.quarantined[k := g.submissions[k]])
  }

  lemma QuarantineKeepsTerminal(g: Inner, k: Key)
    requires TerminalOk(g) && k in g.submissions
    ensures TerminalOk(Quarantined(g, k))
  {
    hide NoDuplicates;
  }

  lemma TerminalizeIsCalm(t: Trace, k: Key, r: Record)
    requires TerminalOk(t.g) && k in t.g.submissions && t.g.submissions[k].completedAt.None?
    requires r.status == TimedOut || r.status == Missing
    ensures Calm(t, Fault(Terminalize(t.g, k, r)))
  {
    hide InsertTerminal, TerminalOk, Held;
    var q := Quarantined(t.g, k);
    InsertKeeps(q, k, r);
    QuarantineKeepsTerminal(t.g, k);
    InsertKeepsTerminal(q, k, r);
    QuarantineKeepsHeld(t.g, k);
    SameHeldParts(q, Fault(Terminalize(t.g, k, r)));
  }

  lemma SameHeldParts(g: Inner, h: Inner)
    requires g.submissions == h.submissions && g.quarantined == h.quarantined
    ensures Held(g) == Held(h)
  {
  }

  lemma TerminalizeKeepsTerminal(g: Inner, k: Key, r: Record)
    requires TerminalOk(g) && k in g.submissions
    ensures TerminalOk(Fault(Terminalize(g, k, r)))
  {
    hide InsertTerminal, NoDuplicates;
    QuarantineKeepsTerminal(g, k);
    InsertKeepsTerminal(Quarantined(g, k), k, r);
  }

  lemma TerminalizeKeepsMemory(g: Inner, k: Key, r: Record)
    requires MemoryOk(g) && k in g.submissions
    ensures MemoryOk(Fault(Terminalize(g, k, r)))
  {
    hide SumBytes, InsertTerminal;
    QuarantineKeepsMemory(g, k);
    InsertKeeps(Quarantined(g, k), k, r);
  }

  lemma TerminalizeKeepsTrace(t: Trace, k: Key, r: Record)
    requires TraceOk(t) && k in t.g.submissions && t.g.submissions[k].completedAt.None?
    requires r.status == TimedOut || r.status == Missing
    ensures TraceOk(Advance(t, Fault(Terminalize(t.g, k, r))))
  {
    hide Fault, Terminalize, HistoryOk, TerminalOk, MemoryOk, Calm;
    TerminalizeIsCalm(t, k, r);
    TerminalizeKeepsTerminal(t.g, k, r);
    TerminalizeKeepsMemory(t.g, k, r);
    CalmKeepsHistory(t, Fault(Terminalize(t.g, k, r)));
  }

  /** A poll after reaping: the state stays in order and the answer is noted. */
  lemma PollKeepsTrace(t: Trace, k: Key, now: nat, d: Device)
    requires TraceOk(t) && k in GpuKeys(t.handles) && SignalledNow(t.g, d) <= t.signalled
    ensures var (g, status) := PollReaped(t.g, k, now, d);
      TraceOk(Advance(t, g).(answers := t.answers + {Answer(k, status)}))
  {
    hide GpuKeys, TraceOk, Terminalize, Fault, AnswerOk, TerminalOk, Held;
    var (g, status) := PollReaped(t.g, k, now, d);
    SameHeld(t, t.g);
    TraceParts(t);
    PendingIsFine(t.g, k);
    if k in t.g.terminal || k !in t.g.submissions {
      PollMissing(t, k);
    } else if t.g.submissions[k].completedAt.Some? {
      PollCompleted(t, k);
    } else if t.g.device && d.fence(k) == Signalled {
      LiveIsHeld(t.g, k, d);
      MarkKeepsTrace(t, k, now);
      MarkedAnswer(t.g, k, now);
    } else if status != Pending {
      var r := if status == TimedOut then Record(TimedOut, Timeout, now) else Record(Missing, DriverUnavailable, now);
      TerminalizeKeepsTrace(t, k, r);
      TerminalAnswer(t, k, r);
    }
    AnswerKeepsTrace(Advance(t, g), Answer(k, status));
  }

  lemma TraceParts(t: Trace)
    requires TraceOk(t)
    ensures TerminalOk(t.g) && MemoryOk(t.g)
  {
  }

  lemma LiveIsHeld(g: Inner, k: Key, d: Device)
    ensures k in g.submissions && d.fence(k) == Signalled ==> k in SignalledNow(g, d)
  {
  }

  lemma PendingIsFine(g: Inner, k: Key)
    ensures AnswerOk(g, Answer(k, Pending))
  {
  }

  lemma PollCompleted(t: Trace, k: Key)
    requires TerminalOk(t.g) && k in t.g.submissions && t.g.submissions[k].completedAt.Some?
    ensures AnswerOk(t.g, Answer(k, Completed))
  {
  }

  lemma PollMissing(t: Trace, k: Key)
    requires TraceOk(t)
    ensures k in t.g.terminal ==> AnswerOk(t.g, Answer(k, t.g.terminal[k].status))
    ensures k !in t.g.terminal && k !in t.g.submissions ==> AnswerOk(t.g, Answer(k, Missing))
  {
    hide GpuKeys, NoDuplicates;
  }

  lemma MarkedAnswer(g: Inner, k: Key, now: nat)
    requires TerminalOk(g) && k in g.submissions
    ensures AnswerOk(Marked(g, k, now), Answer(k, Completed))
  {
  }

  lemma TerminalAnswer(t: Trace, k: Key, r: Record)
    requires TerminalOk(t.g) && k in t.g.submissions && (r.status == TimedOut || r.status == Missing)
    ensures AnswerOk(Fault(Terminalize(t.g, k, r)), Answer(k, r.status))
  {
    hide InsertTerminal;
    var q := t.g.(submissions := t.g.submissions - {k}, quarantined := t.g.quarantined[k := t.g.submissions[k]]);
    InsertKeeps(q, k, r);
    InsertKeepsTerminal(q, k, r);
  }

  // -------------------------------------------------------- waiting and retiring

  lemma TakeIsCalm(t: Trace, k: Key)
    requires TerminalOk(t.g)
    ensures Calm(t, TakeTerminal(t.g, k)) && Held(TakeTerminal(t.g, k)) == Held(t.g)
  {
    hide TerminalOk, TakeTerminal, Held, Without;
    TakeKeepsTerminal(t.g, k);
    SameHeldParts(t.g, TakeTerminal(t.g, k));
    FewerRecords(t, TakeTerminal(t.g, k), k);
  }

  lemma FewerRecords(t: Trace, g: Inner, k: Key)
    requires g == t.g.(terminal := g.terminal, order := g.order) && g.terminal == t.g.terminal - {k}
    ensures Calm(t, g)
  {
    SameHeldParts(t.g, g);
  }

  lemma TakeKeepsMemory(g: Inner, k: Key)
    requires MemoryOk(g)
    ensures MemoryOk(TakeTerminal(g, k))
  {
    hide SumBytes, Without;
  }

  lemma TakeKeepsTrace(t: Trace, k: Key)
    requires TraceOk(t)
    ensures TraceOk(Advance(t, TakeTerminal(t.g, k))) && Held(TakeTerminal(t.g, k)) == Held(t.g)
  {
    hide HistoryOk, TerminalOk, MemoryOk, TakeTerminal, Calm, Held;
    TakeKeepsTerminal(t.g, k);
    TakeKeepsMemory(t.g, k);
    TakeIsCalm(t, k);
    CalmKeepsHistory(t, TakeTerminal(t.g, k));
  }

  function Dropped(g: Inner, k: Key): Inner
  {
    g.(submissions := g.submissions - {k})
  }

  lemma QuarantinedIsCalm(t: Trace, k: Key)
    requires k in t.g.submissions
    ensures Calm(t, Quarantined(t.g, k)) && Held(Quarantined(t.g, k)) == Held(t.g)
  {
  }

  lemma QuarantineKeepsTrace(t: Trace, k: Key)
    requires TraceOk(t) && k in t.g.submissions
    ensures TraceOk(Advance(t, Quarantined(t.g, k))) && TraceOk(Advance(t, Fault(Quarantined(t.g, k))))
    ensures Held(Quarantined(t.g, k)) == Held(t.g)
  {
    hide HistoryOk, TerminalOk, MemoryOk, Calm, Quarantined;
    QuarantinedIsCalm(t, k);
    QuarantineMemory(t.g, k);
    QuarantineKeepsTerminal(t.g, k);
    CalmKeepsHistory(t, Quarantined(t.g, k));
    FaultKeepsParts(t, Quarantined(t.g, k));
  }

  lemma QuarantineMemory(g: Inner, k: Key)
    requires MemoryOk(g) && k in g.submissions
    ensures MemoryOk(Quarantined(g, k))
  {
    QuarantineKeepsMemory(g, k);
  }

  lemma FaultKeepsParts(t: Trace, g: Inner)
    ensures MemoryOk(g) ==> MemoryOk(Fault(g))
    ensures TerminalOk(g) ==> TerminalOk(Fault(g))
    ensures HistoryOk(Advance(t, g)) ==> HistoryOk(Advance(t, Fault(g)))
  {
    hide SumBytes, NoDuplicates, GpuKeys, Held;
    SameHeldParts(g, Fault(g));
    var u, v := Advance(t, g), Advance(t, Fault(g));
    assert forall a :: AnswerOk(g, a) <==> AnswerOk(Fault(g), a);
    assert HandlesOk(u.g, u.handles) ==> HandlesOk(v.g, v.handles);
    assert StoredOk(u) ==> StoredOk(v);
  }

  lemma ReleaseIsCalm(t: Trace, k: Key)
    requires k in t.g.submissions && k in t.signalled
    ensures Calm(t, Freed(Dropped(t.g, k), t.g.submissions[k].size))
  {
  }

  lemma ReleaseKeepsTrace(t: Trace, k: Key)
    requires TraceOk(t) && k in t.g.submissions && k in t.signalled
    ensures TraceOk(Advance(t, Freed(Dropped(t.g, k), t.g.submissions[k].size)))
    ensures Held(Freed(Dropped(t.g, k), t.g.submissions[k].size)) <= Held(t.g)
  {
    hide HistoryOk, SumBytes, NoDuplicates;
    ReleaseIsCalm(t, k);
    ReleaseKeepsMemory(t.g, k);
    CalmKeepsHistory(t, Freed(Dropped(t.g, k), t.g.submissions[k].size));
  }

  /** A submission whose fence was signalled leaves the live ones. */
  lemma LeaveKeepsTrace(t: Trace, k: Key, d: Device)
    requires TraceOk(t) && k in t.g.submissions && k in t.signalled
    ensures var g := ReleaseOrQuarantine(Dropped(t.g, k), k, t.g.submissions[k], d);
      TraceOk(Advance(t, g)) && Held(g) <= Held(t.g) && k !in g.submissions
      && g.submissions == t.g.submissions - {k} && g.terminal == t.g.terminal
  {
    hide TraceOk, Held, Advance;
    ReleaseKeepsTrace(t, k);
    QuarantineKeepsTrace(t, k);
    SameHeldParts(Quarantined(t.g, k), Fault(Quarantined(t.g, k)));
  }

  lemma ResultKeepsTrace(t: Trace, k: Key)
    requires TraceOk(t) && k !in t.g.submissions && k in t.signalled && k in GpuKeys(t.handles) && k !in t.results
    ensures TraceOk(t.(results := t.results + [k]))
  {
    hide MemoryOk, TerminalOk, HandlesOk, GpuKeys;
    AppendDistinct(t.results, k);
    assert forall a :: a in t.answers ==> AnswerOk(t.g, a);
  }

  lemma CompletedIsSignalled(t: Trace, k: Key)
    requires TraceOk(t) && k in t.g.submissions && Answer(k, Completed) in t.answers
    ensures k in t.signalled && k !in t.results && k in GpuKeys(t.handles)
  {
    assert AnswerOk(t.g, Answer(k, Completed));
    assert k in Held(t.g);
  }

  lemma StayKeepsTrace(t: Trace)
    requires TraceOk(t)
    ensures TraceOk(Advance(t, t.g))
  {
    SameHeld(t, t.g);
  }

  lemma FinishKeepsTrace(t: Trace, h: Handle, status: Status, now: nat, d: Device)
    requires TraceOk(t) && Allowed(t, Finishes(h, status, now))
    ensures var (g, result) := Finish(t.g, h, status, now, d);
      TraceOk(if result.path == Gpu then Advance(t, g).(results := t.results + [h.key]) else Advance(t, g))
  {
    hide TraceOk, Held, Advance, TakeTerminal, ReleaseOrQuarantine;
    var k := h.key;
    StayKeepsTrace(t);
    TakeKeepsTrace(t, k);
    if h.path == Gpu && status == Completed && k in t.g.submissions && k !in t.g.terminal {
      CompletedIsSignalled(t, k);
      LeaveKeepsTrace(t, k, d);
      var g := ReleaseOrQuarantine(Dropped(t.g, k), k, t.g.submissions[k], d);
      AdvanceShape(t, g);
      ResultKeepsTrace(Advance(t, g), k);
    }
  }

  lemma AdvanceShape(t: Trace, g: Inner)
    ensures Advance(t, g) == t.(g := g, released := Advance(t, g).released)
  {
  }

  lemma RetireKeepsTrace(t: Trace, k: Key, d: Device)
    requires TraceOk(t) && SignalledNow(t.g, d) <= t.signalled
    ensures TraceOk(Advance(t, RetireReaped(t.g, k, d))) && Held(RetireReaped(t.g, k, d)) <= Held(t.g)
  {
    hide TraceOk, Held, Advance, TakeTerminal, ReleaseOrQuarantine;
    TakeKeepsTrace(t, k);
    if k in t.g.submissions {
      var s := t.g.submissions[k];
      var left := Dropped(t.g, k);
      LiveIsHeld(t.g, k, d);
      QuarantineKeepsTrace(t, k);
      SameHeldParts(Quarantined(t.g, k), Fault(Quarantined(t.g, k)));
      var g := if t.g.device && d.fence(k) == Signalled then ReleaseOrQuarantine(left, k, s, d)
               else if !t.g.device || d.fence(k) == DeviceError then Fault(Quarantined(t.g, k))
               else Quarantined(t.g, k);
      if t.g.device && d.fence(k) == Signalled {
        LeaveKeepsTrace(t, k, d);
      }
      assert RetireReaped(t.g, k, d) == TakeTerminal(g, k);
      AdvanceShape(t, g);
      TakeKeepsTrace(Advance(t, g), k);
      AdvanceTwice(t, g, TakeTerminal(g, k));
    }
  }

  // ------------------------------------------------------------------------ submitting

  lemma GpuKeysMore(handles: seq<Handle>, h: Handle)
    ensures GpuKeys(handles + [h]) == GpuKeys(handles) + if h.path == Gpu then {h.key} else {}
  {
    assert forall x :: x in handles + [h] <==> x in handles || x == h;
  }

  /** The next key follows every key handed out before. */
  lemma AllocateKeepsHandles(g: Inner, handles: seq<Handle>, h: Handle)
    requires HandlesOk(g, handles) && h.key == Allocate(g).1 && (h.path == Gpu ==> h.key != Key(0, 0))
    ensures HandlesOk(Allocate(g).0, handles + [h])
    ensures h.key != Key(0, 0) ==> forall i :: 0 <= i < |handles| ==> handles[i].key != h.key
    ensures h.key.id == 0 ==> h.key == Key(0, 0)
  {
    var n := Allocate(g).0;
    var more := handles + [h];
    forall i | 0 <= i < |handles|
      ensures KeyFresh(n, more[i].key)
    {
      assert more[i] == handles[i];
      assert KeyFresh(g, handles[i].key);
    }
    assert KeyFresh(n, h.key);
    forall i, j | 0 <= i < j < |more|
      ensures KeyFollows(more[i].key, more[j].key)
    {
      if j == |handles| {
        assert KeyFresh(g, handles[i].key);
      }
    }
  }

  lemma NewKeyIsUnknown(t: Trace, k: Key)
    requires HistoryOk(t) && forall i :: 0 <= i < |t.handles| ==> t.handles[i].key != k
    ensures k !in GpuKeys(t.handles) && k !in Held(t.g) && k !in t.released
    ensures k !in t.g.terminal && k !in t.results && forall a :: a in t.answers ==> a.key != k
  {
  }

  /** A handle whose work stays on the CPU. */
  lemma FallbackKeepsTrace(t: Trace, h: Handle)
    requires TraceOk(t) && h.key == Allocate(t.g).1 && h.path == CpuFallback
    ensures TraceOk(Advance(t, Allocate(t.g).0).(handles := t.handles + [h]))
    ensures TraceOk(Advance(t, Fault(Allocate(t.g).0)).(handles := t.handles + [h]))
  {
    hide GpuKeys, HandlesOk, SumBytes, NoDuplicates;
    AllocateKeepsHandles(t.g, t.handles, h);
    GpuKeysMore(t.handles, h);
    var n := Allocate(t.g).0;
    AllocateKeeps(t.g);
    SameHeldParts(t.g, n);
    SameHeld(t, n);
    SameSubmissions(t, n, t.handles + [h]);
    FaultedHandles(n, t.handles + [h]);
    SameHeldParts(t.g, Fault(n));
    SameHeld(t, Fault(n));
    SameSubmissions(t, Fault(n), t.handles + [h]);
  }

  lemma FaultedHandles(g: Inner, handles: seq<Handle>)
    requires HandlesOk(g, handles)
    ensures HandlesOk(Fault(g), handles)
  {
  }

  /** Nothing but the handles and the key counters changed. */
  lemma SameSubmissions(t: Trace, g: Inner, handles: seq<Handle>)
    requires TraceOk(t) && HandlesOk(g, handles) && GpuKeys(handles) == GpuKeys(t.handles)
    requires g == t.g.(nextId := g.nextId, generation := g.generation, exhausted := g.exhausted, state := g.state, computeAvailable := g.computeAvailable)
    ensures TraceOk(t.(g := g, handles := handles))
  {
    hide GpuKeys, HandlesOk, StoredOk, AnswersOk, ResultsOk, MemoryOk, TerminalOk;
    SameInner(t.g, g);
    SameHistory(t, g, handles);
  }

  lemma SameInner(g: Inner, h: Inner)
    requires h == g.(nextId := h.nextId, generation := h.generation, exhausted := h.exhausted, state := h.state,
                     computeAvailable := h.computeAvailable, device := h.device)
    ensures MemoryOk(g) ==> MemoryOk(h)
    ensures TerminalOk(g) ==> TerminalOk(h)
  {
    hide SumBytes, NoDuplicates;
  }

  lemma SameHistory(t: Trace, g: Inner, handles: seq<Handle>)
    requires StoredOk(t) && AnswersOk(t) && ResultsOk(t) && GpuKeys(handles) == GpuKeys(t.handles)
    requires g.submissions == t.g.submissions && g.quarantined == t.g.quarantined && g.terminal == t.g.terminal
    ensures StoredOk(t.(g := g, handles := handles)) && AnswersOk(t.(g := g, handles := handles)) && ResultsOk(t.(g := g, handles := handles))
  {
    hide GpuKeys, NoDuplicates, Held;
    SameHeldParts(t.g, g);
    forall a | a in t.answers
      ensures AnswerOk(g, a)
    {
      assert AnswerOk(t.g, a);
    }
  }

  lemma StoreKeepsStored(t: Trace, n: Inner, handles: seq<Handle>, k: Key, s: Stored)
    requires StoredOk(t) && n.submissions == t.g.submissions && n.quarantined == t.g.quarantined
    requires GpuKeys(handles) == GpuKeys(t.handles) + {k} && s.completedAt.None?
    requires k !in Held(t.g) && k !in t.released
    ensures StoredOk(Advance(t, Store(n, k, s)).(handles := handles))
    ensures Advance(t, Store(n, k, s)).released == t.released
  {
    hide GpuKeys;
    assert Held(Store(n, k, s)) == Held(t.g) + {k};
    assert Held(t.g) - Held(Store(n, k, s)) == {};
  }

  lemma StoreKeepsAnswers(t: Trace, n: Inner, handles: seq<Handle>, k: Key, s: Stored)
    requires AnswersOk(t) && ResultsOk(t) && n.submissions == t.g.submissions && n.terminal == t.g.terminal
    requires GpuKeys(handles) == GpuKeys(t.handles) + {k}
    requires k !in t.g.terminal && k !in t.results && forall a :: a in t.answers ==> a.key != k
    ensures AnswersOk(Advance(t, Store(n, k, s)).(handles := handles))
    ensures ResultsOk(Advance(t, Store(n, k, s)).(handles := handles))
  {
    hide GpuKeys, Held, NoDuplicates;
    var u := Advance(t, Store(n, k, s)).(handles := handles);
    forall a | a in u.answers
      ensures AnswerOk(u.g, a)
    {
      assert AnswerOk(t.g, a);
    }
  }

  lemma StoreKeepsHandles(g: Inner, k: Key, s: Stored, handles: seq<Handle>)
    requires HandlesOk(g, handles)
    ensures HandlesOk(Store(g, k, s), handles)
  {
  }

  lemma StoreKeepsTerminal(g: Inner, n: Inner, k: Key, s: Stored)
    requires TerminalOk(g) && n.submissions == g.submissions && n.terminal == g.terminal && n.order == g.order && k !in g.terminal
    ensures TerminalOk(Store(n, k, s))
  {
    hide NoDuplicates;
  }

  lemma AllocateKeepsMemory(g: Inner)
    requires MemoryOk(g)
    ensures MemoryOk(Allocate(g).0)
  {
    hide SumBytes;
  }

  /** A handle whose work is queued on the GPU. */
  lemma QueuedKeepsTrace(t: Trace, s: Stored)
    requires TraceOk(t) && Allocate(t.g).1.id != 0 && s.completedAt.None?
    requires |t.g.submissions| + |t.g.quarantined| < MAX_PENDING_GPU_SUBMISSIONS
    requires t.g.currentBytes + s.size <= MAX_TOTAL_GPU_ALLOCATION_BYTES
    ensures var (n, k) := Allocate(t.g);
      TraceOk(Advance(t, Store(n, k, s)).(handles := t.handles + [Handle(k, Gpu, None)]))
  {
    hide GpuKeys, HandlesOk, TerminalOk, MemoryOk, StoredOk, AnswersOk, ResultsOk, Store, Held, Allocate;
    var (n, k) := Allocate(t.g);
    var h := Handle(k, Gpu, None);
    AllocateKeeps(t.g);
    AllocateKeepsHandles(t.g, t.handles, h);
    GpuKeysMore(t.handles, h);
    NewKeyIsUnknown(t, k);
    AllocateKeepsMemory(t.g);
    HeldParts(t.g, k);
    StoreKeepsMemory(n, k, s);
    StoreKeepsTerminal(t.g, n, k, s);
    StoreKeepsHandles(n, k, s, t.handles + [h]);
    StoreKeepsStored(t, n, t.handles + [h], k, s);
    StoreKeepsAnswers(t, n, t.handles + [h], k, s);
  }

  lemma HeldParts(g: Inner, k: Key)
    ensures k !in Held(g) <==> k !in g.submissions && k !in g.quarantined
  {
  }

  lemma SubmitKeepsTrace(config: Config, t: Trace, s: Submission, a: Attempt, now: nat, d: Device)
    requires TraceOk(t) && SignalledNow(t.g, d) <= t.signalled
    ensures var (g, h) := Submit(config, t.g, s, a, now, d);
      TraceOk(Advance(t, g).(handles := t.handles + [h]))
  {
    hide TraceOk, Held, Reap, Allocate, Store, Fault;
    ReapKeepsTrace(t, d);
    var r := Reap(t.g, d);
    var u := Advance(t, r);
    AdvanceShape(t, r);
    var (n, k) := Allocate(r);
    var (g, h) := Submit(config, t.g, s, a, now, d);
    if h.path == CpuFallback {
      FallbackKeepsTrace(u, h);
      AllocateHolds(r);
      AdvanceTwice(t, r, g);
    } else {
      var stored := Stored(a.size, now + EffectiveTimeout(s.timeout, config.submitTimeout), None, s.requiresZeroize);
      AllocateKeeps(r);
      QueuedKeepsTrace(u, stored);
      TraceUnknown(u, k);
      AdvanceNew(t, r, n, k, stored);
    }
  }

  lemma AllocateHolds(g: Inner)
    ensures Held(Allocate(g).0) == Held(g) && Held(Fault(Allocate(g).0)) == Held(g)
  {
  }

  lemma TraceUnknown(t: Trace, k: Key)
    requires TraceOk(t) && k == Allocate(t.g).1 && k.id != 0
    ensures k !in Held(t.g) && k !in t.released && k !in GpuKeys(t.handles)
  {
    hide Held, GpuKeys, StoredOk, AnswersOk, ResultsOk;
    AllocateKeepsHandles(t.g, t.handles, Handle(k, Gpu, None));
    NewKeyIsUnknown(t, k);
  }

  /** A reap, then a submission under a key never held. */
  lemma AdvanceNew(t: Trace, r: Inner, n: Inner, k: Key, s: Stored)
    requires Held(r) <= Held(t.g) && n.submissions == r.submissions && n.quarantined == r.quarantined
    requires k !in Held(t.g)
    ensures Advance(Advance(t, r), Store(n, k, s)) == Advance(t, Store(n, k, s))
  {
    assert Held(Store(n, k, s)) == Held(r) + {k};
    assert Held(r) - Held(Store(n, k, s)) == {};
    assert Held(t.g) - Held(Store(n, k, s)) == Held(t.g) - Held(r);
  }

  // ------------------------------------------------------------------------------ runs

  lemma InitializeShape(config: Config, g: Inner, works: bool)
    ensures var h := Initialize(config, g, works); h == g.(state := h.state, computeAvailable := h.computeAvailable, device := h.device)
  {
  }

  lemma SameCounters(g: Inner, h: Inner, handles: seq<Handle>)
    requires HandlesOk(g, handles) && h.nextId == g.nextId && h.generation == g.generation && h.exhausted == g.exhausted
    ensures HandlesOk(h, handles)
  {
  }

  lemma InitializeKeepsTrace(config: Config, t: Trace, works: bool)
    requires TraceOk(t)
    ensures TraceOk(Advance(t, Initialize(config, t.g, works)))
  {
    hide MemoryOk, TerminalOk, HandlesOk, StoredOk, AnswersOk, ResultsOk, GpuKeys, Held, Initialize;
    var g := Initialize(config, t.g, works);
    InitializeShape(config, t.g, works);
    SameHeldParts(t.g, g);
    SameHeld(t, g);
    SameInner(t.g, g);
    SameCounters(t.g, g, t.handles);
    SameHistory(t, g, t.handles);
  }

  lemma SignalledKeepsTrace(t: Trace, d: Device)
    requires TraceOk(t)
    ensures TraceOk(t.(signalled := t.signalled + SignalledNow(t.g, d)))
  {
    hide MemoryOk, TerminalOk, HistoryOk;
    MoreSignalled(t, SignalledNow(t.g, d));
  }

  lemma PollCallKeepsTrace(config: Config, t: Trace, h: Handle, now: nat, d: Device)
    requires TraceOk(t) && SignalledNow(t.g, d) <= t.signalled && h in t.handles && h.path == Gpu
    ensures var (g, status) := Poll(t.g, h, now, d); TraceOk(Advance(t, g).(answers := t.answers + {Answer(h.key, status)}))
  {
    hide TraceOk, Held, Reap, PollReaped;
    ReapKeepsTrace(t, d);
    var r := Reap(t.g, d);
    AdvanceShape(t, r);
    GpuKeyOf(t.handles, h);
    PollKeepsTrace(Advance(t, r), h.key, now, d);
    PollHolds(r, h.key, now, d);
    AdvanceTwice(t, r, PollReaped(r, h.key, now, d).0);
  }

  lemma PollHolds(g: Inner, k: Key, now: nat, d: Device)
    ensures Held(PollReaped(g, k, now, d).0) == Held(g)
  {
    hide InsertTerminal;
    if k in g.submissions {
      QuarantineKeepsHeld(g, k);
      forall r: Record
        ensures Held(Fault(Terminalize(g, k, r))) == Held(g)
      {
        InsertKeeps(Quarantined(g, k), k, r);
        SameHeldParts(Quarantined(g, k), Fault(Terminalize(g, k, r)));
      }
    }
  }

  /** Every call, in whatever order, keeps everything. */
  lemma NextKeepsTrace(config: Config, t0: Trace, c: Call, d: Device)
    requires TraceOk(t0) && Allowed(t0, c)
    ensures TraceOk(Next(config, t0, c, d))
    ensures t0.handles <= Next(config, t0, c, d).handles && t0.answers <= Next(config, t0, c, d).answers
    ensures t0.results <= Next(config, t0, c, d).results
  {
    hide TraceOk, Held, Reap, RetireReaped, Submit, Poll, Finish, Initialize, SignalledNow, GpuKeys;
    SignalledKeepsTrace(t0, d);
    var t := t0.(signalled := t0.signalled + SignalledNow(t0.g, d));
    match c
    case Submits(s, a, now) => SubmitKeepsTrace(config, t, s, a, now, d);
    case Polls(h, now) => if h.path == Gpu { PollCallKeepsTrace(config, t, h, now, d); }
    case Finishes(h, status, now) => FinishKeepsTrace(t, h, status, now, d);
    case Retires(h) =>
      StayKeepsTrace(t);
      ReapKeepsTrace(t, d);
      var r := Reap(t.g, d);
      AdvanceShape(t, r);
      RetireKeepsTrace(Advance(t, r), h.key, d);
      AdvanceTwice(t, r, RetireReaped(r, h.key, d));
    case ReadsMetrics => ReapKeepsTrace(t, d);
    case Initializes(works) => InitializeKeepsTrace(config, t, works);
  }

  /** A call together with what the device answers meanwhile. */
  datatype Occurrence = Occurrence(call: Call, device: Device)

  ghost function After(config: Config, t: Trace, run: seq<Occurrence>): Trace
    decreases |run|
  {
    if run == [] then t else After(config, Next(config, t, run[0].call, run[0].device), run[1..])
  }

  ghost predicate AllowedRun(config: Config, t: Trace, run: seq<Occurrence>)
    decreases |run|
  {
    run != [] ==> Allowed(t, run[0].call) && AllowedRun(config, Next(config, t, run[0].call, run[0].device), run[1..])
  }

  lemma {:induction false} RunKeepsTrace(config: Config, t: Trace, run: seq<Occurrence>)
    requires TraceOk(t) && AllowedRun(config, t, run)
    ensures TraceOk(After(config, t, run))
    ensures t.handles <= After(config, t, run).handles && t.answers <= After(config, t, run).answers
    ensures t.results <= After(config, t, run).results
    decreases |run|
  {
    hide TraceOk, Next, Allowed;
    if run != [] {
      NextKeepsTrace(config, t, run[0].call, run[0].device);
      RunKeepsTrace(config, Next(config, t, run[0].call, run[0].device), run[1..]);
    }
  }

  lemma StartIsOk()
    ensures TraceOk(START)
  {
    assert Held(FRESH) == {};
  }

  /** Over any run: live and quarantined submissions stay apart and within 64, the byte count
      is exactly what they hold and within 256 MiB, the peak is never below it. */
  lemma MemoryIsConserved(config: Config, run: seq<Occurrence>)
    requires AllowedRun(config, START, run)
    ensures var g := After(config, START, run).g;
      && g.submissions.Keys !! g.quarantined.Keys && |g.submissions| + |g.quarantined| <= 64
      && g.currentBytes == SumBytes(g.submissions) + SumBytes(g.quarantined)
      && g.currentBytes <= 256 * 1024 * 1024 && g.currentBytes <= g.peakBytes
  {
    hide After, AllowedRun, HistoryOk, TerminalOk, SumBytes, MemoryOk;
    StartIsOk();
    RunKeepsTrace(config, START, run);
    MemoryMeans(After(config, START, run).g);
  }

  lemma MemoryMeans(g: Inner)
    requires MemoryOk(g)
    ensures g.submissions.Keys !! g.quarantined.Keys && |g.submissions| + |g.quarantined| <= 64
    ensures g.currentBytes == SumBytes(g.submissions) + SumBytes(g.quarantined)
    ensures g.currentBytes <= 256 * 1024 * 1024 && g.currentBytes <= g.peakBytes
  {
    hide SumBytes;
  }

  /** Over any run: every GPU handle's submission is held or released, never both, and
      released only after its fence was seen signalled. */
  lemma ReleasedOnlyWhenSignalled(config: Config, run: seq<Occurrence>)
    requires AllowedRun(config, START, run)
    ensures var t := After(config, START, run);
      Held(t.g) + t.released == GpuKeys(t.handles) && Held(t.g) !! t.released && t.released <= t.signalled
  {
    hide After, AllowedRun, MemoryOk, TerminalOk, HandlesOk, AnswersOk, ResultsOk;
    StartIsOk();
    RunKeepsTrace(config, START, run);
  }

  /** Over any run: at most one waiter of a handle gets the GPU's result, and only for a
      fence that was signalled. */
  lemma OneGpuResult(config: Config, run: seq<Occurrence>)
    requires AllowedRun(config, START, run)
    ensures NoDuplicates(After(config, START, run).results)
    ensures forall k :: k in After(config, START, run).results ==> k in After(config, START, run).signalled
  {
    hide After, AllowedRun, MemoryOk, TerminalOk, HandlesOk, AnswersOk, StoredOk;
    StartIsOk();
    RunKeepsTrace(config, START, run);
  }

  /** Over any run: the terminal queue lists exactly the recorded keys, each once, at most
      128 of them. */
  lemma TerminalHistoryIsBounded(config: Config, run: seq<Occurrence>)
    requires AllowedRun(config, START, run)
    ensures var g := After(config, START, run).g;
      NoDuplicates(g.order) && (forall k :: k in g.terminal <==> k in g.order) && |g.terminal| == |g.order| <= 128
  {
    hide After, AllowedRun, MemoryOk, HistoryOk;
    StartIsOk();
    RunKeepsTrace(config, START, run);
  }

  /** Over any run: keys strictly increase across the wrap of the id, are never handed out
      twice, and after the last one only the reserved key of the CPU fallback is left. */
  lemma HandlesIncrease(config: Config, run: seq<Occurrence>, i: nat, j: nat)
    requires AllowedRun(config, START, run) && i < j < |After(config, START, run).handles|
    ensures var handles := After(config, START, run).handles;
      && (KeyBefore(handles[i].key, handles[j].key) || (handles[j].key == Key(0, 0) && handles[j].path == CpuFallback))
      && (handles[i].key == Key(0, 0) ==> handles[j].key == Key(0, 0))
  {
    hide After, AllowedRun, MemoryOk, TerminalOk, StoredOk, AnswersOk, ResultsOk;
    StartIsOk();
    RunKeepsTrace(config, START, run);
  }

  /** Verdicts are stable: once a poll of a handle answered completed, no later poll answers
      pending or timed out; once it answered timed out, none answers pending or completed;
      once missing, always missing. */
  lemma VerdictsAreStable(config: Config, before: seq<Occurrence>, between: seq<Occurrence>, h: Handle, verdict: Status, now: nat, d: Device)
    requires AllowedRun(config, START, before)
    requires h.path == Gpu && Answer(h.key, verdict) in After(config, START, before).answers && verdict != Pending
    requires AllowedRun(config, After(config, START, before), between)
    requires h in After(config, START, before).handles
    ensures var answer := Poll(After(config, After(config, START, before), between).g, h, now, d).1;
      answer == Missing || answer == verdict
  {
    hide After, AllowedRun, TraceOk;
    StartIsOk();
    RunKeepsTrace(config, START, before);
    var t := After(config, START, before);
    RunKeepsTrace(config, t, between);
    LaterAnswer(After(config, t, between), h.key, verdict, now, d);
  }

  lemma LaterAnswer(t: Trace, k: Key, verdict: Status, now: nat, d: Device)
    requires TraceOk(t) && Answer(k, verdict) in t.answers && verdict != Pending
    ensures var answer := PollReaped(Reap(t.g, d), k, now, d).1; answer == Missing || answer == verdict
  {
    hide Reap, GpuKeys, MemoryOk, HandlesOk, StoredOk, ResultsOk, Terminalize;
    ReapShape(t.g, d);
    assert AnswerOk(t.g, Answer(k, verdict));
  }
}
