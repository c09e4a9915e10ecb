/** compd's version gate: which scenes it still relays, and the marker of the newest one it
    could not deliver. */
module Gate {
  import opened Machine
  import opened SceneTypes

  /** `RelayResourceUsage`. */
  datatype Usage = Usage(surfaces: nat, pixelPayloads: nat, pixelBytes: nat)

  /** `PendingRelayScene`. */
  datatype Marker = Marker(version: Version, usage: Usage, reason: string)

  /** The fields of `CompdRelayState`. */
  datatype State = State(forwarded: Version, pending: Option<Marker>, accepted: U64, deferred: U64, superseded: U64)
  {
    /** `version_floor`. */
    function Floor(): Version
    {
      if pending.Some? && forwarded.Less(pending.value.version) then pending.value.version else forwarded
    }

    /** `should_reject_version`. */
    predicate Rejects(v: Version)
    {
      var floor := Floor();
      floor != UNVERSIONED
      && (v == UNVERSIONED || v.Less(floor) || (v == floor && (pending.None? || pending.value.version != v)))
    }

    /** `note_forwarded`. */
    function NoteForwarded(v: Version): State
    {
      State(if v != UNVERSIONED && forwarded.AtMost(v) then v else forwarded,
            if pending.Some? && pending.value.version.AtMost(v) then None else pending,
            Inc(accepted), deferred, superseded)
    }

    /** `defer_latest`. */
    function DeferLatest(m: Marker): State
    {
      var replace := pending.None? || pending.value.version.AtMost(m.version);
      State(forwarded,
            if replace then Some(m) else pending,
            accepted, Inc(deferred),
            if replace && pending.Some? then Inc(superseded) else superseded)
    }
  }

  const EMPTY := State(UNVERSIONED, None, 0, 0, 0)

  /** The object that holds them. */
  class CompdRelayState {
    var lastForwardedEpoch: U64
    var lastForwardedGeneration: U64
    var pending: Option<Marker>
    var acceptedCount: U64
    var deferredCount: U64
    var supersededCount: U64

    ghost function Abstract(): State
      reads this
    {
      State(Version(lastForwardedEpoch, lastForwardedGeneration), pending, acceptedCount, deferredCount, supersededCount)
    }

    constructor ()
      ensures Abstract() == EMPTY
    {
      lastForwardedEpoch, lastForwardedGeneration := 0, 0;
      pending := None;
      acceptedCount, deferredCount, supersededCount := 0, 0, 0;
    }

    method VersionFloor() returns (floor: Version)
      ensures floor == Abstract().Floor()
    {
      floor := Version(lastForwardedEpoch, lastForwardedGeneration);
      if pending.Some? && floor.Less(pending.value.version) {
        floor := pending.value.version;
      }
    }

    method ShouldRejectVersion(incoming: Version) returns (reject: bool)
      ensures reject == Abstract().Rejects(incoming)
    {
      var floor := VersionFloor();
      if floor == UNVERSIONED {
        return false;
      }
      if incoming == UNVERSIONED {
        return true;
      }
      if incoming.Less(floor) {
        return true;
      }
      if incoming == floor {
        return if pending.Some? then pending.value.version != incoming else true;
      }
      reject := false;
    }

    method NoteForwarded(version: Version)
      modifies this
      ensures Abstract() == old(Abstract()).NoteForwarded(version)
    {
      if version != UNVERSIONED && Version(lastForwardedEpoch, lastForwardedGeneration).AtMost(version) {
        lastForwardedEpoch := version.epoch;
        lastForwardedGeneration := version.generation;
      }
      if pending.Some? && pending.value.version.AtMost(version) {
        pending := None;
      }
      acceptedCount := Inc(acceptedCount);
    }

    method DeferLatest(version: Version, usage: Usage, reason: string)
      modifies this
      ensures Abstract() == old(Abstract()).DeferLatest(Marker(version, usage, reason))
    {
      var replace := pending.None? || pending.value.version.AtMost(version);
      if replace {
        if pending.Some? {
          supersededCount := Inc(supersededCount);
        }
        pending := Some(Marker(version, usage, reason));
      }
      deferredCount := Inc(deferredCount);
    }
  }

  // ---------------------------------------------------------------------------- runs

  /** What became of a scene that reached the gate. */
  datatype Passage = Forwarded(version: Version) | Deferred(marker: Marker)
  {
    function Of(): Version
    {
      match this
      case Forwarded(v) => v
      case Deferred(m) => m.version
    }
  }

  /** The gate with what has gone through it so far; `resolved` counts the markers that a
      forwarded scene took away. */
  datatype Trace = Trace(state: State, acknowledged: seq<Version>, delayed: seq<Marker>, resolved: nat)

  /** One scene at the gate: turned away, or let through and then forwarded or deferred. */
  function Pass(t: Trace, p: Passage): Trace
  {
    if t.state.Rejects(p.Of()) then t
    else
      match p
      case Forwarded(v) =>
        var next := t.state.NoteForwarded(v);
        Trace(next, t.acknowledged + [v], t.delayed, t.resolved + if t.state.pending.Some? && next.pending.None? then 1 else 0)
      case Deferred(m) =>
        Trace(t.state.DeferLatest(m), t.acknowledged, t.delayed + [m], t.resolved)
  }

  function PassAll(t: Trace, ps: seq<Passage>): Trace
    decreases |ps|
  {
    if ps == [] then t else PassAll(Pass(t, ps[0]), ps[1..])
  }

  const START := Trace(EMPTY, [], [], 0)

  /** Versioned entries only ever go up; an unversioned one has nothing versioned before it. */
  ghost predicate Increasing(vs: seq<Version>)
  {
    forall i, j :: 0 <= i < j < |vs| ==> vs[i].Less(vs[j]) || (vs[i] == UNVERSIONED && vs[j] == UNVERSIONED)
  }

  ghost predicate TraceOk(t: Trace)
  {
    var s := t.state;
    // the marker is ahead of what was forwarded, or nothing versioned has passed at all
    && (s.pending.Some? ==> s.forwarded.Less(s.pending.value.version) || (s.forwarded == UNVERSIONED && s.pending.value.version == UNVERSIONED))
    // it is the newest deferred scene, and every other one has been overtaken
    && (s.pending.Some? ==> t.delayed != [] && t.delayed[|t.delayed| - 1] == s.pending.value)
    && (forall i :: 0 <= i < |t.delayed| ==> t.delayed[i].version.AtMost(s.Floor()))
    // what was acknowledged
    && Increasing(t.acknowledged)
    && (forall i :: 0 <= i < |t.acknowledged| ==> t.acknowledged[i].AtMost(s.forwarded))
    && (s.forwarded != UNVERSIONED ==> s.forwarded in t.acknowledged)
    // the counters, up to saturation
    && s.accepted == Min(|t.acknowledged|, U64_MAX)
    && s.deferred == Min(|t.delayed|, U64_MAX)
    && s.superseded <= s.deferred
    && (s.deferred < U64_MAX ==> s.deferred == s.superseded + t.resolved + if s.pending.Some? then 1 else 0)
  }

  lemma Trichotomy(u: Version, v: Version)
    ensures u == v || u.Less(v) || v.Less(u)
    ensures u.Less(v) ==> !v.Less(u) && u != v
    ensures UNVERSIONED.AtMost(v) && !v.Less(UNVERSIONED)
  {
  }

  lemma PassKeepsTrace(t: Trace, p: Passage)
    requires TraceOk(t)
    ensures TraceOk(Pass(t, p))
    ensures t.state.Floor().AtMost(Pass(t, p).state.Floor())
    ensures t.state.forwarded.AtMost(Pass(t, p).state.forwarded)
  {
    hide Increasing;
    Trichotomy(t.state.Floor(), p.Of());
    Trichotomy(t.state.forwarded, p.Of());
    if !t.state.Rejects(p.Of()) && p.Forwarded? {
      OneMoreAcknowledged(t, p.version);
    }
  }

  lemma OneMoreAcknowledged(t: Trace, v: Version)
    requires TraceOk(t) && !t.state.Rejects(v)
    ensures Increasing(t.acknowledged + [v])
  {
    Trichotomy(t.state.Floor(), v);
    Trichotomy(t.state.forwarded, v);
  }

  /** A versioned scene is turned away exactly when a version at least as new has been
      forwarded or a newer one is marked; an unversioned one, once anything versioned has. */
  lemma RejectsExactly(t: Trace, v: Version)
    requires TraceOk(t)
    ensures var s := t.state;
      t.state.Rejects(v) <==>
        if v == UNVERSIONED then s.forwarded != UNVERSIONED || (s.pending.Some? && s.pending.value.version != UNVERSIONED)
        else v.AtMost(s.forwarded) || (s.pending.Some? && v.Less(s.pending.value.version))
  {
    var s := t.state;
    Trichotomy(v, s.forwarded);
    if s.pending.Some? {
      Trichotomy(v, s.pending.value.version);
      Trichotomy(s.forwarded, s.pending.value.version);
    }
  }

  /** A scene that got through is what the gate remembers: forwarded, it is the newest version
      and no marker is left; deferred, it is the marker and nothing counts as forwarded. */
  lemma PassedIsRemembered(t: Trace, p: Passage)
    requires TraceOk(t) && !t.state.Rejects(p.Of())
    ensures var s := Pass(t, p).state;
      match p
      case Forwarded(v) => s.pending.None? && s.forwarded == v
      case Deferred(m) => s.pending == Some(m) && s.forwarded == t.state.forwarded
  {
    RejectsExactly(t, p.Of());
    Trichotomy(t.state.forwarded, p.Of());
    if t.state.pending.Some? {
      Trichotomy(t.state.pending.value.version, p.Of());
      Trichotomy(t.state.forwarded, t.state.pending.value.version);
    }
  }

  /** Along every run of the gate from its empty state: the floor never falls, acknowledged
      versions strictly rise, the marker is the newest deferred scene, and the counters add up. */
  lemma {:induction false} RunKeepsTrace(t: Trace, ps: seq<Passage>)
    requires TraceOk(t)
    ensures TraceOk(PassAll(t, ps))
    ensures t.state.Floor().AtMost(PassAll(t, ps).state.Floor())
    ensures t.acknowledged <= PassAll(t, ps).acknowledged
    decreases |ps|
  {
    if ps != [] {
      PassKeepsTrace(t, ps[0]);
      RunKeepsTrace(Pass(t, ps[0]), ps[1..]);
    }
  }

  /** No versioned scene is acknowledged twice. */
  lemma AcknowledgedOnce(ps: seq<Passage>, i: nat, j: nat)
    requires i < j < |PassAll(START, ps).acknowledged|
    requires PassAll(START, ps).acknowledged[j] != UNVERSIONED
    ensures PassAll(START, ps).acknowledged[i].Less(PassAll(START, ps).acknowledged[j])
  {
    RunKeepsTrace(START, ps);
  }

  /** No deferred scene is silently forgotten: a version once deferred has been acknowledged,
      or overtaken by a newer acknowledged or still marked one. */
  lemma DeferredIsAccountedFor(ps: seq<Passage>, i: nat)
    requires i < |PassAll(START, ps).delayed|
    ensures var t := PassAll(START, ps);
      var v := t.delayed[i].version;
      || (t.state.pending.Some? && v.AtMost(t.state.pending.value.version) && t.state.pending.value == t.delayed[|t.delayed| - 1])
      || (exists k :: 0 <= k < |t.acknowledged| && v.AtMost(t.acknowledged[k]))
  {
    RunKeepsTrace(START, ps);
    var t := PassAll(START, ps);
    var v := t.delayed[i].version;
    if t.state.pending.None? && t.state.forwarded == UNVERSIONED {
      UnversionedResolved(ps);
      Trichotomy(v, t.acknowledged[0]);
      assert v.AtMost(t.acknowledged[0]);
    }
    if t.state.pending.None? && t.state.forwarded != UNVERSIONED {
      var k :| 0 <= k < |t.acknowledged| && t.acknowledged[k] == t.state.forwarded;
      assert v.AtMost(t.acknowledged[k]);
    }
  }

  /** A deferred unversioned scene leaves the marker only through an acknowledgement. */
  lemma UnversionedResolved(ps: seq<Passage>)
    requires PassAll(START, ps).delayed != [] && PassAll(START, ps).state.pending.None?
    ensures PassAll(START, ps).acknowledged != []
  {
    ResolvedMeansAcknowledged(START, ps);
  }

  lemma {:induction false} ResolvedMeansAcknowledged(t: Trace, ps: seq<Passage>)
    requires t.state.pending.None? && t.delayed != [] ==> t.acknowledged != []
    ensures PassAll(t, ps).state.pending.None? && PassAll(t, ps).delayed != [] ==> PassAll(t, ps).acknowledged != []
    decreases |ps|
  {
    if ps != [] {
      ResolvedMeansAcknowledged(Pass(t, ps[0]), ps[1..]);
    }
  }
}
