/** The generation-ordered payload store, and displayd's accounting store layered on it. */
module PixelStore {
  import opened Machine
  import opened SceneTypes
  import opened Composition
  import opened Admission

  // ------------------------------------------------------------------- generations

  /** `is_newer_handle`: scene generation first, then buffer generation. */
  predicate Newer(left: Handle, right: Handle)
  {
    left.sceneGeneration > right.sceneGeneration
    || (left.sceneGeneration == right.sceneGeneration && left.bufferGeneration > right.bufferGeneration)
  }

  predicate SameSurface(a: Handle, b: Handle)
  {
    a.clientId == b.clientId && a.surfaceId == b.surfaceId
  }

  /** Every payload is filed under its own handle and well formed. */
  ghost predicate WellFiled(m: Store)
  {
    forall h :: h in m ==> m[h].handle == h && PayloadShape(m[h])
  }

  /** At most one payload per client and surface. */
  ghost predicate OnePerSurface(m: Store)
  {
    forall h, k :: h in m && k in m && SameSurface(h, k) ==> h == k
  }

  ghost predicate HasNewer(m: Store, h: Handle)
  {
    exists k :: k in m && SameSurface(k, h) && Newer(k, h)
  }

  ghost function WithoutSurface(m: Store, h: Handle): Store
  {
    map k | k in m && !SameSurface(k, h) :: m[k]
  }

  datatype SubmitResult = Stored | StaleGeneration | InvalidPayload

  // ------------------------------------------------------------------- byte accounting

  ghost function TotalBytes(m: Store): nat
  {
    if m == map[] then 0
    else var h :| h in m; |m[h].pixels| + TotalBytes(m - {h})
  }

  /** The sum does not depend on the order the map is walked in. */
  lemma {:induction false} TotalBytesRemove(m: Store, h: Handle)
    requires h in m
    ensures TotalBytes(m) == |m[h].pixels| + TotalBytes(m - {h})
    decreases |m|
  {
    var k :| k in m && TotalBytes(m) == |m[k].pixels| + TotalBytes(m - {k});
    if k != h {
      assert |m - {k}| == |m| - 1 by { assert (m - {k}).Keys == m.Keys - {k}; }
      assert |m - {h}| == |m| - 1 by { assert (m - {h}).Keys == m.Keys - {h}; }
      TotalBytesRemove(m - {k}, h);
      assert (m - {k}) - {h} == (m - {h}) - {k};
      TotalBytesRemove(m - {h}, k);
    }
  }

  lemma TotalBytesAdd(m: Store, h: Handle, p: Payload)
    requires h !in m
    ensures TotalBytes(m[h := p]) == TotalBytes(m) + |p.pixels|
  {
    TotalBytesRemove(m[h := p], h);
    assert m[h := p] - {h} == m;
  }

  // ---------------------------------------------------------------- the inner store

  class PixelTransportStore {
    var payloads: Store

    constructor ()
      ensures payloads == map[]
    {
      payloads := map[];
    }

    ghost predicate Valid()
      reads this
    {
      WellFiled(payloads) && OnePerSurface(payloads)
    }

    /** `latest_handle_for_surface`: the newest handle on file, if any. */
    method LatestHandleForSurface(clientId: U64, surfaceId: string) returns (latest: Option<Handle>)
      ensures latest.None? <==> forall k :: k in payloads ==> k.clientId != clientId || k.surfaceId != surfaceId
      ensures latest.Some? ==>
        && latest.value in payloads && latest.value.clientId == clientId && latest.value.surfaceId == surfaceId
        && forall k :: k in payloads && SameSurface(k, latest.value) ==> !Newer(k, latest.value)
    {
      latest := None;
      var todo := payloads.Keys;
      while todo != {}
        invariant todo <= payloads.Keys
        invariant latest.None? <==> forall k :: k in payloads && k !in todo ==> k.clientId != clientId || k.surfaceId != surfaceId
        invariant latest.Some? ==>
          && latest.value in payloads && latest.value.clientId == clientId && latest.value.surfaceId == surfaceId
          && forall k :: k in payloads && k !in todo && SameSurface(k, latest.value) ==> !Newer(k, latest.value)
        decreases todo
      {
        var k :| k in todo;
        todo := todo - {k};
        if k.clientId == clientId && k.surfaceId == surfaceId && (latest.None? || !Newer(latest.value, k)) {
          latest := Some(k);
        }
      }
    }

    /** `submit`: stores the payload in place of the surface's previous one, unless it is
        malformed or older than what is on file; then nothing changes. */
    method Submit(payload: Payload) returns (r: SubmitResult)
      requires Valid()
      modifies this
      ensures Valid()
      ensures r == if !PayloadShape(payload) then InvalidPayload
                   else if HasNewer(old(payloads), payload.handle) then StaleGeneration else Stored
      ensures payloads == if r == Stored then WithoutSurface(old(payloads), payload.handle)[payload.handle := payload] else old(payloads)
    {
      if !PayloadShape(payload) {
        return InvalidPayload;
      }
      var handle := payload.handle;
      var current := LatestHandleForSurface(handle.clientId, handle.surfaceId);
      if current.Some? && Newer(current.value, handle) {
        return StaleGeneration;
      }
      payloads := map k | k in payloads && !(SameSurface(k, handle) && !Newer(k, handle)) :: payloads[k];
      assert payloads == WithoutSurface(old(payloads), handle);
      payloads := payloads[handle := payload];
      r := Stored;
    }

    function Lookup(handle: Handle): Option<Payload>
      reads this
    {
      if handle in payloads then Some(payloads[handle]) else None
    }

    /** `invalidate_client`. */
    method InvalidateClient(clientId: U64)
      requires Valid()
      modifies this
      ensures Valid()
      ensures payloads == WithoutClient(old(payloads), clientId)
    {
      payloads := map k | k in payloads && k.clientId != clientId :: payloads[k];
    }

    /** `replace_client`: all of the client's payloads are replaced, or on any malformed,
        foreign or duplicate one nothing is. Other clients never notice. */
    method ReplaceClient(clientId: U64, replacements: seq<Payload>) returns (ok: bool)
      requires Valid()
      modifies this
      ensures Valid()
      ensures ok <==> Replaceable(clientId, replacements)
      ensures payloads == if ok then Attach(WithoutClient(old(payloads), clientId), replacements) else old(payloads)
    {
      var surfaceIds: set<string> := {};
      for i := 0 to |replacements|
        invariant Replaceable(clientId, replacements[..i])
        invariant forall id :: id in surfaceIds <==> exists k :: 0 <= k < i && replacements[k].handle.surfaceId == id
      {
        var p := replacements[i];
        if !PayloadShape(p) || p.handle.clientId != clientId || p.handle.surfaceId in surfaceIds {
          return false;
        }
        surfaceIds := surfaceIds + {p.handle.surfaceId};
      }
      assert replacements[..|replacements|] == replacements;
      InvalidateClient(clientId);
      ghost var others := payloads;
      for i := 0 to |replacements|
        invariant payloads == Attach(others, replacements[..i])
      {
        assert replacements[..i + 1][..i] == replacements[..i];
        payloads := payloads[replacements[i].handle := replacements[i]];
      }
      assert replacements[..|replacements|] == replacements;
      ReplacementKeepsStore(others, clientId, replacements);
      ok := true;
    }
  }

  ghost function WithoutClient(m: Store, clientId: U64): Store
  {
    map k | k in m && k.clientId != clientId :: m[k]
  }

  ghost predicate Replaceable(clientId: U64, replacements: seq<Payload>)
  {
    && (forall i :: 0 <= i < |replacements| ==> PayloadShape(replacements[i]) && replacements[i].handle.clientId == clientId)
    && (forall i, j :: 0 <= i < j < |replacements| ==> replacements[i].handle.surfaceId != replacements[j].handle.surfaceId)
  }

  /** Replacing a client leaves one payload per surface, every replacement on file, and the
      other clients' payloads as they were. */
  lemma ReplacementKeepsStore(others: Store, clientId: U64, replacements: seq<Payload>)
    requires WellFiled(others) && OnePerSurface(others) && Replaceable(clientId, replacements)
    requires forall h :: h in others ==> h.clientId != clientId
    ensures WellFiled(Attach(others, replacements)) && OnePerSurface(Attach(others, replacements))
    ensures Attach(others, replacements).Keys == others.Keys + PayloadHandles(replacements)
    ensures forall h :: h in others ==> Attach(others, replacements)[h] == others[h]
  {
    var m := Attach(others, replacements);
    AttachKeys(others, replacements);
    AttachWellFiled(others, replacements);
    forall h, k | h in m && k in m && SameSurface(h, k)
      ensures h == k
    {
      PayloadHandleMembers(replacements, h);
      PayloadHandleMembers(replacements, k);
    }
    forall h | h in others
      ensures m[h] == others[h]
    {
      AttachSource(others, replacements, h);
    }
  }

  // ------------------------------------------------------------------ preparing a scene

  ghost predicate StaleReference(m: Store, referenced: set<Handle>)
  {
    exists h :: h in referenced && HasNewer(m, h)
  }

  /** The kept payloads overwritten by the incoming ones, in order. */
  function Attach(m: Store, incoming: seq<Payload>): Store
  {
    if incoming == [] then m
    else
      var last := incoming[|incoming| - 1];
      Attach(m, incoming[..|incoming| - 1])[last.handle := last]
  }

  ghost function Kept(m: Store, referenced: set<Handle>): Store
  {
    map h | h in m && h in referenced :: m[h]
  }

  /** `prepared_for_scene_with_policy`, on contents: the next store, or a rejection. */
  ghost function Prepare(m: Store, surfaces: seq<Surface>, incoming: seq<Payload>, allowMissing: bool): (r: Option<Store>)
  {
    var referenced := ReferencedHandles(surfaces);
    var next := Attach(Kept(m, referenced), incoming);
    if StaleReference(m, referenced) then None
    else if !(PayloadHandles(incoming) <= referenced) then None
    else if !allowMissing && !(referenced <= next.Keys) then None
    else if |next| > MAX_SCENE_PIXEL_PAYLOADS || TotalBytes(next) > MAX_SCENE_PIXEL_BYTES then None
    else Some(next)
  }

  lemma {:induction false} AttachKeys(m: Store, incoming: seq<Payload>)
    ensures Attach(m, incoming).Keys == m.Keys + PayloadHandles(incoming)
  {
    if incoming != [] {
      var front, last := incoming[..|incoming| - 1], incoming[|incoming| - 1];
      AttachKeys(m, front);
      assert front + [last] == incoming;
      AdmitOneMorePayload(front, last, {});
    }
  }

  lemma {:induction false} AttachWellFiled(m: Store, incoming: seq<Payload>)
    requires WellFiled(m)
    requires forall i :: 0 <= i < |incoming| ==> PayloadShape(incoming[i])
    ensures WellFiled(Attach(m, incoming))
  {
    if incoming != [] {
      AttachWellFiled(m, incoming[..|incoming| - 1]);
    }
  }

  /** A payload of the attached store is an incoming one, or was kept. */
  lemma {:induction false} AttachSource(m: Store, incoming: seq<Payload>, h: Handle)
    requires h in Attach(m, incoming)
    ensures (exists i :: 0 <= i < |incoming| && incoming[i].handle == h && incoming[i] == Attach(m, incoming)[h])
         || (h in m && Attach(m, incoming)[h] == m[h])
  {
    if incoming != [] {
      var front, last := incoming[..|incoming| - 1], incoming[|incoming| - 1];
      if h == last.handle {
        assert incoming[|incoming| - 1] == Attach(m, incoming)[h];
      } else {
        AttachSource(m, front, h);
        if exists i :: 0 <= i < |front| && front[i].handle == h && front[i] == Attach(m, front)[h] {
          var i :| 0 <= i < |front| && front[i].handle == h && front[i] == Attach(m, front)[h];
          assert incoming[i].handle == h && incoming[i] == Attach(m, incoming)[h];
        }
      }
    }
  }

  /** One surface, one handle: handles referenced by an admitted scene never collide. */
  lemma ReferencedOnePerSurface(surfaces: seq<Surface>, version: Version, h: Handle, k: Handle)
    requires DisplayAdmitsSurfaces(surfaces, version)
    requires h in ReferencedHandles(surfaces) && k in ReferencedHandles(surfaces) && h.surfaceId == k.surfaceId
    ensures h == k
  {
    ReferencedMembers(surfaces, h);
    ReferencedMembers(surfaces, k);
    var i :| 0 <= i < |surfaces| && surfaces[i].transport == Some(h);
    var j :| 0 <= j < |surfaces| && surfaces[j].transport == Some(k);
    assert TransportMatches(surfaces[i], version) && TransportMatches(surfaces[j], version);
    assert i == j;
  }

  /** A prepared store holds referenced handles only, all of them unless missing ones were
      allowed, one per surface, within the payload and byte budgets. */
  lemma PreparedStore(m: Store, surfaces: seq<Surface>, version: Version, incoming: seq<Payload>, allowMissing: bool)
    requires WellFiled(m) && Prepare(m, surfaces, incoming, allowMissing).Some?
    requires DisplayAdmitsSurfaces(surfaces, version)
    requires forall i :: 0 <= i < |incoming| ==> PayloadShape(incoming[i])
    ensures var next := Prepare(m, surfaces, incoming, allowMissing).value;
      && WellFiled(next) && OnePerSurface(next)
      && next.Keys <= ReferencedHandles(surfaces)
      && (!allowMissing ==> next.Keys == ReferencedHandles(surfaces))
      && |next| <= MAX_SCENE_PIXEL_PAYLOADS && TotalBytes(next) <= MAX_SCENE_PIXEL_BYTES
  {
    var referenced := ReferencedHandles(surfaces);
    var next := Attach(Kept(m, referenced), incoming);
    AttachKeys(Kept(m, referenced), incoming);
    AttachWellFiled(Kept(m, referenced), incoming);
    forall h, k | h in next && k in next && SameSurface(h, k)
      ensures h == k
    {
      ReferencedOnePerSurface(surfaces, version, h, k);
    }
  }

  /** Nothing on file is newer than a handle the newest one is not newer than. */
  lemma NotNewer(m: Store, h: Handle, latest: Option<Handle>)
    requires latest.None? ==> forall k :: k in m ==> k.clientId != h.clientId || k.surfaceId != h.surfaceId
    requires latest.Some? ==> SameSurface(latest.value, h) && !Newer(latest.value, h)
    requires latest.Some? ==> forall k :: k in m && SameSurface(k, latest.value) ==> !Newer(k, latest.value)
    ensures !HasNewer(m, h)
  {
  }

  // --------------------------------------------------------------- displayd's store

  class DisplayPixelTransportStore {
    var inner: PixelTransportStore
    var payloads: Store
    var totalBytes: nat

    constructor ()
      ensures Valid() && fresh(inner) && payloads == map[]
    {
      inner := new PixelTransportStore();
      payloads := map[];
      totalBytes := 0;
    }

    /** Both layers hold the same map, and the byte total is exact. */
    ghost predicate Valid()
      reads this, inner
    {
      && inner.Valid()
      && inner.payloads == payloads
      && totalBytes == TotalBytes(payloads)
    }

    function Lookup(handle: Handle): (r: Option<Payload>)
      requires Valid()
      reads this, inner
      ensures r.Some? <==> handle in payloads
      ensures r.Some? ==> r.value == payloads[handle]
    {
      inner.Lookup(handle)
    }

    /** `submit`: both layers move together, or neither moves. */
    method Submit(payload: Payload) returns (r: SubmitResult)
      requires Valid()
      modifies this, inner
      ensures Valid() && inner == old(inner)
      ensures r == if !PayloadShape(payload) then InvalidPayload
                   else if HasNewer(old(payloads), payload.handle) then StaleGeneration else Stored
      ensures payloads == if r == Stored then WithoutSurface(old(payloads), payload.handle)[payload.handle := payload] else old(payloads)
    {
      r := inner.Submit(payload);
      if r != Stored {
        return;
      }
      payloads := map k | k in payloads && (k.clientId != payload.handle.clientId || k.surfaceId != payload.handle.surfaceId) :: payloads[k];
      assert payloads == WithoutSurface(old(payloads), payload.handle);
      payloads := payloads[payload.handle := payload];
      totalBytes := SumBytes(payloads);
    }

    /** `prepared_for_scene_with_policy`, for a scene that passed admission: it succeeds
        exactly when the specification does, the rebuilt inner store agrees with the index,
        and this store is left as it was. */
    method PreparedForScene(surfaces: seq<Surface>, ghost version: Version, incoming: seq<Payload>, allowMissing: bool)
      returns (r: Option<DisplayPixelTransportStore>)
      requires Valid()
      requires DisplayAdmitsSurfaces(surfaces, version)
      requires forall i :: 0 <= i < |incoming| ==> PayloadShape(incoming[i])
      ensures r.Some? <==> Prepare(payloads, surfaces, incoming, allowMissing).Some?
      ensures r.Some? ==> fresh(r.value) && fresh(r.value.inner) && r.value.Valid()
      ensures r.Some? ==> Some(r.value.payloads) == Prepare(payloads, surfaces, incoming, allowMissing)
    {
      hide DisplayAdmitsSurfaces, ReferencedHandles, PayloadHandles, StaleReference;
      var referenced := CollectReferenced(surfaces);
      var stale := FindStale(referenced);
      if stale {
        return None;
      }
      var kept := map h | h in payloads && h in referenced :: payloads[h];
      var attached := AttachIncoming(kept, referenced, incoming);
      assert kept == Kept(payloads, referenced);
      if attached.None? {
        return None;
      }
      var next := attached.value;
      if !allowMissing && !(referenced <= next.Keys) {
        return None;
      }
      var bytes := SumBytes(next);
      if |next| > MAX_SCENE_PIXEL_PAYLOADS || bytes > MAX_SCENE_PIXEL_BYTES {
        return None;
      }
      PreparedStore(payloads, surfaces, version, incoming, allowMissing);
      var store := new DisplayPixelTransportStore();
      store.Rebuild(next, bytes);
      r := Some(store);
    }

    /** The freshness loop: does a referenced handle fall behind what is on file? */
    method FindStale(referenced: set<Handle>) returns (stale: bool)
      requires Valid()
      ensures stale <==> StaleReference(payloads, referenced)
    {
      var todo := referenced;
      while todo != {}
        invariant todo <= referenced
        invariant forall h :: h in referenced && h !in todo ==> !HasNewer(payloads, h)
        decreases todo
      {
        var handle :| handle in todo;
        var current := inner.LatestHandleForSurface(handle.clientId, handle.surfaceId);
        if current.Some? && Newer(current.value, handle) {
          assert HasNewer(payloads, handle);
          return true;
        }
        NotNewer(payloads, handle, current);
        todo := todo - {handle};
      }
      stale := false;
    }

    /** Submits every payload to a new inner store; with one payload per surface no
        submission can be stale, so the rebuild cannot fail. */
    method Rebuild(next: Store, bytes: nat)
      requires Valid() && payloads == map[]
      requires WellFiled(next) && OnePerSurface(next) && bytes == TotalBytes(next)
      modifies this, inner
      ensures Valid() && inner == old(inner) && payloads == next
    {
      var todo := next.Keys;
      while todo != {}
        invariant todo <= next.Keys
        invariant inner == old(inner) && inner.Valid()
        invariant inner.payloads == map h | h in next && h !in todo :: next[h]
        decreases todo
      {
        var h :| h in todo;
        var submitted := inner.Submit(next[h]);
        assert submitted == Stored;
        todo := todo - {h};
      }
      payloads, totalBytes := next, bytes;
    }
  }

  method CollectReferenced(surfaces: seq<Surface>) returns (referenced: set<Handle>)
    ensures referenced == ReferencedHandles(surfaces)
  {
    referenced := set s | s in surfaces && s.transport.Some? :: s.transport.value;
  }

  /** The loop over the attached payloads; an orphan is an error. */
  method AttachIncoming(kept: Store, referenced: set<Handle>, incoming: seq<Payload>) returns (r: Option<Store>)
    ensures r == if PayloadHandles(incoming) <= referenced then Some(Attach(kept, incoming)) else None
  {
    var next := kept;
    for i := 0 to |incoming|
      invariant next == Attach(kept, incoming[..i])
      invariant PayloadHandles(incoming[..i]) <= referenced
    {
      assert incoming[..i + 1] == incoming[..i] + [incoming[i]];
      assert incoming[..i + 1][..i] == incoming[..i];
      AdmitOneMorePayload(incoming[..i], incoming[i], {});
      if incoming[i].handle !in referenced {
        assert incoming[i].handle in PayloadHandles(incoming);
        return None;
      }
      next := next[incoming[i].handle := incoming[i]];
    }
    assert incoming[..|incoming|] == incoming;
    r := Some(next);
  }

  /** Folding the payload lengths, in whatever order the map yields them. */
  method SumBytes(m: Store) returns (bytes: nat)
    ensures bytes == TotalBytes(m)
  {
    bytes := 0;
    var rest := m;
    while rest != map[]
      invariant bytes + TotalBytes(rest) == TotalBytes(m)
      decreases |rest|
    {
      var h :| h in rest.Keys;
      TotalBytesRemove(rest, h);
      bytes := bytes + |rest[h].pixels|;
      assert |rest - {h}| == |rest| - 1 by { assert (rest - {h}).Keys == rest.Keys - {h}; }
      rest := rest - {h};
    }
  }
}
