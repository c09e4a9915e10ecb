/** The data shared by compd and displayd: versions, surfaces, transport payloads,
    scenes, output geometry and presentation tokens. */
module SceneTypes {
  import opened Machine
  import opened Ordering

  /** `(scene_epoch, scene_generation)`, ordered lexicographically. */
  datatype Version = Version(epoch: U64, generation: U64) {
    predicate Less(other: Version)
    {
      epoch < other.epoch || (epoch == other.epoch && generation < other.generation)
    }

    predicate AtMost(other: Version)
    {
      this == other || Less(other)
    }

    /** Both halves non-zero: a versioned scene. */
    predicate Versioned()
    {
      epoch != 0 && generation != 0
    }
  }

  const UNVERSIONED := Version(0, 0)

  datatype Handle = Handle(clientId: U64, surfaceId: string, bufferGeneration: U64, sceneGeneration: U64)

  datatype Payload = Payload(handle: Handle, pixels: seq<U8>, width: U32, height: U32, stride: U32, format: U32)

  const FORMAT_ARGB8888: U32 := 0
  const FORMAT_XRGB8888: U32 := 1

  datatype DamageRect = DamageRect(x: I32, y: I32, width: U32, height: U32)

  datatype Placement = Placement(x: I32, y: I32, width: U32, height: U32, z: I32, visible: bool)

  datatype Surface = Surface(
    id: string,
    appId: string,
    placement: Placement,
    bufferHandle: Option<string>,
    bufferGeneration: U64,
    damageRects: seq<DamageRect>,
    transport: Option<Handle>,
    layerClass: U32,
    creationSequence: U64)

  datatype Focus = FocusSurface(id: string) | FocusNone

  datatype SelectionSlot = SelectionSlot(owner: Option<string>, payloadId: Option<string>, sourceSerial: Option<U64>, offerId: Option<string>)

  datatype Selection = Selection(clipboard: SelectionSlot, primary: SelectionSlot)

  /** `CommittedSceneState`; the target is an output name, the wall-clock stamp is dropped. */
  datatype Scene = Scene(
    target: string,
    focus: Focus,
    selection: Selection,
    surfaces: seq<Surface>,
    version: Version,
    commitId: U64)

  /** The stacking key of a surface: layer class, z, creation sequence, id. */
  datatype StackKey = StackKey(layerClass: U32, z: I32, creationSequence: U64, id: string)

  function KeyOf(s: Surface): StackKey
  {
    StackKey(s.layerClass, s.placement.z, s.creationSequence, s.id)
  }

  predicate KeyLess(a: StackKey, b: StackKey)
  {
    a.layerClass < b.layerClass
    || (a.layerClass == b.layerClass && (a.z < b.z
    || (a.z == b.z && (a.creationSequence < b.creationSequence
    || (a.creationSequence == b.creationSequence && StringLess(a.id, b.id))))))
  }

  predicate SurfaceLess(a: Surface, b: Surface)
  {
    KeyLess(KeyOf(a), KeyOf(b))
  }

  lemma KeyOrder()
    ensures Asymmetric(KeyLess) && Transitive(KeyLess)
  {
    forall a, b | KeyLess(a, b)
      ensures !KeyLess(b, a)
    {
      if a.id != b.id && StringLess(a.id, b.id) { StringLessAsymmetric(a.id, b.id); }
      if a.id == b.id && StringLess(a.id, b.id) { StringLessAsymmetric(a.id, b.id); }
    }
    forall a, b, c | KeyLess(a, b) && KeyLess(b, c)
      ensures KeyLess(a, c)
    {
      if StringLess(a.id, b.id) && StringLess(b.id, c.id) { StringLessTransitive(a.id, b.id, c.id); }
    }
  }

  lemma SurfaceOrder()
    ensures Asymmetric(SurfaceLess) && Transitive(SurfaceLess)
  {
    KeyOrder();
  }

  /** Non-empty, pairwise different surface ids: what admission demands of a scene. */
  ghost predicate DistinctIds(surfaces: seq<Surface>)
  {
    forall i, j :: 0 <= i < j < |surfaces| ==> surfaces[i].id != surfaces[j].id
  }

  lemma DistinctIdsComparable(surfaces: seq<Surface>)
    requires DistinctIds(surfaces)
    ensures Comparable(SurfaceLess, surfaces)
  {
    forall i, j | 0 <= i < j < |surfaces|
      ensures SurfaceLess(surfaces[i], surfaces[j]) || SurfaceLess(surfaces[j], surfaces[i])
    {
      StringLessTotal(surfaces[i].id, surfaces[j].id);
    }
  }

  /** `canonicalize_surfaces`. */
  function Canonicalize(surfaces: seq<Surface>): (r: seq<Surface>)
    ensures multiset(r) == multiset(surfaces)
  {
    Sort(SurfaceLess, surfaces)
  }

  ghost predicate Canonical(surfaces: seq<Surface>)
  {
    DistinctIds(surfaces) && StrictlySorted(SurfaceLess, surfaces)
  }

  /** No two positions of `s` hold surfaces of one id; stated on the multiset, so order-free. */
  lemma DistinctIdsPermute(a: seq<Surface>, b: seq<Surface>)
    requires multiset(a) == multiset(b) && DistinctIds(a)
    ensures DistinctIds(b)
  {
    forall i, j | 0 <= i < j < |b|
      ensures b[i].id != b[j].id
    {
      if b[i].id == b[j].id {
        SameElements(a, b);
        assert b[i] in a && b[j] in a;
        var m :| 0 <= m < |a| && a[m] == b[i];
        var n :| 0 <= n < |a| && a[n] == b[j];
        assert m == n;
        OccursOnce(a, m);
        OccursTwice(b, i, j);
        assert false;
      }
    }
  }

  lemma OccursOnce(a: seq<Surface>, m: nat)
    requires m < |a| && DistinctIds(a)
    ensures multiset(a)[a[m]] == 1
  {
    assert a == a[..m] + [a[m]] + a[m + 1..];
    assert a[m] !in multiset(a[..m]) && a[m] !in multiset(a[m + 1..]);
  }

  lemma OccursTwice(b: seq<Surface>, i: nat, j: nat)
    requires i < j < |b| && b[i] == b[j]
    ensures multiset(b)[b[i]] >= 2
  {
    assert b == b[..i] + [b[i]] + b[i + 1..j] + [b[j]] + b[j + 1..];
  }

  lemma CanonicalizeIsCanonical(surfaces: seq<Surface>)
    requires DistinctIds(surfaces)
    ensures Canonical(Canonicalize(surfaces))
  {
    SurfaceOrder();
    DistinctIdsComparable(surfaces);
    SortOrders(SurfaceLess, surfaces);
    DistinctIdsPermute(surfaces, Canonicalize(surfaces));
  }

  /** Any reordering of a scene's surfaces canonicalizes to the same sequence. */
  lemma CanonicalizeIgnoresOrder(a: seq<Surface>, b: seq<Surface>)
    requires multiset(a) == multiset(b) && DistinctIds(a)
    ensures Canonicalize(a) == Canonicalize(b)
  {
    SurfaceOrder();
    DistinctIdsPermute(a, b);
    DistinctIdsComparable(a);
    DistinctIdsComparable(b);
    SortIgnoresInputOrder(SurfaceLess, a, b);
  }

  lemma CanonicalizeFixesCanonical(surfaces: seq<Surface>)
    requires Canonical(surfaces)
    ensures Canonicalize(surfaces) == surfaces
  {
    SurfaceOrder();
    SortIdempotent(SurfaceLess, surfaces);
  }

  /** Canonical order is stacking order: later surfaces are of a higher layer class, or of the
      same and higher, or level and created later, or by name. */
  lemma CanonicalStacks(surfaces: seq<Surface>, i: nat, j: nat)
    requires DistinctIds(surfaces) && i < j < |Canonicalize(surfaces)|
    ensures var a, b := Canonicalize(surfaces)[i], Canonicalize(surfaces)[j];
      && a.layerClass <= b.layerClass
      && (a.layerClass == b.layerClass ==> a.placement.z <= b.placement.z)
      && (a.layerClass == b.layerClass && a.placement.z == b.placement.z ==> a.creationSequence <= b.creationSequence)
      && (a.layerClass == b.layerClass && a.placement.z == b.placement.z && a.creationSequence == b.creationSequence ==> StringLess(a.id, b.id))
  {
    CanonicalizeIsCanonical(surfaces);
  }
}
