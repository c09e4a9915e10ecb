/** Output geometry and the renderer's rectangles. */
module Geometry {
  import opened Machine
  import opened Ordering
  import opened SceneTypes

  const MAX_DAMAGE_RECTS := 4096
  const MAX_OUTPUT_DIMENSION := 32_768
  const MAX_OUTPUT_FRAMEBUFFER_BYTES := 512 * 1024 * 1024

  /** Half-open: columns `x0..x1`, rows `y0..y1`. */
  datatype Rect = Rect(x0: I32, y0: I32, x1: I32, y1: I32) {
    predicate Contains(x: int, y: int)
    {
      x0 <= x < x1 && y0 <= y < y1
    }

    function Intersect(other: Rect): (r: Option<Rect>)
      ensures r.Some? <==> exists x, y :: Contains(x, y) && other.Contains(x, y)
      ensures r.Some? ==> forall x, y :: r.value.Contains(x, y) <==> Contains(x, y) && other.Contains(x, y)
    {
      var r := Rect(Max(x0, other.x0), Max(y0, other.y0), Min(x1, other.x1), Min(y1, other.y1));
      if r.x1 > r.x0 && r.y1 > r.y0 then
        assert Contains(r.x0, r.y0) && other.Contains(r.x0, r.y0);
        Some(r)
      else
        None
    }
  }

  function FromOriginSize(x: I32, y: I32, width: U32, height: U32): (r: Option<Rect>)
    ensures r.Some? <==> width > 0 && height > 0 && x + width <= I32_MAX && y + height <= I32_MAX
    ensures r.Some? ==> r.value == Rect(x, y, x + width, y + height)
  {
    if width == 0 || height == 0 then
      None
    else
      match (CheckedAdd(x, width), CheckedAdd(y, height))
      case (Some(x1), Some(y1)) => if x1 > x && y1 > y then Some(Rect(x, y, x1, y1)) else None
      case _ => None
  }

  /** The union of a list of rectangles, as a set of pixels. */
  ghost predicate Covers(rects: seq<Rect>, x: int, y: int)
  {
    exists i :: 0 <= i < |rects| && rects[i].Contains(x, y)
  }

  predicate RectLess(a: Rect, b: Rect)
  {
    a.y0 < b.y0
    || (a.y0 == b.y0 && (a.x0 < b.x0
    || (a.x0 == b.x0 && (a.y1 < b.y1
    || (a.y1 == b.y1 && a.x1 < b.x1)))))
  }

  /** Sort, dedup, and collapse to the full bounds beyond the budget: done to every
      damage list before it is stored or composed. */
  function NormalizeDamage(rects: seq<Rect>, bounds: Rect): (r: seq<Rect>)
    ensures |r| <= MAX_DAMAGE_RECTS
    ensures r == [] <==> rects == []
  {
    assert |multiset(Sort(RectLess, rects))| == |multiset(rects)|;
    var distinct := Dedup(Sort(RectLess, rects));
    if |distinct| > MAX_DAMAGE_RECTS then [bounds] else distinct
  }

  /** Every rectangle lies inside `bounds`. */
  ghost predicate Within(rects: seq<Rect>, bounds: Rect)
  {
    forall i :: 0 <= i < |rects| ==>
      && bounds.x0 <= rects[i].x0 < rects[i].x1 <= bounds.x1
      && bounds.y0 <= rects[i].y0 < rects[i].y1 <= bounds.y1
  }

  /** Normalizing damage never forgets a pixel and never leaves the output. */
  lemma NormalizeDamageCovers(rects: seq<Rect>, bounds: Rect)
    requires Within(rects, bounds)
    requires bounds.x0 < bounds.x1 && bounds.y0 < bounds.y1
    ensures Within(NormalizeDamage(rects, bounds), bounds)
    ensures forall x, y :: Covers(rects, x, y) ==> Covers(NormalizeDamage(rects, bounds), x, y)
  {
    SameElements(Sort(RectLess, rects), rects);
    var r := NormalizeDamage(rects, bounds);
    forall i | 0 <= i < |r|
      ensures r[i] == bounds || r[i] in rects
    {
      assert r[i] in r;
    }
    forall x, y | Covers(rects, x, y)
      ensures Covers(r, x, y)
    {
      var i :| 0 <= i < |rects| && rects[i].Contains(x, y);
      if r != [bounds] {
        assert rects[i] in r;
      } else {
        assert r[0].Contains(x, y);
      }
    }
  }

  lemma NormalizeDamageIdempotentCover(rects: seq<Rect>, bounds: Rect)
    requires |rects| <= MAX_DAMAGE_RECTS
    ensures forall x, y :: Covers(rects, x, y) <==> Covers(NormalizeDamage(rects, bounds), x, y)
  {
    SameElements(Sort(RectLess, rects), rects);
    var r := NormalizeDamage(rects, bounds);
    forall x, y
      ensures Covers(rects, x, y) <==> Covers(r, x, y)
    {
      if Covers(rects, x, y) {
        var i :| 0 <= i < |rects| && rects[i].Contains(x, y);
        assert rects[i] in r;
      }
      if Covers(r, x, y) {
        var i :| 0 <= i < |r| && r[i].Contains(x, y);
        assert r[i] in r;
      }
    }
  }

  datatype OutputGeometry = OutputGeometry(
    outputId: string, width: U32, height: U32, stride: U32, format: U32,
    originX: I32, originY: I32, outputGeneration: U64)

  datatype OutputState = OutputState(
    outputId: string, width: U32, height: U32, stride: U32,
    originX: I32, originY: I32, generation: U64)
  {
    /** `OutputState::validate` accepted it. */
    predicate Valid()
    {
      && outputId != ""
      && 0 < width <= MAX_OUTPUT_DIMENSION
      && 0 < height <= MAX_OUTPUT_DIMENSION
      && width * 4 <= stride
      && stride % 4 == 0
      && 0 < stride * height <= MAX_OUTPUT_FRAMEBUFFER_BYTES
    }

    /** Do the far edges still fit? Validation does not imply it. */
    predicate ExtentFits()
    {
      originX + width <= I32_MAX && originY + height <= I32_MAX
    }

    /** `bounds()`; without the second precondition its `expect` would stop the process. */
    function Bounds(): (r: Rect)
      requires Valid() && ExtentFits()
      ensures r == Rect(originX, originY, originX + width, originY + height)
      ensures r.x0 < r.x1 && r.y0 < r.y1
    {
      FromOriginSize(originX, originY, width, height).value
    }

    predicate OnScreen(x: int, y: int)
    {
      originX <= x < originX + width && originY <= y < originY + height
    }

    /** Framebuffer words per row. */
    function Pitch(): (r: nat)
    {
      stride / 4
    }

    function Words(): nat { Pitch() * height }

    function Bytes(): nat { stride * height }

    /** `framebuffer_offset_for_output`, where it does not fail. */
    function At(x: int, y: int): int
    {
      (y - originY) * Pitch() + (x - originX)
    }
  }

  /** `OutputState::validate`; the product of two `u32` never overflows `usize`. */
  function ValidateGeometry(g: OutputGeometry): (r: Option<OutputState>)
    ensures r.Some? ==> r.value.Valid() && r.value.outputId == g.outputId && r.value.generation == g.outputGeneration
  {
    if g.outputId == "" || g.width == 0 || g.height == 0 then None
    else if g.width > MAX_OUTPUT_DIMENSION || g.height > MAX_OUTPUT_DIMENSION then None
    else if g.format != FORMAT_XRGB8888 then None
    else if g.stride < g.width * 4 || g.stride % 4 != 0 then None
    else if g.stride * g.height == 0 || g.stride * g.height > MAX_OUTPUT_FRAMEBUFFER_BYTES then None
    else Some(OutputState(g.outputId, g.width, g.height, g.stride, g.originX, g.originY, g.outputGeneration))
  }

  lemma AtInRange(o: OutputState, x: int, y: int)
    requires o.Valid() && o.OnScreen(x, y)
    ensures 0 <= o.At(x, y) < o.Words()
  {
    MulNonNegative(y - o.originY, o.Pitch());
    RowsDoNotOverlap(o.Pitch(), y - o.originY, o.height);
  }

  lemma RowsDoNotOverlap(pitch: nat, a: int, b: int)
    ensures a < b ==> a * pitch + pitch <= b * pitch
  {
    if a < b {
      MulMonotone(a + 1, b, pitch);
      MulSuccessor(a, pitch);
    }
  }

  lemma AtInjective(o: OutputState, x: int, y: int, x': int, y': int)
    requires o.Valid() && o.OnScreen(x, y) && o.OnScreen(x', y')
    requires o.At(x, y) == o.At(x', y')
    ensures x == x' && y == y'
  {
    RowsDoNotOverlap(o.Pitch(), y - o.originY, y' - o.originY);
    RowsDoNotOverlap(o.Pitch(), y' - o.originY, y - o.originY);
  }

  /** For every geometry that validates, `bounds()` finds a rectangle exactly when the far
      edges fit an `i32`: nothing in the validation looks at the origin. */
  lemma BoundsExistExactly(g: OutputGeometry)
    requires ValidateGeometry(g).Some?
    ensures var o := ValidateGeometry(g).value;
      FromOriginSize(o.originX, o.originY, o.width, o.height).Some?
      <==> g.originX + g.width <= I32_MAX && g.originY + g.height <= I32_MAX
    ensures ValidateGeometry(g).value.ExtentFits() <==> g.originX + g.width <= I32_MAX && g.originY + g.height <= I32_MAX
    ensures forall x: I32, y: I32 :: ValidateGeometry(g.(originX := x, originY := y)).Some?
  {
  }

  /** displayd's `bounds()` panics on a geometry its validation accepts. */
  lemma ValidatedGeometryMayOverflow()
    ensures var g := OutputGeometry("a", 1, 1, 4, FORMAT_XRGB8888, I32_MAX, 0, 1);
            ValidateGeometry(g).Some?
            && FromOriginSize(ValidateGeometry(g).value.originX, ValidateGeometry(g).value.originY, 1, 1).None?
  {
  }
}
