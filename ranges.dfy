/** Page ranges shared by every splitter: Python's `range(start, stop, step)`,
    the ceiling division the splitters write as `(n + k - 1) // k`, and the
    half-open chapter spans `[start, end)` that a list of boundaries
    describes. */
module Ranges {

  function Min(a: int, b: int): int { if a <= b then a else b }

  function Max(a: int, b: int): int { if a >= b then a else b }

  /** `(n + d - 1) // d`, the number of groups of `d` needed for `n` items. */
  function CeilDiv(n: nat, d: nat): (q: nat)
    requires d >= 1
    ensures q * d >= n && (q == 0 || (q - 1) * d < n)
  {
    var x := n + d - 1;
    var q := x / d;
    assert x == q * d + x % d && 0 <= x % d < d;
    assert (q - 1) * d == q * d - d;
    q
  }

  /** `x // d` is the `q` with `q * d <= x < q * d + d`. */
  lemma DivUnique(x: int, d: int, q: int)
    requires d > 0 && q * d <= x < q * d + d
    ensures x / d == q
  {
    var p := x / d;
    assert x == p * d + x % d && 0 <= x % d < d;
    MulMonotone(p, q - 1, d);
    MulMonotone(q + 1, p, d);
    assert (q - 1) * d == q * d - d;
    assert (q + 1) * d == q * d + d;
  }

  /** Multiplying by a non-negative number keeps `<=`. */
  lemma {:induction false} MulMonotone(a: int, b: int, d: int)
    ensures a <= b && d >= 0 ==> a * d <= b * d
    decreases if a <= b then b - a else 0
  {
    if a < b && d >= 0 {
      MulMonotone(a, b - 1, d);
      assert (b - 1) * d + d == b * d;
    }
  }

  /** Python's `a // b`, which rounds toward negative infinity. */
  function FloorDiv(a: int, b: int): (q: int)
    requires b != 0
    ensures b > 0 ==> q * b <= a < q * b + b
    ensures b < 0 ==> q * b >= a > q * b + b
  {
    if b > 0 then
      assert a == (a / b) * b + a % b;
      a / b
    else
      var x, y := -a, -b;
      assert x == (x / y) * y + x % y && 0 <= x % y < y;
      assert (x / y) * b == -((x / y) * y);
      x / y
  }

  /** For a positive size, `(n + d - 1) // d` is the ceiling division. */
  lemma FloorDivCeil(n: nat, d: int)
    requires d >= 1
    ensures FloorDiv(n + d - 1, d) == CeilDiv(n, d)
  {
  }

  /** For a negative size, `(n + d - 1) // d` is 1 for one item and
      not positive for more. */
  lemma NegativeSizeCount(n: nat, d: int)
    requires d < 0 && n >= 1
    ensures n == 1 ==> FloorDiv(n + d - 1, d) == 1
    ensures n >= 2 ==> FloorDiv(n + d - 1, d) <= 0
  {
    var q := FloorDiv(n + d - 1, d);
    if q >= 1 {
      assert q * d <= d by { MulMonotone(1, q, -d); assert q * -d == -(q * d); }
    }
  }

  lemma CeilDivStep(m: nat, d: nat)
    requires d >= 1
    ensures m == 0 ==> CeilDiv(m, d) == 0
    ensures 0 < m <= d ==> CeilDiv(m, d) == 1
    ensures m > d ==> CeilDiv(m, d) == 1 + CeilDiv(m - d, d)
  {
    if m == 0 {
      DivUnique(d - 1, d, 0);
    } else if m <= d {
      DivUnique(m + d - 1, d, 1);
    } else {
      var q := CeilDiv(m - d, d);
      var y := m - d + d - 1;
      assert y == q * d + y % d && 0 <= y % d < d;
      DivUnique(m + d - 1, d, q + 1);
    }
  }

  lemma {:induction false} MulStrict(i: int, j: int, size: int)
    requires i < j && size >= 1
    ensures i * size < j * size
    decreases j - i
  {
    assert (j - 1) * size + size == j * size;
    if j - 1 > i { MulStrict(i, j - 1, size); }
  }

  /** `list(range(start, stop, step))` for a positive step. */
  function RangeStep(start: int, stop: int, step: int): seq<int>
    requires step >= 1
    decreases stop - start
  {
    if start >= stop then [] else [start] + RangeStep(start + step, stop, step)
  }

  /** `range(start, stop, step)` has `ceil((stop - start) / step)` values and
      its `k`-th value is `start + k * step`. */
  lemma {:induction false} RangeStepAt(start: int, stop: int, step: int)
    requires step >= 1
    ensures var r := RangeStep(start, stop, step);
      |r| == (if start >= stop then 0 else CeilDiv(stop - start, step))
      && forall k :: 0 <= k < |r| ==> r[k] == start + k * step
    decreases stop - start
  {
    if start < stop {
      RangeStepAt(start + step, stop, step);
      CeilDivStep(stop - start, step);
      var r := RangeStep(start, stop, step);
      forall k | 1 <= k < |r| ensures r[k] == start + k * step {
        assert r[k] == RangeStep(start + step, stop, step)[k - 1];
        assert start + step + (k - 1) * step == start + k * step;
      }
    }
  }

  /** A chapter `[start, end)` in page indices. */
  datatype Span = Span(start: int, end: int)

  /** Chapter `i` runs from boundary `i` to boundary `i + 1`, the last one to
      `total`. */
  function SpansOf(bounds: seq<int>, total: int): (r: seq<Span>)
    ensures |r| == |bounds|
    ensures forall i :: 0 <= i < |r| ==> r[i].start == bounds[i]
    ensures forall i :: 0 <= i && i + 1 < |r| ==> r[i].end == bounds[i + 1]
    ensures |r| > 0 ==> r[|r| - 1].end == total
  {
    seq(|bounds|, i requires 0 <= i < |bounds| => SpanAt(bounds, total, i))
  }

  function SpanAt(bounds: seq<int>, total: int, i: int): Span
    requires 0 <= i < |bounds|
  {
    Span(bounds[i], if i + 1 < |bounds| then bounds[i + 1] else total)
  }

  /** Boundaries as every detector and splitter produces them: they start at
      page 0, strictly increase and stay below the page count. */
  predicate WellFormedBounds(bounds: seq<int>, total: int) {
    |bounds| > 0 && bounds[0] == 0
    && (forall i, j :: 0 <= i < j < |bounds| ==> bounds[i] < bounds[j])
    && (forall i :: 0 <= i < |bounds| ==> bounds[i] < total)
  }

  /** The spans cut `[0, total)` into consecutive non-empty pieces, in order:
      every page lies in exactly one chapter. */
  predicate Tiles(spans: seq<Span>, total: int) {
    |spans| > 0 && spans[0].start == 0 && spans[|spans| - 1].end == total
    && (forall i :: 0 <= i < |spans| ==> spans[i].start < spans[i].end)
    && (forall i :: 0 <= i && i + 1 < |spans| ==> spans[i].end == spans[i + 1].start)
  }

  /** Well-formed boundaries give chapters that tile the document. */
  lemma SpansTile(bounds: seq<int>, total: int)
    requires WellFormedBounds(bounds, total)
    ensures Tiles(SpansOf(bounds, total), total)
  {
    var r := SpansOf(bounds, total);
    forall i | 0 <= i < |r| ensures r[i].start < r[i].end {
      if i + 1 < |r| { assert bounds[i] < bounds[i + 1]; }
    }
  }

  /** A page of a tiled document lies in exactly one chapter. */
  lemma {:induction false} TilesCover(spans: seq<Span>, total: int, p: int)
    requires Tiles(spans, total) && 0 <= p < total
    ensures exists i :: 0 <= i < |spans| && spans[i].start <= p < spans[i].end
    ensures forall i, j :: (0 <= i < |spans| && 0 <= j < |spans|
      && spans[i].start <= p < spans[i].end && spans[j].start <= p < spans[j].end) ==> i == j
  {
    TilesOrdered(spans, total);
    var k := 0;
    while k + 1 < |spans| && spans[k].end <= p
      invariant 0 <= k < |spans| && spans[k].start <= p
    {
      k := k + 1;
    }
    assert spans[k].start <= p < spans[k].end;
  }

  lemma TilesOrdered(spans: seq<Span>, total: int)
    requires Tiles(spans, total)
    ensures forall i, j :: 0 <= i < j < |spans| ==> spans[i].end <= spans[j].start
  {
    forall i, j | 0 <= i < j < |spans| ensures spans[i].end <= spans[j].start {
      TilesStep(spans, total, i, j);
    }
  }

  lemma {:induction false} TilesStep(spans: seq<Span>, total: int, i: int, j: int)
    requires Tiles(spans, total) && 0 <= i < j < |spans|
    ensures spans[i].end <= spans[j].start
    decreases j - i
  {
    if j > i + 1 {
      TilesStep(spans, total, i, j - 1);
    }
  }

  /** `[i * size for i in range(ceil(n / size))]`, the fixed-size boundaries
      used when no chapter headings are detected. */
  function FixedBounds(n: nat, size: nat): (r: seq<int>)
    requires size >= 1
    ensures |r| == CeilDiv(n, size)
    ensures forall i :: 0 <= i < |r| ==> r[i] == i * size
  {
    seq(CeilDiv(n, size), i requires 0 <= i => i * size)
  }

  /** The fixed boundaries are those of `range(0, n, size)`, and for a
      document with pages they are well formed. */
  lemma FixedBoundsWellFormed(n: nat, size: nat)
    requires size >= 1
    ensures FixedBounds(n, size) == RangeStep(0, n, size)
    ensures n > 0 ==> WellFormedBounds(FixedBounds(n, size), n)
  {
    var r := FixedBounds(n, size);
    var q := CeilDiv(n, size);
    RangeStepAt(0, n, size);
    CeilDivStep(n, size);
    assert |r| == |RangeStep(0, n, size)|;
    forall k | 0 <= k < |r| ensures r[k] == RangeStep(0, n, size)[k] {
    }
    forall i, j | 0 <= i < j < |r| ensures r[i] < r[j] {
      MulStrict(i, j, size);
    }
    forall i | 0 <= i < |r| ensures r[i] < n {
      MulMonotone(i, q - 1, size);
    }
  }

  /** Chapter `k` of a fixed split: `[k * size, min((k + 1) * size, n))`. */
  function FixedSpan(n: nat, size: nat, k: nat): Span {
    Span(k * size, if (k + 1) * size < n then (k + 1) * size else n)
  }

  /** The spans of the fixed boundaries are the fixed chapters. */
  lemma FixedSpansAt(n: nat, size: nat, k: nat)
    requires size >= 1 && k < CeilDiv(n, size)
    ensures SpansOf(FixedBounds(n, size), n)[k] == FixedSpan(n, size, k)
  {
    var q := CeilDiv(n, size);
    if k + 1 < q {
      MulMonotone(k + 1, q - 1, size);
    } else {
      assert k + 1 == q;
    }
  }
}
