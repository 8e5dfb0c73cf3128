/** `get_segment` (src/main.rs): the band of image rows [lower, upper) that
    thread `threadIndex` of `threadCount` renders. Every band has
    ny / threadCount rows except the last, which also takes the remainder. */
module Segments {
  function GetSegment(threadCount: nat, threadIndex: nat, ny: nat): (r: (nat, nat))
    requires threadCount >= 1
    ensures threadIndex < threadCount ==> r.0 <= r.1 <= ny
    ensures threadIndex == 0 ==> r.0 == 0
    ensures threadIndex == threadCount - 1 ==> r.1 == ny
    ensures threadIndex < threadCount - 1 ==> r.1 - r.0 == ny / threadCount
  {
    var size := ny / threadCount;
    var lower := size * threadIndex;
    var upper := if threadIndex == threadCount - 1 then ny else size * (threadIndex + 1);
    SegmentArithmetic(size, threadIndex, threadCount, ny);
    (lower, upper)
  }

  lemma SegmentArithmetic(size: nat, i: nat, n: nat, ny: nat)
    requires n >= 1 && size == ny / n
    ensures i < n ==> size * i <= size * (i + 1) <= ny
    ensures size * (i + 1) - size * i == size
  {
    if i < n {
      MulMonotone(size, i + 1, n);
    }
  }

  lemma MulMonotone(a: nat, b: nat, c: nat)
    requires b <= c
    ensures a * b <= a * c
  {
  }

  predicate InSegment(y: nat, segment: (nat, nat))
  {
    segment.0 <= y < segment.1
  }

  /** Consecutive bands abut: each starts where the one before ends. */
  lemma SegmentsAbut(threadCount: nat, threadIndex: nat, ny: nat)
    requires threadIndex + 1 < threadCount
    ensures GetSegment(threadCount, threadIndex, ny).1 == GetSegment(threadCount, threadIndex + 1, ny).0
  {
  }

  /** The band holding row `y`. */
  function SegmentOf(threadCount: nat, ny: nat, y: nat): (i: nat)
    requires threadCount >= 1 && y < ny
    ensures i < threadCount && InSegment(y, GetSegment(threadCount, i, ny))
  {
    var size := ny / threadCount;
    var i := if size == 0 then threadCount - 1 else MinNat(y / size, threadCount - 1);
    SegmentOfIn(threadCount, ny, y, size, i);
    i
  }

  function MinNat(a: nat, b: nat): nat { if a < b then a else b }

  lemma SegmentOfIn(n: nat, ny: nat, y: nat, size: nat, i: nat)
    requires n >= 1 && y < ny && size == ny / n
    requires i == if size == 0 then n - 1 else MinNat(y / size, n - 1)
    ensures InSegment(y, GetSegment(n, i, ny))
  {
    if size == 0 {
      assert size * i == 0;
    } else {
      var q := y / size;
      assert size * q <= y < size * (q + 1);
      if q < n - 1 {
        assert i == q;
      } else {
        assert i == n - 1;
        MulMonotone(size, n - 1, q);
      }
    }
  }

  /** Bands of different threads are disjoint. */
  lemma {:induction false} SegmentsDisjoint(threadCount: nat, ny: nat, i: nat, j: nat, y: nat)
    requires i < j < threadCount
    ensures GetSegment(threadCount, i, ny).1 <= GetSegment(threadCount, j, ny).0
    ensures !(InSegment(y, GetSegment(threadCount, i, ny)) && InSegment(y, GetSegment(threadCount, j, ny)))
  {
    MulMonotone(ny / threadCount, i + 1, j);
  }

  /** Every row of the image is rendered by exactly one thread. */
  lemma EveryRowInOneSegment(threadCount: nat, ny: nat, y: nat)
    requires threadCount >= 1 && y < ny
    ensures exists i: nat :: i < threadCount && InSegment(y, GetSegment(threadCount, i, ny))
    ensures forall i: nat, j: nat ::
      (i < threadCount && j < threadCount &&
       InSegment(y, GetSegment(threadCount, i, ny)) && InSegment(y, GetSegment(threadCount, j, ny))) ==> i == j
  {
    var k := SegmentOf(threadCount, ny, y);
    forall i: nat, j: nat | i < threadCount && j < threadCount &&
      InSegment(y, GetSegment(threadCount, i, ny)) && InSegment(y, GetSegment(threadCount, j, ny))
      ensures i == j
    {
      if i < j {
        SegmentsDisjoint(threadCount, ny, i, j, y);
      } else if j < i {
        SegmentsDisjoint(threadCount, ny, j, i, y);
      }
    }
  }

  /** A division of the rows 0 .. ny - 1 among band indices, one band per thread. */
  type Bands = nat -> (nat, nat)

  /** The bands tile the image: the first starts at row 0, the last ends at ny,
      each is ordered and inside the image, and each starts where the one
      before it ends. */
  predicate Tiling(bands: Bands, threadCount: nat, ny: nat)
  {
    && threadCount >= 1
    && bands(0).0 == 0
    && bands(threadCount - 1).1 == ny
    && (forall i :: 0 <= i < threadCount ==> bands(i).0 <= bands(i).1 <= ny)
    && (forall i :: 0 <= i < threadCount - 1 ==> bands(i).1 == bands(i + 1).0)
  }

  /** `get_segment` for a fixed thread count and height, as a value. */
  function Segmenter(threadCount: nat, ny: nat): Bands
  {
    (i: nat) => if threadCount >= 1 then GetSegment(threadCount, i, ny) else (0, 0)
  }

  /** `get_segment` tiles the image. */
  lemma GetSegmentTiles(threadCount: nat, ny: nat)
    requires threadCount >= 1
    ensures Tiling(Segmenter(threadCount, ny), threadCount, ny)
  {
    var bands := Segmenter(threadCount, ny);
    forall i | 0 <= i < threadCount - 1
      ensures bands(i).1 == bands(i + 1).0
    {
      SegmentsAbut(threadCount, i, ny);
    }
  }
}
