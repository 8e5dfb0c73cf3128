/** The order in which `render_multi_thread` (src/main.rs) fills its output:
    each thread renders its band of rows from the top row down and each row
    from left to right, and the bands are appended in the order the threads
    were started, from the last thread index down to 0. The computation of
    one pixel is a parameter `shade`, which takes the column, the row and the
    thread's random state and returns the colour and the next state. The
    row bands are a parameter `bands` that tiles the image (see `Tiling`);
    `render_multi_thread` uses `get_segment`. */
module Raster {
  import opened Vectors
  import opened Segments

  type Shade<!R> = (nat, nat, R) -> (Vec3, R)

  /** The first `n` pixels of row `y`, left to right, and the state after them. */
  function Row<R>(shade: Shade<R>, y: nat, n: nat, rnd: R): (r: (seq<Vec3>, R))
    ensures |r.0| == n
  {
    if n == 0 then ([], rnd)
    else
      var pixels := Row(shade, y, n - 1, rnd);
      var col := shade(n - 1, y, pixels.1);
      (pixels.0 + [col.0], col.1)
  }

  /** The first `k` rows of width `nx` below row `top`, from row top - 1 down. */
  function Band<R>(shade: Shade<R>, nx: nat, top: nat, k: nat, rnd: R): (r: (seq<Vec3>, R))
    requires k <= top
  {
    if k == 0 then ([], rnd)
    else
      var pixels := Band(shade, nx, top, k - 1, rnd);
      var row := Row(shade, top - k, nx, pixels.1);
      (pixels.0 + row.0, row.1)
  }

  /** The random state a thread starts from: a generator seeded with 1234 * i. */
  function ThreadSeed<R>(seeded: nat -> R, threadIndex: nat): R
  {
    seeded(1234 * threadIndex)
  }

  /** What thread `threadIndex` returns: all the rows of its band. */
  function ThreadPixels<R>(shade: Shade<R>, nx: nat, seeded: nat -> R, bands: Bands, threadIndex: nat): seq<Vec3>
    requires bands(threadIndex).0 <= bands(threadIndex).1
  {
    var segment := bands(threadIndex);
    Band(shade, nx, segment.1, segment.1 - segment.0, ThreadSeed(seeded, threadIndex)).0
  }

  /** The output after joining the first `m` workers, which ran the thread
      indices threadCount - 1 down to threadCount - m. */
  function Joined<R>(shade: Shade<R>, nx: nat, ny: nat, seeded: nat -> R, bands: Bands, threadCount: nat, m: nat): seq<Vec3>
    requires Tiling(bands, threadCount, ny) && m <= threadCount
  {
    if m == 0 then []
    else Joined(shade, nx, ny, seeded, bands, threadCount, m - 1) + ThreadPixels(shade, nx, seeded, bands, threadCount - m)
  }

  /** The whole image, as `render_multi_thread` returns it. */
  function Image<R>(shade: Shade<R>, nx: nat, ny: nat, seeded: nat -> R, bands: Bands, threadCount: nat): seq<Vec3>
    requires Tiling(bands, threadCount, ny)
  {
    Joined(shade, nx, ny, seeded, bands, threadCount, threadCount)
  }

  /** The column loop of row `y`. */
  method RenderRow<R>(shade: Shade<R>, nx: nat, y: nat, rnd0: R) returns (row: seq<Vec3>, rnd: R)
    ensures (row, rnd) == Row(shade, y, nx, rnd0)
  {
    rnd := rnd0;
    row := [];
    var x := 0;
    while x < nx
      invariant x <= nx
      invariant (row, rnd) == Row(shade, y, x, rnd0)
    {
      var pixel := shade(x, y, rnd);
      row, rnd := row + [pixel.0], pixel.1;
      x := x + 1;
    }
  }

  /** One thread's work: the row loop over its band, from row y1 - 1 down to y0. */
  method RenderBand<R>(shade: Shade<R>, nx: nat, y0: nat, y1: nat, rnd0: R) returns (cols: seq<Vec3>)
    requires y0 <= y1
    ensures cols == Band(shade, nx, y1, y1 - y0, rnd0).0
  {
    var rnd := rnd0;
    cols := [];
    var y := y1;
    while y > y0
      invariant y0 <= y <= y1
      invariant (cols, rnd) == Band(shade, nx, y1, y1 - y, rnd0)
    {
      y := y - 1;
      var row;
      row, rnd := RenderRow(shade, nx, y, rnd);
      cols := cols + row;
    }
  }

  /** Join the workers in the order they were started, appending each one's
      rows to the output. */
  method JoinWorkers<R>(shade: Shade<R>, nx: nat, ny: nat, seeded: nat -> R, bands: Bands, threadCount: nat,
                        workers: seq<seq<Vec3>>) returns (cols: seq<Vec3>)
    requires Tiling(bands, threadCount, ny) && |workers| == threadCount
    requires forall j :: 0 <= j < |workers| ==> workers[j] == ThreadPixels(shade, nx, seeded, bands, threadCount - 1 - j)
    ensures cols == Image(shade, nx, ny, seeded, bands, threadCount)
  {
    cols := [];
    var m := 0;
    while m < |workers|
      invariant m <= |workers|
      invariant cols == Joined(shade, nx, ny, seeded, bands, threadCount, m)
    {
      assert workers[m] == ThreadPixels(shade, nx, seeded, bands, threadCount - (m + 1));
      cols := cols + workers[m];
      m := m + 1;
    }
  }

  /** The body of one spawned thread: render the rows of its segment with its
      own generator. */
  method RenderThread<R>(shade: Shade<R>, nx: nat, ny: nat, seeded: nat -> R, threadCount: nat, threadIndex: nat)
    returns (band: seq<Vec3>)
    requires threadIndex < threadCount
    ensures band == ThreadPixels(shade, nx, seeded, Segmenter(threadCount, ny), threadIndex)
  {
    var segment := GetSegment(threadCount, threadIndex, ny);
    band := RenderBand(shade, nx, segment.0, segment.1, ThreadSeed(seeded, threadIndex));
  }

  /** Start one worker per thread index, from threadCount - 1 down to 0, and
      then append their results in that order. Without threads nothing is
      started and the output is empty. */
  method RenderMultiThread<R>(shade: Shade<R>, nx: nat, ny: nat, seeded: nat -> R, threadCount: nat) returns (cols: seq<Vec3>)
    ensures threadCount == 0 ==> cols == []
    ensures threadCount >= 1 ==> Tiling(Segmenter(threadCount, ny), threadCount, ny)
    ensures threadCount >= 1 ==> cols == Image(shade, nx, ny, seeded, Segmenter(threadCount, ny), threadCount)
    ensures threadCount >= 1 ==> |cols| == nx * ny
  {
    var bands := Segmenter(threadCount, ny);
    var workers: seq<seq<Vec3>> := [];
    var threadIndex: nat := threadCount;
    while threadIndex > 0
      invariant threadIndex <= threadCount
      invariant |workers| == threadCount - threadIndex
      invariant forall j :: 0 <= j < |workers| ==>
        workers[j] == ThreadPixels(shade, nx, seeded, bands, threadCount - 1 - j)
    {
      threadIndex := threadIndex - 1;
      var band := RenderThread(shade, nx, ny, seeded, threadCount, threadIndex);
      workers := workers + [band];
      assert workers[threadCount - 1 - threadIndex] == band;
    }
    if threadCount == 0 {
      return [];
    }
    GetSegmentTiles(threadCount, ny);
    cols := JoinWorkers(shade, nx, ny, seeded, bands, threadCount, workers);
    ImageLength(shade, nx, ny, seeded, bands, threadCount);
  }

  /** Where row i starts in a buffer of rows of width nx: i * nx, counted
      row by row so that the position lemmas stay linear. */
  function Offset(i: nat, nx: nat): nat
  {
    if i == 0 then 0 else Offset(i - 1, nx) + nx
  }

  lemma {:induction false} OffsetAdd(a: nat, b: nat, nx: nat)
    ensures Offset(a + b, nx) == Offset(a, nx) + Offset(b, nx)
    decreases b
  {
    if b > 0 {
      OffsetAdd(a, b - 1, nx);
    }
  }

  lemma {:induction false} OffsetIsProduct(i: nat, nx: nat)
    ensures Offset(i, nx) == i * nx
  {
    if i > 0 {
      OffsetIsProduct(i - 1, nx);
    }
  }

  /** Column x of row i lies before the end of row k > i. */
  lemma IndexInRows(i: nat, x: nat, nx: nat, k: nat)
    requires i < k && x < nx
    ensures Offset(i, nx) + x < Offset(k, nx)
  {
    OffsetAdd(i + 1, k - i - 1, nx);
  }

  /** A band of k rows holds k * nx pixels. */
  lemma {:induction false} BandLength<R>(shade: Shade<R>, nx: nat, top: nat, k: nat, rnd: R)
    requires k <= top
    ensures |Band(shade, nx, top, k, rnd).0| == Offset(k, nx)
  {
    if k > 0 {
      BandLength(shade, nx, top, k - 1, rnd);
    }
  }

  lemma ThreadPixelsLength<R>(shade: Shade<R>, nx: nat, seeded: nat -> R, bands: Bands, ti: nat)
    requires bands(ti).0 <= bands(ti).1
    ensures |ThreadPixels(shade, nx, seeded, bands, ti)| == Offset(bands(ti).1 - bands(ti).0, nx)
  {
    var lower, upper := bands(ti).0, bands(ti).1;
    BandLength(shade, nx, upper, upper - lower, ThreadSeed(seeded, ti));
  }

  /** The first m workers hold the rows from the lower end of thread
      threadCount - m's band to the top of the image. */
  lemma {:induction false} JoinedLength<R>(shade: Shade<R>, nx: nat, ny: nat, seeded: nat -> R, bands: Bands,
                                           threadCount: nat, m: nat)
    requires Tiling(bands, threadCount, ny) && 1 <= m <= threadCount
    ensures |Joined(shade, nx, ny, seeded, bands, threadCount, m)| == Offset(ny - bands(threadCount - m).0, nx)
  {
    var ti := threadCount - m;
    var lower, upper := bands(ti).0, bands(ti).1;
    ThreadPixelsLength(shade, nx, seeded, bands, ti);
    assert Joined(shade, nx, ny, seeded, bands, threadCount, m)
        == Joined(shade, nx, ny, seeded, bands, threadCount, m - 1) + ThreadPixels(shade, nx, seeded, bands, ti);
    if m > 1 {
      JoinedLength(shade, nx, ny, seeded, bands, threadCount, m - 1);
      assert bands(ti).1 == bands(ti + 1).0;
      OffsetAdd(ny - upper, upper - lower, nx);
    }
  }

  /** The image holds nx * ny pixels. */
  lemma ImageLength<R>(shade: Shade<R>, nx: nat, ny: nat, seeded: nat -> R, bands: Bands, threadCount: nat)
    requires Tiling(bands, threadCount, ny)
    ensures |Image(shade, nx, ny, seeded, bands, threadCount)| == nx * ny
  {
    JoinedLength(shade, nx, ny, seeded, bands, threadCount, threadCount);
    OffsetIsProduct(ny, nx);
  }

  /** Pixel x of a row is the shade of column x, drawn from the state
      reached after the pixels before it. */
  lemma {:induction false} RowAt<R>(shade: Shade<R>, y: nat, n: nat, rnd: R, x: nat) returns (r: R)
    requires x < n
    ensures Row(shade, y, n, rnd).0[x] == shade(x, y, r).0
  {
    var before := Row(shade, y, n - 1, rnd);
    if x == n - 1 {
      r := before.1;
    } else {
      r := RowAt(shade, y, n - 1, rnd, x);
    }
  }

  /** Pixel x of row i of a band is the shade of column x in row top - 1 - i. */
  lemma {:induction false} BandAt<R>(shade: Shade<R>, nx: nat, top: nat, k: nat, rnd: R, i: nat, x: nat) returns (r: R)
    requires k <= top && i < k && x < nx
    ensures Offset(i, nx) + x < |Band(shade, nx, top, k, rnd).0|
    ensures Band(shade, nx, top, k, rnd).0[Offset(i, nx) + x] == shade(x, top - 1 - i, r).0
  {
    BandLength(shade, nx, top, k - 1, rnd);
    IndexInRows(i, x, nx, k);
    var before := Band(shade, nx, top, k - 1, rnd);
    if i == k - 1 {
      r := RowAt(shade, top - k, nx, before.1, x);
    } else {
      IndexInRows(i, x, nx, k - 1);
      r := BandAt(shade, nx, top, k - 1, rnd, i, x);
    }
  }

  /** Pixel x of row j of thread ti's band is the shade of column x in row
      upper - 1 - j. */
  lemma ThreadPixelAt<R>(shade: Shade<R>, nx: nat, seeded: nat -> R, bands: Bands, ti: nat, j: nat, x: nat) returns (r: R)
    requires bands(ti).0 <= bands(ti).1 && x < nx && j < bands(ti).1 - bands(ti).0
    ensures Offset(j, nx) + x < |ThreadPixels(shade, nx, seeded, bands, ti)|
    ensures ThreadPixels(shade, nx, seeded, bands, ti)[Offset(j, nx) + x] == shade(x, bands(ti).1 - 1 - j, r).0
  {
    var lower, upper := bands(ti).0, bands(ti).1;
    r := BandAt(shade, nx, upper, upper - lower, ThreadSeed(seeded, ti), j, x);
  }

  /** Pixel x of row i of the first m workers' output, counting rows from the
      top of the image, is the shade of column x in row ny - 1 - i. */
  lemma {:induction false} JoinedAt<R>(shade: Shade<R>, nx: nat, ny: nat, seeded: nat -> R, bands: Bands,
                                       threadCount: nat, m: nat, i: nat, x: nat) returns (r: R)
    requires Tiling(bands, threadCount, ny) && 1 <= m <= threadCount && x < nx
    requires i < ny - bands(threadCount - m).0
    ensures Offset(i, nx) + x < |Joined(shade, nx, ny, seeded, bands, threadCount, m)|
    ensures Joined(shade, nx, ny, seeded, bands, threadCount, m)[Offset(i, nx) + x] == shade(x, ny - 1 - i, r).0
  {
    var ti := threadCount - m;
    var band := ThreadPixels(shade, nx, seeded, bands, ti);
    var earlier := Joined(shade, nx, ny, seeded, bands, threadCount, m - 1);
    assert Joined(shade, nx, ny, seeded, bands, threadCount, m) == earlier + band;
    var upper := bands(ti).1;
    if m == 1 {
      r := ThreadPixelAt(shade, nx, seeded, bands, ti, i, x);
      assert earlier + band == band;
    } else {
      var above := ny - upper;
      JoinedLength(shade, nx, ny, seeded, bands, threadCount, m - 1);
      assert bands(ti).1 == bands(threadCount - (m - 1)).0;
      assert |earlier| == Offset(above, nx);
      if i < above {
        IndexInRows(i, x, nx, above);
        r := JoinedAt(shade, nx, ny, seeded, bands, threadCount, m - 1, i, x);
        assert (earlier + band)[Offset(i, nx) + x] == earlier[Offset(i, nx) + x];
      } else {
        var j := i - above;
        OffsetAdd(above, j, nx);
        assert Offset(i, nx) + x == |earlier| + (Offset(j, nx) + x);
        r := ThreadPixelAt(shade, nx, seeded, bands, ti, j, x);
        assert (earlier + band)[|earlier| + (Offset(j, nx) + x)] == band[Offset(j, nx) + x];
      }
    }
  }

  /** Pixel k of the image is the shade of column k % nx in row
      ny - 1 - k / nx: rows run from the top of the image down, and each row
      from left to right. */
  lemma ImagePixel<R>(shade: Shade<R>, nx: nat, ny: nat, seeded: nat -> R, bands: Bands, threadCount: nat, k: nat)
    returns (r: R)
    requires Tiling(bands, threadCount, ny) && k < nx * ny
    ensures |Image(shade, nx, ny, seeded, bands, threadCount)| == nx * ny
    ensures nx > 0 && k / nx < ny
    ensures Image(shade, nx, ny, seeded, bands, threadCount)[k] == shade(k % nx, ny - 1 - k / nx, r).0
  {
    ImageLength(shade, nx, ny, seeded, bands, threadCount);
    RowOfIndex(k, nx, ny);
    OffsetIsProduct(k / nx, nx);
    r := JoinedAt(shade, nx, ny, seeded, bands, threadCount, threadCount, k / nx, k % nx);
  }

  lemma RowOfIndex(k: nat, nx: nat, ny: nat)
    requires k < nx * ny
    ensures nx > 0 && k / nx < ny && k == (k / nx) * nx + k % nx
  {
    if k / nx >= ny {
      MulMonotone(nx, ny, k / nx);
    }
  }
}
