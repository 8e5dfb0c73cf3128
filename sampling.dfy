/** One pixel of `render_multi_thread` (src/main.rs): `samples` jittered
    camera rays through the pixel, each traced by the integrator from depth 1,
    summed, divided by the sample count and gamma-corrected with a square
    root per channel. */
module Sampling {
  import opened Vectors
  import opened Rays
  import opened Boxes
  import opened BvhQuery
  import opened BvhBuild
  import opened Materials
  import opened Integrator
  import opened Raster
  import opened Segments

  /** What every thread shares: the image size, the sample count, the camera
      (`Camera::get_ray`, which may draw from the random state), the world and
      the collaborators. */
  datatype Setup<!R> = Setup(
    nx: nat,
    ny: nat,
    samples: nat,
    camera: (real, real, R) -> (Ray, R),
    world: BvhTree,
    c: Collaborators<R>,
    boxHit: (Aabb, Ray, real, real) -> bool)

  /** One sample of pixel (x, y): u = (x + gen) / nx, v = (y + gen) / ny. */
  function Sample<R>(sc: Setup<R>, x: nat, y: nat, rnd: R): (Vec3, R)
    requires x < sc.nx && y < sc.ny
  {
    var du := sc.c.gen(rnd);
    var dv := sc.c.gen(du.1);
    var ray := sc.camera((x as real + du.0) / sc.nx as real, (y as real + dv.0) / sc.ny as real, dv.1);
    Colour(ray.0, sc.world, ray.1, 1, sc.c, sc.boxHit)
  }

  /** The sampler of pixel (x, y) as a value; nothing outside the image. */
  function SampleOf<R>(sc: Setup<R>, x: nat, y: nat): R -> (Vec3, R)
  {
    (rnd: R) => if x < sc.nx && y < sc.ny then Sample(sc, x, y, rnd) else (Zero, rnd)
  }

  /** The sum of the first `k` draws of `sample`, and the state after them. */
  function SampleSum<R>(sample: R -> (Vec3, R), k: nat, rnd: R): (Vec3, R)
  {
    if k == 0 then (Zero, rnd)
    else
      var sum := SampleSum(sample, k - 1, rnd);
      var col := sample(sum.1);
      (Add(sum.0, col.0), col.1)
  }

  function Gamma(sqrt: real -> real, v: Vec3): Vec3
  {
    Vec3(sqrt(v.x), sqrt(v.y), sqrt(v.z))
  }

  /** The gamma-corrected mean of `samples` draws of `sample`. */
  function Mean<R>(sample: R -> (Vec3, R), samples: nat, sqrt: real -> real, rnd: R): (Vec3, R)
    requires samples >= 1
  {
    var sum := SampleSum(sample, samples, rnd);
    (Gamma(sqrt, Div(sum.0, samples as real)), sum.1)
  }

  /** The value pushed for pixel (x, y). */
  function Pixel<R>(sc: Setup<R>, x: nat, y: nat, rnd: R): (Vec3, R)
    requires sc.samples >= 1
  {
    Mean(SampleOf(sc, x, y), sc.samples, sc.c.sqrt, rnd)
  }

  /** The pixel computation handed to the row and band loops. */
  function PixelShade<R>(sc: Setup<R>): Shade<R>
  {
    (x: nat, y: nat, rnd: R) => if sc.samples >= 1 then Pixel(sc, x, y, rnd) else (Zero, rnd)
  }

  /** The sample loop of one pixel, then the mean and the gamma correction. */
  method RenderPixel<R>(sample: R -> (Vec3, R), samples: nat, sqrt: real -> real, rnd0: R) returns (col: Vec3, rnd: R)
    requires samples >= 1
    ensures (col, rnd) == Mean(sample, samples, sqrt, rnd0)
  {
    rnd := rnd0;
    col := Zero;
    var s := 0;
    while s < samples
      invariant s <= samples
      invariant (col, rnd) == SampleSum(sample, s, rnd0)
    {
      var drawn := sample(rnd);
      col, rnd := Add(col, drawn.0), drawn.1;
      s := s + 1;
    }
    col := Gamma(sqrt, Div(col, samples as real));
  }

  /** `render_multi_thread` with its per-pixel computation. */
  method RenderImage<R>(sc: Setup<R>, seeded: nat -> R, threadCount: nat) returns (cols: seq<Vec3>)
    requires sc.samples >= 1
    ensures threadCount == 0 ==> cols == []
    ensures threadCount >= 1 ==> Tiling(Segmenter(threadCount, sc.ny), threadCount, sc.ny)
    ensures threadCount >= 1 ==>
      cols == Image(PixelShade(sc), sc.nx, sc.ny, seeded, Segmenter(threadCount, sc.ny), threadCount)
    ensures threadCount >= 1 ==> |cols| == sc.nx * sc.ny
  {
    cols := RenderMultiThread(PixelShade(sc), sc.nx, sc.ny, seeded, threadCount);
  }

  /** Every channel of a sum of k colours from the unit cube lies in [0, k]. */
  predicate InScaledCube(v: Vec3, k: real)
  {
    0.0 <= v.x <= k && 0.0 <= v.y <= k && 0.0 <= v.z <= k
  }

  /** The hypotheses under which a colour stays in the unit cube. */
  ghost predicate Bounded<R>(sc: Setup<R>)
  {
    AlbedosInUnitCube(Leaves(sc.world.root)) && HeightBounded(sc.c.normalise) && IsSqrt(sc.c.sqrt)
  }

  /** Each sample of a pixel lies in the unit cube. */
  lemma SampleInUnitCube<R>(sc: Setup<R>, x: nat, y: nat, rnd: R)
    requires Bounded(sc)
    ensures InUnitCube(SampleOf(sc, x, y)(rnd).0)
  {
    if x < sc.nx && y < sc.ny {
      var du := sc.c.gen(rnd);
      var dv := sc.c.gen(du.1);
      var ray := sc.camera((x as real + du.0) / sc.nx as real, (y as real + dv.0) / sc.ny as real, dv.1);
      ColourInUnitCube(ray.0, sc.world, ray.1, 1, sc.c, sc.boxHit);
    }
  }

  /** Every draw of `sample` lies in the unit cube. */
  ghost predicate DrawsInUnitCube<R(!new)>(sample: R -> (Vec3, R))
  {
    forall r :: InUnitCube(sample(r).0)
  }

  /** A sum of k draws from the unit cube lies in [0, k] per channel. */
  lemma {:induction false} SampleSumBounded<R(!new)>(sample: R -> (Vec3, R), k: nat, rnd: R)
    requires DrawsInUnitCube(sample)
    ensures InScaledCube(SampleSum(sample, k, rnd).0, k as real)
  {
    if k > 0 {
      SampleSumBounded(sample, k - 1, rnd);
      var sum := SampleSum(sample, k - 1, rnd);
      var r := sum.1;
      assert InUnitCube(sample(r).0);
    }
  }

  lemma MeanInUnit(v: real, k: real)
    requires k >= 1.0 && 0.0 <= v <= k
    ensures 0.0 <= v / k <= 1.0
  {
  }

  lemma RootInUnit(s: real, v: real)
    requires 0.0 <= s && s * s == v && v <= 1.0
    ensures s <= 1.0
  {
  }

  lemma GammaInUnitCube(sqrt: real -> real, v: Vec3)
    requires IsSqrt(sqrt) && InUnitCube(v)
    ensures InUnitCube(Gamma(sqrt, v))
  {
    RootInUnit(sqrt(v.x), v.x);
    RootInUnit(sqrt(v.y), v.y);
    RootInUnit(sqrt(v.z), v.z);
  }

  /** Every pixel lies in the unit cube, so scaling by 255.99 gives a colour
      byte: with albedos in the unit cube, a normaliser whose heights are in
      [-1, 1] and a true square root. */
  lemma PixelInUnitCube<R(!new)>(sc: Setup<R>, x: nat, y: nat, rnd: R)
    requires sc.samples >= 1 && Bounded(sc)
    ensures InUnitCube(Pixel(sc, x, y, rnd).0)
  {
    var sample := SampleOf(sc, x, y);
    forall r
      ensures InUnitCube(sample(r).0)
    {
      SampleInUnitCube(sc, x, y, r);
    }
    var sum := SampleSum(sample, sc.samples, rnd).0;
    var k := sc.samples as real;
    SampleSumBounded(sample, sc.samples, rnd);
    MeanInUnit(sum.x, k);
    MeanInUnit(sum.y, k);
    MeanInUnit(sum.z, k);
    GammaInUnitCube(sc.c.sqrt, Div(sum, k));
  }

  /** The whole image lies in the unit cube, for any tiling of the rows
      (`get_segment`'s among them, by `GetSegmentTiles`). */
  lemma ImageInUnitCube<R(!new)>(sc: Setup<R>, seeded: nat -> R, bands: Bands, threadCount: nat)
    requires Tiling(bands, threadCount, sc.ny) && sc.samples >= 1 && Bounded(sc)
    ensures forall k :: 0 <= k < |Image(PixelShade(sc), sc.nx, sc.ny, seeded, bands, threadCount)| ==>
      InUnitCube(Image(PixelShade(sc), sc.nx, sc.ny, seeded, bands, threadCount)[k])
  {
    var shade := PixelShade(sc);
    var image := Image(shade, sc.nx, sc.ny, seeded, bands, threadCount);
    ImageLength(shade, sc.nx, sc.ny, seeded, bands, threadCount);
    forall k | 0 <= k < |image|
      ensures InUnitCube(image[k])
    {
      ImagePixelInUnitCube(sc, seeded, bands, threadCount, k);
    }
  }

  lemma ImagePixelInUnitCube<R(!new)>(sc: Setup<R>, seeded: nat -> R, bands: Bands, threadCount: nat, k: nat)
    requires Tiling(bands, threadCount, sc.ny) && sc.samples >= 1 && Bounded(sc) && k < sc.nx * sc.ny
    ensures k < |Image(PixelShade(sc), sc.nx, sc.ny, seeded, bands, threadCount)|
    ensures InUnitCube(Image(PixelShade(sc), sc.nx, sc.ny, seeded, bands, threadCount)[k])
  {
    var shade := PixelShade(sc);
    var r := ImagePixel(shade, sc.nx, sc.ny, seeded, bands, threadCount, k);
    var x, y := k % sc.nx, sc.ny - 1 - k / sc.nx;
    PixelInUnitCube(sc, x, y, r);
    assert shade(x, y, r) == Pixel(sc, x, y, r);
  }
}
