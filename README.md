# A verified model of the core of a Rust path tracer

This project models the core of a small Rust path tracer in the style of
"Ray Tracing in One Weekend", and proves properties of that model. The
renderer builds a bounding-volume hierarchy (BVH) over a list of spheres. It
traces `samples` jittered camera rays through every pixel and follows each
ray through up to 19 scattering events off Lambertian, metal and dielectric
materials: `colour` starts at depth 1 and stops scattering at depth 20. It splits the image into horizontal bands, one per thread, and
concatenates the bands in a fixed order.

The modules follow the source files:

| module | models |
|---|---|
| `Vectors`, `Rays` | the `Vec3`, `Ray` and `HitRecord` values the core works on (vector algebra only) |
| `Boxes` | `Aabb` values and `Aabb::surrounding_box` |
| `Spheres` | `Sphere::hit` and `Sphere::bounding_box` (src/hitable.rs) |
| `BvhQuery` | `BvhNode::create`, `BvhNode::hit` and `bounding_box` (src/hitable.rs) |
| `BvhBuild` | `BvhTree::build` and `BvhNode::build_bvh_tree`, imperatively over a mutable `HitableVec` (src/hitable.rs) |
| `Materials` | `Lambertian`, `Metal`, `schlick` and `Dielectric` (src/material.rs) |
| `Integrator` | `colour` (src/main.rs) |
| `Segments` | `get_segment` (src/main.rs) |
| `Raster` | the thread, row and column loops of `render_multi_thread` and the join of the workers (src/main.rs) |
| `Sampling` | the per-pixel sample loop, mean and gamma correction of `render_multi_thread` (src/main.rs) |

## Design

**Parameters.** The model receives as parameters everything the core calls
but does not define:

- the random generator: a state value `R` with `gen: R -> (real, R)`, plus
  `random_in_unit_sphere`;
- `reflect`, `refract`, `make_normalised` and the square root behind `length`
  and `sqrt`;
- the camera's `get_ray`;
- the slab test `Aabb::hit`.

Where a property needs it, a predicate states what the parameter is assumed
to satisfy:

- `IsSqrt`: a non-negative root;
- `UnitInterval`: draws lie in [0, 1);
- `SlabSound`: a box the test rejects contains no point of the ray strictly
  inside (tMin, tMax);
- `IsMirror` for `reflect`;
- `HeightBounded` for the normaliser.

**Numbers.** Floating point `f32` is modelled as `real`.

**Random state across calls.** Every function that draws returns the state
after its draws, so the order of draws is part of each contract.

**Threads.** The threads of `render_multi_thread` are modelled one after the
other, in the order the source starts and joins them: thread index
`threadCount - 1` down to 0. Thread `i` starts from a generator seeded with
`1234 * i`, written `seeded(1234 * i)`. The seeding function is a parameter.

**Building the BVH.** `build_bvh_tree` is an imperative method over a class
`HitableVec` whose `items` field the source's `remove`, `sort_by` and
`split_off` change in place. It is proved against the relation `IsBuildOf`:

- one primitive gives that primitive;
- two give a node of the two in order;
- otherwise the primitives are sorted on the axis `floor(3 * draw)`, split
  at `n / 2`, and the two halves are built with the random state threaded
  from the left half to the right.

The code sorts with a comparator that never answers `Equal`. The model
specifies the result only as sorted by the box's lower corner on that axis
and a permutation (`SortByKey`). The build needs at least one primitive: on
an empty vector the source's `match` falls through to the recursive case and
never returns (src/hitable.rs:41-64), so `|items| >= 1` is a precondition.

**Sphere intersection.** `SphereHit` follows `Sphere::hit` branch for branch:

- only a strictly positive discriminant hits, so a ray tangent to the sphere
  (discriminant 0) reports no hit;
- the near root is tried before the far root;
- both comparisons with tMin and tMax are strict.

**Dielectric.** `Dielectric::scatter` divides by the length of the incoming
direction. When that length is zero the source computes 0/0, a NaN, and
every comparison with a NaN is false. The model writes that cosine as `None`,
and `DrawReflects` is then false, so the ray refracts, just as
`gen() < NaN` fails in the source.

**Ordering the BVH query.** `BvhNode::hit` prefers the left hit only when it
is strictly nearer, so ties go to the right child. `Nearer` keeps that rule.
The reference `ScanNearest` tests the leaves from left to right and lets a
later leaf win a tie, and `HitIsScanNearest` proves that the pruned tree query equals
it.

## Model

| member | source | states |
|---|---|---|
| Boxes.SurroundingBox | src/hitable.rs:69 | the box around two boxes contains both and lies inside every box that contains both (it is the smallest) |
| Boxes.SurroundingBoxAssociative | src/hitable.rs:68-75 | combining boxes is associative, so the box of a subtree does not depend on how its leaves are grouped |
| Spheres.DiscriminantPositive | src/hitable.rs:108-113 | a positive discriminant implies a > 0 and a non-zero radius, so the divisions by `a` and by the radius are defined |
| Spheres.HitAt | src/hitable.rs:115-121 | the record carries the parameter t, the point of the ray at t and the sphere's material, and its normal scaled by the radius gives back p - centre, so the normal is (p - centre) / radius |
| Spheres.SphereHit | src/hitable.rs:106-139 | a reported hit has tMin < t < tMax, comes from a sphere of non-zero radius and is the record at its t. A discriminant that is not positive reports no hit |
| Spheres.OnSurfaceIff | src/hitable.rs:107-111 | for a non-zero direction, the point at t is on the sphere exactly when (a t + b)^2 equals the discriminant |
| Spheres.SurfaceExpansion | src/hitable.rs:107-110 | the squared distance of the point at t from the centre is \|oc\|^2 + 2 t b + t^2 a |
| Spheres.SphereHitOnSurface | src/hitable.rs:112-135 | every reported point lies on the sphere and its normal (p - centre) / radius has unit length |
| Spheres.SphereNormalOrientation | src/hitable.rs:119-131 | the component of a reported normal along p - centre equals the radius, so the normal points away from the centre exactly when the radius is positive |
| Spheres.SphereHitNearest | src/hitable.rs:112-135 | with a positive discriminant, any surface point the ray reaches at a t strictly inside (tMin, tMax) is found, and the reported t is no larger: the nearest root wins |
| Spheres.NegativeDiscriminantMisses | src/hitable.rs:111-112 | with a negative discriminant no point of the ray's line is on the sphere, so reporting no hit misses nothing |
| Spheres.SphereBox | src/hitable.rs:141-144 | for a non-negative radius every point of the sphere lies in centre -/+ (r, r, r) |
| Spheres.SurfaceInBox | src/hitable.rs:141-144 | each coordinate of a surface point lies within the radius of the centre's coordinate |
| BvhQuery.BoundingBox | src/hitable.rs:100-102 | the stored box of a node, or the sphere's own box at a leaf. It has no contract of its own: `WellBoxedIsUnion` and `LeafBoxesContained` state what it is for a tree built by `Create` |
| BvhQuery.Create | src/hitable.rs:68-75 | the node holds the two children in order. Its box contains both children's boxes. It is well boxed exactly when both children are. Its leaves are the left leaves followed by the right leaves |
| BvhQuery.Nearer | src/hitable.rs:83-94 | no hit exactly when neither child hits. Otherwise the answer is one of the two hits and no farther than either, and an equal-distance tie goes to the right |
| BvhQuery.NearerAssociative | src/hitable.rs:83-94 | choosing the nearer hit is associative, so the tree's grouping of leaves does not change the answer |
| BvhQuery.Hit | src/hitable.rs:79-98 | every hit lies strictly inside (tMin, tMax), and a node whose box test fails reports no hit |
| BvhQuery.ScanNearest | src/hitable.rs:79-98 | the reference answer, a scan of the leaves with the same tie rule, lies strictly inside (tMin, tMax) |
| BvhQuery.ScanNearestConcat | src/hitable.rs:83-94 | scanning two lists one after the other is the nearer of the two scans |
| BvhQuery.ScanNearestNone | src/hitable.rs:79-98 | the scan finds nothing exactly when no leaf sphere is hit |
| BvhQuery.ScanNearestIsMinimum | src/hitable.rs:79-98 | the scan's answer is some leaf's hit, and no leaf is hit nearer |
| BvhQuery.LeafBoxesContained | src/hitable.rs:68-75 | in a well-boxed tree each node's box contains the box of every leaf below it |
| BvhQuery.UnionOfBoxesConcat | src/hitable.rs:68-75 | the union of the boxes of two lists is the surrounding box of the two unions |
| BvhQuery.WellBoxedIsUnion | src/hitable.rs:100-102 | in a well-boxed tree the root box is exactly the union of the boxes of all the leaves |
| BvhQuery.MissedBoxMissesSphere | src/hitable.rs:80-97 | if a box containing a sphere's box fails a sound slab test, the sphere is not hit in range, so pruning loses nothing |
| BvhQuery.PrunedScanNone | src/hitable.rs:80-97 | a pruned node has no leaf hit at all |
| BvhQuery.HitIsScanNearest | src/hitable.rs:79-98 | for a well-boxed tree with a sound slab test, the pruned query equals the scan of all its leaves |
| BvhQuery.TreeHitIsNearest | src/hitable.rs:79-98 | when any leaf's surface is reached at t' inside the range, the query reports a hit at some t <= t' |
| BvhQuery.HitFromLeaf | src/hitable.rs:79-98 | every hit the query reports is the hit of one of its leaves |
| BvhBuild.AxisOf | src/hitable.rs:51 | the axis is floor(3 g): axis <= 3 g < axis + 1 for a draw g in [0, 1) |
| BvhBuild.Insert | src/hitable.rs:52-60 | inserting into a sorted list keeps it sorted by the key and adds exactly that element |
| BvhBuild.SortByKey | src/hitable.rs:52-60 | the result is sorted by the lower corner of the bounding box on the axis and is a permutation of the input |
| BvhBuild.HitableVec.Remove | src/hitable.rs:42-45 | returns element i and leaves the others in their order |
| BvhBuild.HitableVec.SortBy | src/hitable.rs:52-60 | the contents become sorted on the axis and are a permutation of the old contents |
| BvhBuild.HitableVec.SplitOff | src/hitable.rs:61 | keeps the first `at` elements and returns a fresh vector holding the rest |
| BvhBuild.IsBuildOf | src/hitable.rs:40-66 | the relation between a list of primitives, the random state before and after, and the tree `build_bvh_tree` returns, case by case on the length. It is a predicate: `BuildBvhTree` is proved to meet it, and `BuildKeepsPrimitives`, `BuildIsWellBoxed`, `BuildSplitsAtTheMedian` and `BuildIsBalanced` state what it implies |
| BvhBuild.BuildBvhTree | src/hitable.rs:40-66 | empties the vector and returns a tree that is a build of its old contents |
| BvhBuild.Build | src/hitable.rs:31-37 | the tree's root is a build of the vector's old contents, and the vector is emptied |
| BvhBuild.BuildParts | src/hitable.rs:51-65 | a build of three or more primitives is a node over builds of the two halves of the list sorted on the drawn axis, split at n / 2 |
| BvhBuild.BuildKeepsPrimitives | src/hitable.rs:40-66 | the tree's leaves are a permutation of the primitives: none is lost or duplicated |
| BvhBuild.BuildIsWellBoxed | src/hitable.rs:40-75 | every node of a built tree has the surrounding box of its children |
| BvhBuild.BuildSplitsAtTheMedian | src/hitable.rs:51-64 | the left subtree has n / 2 leaves and the right one the rest. Both are non-empty and the right one is at most one larger. Every left leaf's key is at most every right leaf's key on the drawn axis |
| BvhBuild.HalvesOrdered | src/hitable.rs:52-61 | after sorting and splitting, every element of the front half has a key no larger than every element of the back half |
| BvhBuild.BuildIsBalanced | src/hitable.rs:61-64 | a build of at most 2^k primitives has height at most k |
| BvhBuild.BalancedHalves | src/hitable.rs:61-64 | each half of a split of at most 2^k primitives has at most 2^(k-1) and is strictly smaller than the whole |
| Materials.LambertianScatter | src/material.rs:34-49 | always scatters from the hit point towards normal + a random point of the unit ball, with the albedo as attenuation, after one draw |
| Materials.MetalScatter | src/material.rs:57-72 | scatters from the hit point along the mirror image of the normalised direction, with the albedo and no draw. It scatters exactly when that direction leaves on the normal's side |
| Materials.MetalScattersIffIncoming | src/material.rs:66-70 | with a true mirror and a unit normal, metal scatters exactly when the normalised incoming direction meets the surface from the normal's side |
| Materials.MirrorFlipsNormalComponent | src/material.rs:66 | reflection about a unit normal negates the component along the normal |
| Materials.NormalReflectance | src/material.rs:81-82 | ((1 - n) / (1 + n))^2 lies in [0, 1) for every positive index |
| Materials.PowiUnit | src/material.rs:83 | a power of a number in [0, 1] stays in [0, 1] |
| Materials.SchlickAtNormalIncidence | src/material.rs:80-84 | at cosine 1 Schlick's approximation is the normal-incidence reflectance |
| Materials.SchlickOfGlass | src/material.rs:80-84 | for index 1.5 the reflectance at normal incidence is 0.04 |
| Materials.Schlick | src/material.rs:80-84 | for a cosine in [0, 1] the reflectance lies between the normal-incidence value and 1, so it is a probability |
| Materials.DielectricGeometry | src/material.rs:97-108 | leaving the glass (positive dot): normal flipped and ratio n. Entering: normal kept and ratio 1 / n. The cosine is a number exactly when the length is not zero |
| Materials.DielectricScatter | src/material.rs:86-128 | always scatters from the hit point without attenuation. With no refraction it reflects the unnormalised direction without a draw. Otherwise it draws once and reflects exactly when the draw is below Schlick's reflectance, refracting otherwise |
| Materials.EnteringReflectanceIsProbability | src/material.rs:99-117 | for a ray entering the glass against a unit normal, the cosine lies in [0, 1] and the reflection probability lies between the normal-incidence reflectance and 1 |
| Materials.Scatter | src/material.rs:5-13 | dispatches to the material's own scatter. Lambertian and dielectric always scatter |
| Integrator.Sky | src/main.rs:163-169 | for a height in [-1, 1] the sky colour is in the unit cube with full blue |
| Integrator.Colour | src/main.rs:159-184 | at depth 20 or more no draw is made. It follows the source branch for branch, and its properties are the lemmas below |
| Integrator.SkyHeight | src/main.rs:165-168 | with a normaliser whose height stays in [-1, 1], the sky colour is in the unit cube |
| Integrator.HitMaterialBounded | src/main.rs:161-176 | whatever the world query reports has a dielectric or an albedo in the unit cube when every leaf does |
| Integrator.AttenuatedInUnitCube | src/main.rs:178 | multiplying a unit-cube colour by the attenuation of a scatter keeps it in the unit cube |
| Integrator.ColourInUnitCube | src/main.rs:159-184 | with all albedos in the unit cube, every colour the integrator returns has its channels in [0, 1] |
| Integrator.NoBounceIsSkyOrBlack | src/main.rs:159-184 | a path on which `colour` scatters nothing shows the sky or black |
| Integrator.BouncesBounded | src/main.rs:173-178 | starting at depth d < 20 at most 20 - d rays are scattered (19 from the renderer's depth 1), and none from depth 20 on |
| Segments.GetSegment | src/main.rs:186-195 | a segment of an existing thread is ordered and within [0, ny]. Thread 0 starts at 0. The last thread ends at ny. Every other thread has ny / threadCount rows |
| Segments.SegmentsAbut | src/main.rs:186-195 | each segment ends where the next one begins |
| Segments.SegmentsDisjoint | src/main.rs:186-195 | an earlier thread's segment ends before a later one's starts, so no row is in both |
| Segments.SegmentOf | src/main.rs:186-195 | returns the thread whose segment holds row y |
| Segments.EveryRowInOneSegment | src/main.rs:186-195 | every row of the image is in exactly one thread's segment |
| Segments.GetSegmentTiles | src/main.rs:186-195 | the segments of all threads tile [0, ny) in order |
| Raster.Row | src/main.rs:94-107 | a row of width n holds n pixels |
| Raster.RenderRow | src/main.rs:94-107 | the column loop produces row y from left to right and returns the state after its draws |
| Raster.RenderBand | src/main.rs:92-108 | the row loop produces the rows of [y0, y1) from y1 - 1 down to y0 |
| Raster.RenderThread | src/main.rs:86-111 | a thread's output is its `get_segment` band, rendered from a generator seeded with 1234 * index |
| Raster.JoinWorkers | src/main.rs:116-119 | appending the workers' results in start order yields the image |
| Raster.RenderMultiThread | src/main.rs:67-122 | with no thread the output is empty. Otherwise the segments tile the image, the output is the bands of threads threadCount - 1 down to 0 in that order, and it holds nx * ny pixels |
| Raster.BandLength | src/main.rs:92-108 | a band of k rows holds k * nx pixels |
| Raster.ThreadPixelsLength | src/main.rs:86-111 | a thread returns (upper - lower) * nx pixels |
| Raster.JoinedLength | src/main.rs:116-119 | after m joins the output holds the rows from the lower end of the m-th band started up to the top |
| Raster.ImageLength | src/main.rs:67-122 | the output holds nx * ny pixels |
| Raster.RowAt | src/main.rs:94-106 | pixel x of a row is the shade of column x |
| Raster.BandAt | src/main.rs:92-106 | pixel x of the i-th row of a band is the shade of column x in row top - 1 - i |
| Raster.ThreadPixelAt | src/main.rs:87-108 | pixel x of the j-th row a thread returns is column x of row upper - 1 - j of its segment |
| Raster.JoinedAt | src/main.rs:116-119 | pixel x of the i-th row of the joined output is column x of image row ny - 1 - i |
| Raster.ImagePixel | src/main.rs:67-122 | output index k is the pixel in column k mod nx of row ny - 1 - k / nx: the rows run from the top of the image down, as a single thread would write them |
| Sampling.Sample | src/main.rs:97-101 | one sample: two draws jitter u = (x + g) / nx and v = (y + g) / ny, the camera makes a ray, and `colour` traces it from depth 1. It has no contract of its own: `SampleInUnitCube` bounds its colour |
| Sampling.RenderPixel | src/main.rs:95-106 | the sample loop sums `samples` draws, divides by the count and takes the square root of each channel |
| Sampling.RenderImage | src/main.rs:67-122 | the rendered image is the tiled image of the per-pixel computation and holds nx * ny pixels, and it is empty without threads |
| Sampling.SampleInUnitCube | src/main.rs:97-101 | each camera sample's colour is in the unit cube |
| Sampling.SampleSumBounded | src/main.rs:97-102 | the sum of k samples has every channel in [0, k] |
| Sampling.GammaInUnitCube | src/main.rs:105 | the square-root gamma correction keeps a colour in the unit cube |
| Sampling.PixelInUnitCube | src/main.rs:95-106 | every output pixel has its channels in [0, 1] |
| Sampling.ImagePixelInUnitCube | src/main.rs:67-122 | pixel k of the image is in the unit cube |
| Sampling.ImageInUnitCube | src/main.rs:60-62 | every pixel of the image is in the unit cube, so the 255.99 scaling of the output stays in [0, 255] |

## Left out

- Floating point: `f32` rounding, infinities and NaN are not modelled. Arithmetic is exact over the reals. The one NaN the dielectric can produce is modelled explicitly, as described above.
- Integer widths: `usize`/`u64` overflow in `1234 * thread_index`, `nx * ny` and `segment_size * (thread_index + 1)` is not modelled, and the values are unbounded naturals.
- Concurrency: the threads, `Arc` and `join` are modelled sequentially, in the order the results are appended. Scheduling cannot change the output because each thread has its own generator.
- The vector library (vec3.rs), the ray type (ray.rs), the camera (camera.rs), the random generator (rng.rs) and the slab test `Aabb::hit` (aabb.rs) are not part of this model. They enter as parameters with the assumptions listed under Design.
- `main`'s scene construction (`random_scene`), its constants and the PPM printing with the 255.99 quantisation are I/O and are left out. `ImageInUnitCube` states only that the values fed to that scaling lie in [0, 1].
- `render_single_thread` is commented out in the source and is not modelled.
- BvhBuild.BuildBvhTree: requires at least one primitive, because the source does not terminate on an empty vector.
- BvhBuild.SortByKey: the model specifies the sort only as sorted and a permutation. The order in which the source's non-strict comparator leaves primitives with equal keys is not modelled.
- Integrator.Colour: its own contract states only that no draw happens at depth 20 or more. What it promises is in `ColourInUnitCube` and `BouncesBounded`.
- Integrator.ColourInUnitCube: assumes a normaliser whose height stays in [-1, 1] for every vector. The source normalises a zero direction to NaN.
- Sampling.RenderPixel: requires at least one sample. With zero samples the source divides 0 by 0.
- Sampling.RenderImage: requires at least one sample, for the same reason.
- Materials.EnteringReflectanceIsProbability: requires a direction of positive length. For a zero direction the source's cosine is NaN.
- Materials.MetalScattersIffIncoming: requires `reflect` to be the mirror v - 2 (v . n) n and a unit normal. `reflect` itself lives in vec3.rs.
