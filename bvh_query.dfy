/** The bounding-volume hierarchy as a value, and the query that walks it
    (src/hitable.rs, `BvhNode::create`, `impl Hitable for BvhNode`). Inner
    nodes own a box and two children; leaves are spheres. The query is
    compared with a plain scan over the leaves in order. */
module BvhQuery {
  import opened Vectors
  import opened Rays
  import opened Boxes
  import opened Spheres

  datatype Bvh = Leaf(prim: Sphere) | Node(box: Aabb, left: Bvh, right: Bvh)

  /** `bounding_box()` of a tree: the stored box of a node, the sphere's box of a leaf. */
  function BoundingBox(t: Bvh): Aabb
  {
    match t
    case Leaf(s) => SphereBox(s)
    case Node(b, _, _) => b
  }

  /** The primitives of the tree, left to right. */
  function Leaves(t: Bvh): seq<Sphere>
  {
    match t
    case Leaf(s) => [s]
    case Node(_, l, r) => Leaves(l) + Leaves(r)
  }

  /** Every node stores the surrounding box of its two children. */
  predicate WellBoxed(t: Bvh)
  {
    match t
    case Leaf(_) => true
    case Node(b, l, r) =>
      b == SurroundingBox(BoundingBox(l), BoundingBox(r)) && WellBoxed(l) && WellBoxed(r)
  }

  /** `BvhNode::create`: a node over two subtrees with the surrounding box of theirs. */
  function Create(left: Bvh, right: Bvh): (r: Bvh)
    ensures r.Node? && r.left == left && r.right == right
    ensures Contains(BoundingBox(r), BoundingBox(left)) && Contains(BoundingBox(r), BoundingBox(right))
    ensures WellBoxed(r) <==> WellBoxed(left) && WellBoxed(right)
    ensures Leaves(r) == Leaves(left) + Leaves(right)
  {
    Node(SurroundingBox(BoundingBox(left), BoundingBox(right)), left, right)
  }

  /** The choice between the two children's answers: the nearer hit, the right
      one on a tie, the only one when one side misses. */
  function Nearer(l: Option<HitRecord>, r: Option<HitRecord>): (h: Option<HitRecord>)
    ensures h == None <==> l == None && r == None
    ensures h == l || h == r
    ensures l.Some? && r.Some? ==> h.value.t <= l.value.t && h.value.t <= r.value.t
    ensures l.Some? && r.Some? && l.value.t == r.value.t ==> h == r
  {
    match (l, r)
    case (Some(lh), Some(rh)) => if lh.t < rh.t then l else r
    case (Some(_), None) => l
    case (None, _) => r
  }

  /** `BvhNode::hit` (and `Sphere::hit` at the leaves): no answer when the
      node's box test fails, else the nearer of the two children's answers. */
  function Hit(t: Bvh, ray: Ray, tMin: real, tMax: real, sqrt: real -> real,
               boxHit: (Aabb, Ray, real, real) -> bool): (h: Option<HitRecord>)
    ensures h.Some? ==> tMin < h.value.t < tMax
    ensures t.Node? && !boxHit(t.box, ray, tMin, tMax) ==> h == None
  {
    match t
    case Leaf(s) => SphereHit(s, ray, tMin, tMax, sqrt)
    case Node(b, l, r) =>
      if boxHit(b, ray, tMin, tMax) then
        Nearer(Hit(l, ray, tMin, tMax, sqrt, boxHit), Hit(r, ray, tMin, tMax, sqrt, boxHit))
      else
        None
  }

  /** The reference: test every primitive in order and keep the nearer answer,
      later primitives winning ties. */
  function ScanNearest(ps: seq<Sphere>, ray: Ray, tMin: real, tMax: real, sqrt: real -> real): (h: Option<HitRecord>)
    ensures h.Some? ==> tMin < h.value.t < tMax
    decreases |ps|
  {
    if |ps| == 0 then None
    else Nearer(ScanNearest(ps[..|ps| - 1], ray, tMin, tMax, sqrt), SphereHit(ps[|ps| - 1], ray, tMin, tMax, sqrt))
  }

  lemma NearerAssociative(a: Option<HitRecord>, b: Option<HitRecord>, c: Option<HitRecord>)
    ensures Nearer(Nearer(a, b), c) == Nearer(a, Nearer(b, c))
  {
  }

  /** Scanning a concatenation is choosing between the scans of the parts. */
  lemma {:induction false} ScanNearestConcat(xs: seq<Sphere>, ys: seq<Sphere>, ray: Ray, tMin: real, tMax: real, sqrt: real -> real)
    ensures ScanNearest(xs + ys, ray, tMin, tMax, sqrt)
         == Nearer(ScanNearest(xs, ray, tMin, tMax, sqrt), ScanNearest(ys, ray, tMin, tMax, sqrt))
    decreases |ys|
  {
    if |ys| == 0 {
      assert xs + ys == xs;
    } else {
      var init := ys[..|ys| - 1];
      assert (xs + ys)[..|xs + ys| - 1] == xs + init;
      assert (xs + ys)[|xs + ys| - 1] == ys[|ys| - 1];
      ScanNearestConcat(xs, init, ray, tMin, tMax, sqrt);
      NearerAssociative(ScanNearest(xs, ray, tMin, tMax, sqrt), ScanNearest(init, ray, tMin, tMax, sqrt),
                        SphereHit(ys[|ys| - 1], ray, tMin, tMax, sqrt));
    }
  }

  /** The scan finds nothing exactly when no primitive is hit. */
  lemma {:induction false} ScanNearestNone(ps: seq<Sphere>, ray: Ray, tMin: real, tMax: real, sqrt: real -> real)
    ensures ScanNearest(ps, ray, tMin, tMax, sqrt) == None <==>
      forall i :: 0 <= i < |ps| ==> SphereHit(ps[i], ray, tMin, tMax, sqrt) == None
    decreases |ps|
  {
    if |ps| > 0 {
      var init := ps[..|ps| - 1];
      ScanNearestNone(init, ray, tMin, tMax, sqrt);
      assert forall i :: 0 <= i < |init| ==> init[i] == ps[i];
    }
  }

  /** The scan's answer is one of the primitives' answers, and no primitive
      is hit nearer than it. */
  lemma {:induction false} ScanNearestIsMinimum(ps: seq<Sphere>, ray: Ray, tMin: real, tMax: real, sqrt: real -> real)
    ensures var h := ScanNearest(ps, ray, tMin, tMax, sqrt);
      h.Some? ==> exists i :: 0 <= i < |ps| && SphereHit(ps[i], ray, tMin, tMax, sqrt) == h
    ensures var h := ScanNearest(ps, ray, tMin, tMax, sqrt);
      forall i :: 0 <= i < |ps| && SphereHit(ps[i], ray, tMin, tMax, sqrt).Some? ==>
        h.Some? && h.value.t <= SphereHit(ps[i], ray, tMin, tMax, sqrt).value.t
    decreases |ps|
  {
    if |ps| > 0 {
      var init := ps[..|ps| - 1];
      ScanNearestIsMinimum(init, ray, tMin, tMax, sqrt);
      assert forall i :: 0 <= i < |init| ==> init[i] == ps[i];
      var h := ScanNearest(ps, ray, tMin, tMax, sqrt);
      if h.Some? && h != ScanNearest(init, ray, tMin, tMax, sqrt) {
        assert SphereHit(ps[|ps| - 1], ray, tMin, tMax, sqrt) == h;
      }
    }
  }

  /** Every radius is non-negative, so each sphere lies in its own box. */
  predicate NonNegativeRadii(ps: seq<Sphere>)
  {
    forall i :: 0 <= i < |ps| ==> ps[i].radius >= 0.0
  }

  /** In a well-boxed tree the box of every node contains the box of each
      primitive below it. */
  lemma {:induction false} LeafBoxesContained(t: Bvh)
    requires WellBoxed(t)
    ensures forall i :: 0 <= i < |Leaves(t)| ==> Contains(BoundingBox(t), SphereBox(Leaves(t)[i]))
  {
    match t
    case Leaf(s) =>
    case Node(b, l, r) =>
      LeafBoxesContained(l);
      LeafBoxesContained(r);
      forall i | 0 <= i < |Leaves(t)|
        ensures Contains(b, SphereBox(Leaves(t)[i]))
      {
        if i < |Leaves(l)| {
          assert Leaves(t)[i] == Leaves(l)[i];
          ContainsTransitive(b, BoundingBox(l), SphereBox(Leaves(l)[i]));
        } else {
          assert Leaves(t)[i] == Leaves(r)[i - |Leaves(l)|];
          ContainsTransitive(b, BoundingBox(r), SphereBox(Leaves(r)[i - |Leaves(l)|]));
        }
      }
  }

  /** The union of the boxes of a non-empty run of primitives, left to right. */
  function UnionOfBoxes(ps: seq<Sphere>): Aabb
    requires |ps| >= 1
  {
    if |ps| == 1 then SphereBox(ps[0])
    else SurroundingBox(UnionOfBoxes(ps[..|ps| - 1]), SphereBox(ps[|ps| - 1]))
  }

  /** The union of a concatenation is the union of the parts' unions. */
  lemma {:induction false} UnionOfBoxesConcat(xs: seq<Sphere>, ys: seq<Sphere>)
    requires |xs| >= 1 && |ys| >= 1
    ensures UnionOfBoxes(xs + ys) == SurroundingBox(UnionOfBoxes(xs), UnionOfBoxes(ys))
    decreases |ys|
  {
    var all := xs + ys;
    assert all[..|all| - 1] == xs + ys[..|ys| - 1];
    assert all[|all| - 1] == ys[|ys| - 1];
    if |ys| == 1 {
      assert xs + ys[..|ys| - 1] == xs;
    } else {
      var init := ys[..|ys| - 1];
      UnionOfBoxesConcat(xs, init);
      SurroundingBoxAssociative(UnionOfBoxes(xs), UnionOfBoxes(init), SphereBox(ys[|ys| - 1]));
    }
  }

  /** In a well-boxed tree the box of every node is the union of the boxes of
      the primitives below it. */
  lemma {:induction false} WellBoxedIsUnion(t: Bvh)
    requires WellBoxed(t)
    ensures |Leaves(t)| >= 1 && BoundingBox(t) == UnionOfBoxes(Leaves(t))
  {
    match t
    case Leaf(s) =>
    case Node(b, l, r) =>
      WellBoxedIsUnion(l);
      WellBoxedIsUnion(r);
      UnionOfBoxesConcat(Leaves(l), Leaves(r));
  }

  /** A sphere inside a box the ray misses is not hit either. */
  lemma MissedBoxMissesSphere(b: Aabb, s: Sphere, ray: Ray, tMin: real, tMax: real, sqrt: real -> real,
                              boxHit: (Aabb, Ray, real, real) -> bool)
    requires IsSqrt(sqrt) && SlabSound(boxHit) && s.radius >= 0.0
    requires Contains(b, SphereBox(s)) && !boxHit(b, ray, tMin, tMax)
    ensures SphereHit(s, ray, tMin, tMax, sqrt) == None
  {
    var h := SphereHit(s, ray, tMin, tMax, sqrt);
    if h.Some? {
      SphereHitOnSurface(s, ray, tMin, tMax, sqrt);
      ContainsInBox(b, SphereBox(s), h.value.p);
      assert false;
    }
  }

  /** Pruning is sound: with a slab test that never rejects a box the ray
      reaches in range, the tree answers exactly what scanning every
      primitive in order answers, ties included. */
  lemma {:induction false} HitIsScanNearest(t: Bvh, ray: Ray, tMin: real, tMax: real, sqrt: real -> real,
                                            boxHit: (Aabb, Ray, real, real) -> bool)
    requires WellBoxed(t) && NonNegativeRadii(Leaves(t)) && IsSqrt(sqrt) && SlabSound(boxHit)
    ensures Hit(t, ray, tMin, tMax, sqrt, boxHit) == ScanNearest(Leaves(t), ray, tMin, tMax, sqrt)
  {
    match t
    case Leaf(s) =>
      assert [s][..0] == [];
    case Node(b, l, r) =>
      if boxHit(b, ray, tMin, tMax) {
        ChildRadii(Leaves(l), Leaves(r));
        ScanNearestConcat(Leaves(l), Leaves(r), ray, tMin, tMax, sqrt);
        HitIsScanNearest(l, ray, tMin, tMax, sqrt, boxHit);
        HitIsScanNearest(r, ray, tMin, tMax, sqrt, boxHit);
      } else {
        PrunedScanNone(t, ray, tMin, tMax, sqrt, boxHit);
      }
  }

  lemma ChildRadii(xs: seq<Sphere>, ys: seq<Sphere>)
    requires NonNegativeRadii(xs + ys)
    ensures NonNegativeRadii(xs) && NonNegativeRadii(ys)
  {
    forall i | 0 <= i < |xs|
      ensures xs[i].radius >= 0.0
    {
      assert (xs + ys)[i] == xs[i];
    }
    forall i | 0 <= i < |ys|
      ensures ys[i].radius >= 0.0
    {
      assert (xs + ys)[|xs| + i] == ys[i];
    }
  }

  /** When the slab test rejects a well-boxed node, no primitive below it is hit. */
  lemma PrunedScanNone(t: Bvh, ray: Ray, tMin: real, tMax: real, sqrt: real -> real,
                       boxHit: (Aabb, Ray, real, real) -> bool)
    requires t.Node? && WellBoxed(t) && NonNegativeRadii(Leaves(t)) && IsSqrt(sqrt) && SlabSound(boxHit)
    requires !boxHit(t.box, ray, tMin, tMax)
    ensures ScanNearest(Leaves(t), ray, tMin, tMax, sqrt) == None
  {
    LeafBoxesContained(t);
    forall i | 0 <= i < |Leaves(t)|
      ensures SphereHit(Leaves(t)[i], ray, tMin, tMax, sqrt) == None
    {
      MissedBoxMissesSphere(t.box, Leaves(t)[i], ray, tMin, tMax, sqrt, boxHit);
    }
    ScanNearestNone(Leaves(t), ray, tMin, tMax, sqrt);
  }

  /** The tree finds the nearest surface point: whenever some primitive's
      surface is reached at parameter t' inside the range (with a positive
      discriminant), the tree reports a hit no farther than t'. */
  lemma TreeHitIsNearest(t: Bvh, ray: Ray, tMin: real, tMax: real, sqrt: real -> real,
                         boxHit: (Aabb, Ray, real, real) -> bool, i: int, t': real)
    requires WellBoxed(t) && NonNegativeRadii(Leaves(t)) && IsSqrt(sqrt) && SlabSound(boxHit)
    requires 0 <= i < |Leaves(t)| && Discriminant(Leaves(t)[i], ray) > 0.0
    requires tMin < t' < tMax && OnSurface(Leaves(t)[i], PointAt(ray, t'))
    ensures var h := Hit(t, ray, tMin, tMax, sqrt, boxHit); h.Some? && h.value.t <= t'
  {
    HitIsScanNearest(t, ray, tMin, tMax, sqrt, boxHit);
    SphereHitNearest(Leaves(t)[i], ray, tMin, tMax, sqrt, t');
    ScanNearestIsMinimum(Leaves(t), ray, tMin, tMax, sqrt);
  }

  /** Whatever the query reports is the answer of one of the primitives, the
      one at index i. */
  lemma {:induction false} HitFromLeaf(t: Bvh, ray: Ray, tMin: real, tMax: real, sqrt: real -> real,
                                       boxHit: (Aabb, Ray, real, real) -> bool) returns (i: nat)
    requires Hit(t, ray, tMin, tMax, sqrt, boxHit).Some?
    ensures i < |Leaves(t)| && SphereHit(Leaves(t)[i], ray, tMin, tMax, sqrt) == Hit(t, ray, tMin, tMax, sqrt, boxHit)
  {
    match t
    case Leaf(s) =>
      i := 0;
    case Node(b, l, r) =>
      var hl := Hit(l, ray, tMin, tMax, sqrt, boxHit);
      var hr := Hit(r, ray, tMin, tMax, sqrt, boxHit);
      assert Hit(t, ray, tMin, tMax, sqrt, boxHit) == Nearer(hl, hr);
      if Nearer(hl, hr) == hl {
        i := HitFromLeaf(l, ray, tMin, tMax, sqrt, boxHit);
        assert Leaves(t)[i] == Leaves(l)[i];
      } else {
        var j := HitFromLeaf(r, ray, tMin, tMax, sqrt, boxHit);
        i := |Leaves(l)| + j;
        assert Leaves(t)[i] == Leaves(r)[j];
      }
  }
}
