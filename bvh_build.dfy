/** Building the hierarchy (src/hitable.rs, `BvhTree::build`,
    `BvhNode::build_bvh_tree`). The builder consumes a vector of primitives:
    one primitive becomes a leaf, two become a node over the pair, and more
    are sorted on a randomly chosen axis by the lower corner of their boxes
    and split in half, the front half staying in the caller's vector and the
    back half moving to a new one. The random source is a state value `R`
    with a step function `gen` returning a draw in [0, 1) and the next state. */
module BvhBuild {
  import opened Vectors
  import opened Rays
  import opened Boxes
  import opened Spheres
  import opened BvhQuery

  /** `BvhTree`: the root of a built hierarchy. */
  datatype BvhTree = BvhTree(root: Bvh)

  /** Every draw of the random source lies in [0, 1). */
  ghost predicate UnitInterval<R(!new)>(gen: R -> (real, R))
  {
    forall r :: 0.0 <= gen(r).0 < 1.0
  }

  /** `(rnd.gen() * 3.0) as usize`: the axis for a draw in [0, 1). */
  function AxisOf(g: real): (axis: Axis)
    requires 0.0 <= g < 1.0
    ensures axis as real <= 3.0 * g < axis as real + 1.0
  {
    var k := (3.0 * g).Floor;
    assert 0 <= k < 3;
    k
  }

  /** The sort key on `axis`: the lower corner of the primitive's box. */
  function Key(s: Sphere, axis: Axis): real
  {
    Get(SphereBox(s).min, axis)
  }

  predicate SortedByKey(s: seq<Sphere>, axis: Axis)
  {
    forall i, j :: 0 <= i < j < |s| ==> Key(s[i], axis) <= Key(s[j], axis)
  }

  /** Puts `x` into the sorted sequence `s` in front of the first larger key. */
  function Insert(x: Sphere, s: seq<Sphere>, axis: Axis): (r: seq<Sphere>)
    requires SortedByKey(s, axis)
    ensures SortedByKey(r, axis) && multiset(r) == multiset(s) + multiset{x}
  {
    if |s| == 0 then [x]
    else if Key(x, axis) <= Key(s[0], axis) then [x] + s
    else
      var rest := Insert(x, s[1..], axis);
      assert forall i :: 0 <= i < |s[1..]| ==> Key(s[0], axis) <= Key(s[1..][i], axis) by {
        forall i | 0 <= i < |s[1..]|
          ensures Key(s[0], axis) <= Key(s[1..][i], axis)
        {
          assert s[1..][i] == s[i + 1];
        }
      }
      BoundedBelow(rest, s[1..], x, axis, Key(s[0], axis));
      ConsSorted(s[0], rest, axis);
      assert s == [s[0]] + s[1..];
      [s[0]] + rest
  }

  /** A permutation of `tail` plus `x` keeps a lower bound on the keys that
      `x` and every element of `tail` respect. */
  lemma BoundedBelow(rest: seq<Sphere>, tail: seq<Sphere>, x: Sphere, axis: Axis, low: real)
    requires multiset(rest) == multiset(tail) + multiset{x}
    requires low <= Key(x, axis) && forall i :: 0 <= i < |tail| ==> low <= Key(tail[i], axis)
    ensures forall i :: 0 <= i < |rest| ==> low <= Key(rest[i], axis)
  {
    forall i | 0 <= i < |rest|
      ensures low <= Key(rest[i], axis)
    {
      assert rest[i] in multiset(rest);
      if rest[i] != x {
        assert rest[i] in multiset(tail);
        var j :| 0 <= j < |tail| && tail[j] == rest[i];
      }
    }
  }

  lemma ConsSorted(y: Sphere, rest: seq<Sphere>, axis: Axis)
    requires SortedByKey(rest, axis) && forall i :: 0 <= i < |rest| ==> Key(y, axis) <= Key(rest[i], axis)
    ensures SortedByKey([y] + rest, axis)
  {
    var r := [y] + rest;
    forall i, j | 0 <= i < j < |r|
      ensures Key(r[i], axis) <= Key(r[j], axis)
    {
      assert r[j] == rest[j - 1];
      if i > 0 {
        assert r[i] == rest[i - 1];
      }
    }
  }

  /** A sort on `axis` (insertion sort; only sortedness and being a
      permutation are used). */
  function SortByKey(s: seq<Sphere>, axis: Axis): (r: seq<Sphere>)
    ensures SortedByKey(r, axis) && multiset(r) == multiset(s)
  {
    if |s| == 0 then []
    else
      assert s == [s[0]] + s[1..];
      Insert(s[0], SortByKey(s[1..], axis), axis)
  }

  /** The builder's `Vec<Box<Hitable>>` of primitives, changed in place. */
  class HitableVec {
    var items: seq<Sphere>

    constructor (items: seq<Sphere>)
      ensures this.items == items
    {
      this.items := items;
    }

    /** `remove(i)`: takes out element i and shifts the rest down. */
    method Remove(i: nat) returns (x: Sphere)
      requires i < |items|
      modifies this
      ensures x == old(items)[i] && items == old(items)[..i] + old(items)[i + 1..]
    {
      x := items[i];
      items := items[..i] + items[i + 1..];
    }

    /** `sort_by` with the key comparison on `axis`: afterwards the items are
        a permutation of the old ones, sorted by key. */
    method SortBy(axis: Axis)
      modifies this
      ensures SortedByKey(items, axis) && multiset(items) == multiset(old(items))
    {
      items := SortByKey(items, axis);
    }

    /** `split_off(at)`: the items from `at` on move to a new vector. */
    method SplitOff(at: nat) returns (tail: HitableVec)
      requires at <= |items|
      modifies this
      ensures fresh(tail)
      ensures items == old(items)[..at] && tail.items == old(items)[at..]
    {
      tail := new HitableVec(items[at..]);
      items := items[..at];
    }
  }

  /** The trees the builder may return for `s` when the random source starts
      in `rnd` and ends in `rnd'`. The sort is only known to produce some
      sorted permutation, so the relation is existential over it. */
  ghost predicate IsBuildOf<R(!new)>(s: seq<Sphere>, rnd: R, gen: R -> (real, R), t: Bvh, rnd': R)
    requires UnitInterval(gen)
    decreases |s|
  {
    if |s| == 0 then false
    else if |s| == 1 then t == Leaf(s[0]) && rnd' == rnd
    else if |s| == 2 then t == Create(Leaf(s[0]), Leaf(s[1])) && rnd' == rnd
    else
      var axis := AxisOf(gen(rnd).0);
      t.Node? && t == Create(t.left, t.right) &&
      exists sorted: seq<Sphere>, mid: R ::
        |sorted| == |s| && SortedByKey(sorted, axis) && multiset(sorted) == multiset(s) &&
        IsBuildOf(sorted[..|s| / 2], gen(rnd).1, gen, t.left, mid) &&
        IsBuildOf(sorted[|s| / 2..], mid, gen, t.right, rnd')
  }

  /** `BvhNode::build_bvh_tree`: empties `hitables` and returns a tree over them. */
  method BuildBvhTree<R(!new)>(hitables: HitableVec, rnd: R, gen: R -> (real, R)) returns (tree: Bvh, rnd': R)
    requires |hitables.items| >= 1 && UnitInterval(gen)
    modifies hitables
    ensures hitables.items == []
    ensures IsBuildOf(old(hitables.items), rnd, gen, tree, rnd')
    decreases |hitables.items|
  {
    var n := |hitables.items|;
    ghost var s := hitables.items;
    if n == 1 {
      var only := hitables.Remove(0);
      return Leaf(only), rnd;
    }
    if n == 2 {
      var left := hitables.Remove(0);
      var right := hitables.Remove(0);
      return Create(Leaf(left), Leaf(right)), rnd;
    }
    var drawn := gen(rnd);
    var axis := AxisOf(drawn.0);
    hitables.SortBy(axis);
    ghost var sorted := hitables.items;
    assert |sorted| == |multiset(sorted)| == |multiset(s)| == n;
    var split := hitables.SplitOff(n / 2);
    var left, mid := BuildBvhTree(hitables, drawn.1, gen);
    var right, last := BuildBvhTree(split, mid, gen);
    tree := Create(left, right);
    rnd' := last;
    assert |sorted| == |s| && SortedByKey(sorted, axis) && multiset(sorted) == multiset(s) &&
      IsBuildOf(sorted[..|s| / 2], gen(rnd).1, gen, tree.left, mid) &&
      IsBuildOf(sorted[|s| / 2..], mid, gen, tree.right, rnd');
  }

  /** `BvhTree::build`. */
  method Build<R(!new)>(hitables: HitableVec, rnd: R, gen: R -> (real, R)) returns (tree: BvhTree, rnd': R)
    requires |hitables.items| >= 1 && UnitInterval(gen)
    modifies hitables
    ensures hitables.items == []
    ensures IsBuildOf(old(hitables.items), rnd, gen, tree.root, rnd')
  {
    var root;
    root, rnd' := BuildBvhTree(hitables, rnd, gen);
    tree := BvhTree(root);
  }

  /** The sorted permutation and the intermediate random state behind a
      build of three or more primitives. */
  lemma BuildParts<R(!new)>(s: seq<Sphere>, rnd: R, gen: R -> (real, R), t: Bvh, rnd': R)
      returns (sorted: seq<Sphere>, mid: R)
    requires UnitInterval(gen) && IsBuildOf(s, rnd, gen, t, rnd') && |s| >= 3
    ensures t.Node? && t == Create(t.left, t.right)
    ensures |sorted| == |s| && SortedByKey(sorted, AxisOf(gen(rnd).0)) && multiset(sorted) == multiset(s)
    ensures IsBuildOf(sorted[..|s| / 2], gen(rnd).1, gen, t.left, mid)
    ensures IsBuildOf(sorted[|s| / 2..], mid, gen, t.right, rnd')
  {
    var axis := AxisOf(gen(rnd).0);
    sorted, mid :| |sorted| == |s| && SortedByKey(sorted, axis) && multiset(sorted) == multiset(s) &&
      IsBuildOf(sorted[..|s| / 2], gen(rnd).1, gen, t.left, mid) &&
      IsBuildOf(sorted[|s| / 2..], mid, gen, t.right, rnd');
  }

  /** A built tree holds exactly the input primitives, each as often as in the input. */
  lemma {:induction false} BuildKeepsPrimitives<R(!new)>(s: seq<Sphere>, rnd: R, gen: R -> (real, R), t: Bvh, rnd': R)
    requires UnitInterval(gen) && IsBuildOf(s, rnd, gen, t, rnd')
    ensures multiset(Leaves(t)) == multiset(s) && |Leaves(t)| == |s|
    decreases |s|
  {
    if |s| == 1 {
      assert Leaves(t) == s;
    } else if |s| == 2 {
      assert Leaves(t) == s;
    } else {
      var sorted, mid := BuildParts(s, rnd, gen, t, rnd');
      BuildKeepsPrimitives(sorted[..|s| / 2], gen(rnd).1, gen, t.left, mid);
      BuildKeepsPrimitives(sorted[|s| / 2..], mid, gen, t.right, rnd');
      HalvesMultiset(sorted, |s| / 2, Leaves(t.left), Leaves(t.right));
    }
  }

  lemma HalvesMultiset(sorted: seq<Sphere>, k: nat, l: seq<Sphere>, r: seq<Sphere>)
    requires k <= |sorted| && multiset(l) == multiset(sorted[..k]) && multiset(r) == multiset(sorted[k..])
    ensures multiset(l + r) == multiset(sorted)
  {
    assert sorted == sorted[..k] + sorted[k..];
  }

  /** Every node of a built tree stores the surrounding box of its children. */
  lemma {:induction false} BuildIsWellBoxed<R(!new)>(s: seq<Sphere>, rnd: R, gen: R -> (real, R), t: Bvh, rnd': R)
    requires UnitInterval(gen) && IsBuildOf(s, rnd, gen, t, rnd')
    ensures WellBoxed(t)
    decreases |s|
  {
    if |s| >= 3 {
      var sorted, mid := BuildParts(s, rnd, gen, t, rnd');
      BuildIsWellBoxed(sorted[..|s| / 2], gen(rnd).1, gen, t.left, mid);
      BuildIsWellBoxed(sorted[|s| / 2..], mid, gen, t.right, rnd');
    }
  }

  /** For three or more primitives the root splits them n / 2 to the left and
      n - n / 2 to the right, both sides non-empty, and no key on the drawn
      axis on the left exceeds a key on the right. */
  lemma BuildSplitsAtTheMedian<R(!new)>(s: seq<Sphere>, rnd: R, gen: R -> (real, R), t: Bvh, rnd': R)
    requires UnitInterval(gen) && IsBuildOf(s, rnd, gen, t, rnd') && |s| >= 3
    ensures t.Node? && |Leaves(t.left)| == |s| / 2 && |Leaves(t.right)| == |s| - |s| / 2
    ensures 1 <= |Leaves(t.left)| < |Leaves(t.right)| || 1 <= |Leaves(t.left)| == |Leaves(t.right)|
    ensures var axis := AxisOf(gen(rnd).0);
      forall a, b :: a in Leaves(t.left) && b in Leaves(t.right) ==> Key(a, axis) <= Key(b, axis)
  {
    var sorted, mid := BuildParts(s, rnd, gen, t, rnd');
    BuildKeepsPrimitives(sorted[..|s| / 2], gen(rnd).1, gen, t.left, mid);
    BuildKeepsPrimitives(sorted[|s| / 2..], mid, gen, t.right, rnd');
    HalvesOrdered(sorted, |s| / 2, AxisOf(gen(rnd).0), Leaves(t.left), Leaves(t.right));
  }

  /** Permutations of the two halves of a sorted sequence keep every key of
      the front half at most every key of the back half. */
  lemma HalvesOrdered(sorted: seq<Sphere>, k: nat, axis: Axis, l: seq<Sphere>, r: seq<Sphere>)
    requires SortedByKey(sorted, axis) && k <= |sorted|
    requires multiset(l) == multiset(sorted[..k]) && multiset(r) == multiset(sorted[k..])
    ensures forall a, b :: a in l && b in r ==> Key(a, axis) <= Key(b, axis)
  {
    forall a, b | a in l && b in r
      ensures Key(a, axis) <= Key(b, axis)
    {
      assert a in multiset(l) && b in multiset(r);
      assert a in sorted[..k] && b in sorted[k..];
      var i :| 0 <= i < k && sorted[..k][i] == a;
      var j :| 0 <= j < |sorted| - k && sorted[k..][j] == b;
      assert sorted[i] == a && sorted[k + j] == b;
    }
  }

  function Pow2(k: nat): nat
  {
    if k == 0 then 1 else 2 * Pow2(k - 1)
  }

  function Height(t: Bvh): nat
  {
    match t
    case Leaf(_) => 0
    case Node(_, l, r) => 1 + (if Height(l) < Height(r) then Height(r) else Height(l))
  }

  /** The halving split keeps the tree balanced: at most 2^k primitives give
      a tree of height at most k. */
  lemma {:induction false} BuildIsBalanced<R(!new)>(s: seq<Sphere>, rnd: R, gen: R -> (real, R), t: Bvh, rnd': R, k: nat)
    requires UnitInterval(gen) && IsBuildOf(s, rnd, gen, t, rnd') && |s| <= Pow2(k)
    ensures Height(t) <= k
    decreases |s|
  {
    if |s| == 2 {
      assert k != 0;
    } else if |s| >= 3 {
      var front, back, mid := BalancedHalves(s, rnd, gen, t, rnd', k);
      BuildIsBalanced(front, gen(rnd).1, gen, t.left, mid, k - 1);
      BuildIsBalanced(back, mid, gen, t.right, rnd', k - 1);
    }
  }

  /** The two halves behind a build of three or more primitives each fit
      in half the bound. */
  lemma BalancedHalves<R(!new)>(s: seq<Sphere>, rnd: R, gen: R -> (real, R), t: Bvh, rnd': R, k: nat)
      returns (front: seq<Sphere>, back: seq<Sphere>, mid: R)
    requires UnitInterval(gen) && IsBuildOf(s, rnd, gen, t, rnd') && 3 <= |s| <= Pow2(k)
    ensures k >= 1 && t.Node? && |front| < |s| && |back| < |s|
    ensures |front| <= Pow2(k - 1) && |back| <= Pow2(k - 1)
    ensures IsBuildOf(front, gen(rnd).1, gen, t.left, mid) && IsBuildOf(back, mid, gen, t.right, rnd')
  {
    var sorted;
    sorted, mid := BuildParts(s, rnd, gen, t, rnd');
    var n, p := |s|, Pow2(k - 1);
    HalfBound(n, p);
    front, back := sorted[..n / 2], sorted[n / 2..];
  }

  lemma HalfBound(n: nat, p: nat)
    requires n <= 2 * p
    ensures n / 2 <= p && n - n / 2 <= p
  {
  }
}
