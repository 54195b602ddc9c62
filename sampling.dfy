/**
 * Ray sampling in `extra/coarse_fine_sampling.py` (lines 52-53 and 62-63):
 * the coarse depth grid (`torch.linspace(0, 1, N)` expanded over
 * the rays), the sample points `origin + t * direction`, and the fine depth
 * grid built by concatenating the coarse depths with a jittered copy and
 * sorting each ray.
 */
module Sampling {
  import opened Vectors
  import opened Sorting

  /** Scale of the uniform jitter added to the appended copy of the coarse depths. */
  const JITTER: real := 0.1

  datatype Ray = Ray(origin: Vec3, direction: Vec3)

  /** `torch.linspace(start, end, n)`: n values from start to end, both ends included. */
  function Linspace(start: real, end: real, n: nat): (r: seq<real>)
    ensures |r| == n
  {
    if n == 0 then []
    else if n == 1 then [start]
    else
      var step := (end - start) / ((n - 1) as real);
      seq(n, i => start + (i as real) * step)
  }

  lemma ScaleMonotone(a: real, b: real, k: real)
    requires a <= b && 0.0 <= k
    ensures a * k <= b * k
  {
    assert b * k - a * k == (b - a) * k;
  }

  lemma LinspaceGrid(start: real, end: real, n: nat)
    ensures |Linspace(start, end, n)| == n
    ensures n >= 1 ==> Linspace(start, end, n)[0] == start
    ensures n >= 2 ==> Linspace(start, end, n)[n - 1] == end
    ensures n >= 2 ==> forall i :: 0 <= i < n - 1 ==>
      Linspace(start, end, n)[i + 1] - Linspace(start, end, n)[i] == (end - start) / ((n - 1) as real)
    ensures start <= end ==> Sorted(Linspace(start, end, n))
    ensures start <= end ==> forall i :: 0 <= i < n ==> start <= Linspace(start, end, n)[i] <= end
  {
    var r := Linspace(start, end, n);
    if n >= 2 {
      var step := (end - start) / ((n - 1) as real);
      assert step * ((n - 1) as real) == end - start;
      assert r[n - 1] == start + ((n - 1) as real) * step;
      if start <= end {
        assert step >= 0.0;
        forall i, j | 0 <= i < j < n ensures r[i] <= r[j] {
          ScaleMonotone(i as real, j as real, step);
        }
        forall i | 0 <= i < n ensures start <= r[i] <= end {
          ScaleMonotone(0.0, i as real, step);
          ScaleMonotone(i as real, (n - 1) as real, step);
        }
      }
    }
  }

  /** Line 52: the same `linspace(0, 1, n)` row for each of `rays` rays. */
  function CoarseDepths(rays: nat, n: nat): (g: seq<seq<real>>)
    ensures |g| == rays
    ensures forall i, j :: 0 <= i < |g| && 0 <= j < |g| ==> g[i] == g[j]
  {
    seq(rays, _ => Linspace(0.0, 1.0, n))
  }

  /** Each row of the coarse grid has n ascending, evenly spaced depths from 0 to 1. */
  lemma CoarseGridShape(rays: nat, n: nat, i: nat)
    requires i < rays
    ensures |CoarseDepths(rays, n)[i]| == n
    ensures Sorted(CoarseDepths(rays, n)[i])
    ensures forall k :: 0 <= k < n ==> 0.0 <= CoarseDepths(rays, n)[i][k] <= 1.0
    ensures n >= 1 ==> CoarseDepths(rays, n)[i][0] == 0.0
    ensures n >= 2 ==> CoarseDepths(rays, n)[i][n - 1] == 1.0
    ensures n >= 2 ==> forall k :: 0 <= k < n - 1 ==>
      CoarseDepths(rays, n)[i][k + 1] - CoarseDepths(rays, n)[i][k] == 1.0 / ((n - 1) as real)
  {
    LinspaceGrid(0.0, 1.0, n);
  }

  /** The point at depth t along a ray. */
  function PointAt(ray: Ray, t: real): (p: Vec3)
    ensures t == 0.0 ==> p == ray.origin
  {
    Add(ray.origin, Scale(t, ray.direction))
  }

  /** Lines 53 and 63: one point per (ray, depth), broadcast over the batch. */
  function SamplePoints(rays: seq<Ray>, z: seq<seq<real>>): (p: seq<seq<Vec3>>)
    requires |z| == |rays|
    ensures |p| == |rays|
    ensures forall i :: 0 <= i < |p| ==> |p[i]| == |z[i]|
    ensures forall i, j :: 0 <= i < |p| && 0 <= j < |p[i]| ==> p[i][j] == PointAt(rays[i], z[i][j])
  {
    seq(|rays|, i requires 0 <= i < |rays| =>
      seq(|z[i]|, j requires 0 <= j < |z[i]| => PointAt(rays[i], z[i][j])))
  }

  /** Depth 0 is the origin, and moving from depth t1 to t2 moves by (t2 - t1) directions. */
  lemma PointsAlongRay(ray: Ray, t1: real, t2: real)
    ensures PointAt(ray, 0.0) == ray.origin
    ensures PointAt(ray, t2) == Add(PointAt(ray, t1), Scale(t2 - t1, ray.direction))
  {
  }

  /** Line 62, the appended copy: each depth pushed forward by `u * 0.1`. */
  function Jittered(z: seq<real>, u: seq<real>): (r: seq<real>)
    requires |u| == |z|
    ensures |r| == |z|
  {
    seq(|z|, i requires 0 <= i < |z| => z[i] + u[i] * JITTER)
  }

  /** With u in [0, 1), each jittered depth lies in [z, z + 0.1). */
  lemma JitterBounds(z: seq<real>, u: seq<real>, i: nat)
    requires |u| == |z| && i < |z|
    requires 0.0 <= u[i] < 1.0
    ensures z[i] <= Jittered(z, u)[i] < z[i] + JITTER
  {
  }

  /** Line 62 for one ray: sort the coarse depths together with their jittered copy. */
  function FineRow(z: seq<real>, u: seq<real>): (r: seq<real>)
    requires |u| == |z|
    ensures Sorted(r)
    ensures |r| == 2 * |z|
    ensures multiset(r) == multiset(z) + multiset(Jittered(z, u))
  {
    Sort(z + Jittered(z, u))
  }

  /** Line 62 over the batch; `u` stands for `torch.rand_like(z_vals)`. */
  function FineDepths(z: seq<seq<real>>, u: seq<seq<real>>): (f: seq<seq<real>>)
    requires |u| == |z|
    requires forall i :: 0 <= i < |z| ==> |u[i]| == |z[i]|
    ensures |f| == |z|
    ensures forall i :: 0 <= i < |f| ==> Sorted(f[i]) && |f[i]| == 2 * |z[i]|
    ensures forall i :: 0 <= i < |f| ==>
      multiset(f[i]) == multiset(z[i]) + multiset(Jittered(z[i], u[i]))
  {
    seq(|z|, i requires 0 <= i < |z| => FineRow(z[i], u[i]))
  }

  /** The coarse depths reach the fine grid unjittered, and so does each jittered copy. */
  lemma {:induction false} FineKeepsCoarse(z: seq<real>, u: seq<real>, j: nat)
    requires |u| == |z| && j < |z|
    ensures z[j] in FineRow(z, u)
    ensures Jittered(z, u)[j] in FineRow(z, u)
  {
    var c := z + Jittered(z, u);
    SortKeeps(c, j);
    SortKeeps(c, |z| + j);
  }

  /** With coarse depths in [0, 1] and jitter in [0, 1), every fine depth lies in [0, 1.1). */
  lemma {:induction false} FineDepthRange(z: seq<real>, u: seq<real>, k: nat)
    requires |u| == |z| && k < 2 * |z|
    requires forall i :: 0 <= i < |z| ==> 0.0 <= z[i] <= 1.0
    requires forall i :: 0 <= i < |u| ==> 0.0 <= u[i] < 1.0
    ensures 0.0 <= FineRow(z, u)[k] < 1.0 + JITTER
  {
    var c := z + Jittered(z, u);
    SortDrawsFrom(c, k);
    var i :| 0 <= i < |c| && Sort(c)[k] == c[i];
    if i >= |z| {
      JitterBounds(z, u, i - |z|);
    }
  }

  /** On the coarse grid of line 52 the whole fine grid lies in [0, 1.1) and keeps every coarse depth. */
  lemma {:induction false} FineGridOverCoarse(rays: nat, n: nat, u: seq<seq<real>>, i: nat)
    requires |u| == rays && i < rays
    requires forall r :: 0 <= r < rays ==> |u[r]| == n
    requires forall r, k :: 0 <= r < rays && 0 <= k < n ==> 0.0 <= u[r][k] < 1.0
    ensures |FineDepths(CoarseDepths(rays, n), u)[i]| == 2 * n
    ensures forall k :: 0 <= k < 2 * n ==> 0.0 <= FineDepths(CoarseDepths(rays, n), u)[i][k] < 1.0 + JITTER
    ensures forall k :: 0 <= k < n ==> CoarseDepths(rays, n)[i][k] in FineDepths(CoarseDepths(rays, n), u)[i]
  {
    var z := CoarseDepths(rays, n);
    CoarseGridShape(rays, n, i);
    assert FineDepths(z, u)[i] == FineRow(z[i], u[i]);
    forall k | 0 <= k < 2 * n ensures 0.0 <= FineRow(z[i], u[i])[k] < 1.0 + JITTER {
      FineDepthRange(z[i], u[i], k);
    }
    forall k | 0 <= k < n ensures z[i][k] in FineRow(z[i], u[i]) {
      FineKeepsCoarse(z[i], u[i], k);
    }
  }
}
