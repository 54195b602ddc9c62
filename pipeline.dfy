/**
 * The two-pass render of the training script in
 * `extra/coarse_fine_sampling.py` (lines 52-67): coarse grid, coarse points,
 * coarse field evaluation and composite, then the fine grid, fine points,
 * fine evaluation and composite. The two networks are abstract field
 * functions from a point to its raw colour and density.
 */
module Pipeline {
  import opened Vectors
  import opened Sorting
  import opened Sampling
  import opened Compositing

  datatype RenderResult = RenderResult(
    coarseRgb: seq<Vec3>,
    fineRgb: seq<Vec3>,
    coarseDepths: seq<seq<real>>,
    fineDepths: seq<seq<real>>)

  /** Lines 56 and 66: the field applied to every point, keeping the (ray, sample) layout. */
  function Evaluate(field: Vec3 -> Raw, points: seq<seq<Vec3>>): (raw: seq<seq<Raw>>)
    ensures |raw| == |points|
    ensures forall i :: 0 <= i < |raw| ==> |raw[i]| == |points[i]|
    ensures forall i, j :: 0 <= i < |raw| && 0 <= j < |raw[i]| ==> raw[i][j] == field(points[i][j])
  {
    seq(|points|, i requires 0 <= i < |points| =>
      seq(|points[i]|, j requires 0 <= j < |points[i]| => field(points[i][j])))
  }

  /** The raw samples the field gives along one ray at the given depths. */
  function RayRaw(field: Vec3 -> Raw, ray: Ray, depths: seq<real>): (raw: seq<Raw>)
    ensures |raw| == |depths|
  {
    seq(|depths|, k requires 0 <= k < |depths| => field(PointAt(ray, depths[k])))
  }

  /** Evaluating the field at a batch of sample points gives, for each ray, the field along that ray. */
  lemma {:induction false} EvaluateAlongRays(field: Vec3 -> Raw, rays: seq<Ray>, z: seq<seq<real>>, i: nat)
    requires |z| == |rays| && i < |rays|
    ensures Evaluate(field, SamplePoints(rays, z))[i] == RayRaw(field, rays[i], z[i])
  {
    var raw := Evaluate(field, SamplePoints(rays, z));
    assert |raw[i]| == |z[i]|;
    forall k | 0 <= k < |z[i]| ensures raw[i][k] == RayRaw(field, rays[i], z[i])[k] {
    }
  }

  /** Lines 52-67: both passes; `u` is the jitter drawn at line 62, one value per coarse depth. */
  function Render(exp: real -> real, coarseField: Vec3 -> Raw, fineField: Vec3 -> Raw,
                  rays: seq<Ray>, n: nat, u: seq<seq<real>>): (r: RenderResult)
    requires |u| == |rays|
    requires forall i :: 0 <= i < |u| ==> |u[i]| == n
    ensures |r.coarseRgb| == |rays| && |r.fineRgb| == |rays|
    ensures |r.coarseDepths| == |rays| && |r.fineDepths| == |rays|
    ensures forall i :: 0 <= i < |rays| ==> r.coarseDepths[i] == Linspace(0.0, 1.0, n)
    ensures forall i :: 0 <= i < |rays| ==> |r.coarseDepths[i]| == n
    ensures forall i :: 0 <= i < |rays| ==> Sorted(r.fineDepths[i]) && |r.fineDepths[i]| == 2 * n
    ensures forall i :: 0 <= i < |rays| ==>
      multiset(r.fineDepths[i]) == multiset(r.coarseDepths[i]) + multiset(Jittered(r.coarseDepths[i], u[i]))
    ensures forall i :: 0 <= i < |rays| ==>
      r.coarseRgb[i] == RgbMap(exp, RayRaw(coarseField, rays[i], r.coarseDepths[i]))
    ensures forall i :: 0 <= i < |rays| ==>
      r.fineRgb[i] == RgbMap(exp, RayRaw(fineField, rays[i], r.fineDepths[i]))
  {
    var z := CoarseDepths(|rays|, n);
    var coarse := VolumeRendering(exp, Evaluate(coarseField, SamplePoints(rays, z)));
    var zFine := FineDepths(z, u);
    var fine := VolumeRendering(exp, Evaluate(fineField, SamplePoints(rays, zFine)));
    assert forall i :: 0 <= i < |rays| ==>
      coarse[i] == RgbMap(exp, RayRaw(coarseField, rays[i], z[i])) by {
      forall i | 0 <= i < |rays| ensures coarse[i] == RgbMap(exp, RayRaw(coarseField, rays[i], z[i])) {
        EvaluateAlongRays(coarseField, rays, z, i);
      }
    }
    assert forall i :: 0 <= i < |rays| ==>
      fine[i] == RgbMap(exp, RayRaw(fineField, rays[i], zFine[i])) by {
      forall i | 0 <= i < |rays| ensures fine[i] == RgbMap(exp, RayRaw(fineField, rays[i], zFine[i])) {
        EvaluateAlongRays(fineField, rays, zFine, i);
      }
    }
    RenderResult(coarse, fine, z, zFine)
  }

  /**
   * The coarse pass uses one grid for all rays, so two rays with the same
   * origin and direction get the same coarse colour, whatever the jitter.
   */
  lemma {:induction false} SameRaySameCoarseColour(exp: real -> real, coarseField: Vec3 -> Raw, fineField: Vec3 -> Raw,
                                                   rays: seq<Ray>, n: nat, u: seq<seq<real>>, i: nat, j: nat)
    requires |u| == |rays|
    requires forall k :: 0 <= k < |u| ==> |u[k]| == n
    requires i < |rays| && j < |rays| && rays[i] == rays[j]
    ensures Render(exp, coarseField, fineField, rays, n, u).coarseRgb[i]
         == Render(exp, coarseField, fineField, rays, n, u).coarseRgb[j]
  {
    var z := CoarseDepths(|rays|, n);
    var p := SamplePoints(rays, z);
    assert p[i] == p[j];
    var raw := Evaluate(coarseField, p);
    assert raw[i] == raw[j];
  }

  /** With jitter in [0, 1), every fine depth lies in [0, 1.1) and every coarse depth survives into the fine grid. */
  lemma {:induction false} RenderFineGrid(exp: real -> real, coarseField: Vec3 -> Raw, fineField: Vec3 -> Raw,
                                          rays: seq<Ray>, n: nat, u: seq<seq<real>>, i: nat)
    requires |u| == |rays|
    requires forall k :: 0 <= k < |u| ==> |u[k]| == n
    requires forall r, k :: 0 <= r < |u| && 0 <= k < n ==> 0.0 <= u[r][k] < 1.0
    requires i < |rays|
    ensures forall k :: 0 <= k < 2 * n ==>
      0.0 <= Render(exp, coarseField, fineField, rays, n, u).fineDepths[i][k] < 1.0 + JITTER
    ensures forall k :: 0 <= k < n ==>
      Render(exp, coarseField, fineField, rays, n, u).coarseDepths[i][k]
        in Render(exp, coarseField, fineField, rays, n, u).fineDepths[i]
  {
    FineGridOverCoarse(|rays|, n, u, i);
  }
}
