/**
 * The compositing law of `volume_rendering` in
 * `extra/coarse_fine_sampling.py` (lines 32-37): densities become opacities
 * `alpha = 1 - exp(-density)`, transmittance is the running product of
 * `1 - alpha + 1e-10` shifted by one sample, each sample weighs
 * `alpha * transmittance`, and a ray's colour is the weighted sum of its
 * sample colours.
 *
 * `exp` is a parameter: every function here takes the exponential as an
 * argument, and the lemmas assume only the laws of `ExpLaw`, which the real
 * exponential satisfies.
 */
module Compositing {
  import opened Vectors

  /** The guard added to every transmittance factor. */
  const EPS: real := 0.0000000001

  /** One network output: colour (`raw[..., :3]`) and density (`raw[..., 3]`). */
  datatype Raw = Raw(rgb: Vec3, density: real)

  /** Facts about the real exponential that the lemmas rely on. */
  ghost predicate ExpLaw(exp: real -> real) {
    && exp(0.0) == 1.0
    && (forall x :: 0.0 < exp(x))
    && (forall x :: x < 0.0 ==> exp(x) < 1.0)
    && (forall x :: 0.0 < x ==> 1.0 < exp(x))
    && (forall x :: exp(x) * (1.0 - x) <= 1.0)
  }

  /** Line 34 for one sample. */
  function Alpha(exp: real -> real, density: real): (a: real)
    ensures ExpLaw(exp) ==> a < 1.0
    ensures ExpLaw(exp) ==> (0.0 <= a <==> 0.0 <= density)
  {
    1.0 - exp(-density)
  }

  /** Non-negative densities give opacities in [0, 1), zero exactly at zero density; negative ones give negative opacity. */
  lemma AlphaRange(exp: real -> real, d: real)
    requires ExpLaw(exp)
    ensures 0.0 <= d ==> 0.0 <= Alpha(exp, d) < 1.0
    ensures Alpha(exp, d) == 0.0 <==> d == 0.0
    ensures d < 0.0 ==> Alpha(exp, d) < 0.0
  {
    if d > 0.0 {
      assert exp(-d) < 1.0;
    } else if d < 0.0 {
      assert 1.0 < exp(-d);
    }
  }

  /** Opacity grows towards 1 with density: alpha >= d / (1 + d). */
  lemma AlphaLowerBound(exp: real -> real, d: real)
    requires ExpLaw(exp) && 0.0 <= d
    ensures d / (1.0 + d) <= Alpha(exp, d)
  {
    var e := exp(-d);
    assert e * (1.0 + d) <= 1.0;
    assert 1.0 - e == ((1.0 + d) - e * (1.0 + d)) / (1.0 + d);
  }

  /** Line 34 along one ray. */
  function Alphas(exp: real -> real, raw: seq<Raw>): (a: seq<real>)
    ensures |a| == |raw|
  {
    seq(|raw|, i requires 0 <= i < |raw| => Alpha(exp, raw[i].density))
  }

  /** The factors `1 - alpha + 1e-10` that line 35 multiplies up. */
  function Factors(alpha: seq<real>): (f: seq<real>)
    ensures |f| == |alpha|
  {
    seq(|alpha|, i requires 0 <= i < |alpha| => 1.0 - alpha[i] + EPS)
  }

  /** Reference product of a sequence. */
  function Product(s: seq<real>): real {
    if s == [] then 1.0 else s[0] * Product(s[1..])
  }

  /** Running product scan, carrying the product so far in `acc`. */
  function CumProdFrom(acc: real, s: seq<real>): (r: seq<real>)
    ensures |r| == |s|
    decreases |s|
  {
    if s == [] then [] else [acc * s[0]] + CumProdFrom(acc * s[0], s[1..])
  }

  /** `torch.cumprod` along one ray. */
  function CumProd(s: seq<real>): (r: seq<real>)
    ensures |r| == |s|
  {
    CumProdFrom(1.0, s)
  }

  lemma {:induction false} CumProdFromAt(acc: real, s: seq<real>, i: nat)
    requires i < |s|
    ensures CumProdFrom(acc, s)[i] == acc * Product(s[..i + 1])
    decreases i
  {
    assert s[..i + 1] == [s[0]] + s[1..][..i];
    if i > 0 {
      CumProdFromAt(acc * s[0], s[1..], i - 1);
      assert (acc * s[0]) * Product(s[1..][..i]) == acc * (s[0] * Product(s[1..][..i]));
    }
  }

  /** Entry i of the scan is the product of the first i + 1 entries. */
  lemma {:induction false} CumProdIsPrefixProduct(s: seq<real>, i: nat)
    requires i < |s|
    ensures CumProd(s)[i] == Product(s[..i + 1])
  {
    CumProdFromAt(1.0, s, i);
  }

  /** Each entry of the scan is the previous one times the next input. */
  lemma {:induction false} CumProdFromStep(acc: real, s: seq<real>, i: nat)
    requires i + 1 < |s|
    ensures CumProdFrom(acc, s)[i + 1] == CumProdFrom(acc, s)[i] * s[i + 1]
    decreases i
  {
    if i > 0 {
      CumProdFromStep(acc * s[0], s[1..], i - 1);
    }
  }

  /** The whole `cumprod(cat([1], 1 - alpha + 1e-10))` row, one entry longer than `alpha`. */
  function FullTransmittance(alpha: seq<real>): (t: seq<real>)
    ensures |t| == |alpha| + 1
  {
    CumProd([1.0] + Factors(alpha))
  }

  /** Line 35 after `[:, :-1]`: the transmittance reaching each sample. */
  function Transmittance(alpha: seq<real>): (t: seq<real>)
    ensures |t| == |alpha|
  {
    var full := FullTransmittance(alpha);
    full[..|full| - 1]
  }

  /** The entry line 35 drops: what is left of the light after the last sample. */
  function Residual(alpha: seq<real>): (r: real)
    ensures alpha == [] ==> r == 1.0
    ensures |alpha| > 0 ==>
      r == Transmittance(alpha)[|alpha| - 1] * (1.0 - alpha[|alpha| - 1] + EPS)
  {
    FullTransmittanceStart(alpha);
    if alpha == [] then
      FullTransmittance(alpha)[0]
    else
      FullTransmittanceStep(alpha, |alpha| - 1);
      FullTransmittance(alpha)[|alpha|]
  }

  lemma FullTransmittanceStart(alpha: seq<real>)
    ensures FullTransmittance(alpha)[0] == 1.0
  {
  }

  lemma {:induction false} FullTransmittanceStep(alpha: seq<real>, i: nat)
    requires i < |alpha|
    ensures FullTransmittance(alpha)[i + 1] == FullTransmittance(alpha)[i] * (1.0 - alpha[i] + EPS)
  {
    CumProdFromStep(1.0, [1.0] + Factors(alpha), i);
  }

  lemma {:induction false} TransmittanceAsProduct(alpha: seq<real>, i: nat)
    requires i < |alpha|
    ensures Transmittance(alpha)[i] == Product(Factors(alpha)[..i])
  {
    CumProdIsPrefixProduct([1.0] + Factors(alpha), i);
    assert ([1.0] + Factors(alpha))[..i + 1] == [1.0] + Factors(alpha)[..i];
  }

  lemma TransmittanceIsPrefix(alpha: seq<real>, i: nat)
    requires i < |alpha|
    ensures Transmittance(alpha)[i] == FullTransmittance(alpha)[i]
  {
  }

  lemma {:induction false} TransmittanceStep(alpha: seq<real>, i: nat)
    requires i + 1 < |alpha|
    ensures Transmittance(alpha)[i + 1] == Transmittance(alpha)[i] * (1.0 - alpha[i] + EPS)
  {
    FullTransmittanceStep(alpha, i);
    TransmittanceIsPrefix(alpha, i);
    TransmittanceIsPrefix(alpha, i + 1);
  }

  /** Transmittance starts at 1 and each later entry multiplies in the factor of the preceding sample. */
  lemma {:induction false} TransmittanceLaw(alpha: seq<real>)
    ensures |alpha| > 0 ==> Transmittance(alpha)[0] == 1.0
    ensures forall i :: 0 <= i < |alpha| - 1 ==>
      Transmittance(alpha)[i + 1] == Transmittance(alpha)[i] * (1.0 - alpha[i] + EPS)
    ensures |alpha| > 0 ==>
      Residual(alpha) == Transmittance(alpha)[|alpha| - 1] * (1.0 - alpha[|alpha| - 1] + EPS)
    ensures forall i :: 0 <= i < |alpha| ==> Transmittance(alpha)[i] == Product(Factors(alpha)[..i])
  {
    FullTransmittanceStart(alpha);
    if |alpha| > 0 {
      TransmittanceIsPrefix(alpha, 0);
      FullTransmittanceStep(alpha, |alpha| - 1);
      TransmittanceIsPrefix(alpha, |alpha| - 1);
    }
    forall i | 0 <= i < |alpha| - 1
      ensures Transmittance(alpha)[i + 1] == Transmittance(alpha)[i] * (1.0 - alpha[i] + EPS)
    {
      TransmittanceStep(alpha, i);
    }
    forall i | 0 <= i < |alpha|
      ensures Transmittance(alpha)[i] == Product(Factors(alpha)[..i])
    {
      TransmittanceAsProduct(alpha, i);
    }
  }

  lemma {:induction false} FullTransmittancePositive(alpha: seq<real>, i: nat)
    requires forall j :: 0 <= j < |alpha| ==> alpha[j] <= 1.0
    requires i <= |alpha|
    ensures 0.0 < FullTransmittance(alpha)[i]
  {
    if i == 0 {
      FullTransmittanceStart(alpha);
    } else {
      FullTransmittancePositive(alpha, i - 1);
      FullTransmittanceStep(alpha, i - 1);
      var t := FullTransmittance(alpha)[i - 1];
      assert 0.0 < t * (1.0 - alpha[i - 1] + EPS);
    }
  }

  /** While every opacity is at most 1, transmittance (and the residual) stay strictly positive. */
  lemma {:induction false} TransmittancePositive(alpha: seq<real>)
    requires forall j :: 0 <= j < |alpha| ==> alpha[j] <= 1.0
    ensures forall i :: 0 <= i < |alpha| ==> 0.0 < Transmittance(alpha)[i]
    ensures 0.0 < Residual(alpha)
  {
    forall i | 0 <= i <= |alpha| ensures 0.0 < FullTransmittance(alpha)[i] {
      FullTransmittancePositive(alpha, i);
    }
  }

  lemma ShrinkStep(t: real, t': real, al: real)
    requires 0.0 < t && EPS <= al
    requires t' == t * (1.0 - al + EPS)
    ensures t' <= t
  {
    assert t * (1.0 - al + EPS) == t - t * (al - EPS);
    assert 0.0 <= t * (al - EPS);
  }

  /** Transmittance does not grow past a sample whose opacity is at least the guard 1e-10. */
  lemma {:induction false} TransmittanceNonIncreasing(alpha: seq<real>, i: nat)
    requires forall j :: 0 <= j < |alpha| ==> alpha[j] <= 1.0
    requires i + 1 < |alpha| && EPS <= alpha[i]
    ensures Transmittance(alpha)[i + 1] <= Transmittance(alpha)[i]
  {
    TransmittanceStep(alpha, i);
    TransmittancePositive(alpha);
    ShrinkStep(Transmittance(alpha)[i], Transmittance(alpha)[i + 1], alpha[i]);
  }

  /** Over exact reals the guard lets transmittance grow past a fully clear sample. */
  lemma ClearSampleRaisesTransmittance()
    ensures Transmittance([0.0, 0.0])[1] == 1.0 + EPS
    ensures Transmittance([0.0, 0.0])[0] < Transmittance([0.0, 0.0])[1]
  {
    TransmittanceLaw([0.0, 0.0]);
  }

  /** A rational stand-in that obeys `ExpLaw`: 1 + x for x >= 0 and 1 / (1 - x) below 0. */
  function RationalExp(x: real): real {
    if 0.0 <= x then 1.0 + x else 1.0 / (1.0 - x)
  }

  /** `ExpLaw` can be met, so the lemmas that assume it are not vacuous. */
  lemma ExpLawSatisfiable()
    ensures ExpLaw(RationalExp)
  {
    forall x ensures 0.0 < RationalExp(x) && RationalExp(x) * (1.0 - x) <= 1.0 {
      if x < 0.0 {
        assert RationalExp(x) * (1.0 - x) == 1.0;
      } else {
        assert (1.0 + x) * (1.0 - x) == 1.0 - x * x;
      }
    }
    forall x | x < 0.0 ensures RationalExp(x) < 1.0 {
      assert 1.0 < 1.0 - x;
    }
  }

  /** Line 35: weight of each sample, opacity times the transmittance reaching it. */
  function Weights(alpha: seq<real>): (w: seq<real>)
    ensures |w| == |alpha|
  {
    var t := Transmittance(alpha);
    seq(|alpha|, i requires 0 <= i < |alpha| => alpha[i] * t[i])
  }

  /**
   * Over exact reals a weight can exceed 1: behind a clear sample the
   * transmittance is 1 + 1e-10, and a density of 1e11 - 1 under `RationalExp`
   * gives alpha = 1 - 1e-11.
   */
  lemma WeightCanExceedOne()
    ensures ExpLaw(RationalExp)
    ensures 1.0 < Weights(Alphas(RationalExp, [Raw(Zero, 0.0), Raw(Zero, 99999999999.0)]))[1]
  {
    ExpLawSatisfiable();
    var a := Alphas(RationalExp, [Raw(Zero, 0.0), Raw(Zero, 99999999999.0)]);
    assert a[0] == 0.0;
    assert a[1] == 1.0 - 0.00000000001;
    TransmittanceLaw(a);
    WeightAt(a, 1);
  }

  /** The first weight is the first opacity, since nothing attenuates the first sample. */
  lemma FirstWeight(alpha: seq<real>)
    requires |alpha| > 0
    ensures Weights(alpha)[0] == alpha[0]
  {
    TransmittanceLaw(alpha);
  }

  lemma BelowLight(al: real, t: real, w: real)
    requires 0.0 <= al < 1.0 && 0.0 < t
    requires w == al * t
    ensures 0.0 <= w < t
  {
    assert t - w == (1.0 - al) * t;
  }

  /** With non-negative densities every weight lies in [0, T_i): non-negative and below the light that reaches it. */
  lemma {:induction false} WeightsNonNegative(exp: real -> real, raw: seq<Raw>)
    requires ExpLaw(exp)
    requires forall i :: 0 <= i < |raw| ==> 0.0 <= raw[i].density
    ensures forall i :: 0 <= i < |raw| ==>
      0.0 <= Weights(Alphas(exp, raw))[i] < Transmittance(Alphas(exp, raw))[i]
  {
    var a := Alphas(exp, raw);
    forall j | 0 <= j < |a| ensures 0.0 <= a[j] < 1.0 {
      AlphaRange(exp, raw[j].density);
    }
    TransmittancePositive(a);
    forall i | 0 <= i < |raw|
      ensures 0.0 <= Weights(a)[i] < Transmittance(a)[i]
    {
      WeightAt(a, i);
      BelowLight(a[i], Transmittance(a)[i], Weights(a)[i]);
    }
  }

  /** Sum of a sequence, accumulated front to back. */
  function Sum(s: seq<real>): real {
    if s == [] then 0.0 else Sum(s[..|s| - 1]) + s[|s| - 1]
  }

  lemma {:induction false} WeightsTelescopePrefix(alpha: seq<real>, k: nat)
    requires k <= |alpha|
    ensures Sum(Weights(alpha)[..k]) + FullTransmittance(alpha)[k]
         == 1.0 + EPS * Sum(Transmittance(alpha)[..k])
  {
    var full := FullTransmittance(alpha);
    var w, t := Weights(alpha), Transmittance(alpha);
    if k == 0 {
      FullTransmittanceStart(alpha);
    } else {
      WeightsTelescopePrefix(alpha, k - 1);
      FullTransmittanceStep(alpha, k - 1);
      assert w[..k][..k - 1] == w[..k - 1];
      assert t[..k][..k - 1] == t[..k - 1];
      assert w[k - 1] == alpha[k - 1] * full[k - 1];
      assert full[k] == full[k - 1] - alpha[k - 1] * full[k - 1] + EPS * full[k - 1];
    }
  }

  /** Weights plus the residual account for all the light, up to the guard: sum(w) + T_N = 1 + 1e-10 * sum(T). */
  lemma {:induction false} WeightsTelescope(alpha: seq<real>)
    ensures Sum(Weights(alpha)) + Residual(alpha) == 1.0 + EPS * Sum(Transmittance(alpha))
  {
    WeightsTelescopePrefix(alpha, |alpha|);
    assert Weights(alpha)[..|alpha|] == Weights(alpha);
    assert Transmittance(alpha)[..|alpha|] == Transmittance(alpha);
  }

  /** `sum(w[..., None] * c, dim=-2)` for one ray. */
  function WeightedSum(w: seq<real>, c: seq<Vec3>): (r: Vec3)
    requires |w| == |c|
    ensures w == [] ==> r == Zero
    ensures (forall i :: 0 <= i < |w| ==> w[i] == 0.0) ==> r == Zero
  {
    if w == [] then Zero
    else Add(WeightedSum(w[..|w| - 1], c[..|c| - 1]), Scale(w[|w| - 1], c[|c| - 1]))
  }

  lemma ScaledUnit(w: real, c: real)
    requires 0.0 <= w && 0.0 <= c <= 1.0
    ensures 0.0 <= w * c <= w
  {
  }

  lemma ScaledPart(w: real, c: real, p: real)
    requires 0.0 <= w && 0.0 <= c <= 1.0
    requires p == w * c
    ensures 0.0 <= p <= w
  {
    ScaledUnit(w, c);
  }

  lemma WithinAdd(a: Vec3, b: Vec3, s: real, x: real)
    requires Within(a, 0.0, s)
    requires 0.0 <= x
    requires 0.0 <= b.x <= x && 0.0 <= b.y <= x && 0.0 <= b.z <= x
    ensures Within(Add(a, b), 0.0, s + x)
  {
  }

  lemma ScaledWithin(w: real, c: Vec3)
    requires 0.0 <= w && Within(c, 0.0, 1.0)
    ensures 0.0 <= Scale(w, c).x <= w && 0.0 <= Scale(w, c).y <= w && 0.0 <= Scale(w, c).z <= w
  {
    ScaledPart(w, c.x, Scale(w, c).x);
    ScaledPart(w, c.y, Scale(w, c).y);
    ScaledPart(w, c.z, Scale(w, c).z);
  }

  /** Non-negative weights over colours in [0, 1] give a colour whose components lie in [0, sum(w)]. */
  lemma {:induction false} WeightedSumBound(w: seq<real>, c: seq<Vec3>)
    requires |w| == |c|
    requires forall i :: 0 <= i < |w| ==> 0.0 <= w[i]
    requires forall i :: 0 <= i < |c| ==> Within(c[i], 0.0, 1.0)
    ensures Within(WeightedSum(w, c), 0.0, Sum(w))
  {
    if w != [] {
      var n := |w| - 1;
      WeightedSumBound(w[..n], c[..n]);
      var prev := WeightedSum(w[..n], c[..n]);
      assert WeightedSum(w, c) == Add(prev, Scale(w[n], c[n]));
      assert Sum(w) == Sum(w[..n]) + w[n];
      assert Within(c[n], 0.0, 1.0) && 0.0 <= w[n];
      ScaledWithin(w[n], c[n]);
      WithinAdd(prev, Scale(w[n], c[n]), Sum(w[..n]), w[n]);
    }
  }

  /** The colours `raw[..., :3]` of one ray. */
  function Colours(raw: seq<Raw>): (c: seq<Vec3>)
    ensures |c| == |raw|
  {
    seq(|raw|, i requires 0 <= i < |raw| => raw[i].rgb)
  }

  /** Lines 34-36 for one ray: the composited colour. */
  function RgbMap(exp: real -> real, raw: seq<Raw>): (c: Vec3)
    ensures raw == [] ==> c == Zero
  {
    WeightedSum(Weights(Alphas(exp, raw)), Colours(raw))
  }

  /** `volume_rendering`: one colour per ray. */
  function VolumeRendering(exp: real -> real, raw: seq<seq<Raw>>): (rgb: seq<Vec3>)
    ensures |rgb| == |raw|
    ensures forall i :: 0 <= i < |raw| ==> rgb[i] == RgbMap(exp, raw[i])
  {
    seq(|raw|, i requires 0 <= i < |raw| => RgbMap(exp, raw[i]))
  }

  /** A ray of zero density composites to zero weights everywhere and colour (0, 0, 0). */
  lemma {:induction false} ZeroDensityIsBlack(exp: real -> real, raw: seq<Raw>)
    requires ExpLaw(exp)
    requires forall i :: 0 <= i < |raw| ==> raw[i].density == 0.0
    ensures forall i :: 0 <= i < |raw| ==> Weights(Alphas(exp, raw))[i] == 0.0
    ensures RgbMap(exp, raw) == Zero
  {
    var a := Alphas(exp, raw);
    forall i | 0 <= i < |raw| ensures Weights(a)[i] == 0.0 {
      AlphaRange(exp, raw[i].density);
    }
  }

  /** With colours in [0, 1] and non-negative densities, each colour component lies in [0, sum(w)], and sum(w) < 1 + 1e-10 * sum(T). */
  lemma {:induction false} RayColourBound(exp: real -> real, raw: seq<Raw>)
    requires ExpLaw(exp)
    requires forall i :: 0 <= i < |raw| ==> 0.0 <= raw[i].density
    requires forall i :: 0 <= i < |raw| ==> Within(raw[i].rgb, 0.0, 1.0)
    ensures Within(RgbMap(exp, raw), 0.0, Sum(Weights(Alphas(exp, raw))))
    ensures Sum(Weights(Alphas(exp, raw))) < 1.0 + EPS * Sum(Transmittance(Alphas(exp, raw)))
  {
    var a := Alphas(exp, raw);
    WeightsNonNegative(exp, raw);
    WeightedSumBound(Weights(a), Colours(raw));
    forall j | 0 <= j < |a| ensures a[j] <= 1.0 {
      AlphaRange(exp, raw[j].density);
    }
    TransmittancePositive(a);
    WeightsTelescope(a);
  }

  /** A single sample composites to its colour scaled by its opacity. */
  lemma SingleSample(exp: real -> real, r: Raw)
    ensures RgbMap(exp, [r]) == Scale(Alpha(exp, r.density), r.rgb)
  {
    var w := Weights(Alphas(exp, [r]));
    var c := Colours([r]);
    FirstWeight(Alphas(exp, [r]));
    assert w[0] == Alpha(exp, r.density) && c[0] == r.rgb;
    assert w[..0] == [] && c[..0] == [];
    assert WeightedSum(w, c) == Add(Zero, Scale(w[0], c[0]));
  }

  lemma DecayStep(al: real, t: real, t': real)
    requires EPS < al && 0.0 < t
    requires t' == t * (1.0 - al + EPS)
    ensures al * t' < al * t
  {
    assert al * t' == al * t - (al * t) * (al - EPS);
    assert 0.0 < al * t;
    assert 0.0 < (al * t) * (al - EPS);
  }

  lemma WeightAt(alpha: seq<real>, i: nat)
    requires i < |alpha|
    ensures Weights(alpha)[i] == alpha[i] * Transmittance(alpha)[i]
  {
  }

  lemma GuardBelowRatio(d: real)
    requires 2.0 * EPS <= d
    ensures EPS < d / (1.0 + d)
  {
    assert EPS * (1.0 + d) < d;
    assert EPS == (EPS * (1.0 + d)) / (1.0 + d);
  }

  lemma {:induction false} ConstantOpacityStep(a: seq<real>, al: real, i: nat)
    requires EPS < al <= 1.0
    requires forall j :: 0 <= j < |a| ==> a[j] == al
    requires i + 1 < |a|
    ensures Weights(a)[i + 1] < Weights(a)[i]
  {
    TransmittanceStep(a, i);
    TransmittancePositive(a);
    WeightAt(a, i);
    WeightAt(a, i + 1);
    DecayStep(al, Transmittance(a)[i], Transmittance(a)[i + 1]);
  }

  /** In a uniform medium of density at least 2e-10 the weights strictly decrease along the ray. */
  lemma {:induction false} UniformMediumWeightsDecrease(exp: real -> real, raw: seq<Raw>, d: real)
    requires ExpLaw(exp)
    requires 2.0 * EPS <= d
    requires forall i :: 0 <= i < |raw| ==> raw[i].density == d
    ensures forall i :: 0 <= i < |raw| - 1 ==>
      Weights(Alphas(exp, raw))[i + 1] < Weights(Alphas(exp, raw))[i]
  {
    var a := Alphas(exp, raw);
    var al := Alpha(exp, d);
    AlphaRange(exp, d);
    AlphaLowerBound(exp, d);
    GuardBelowRatio(d);
    assert forall j :: 0 <= j < |a| ==> a[j] == al;
    forall i | 0 <= i < |raw| - 1 ensures Weights(a)[i + 1] < Weights(a)[i] {
      ConstantOpacityStep(a, al, i);
    }
  }
}
