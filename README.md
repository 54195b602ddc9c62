# Coarse-to-fine ray sampling and volume compositing, in Dafny

This project models the rendering core of `extra/coarse_fine_sampling.py`:

- the **coarse depth grid**: `linspace(0, 1, N)`, the same row for every ray;
- the **sample points**: `origin + t * direction` for every (ray, depth);
- **`volume_rendering`**: `alpha = 1 - exp(-density)`, transmittance as the
  running product of `1 - alpha + 1e-10` with a leading 1 and the last entry
  dropped, `weight = alpha * transmittance`, and the ray colour as the
  weighted sum of the sample colours;
- the **fine depth resampler**: the coarse depths concatenated with a copy
  jittered by `u * 0.1` (`u` in [0, 1)), sorted per ray;
- the two-pass **render** that strings these together.

Everything is over Dafny `real`. A ray batch is a `seq<seq<...>>` (rays, then
samples). The exponential is a parameter `exp: real -> real`; the lemmas
assume only `ExpLaw(exp)`: `exp(0) = 1`, `exp > 0`, `exp(x) < 1` for `x < 0`,
`exp(x) > 1` for `x > 0`, and `exp(x) * (1 - x) <= 1`, all true of the real
exponential. The random jitter `torch.rand_like(z_vals)` is an injected
`seq<seq<real>>`; the two networks are abstract field functions from a point
to its raw colour and density.

Modules: `Vectors` (3-vectors), `Sorting` (insertion sort standing for
`torch.sort`), `Sampling` (grid, points, resampler), `Compositing`
(`volume_rendering`), `Pipeline` (the two passes).

Two behaviours of the code are kept as written:

- Line 62 jitters only the appended copy, so the coarse depths reach the fine
  grid unchanged (`Sampling.FineKeepsCoarse`). A reading in which both halves
  are jittered does not match the code; the model follows the code.
- Line 34 uses the raw density as the attenuation per sample; the depths and
  ray directions passed to `volume_rendering` are not used, so
  `Compositing.VolumeRendering` does not take them.

Over exact reals the guard `1e-10` makes the factor of a fully clear sample
`1 + 1e-10`, so transmittance grows slightly past such a sample
(`Compositing.ClearSampleRaisesTransmittance`); in 32-bit floats that factor
rounds to 1. Transmittance is proved non-increasing past every sample whose
opacity is at least `1e-10`.

## Model

| member | source | states |
|---|---|---|
| `Sorting.Insert` | extra/coarse_fine_sampling.py:62 | inserting into a sorted sequence gives a sorted sequence one longer, holding the old values plus the new one |
| `Sorting.Sort` | extra/coarse_fine_sampling.py:62 | the sort yields an ascending permutation of its input, of the same length |
| `Sorting.SortedPermutationUnique` | extra/coarse_fine_sampling.py:62 | two ascending sequences with the same values are equal, so any correct sort (torch's included) gives the same values as `Sort` |
| `Sorting.SortKeeps` | extra/coarse_fine_sampling.py:62 | every input value appears in the sorted result |
| `Sorting.SortDrawsFrom` | extra/coarse_fine_sampling.py:62 | every value of the sorted result comes from the input |
| `Sampling.Linspace` | extra/coarse_fine_sampling.py:52 | `linspace(start, end, n)` has exactly n entries |
| `Sampling.LinspaceGrid` | extra/coarse_fine_sampling.py:52 | n entries, first is start, last is end, consecutive entries differ by (end - start)/(n - 1), ascending and within [start, end] when start <= end |
| `Sampling.CoarseDepths` | extra/coarse_fine_sampling.py:52 | one row per ray, and every ray gets the identical row |
| `Sampling.CoarseGridShape` | extra/coarse_fine_sampling.py:52 | each coarse row has N ascending depths in [0, 1], from 0 to 1, spaced 1/(N - 1) apart |
| `Sampling.PointAt` | extra/coarse_fine_sampling.py:53 | the point of a ray at depth t is `origin + t * direction`; at depth 0 it is the origin |
| `Sampling.SamplePoints` | extra/coarse_fine_sampling.py:53 | the broadcast gives one point per (ray, depth), in the depth array's shape, each equal to the ray's point at that depth |
| `Sampling.PointsAlongRay` | extra/coarse_fine_sampling.py:53 | depth 0 is the origin, and going from depth t1 to t2 moves by (t2 - t1) directions |
| `Sampling.Jittered` | extra/coarse_fine_sampling.py:62 | the jittered copy has one depth per coarse depth |
| `Sampling.JitterBounds` | extra/coarse_fine_sampling.py:62 | with u in [0, 1), each jittered depth is at least its source depth and less than it plus 0.1 |
| `Sampling.FineRow` | extra/coarse_fine_sampling.py:62 | a ray's fine depths are ascending, number 2N, and are a permutation of the coarse depths plus their jittered copy |
| `Sampling.FineDepths` | extra/coarse_fine_sampling.py:62 | over the batch: one fine row per ray, each ascending, twice as long as its coarse row, a permutation of coarse plus jittered depths |
| `Sampling.FineKeepsCoarse` | extra/coarse_fine_sampling.py:62 | every unjittered coarse depth, and every jittered copy, is in the fine row |
| `Sampling.FineDepthRange` | extra/coarse_fine_sampling.py:62 | with coarse depths in [0, 1] and jitter in [0, 1), every fine depth lies in [0, 1.1) |
| `Sampling.FineGridOverCoarse` | extra/coarse_fine_sampling.py:52-62 | on the line-52 grid each fine row has 2N depths, all in [0, 1.1), and contains every coarse depth |
| `Compositing.Alpha` | extra/coarse_fine_sampling.py:34 | `1 - exp(-density)` for one sample; under `ExpLaw` it is always below 1 and is non-negative exactly when the density is |
| `Compositing.AlphaRange` | extra/coarse_fine_sampling.py:34 | for density d >= 0 alpha lies in [0, 1); alpha is 0 exactly when d is 0; negative density gives negative alpha |
| `Compositing.AlphaLowerBound` | extra/coarse_fine_sampling.py:34 | alpha >= d / (1 + d), so alpha tends to 1 as density grows (at d = 50, alpha >= 50/51) |
| `Compositing.Alphas` | extra/coarse_fine_sampling.py:34 | one opacity per sample |
| `Compositing.Factors` | extra/coarse_fine_sampling.py:35 | one factor `1 - alpha + 1e-10` per sample |
| `Compositing.CumProdFrom` | extra/coarse_fine_sampling.py:35 | the running-product scan has one entry per input |
| `Compositing.CumProd` | extra/coarse_fine_sampling.py:35 | `cumprod` has one entry per input |
| `Compositing.CumProdFromAt` | extra/coarse_fine_sampling.py:35 | entry i of the scan from `acc` is `acc` times the product of the first i + 1 inputs |
| `Compositing.CumProdIsPrefixProduct` | extra/coarse_fine_sampling.py:35 | entry i of `cumprod` equals the reference product of the first i + 1 inputs |
| `Compositing.CumProdFromStep` | extra/coarse_fine_sampling.py:35 | each scan entry is the previous entry times the next input |
| `Compositing.FullTransmittance` | extra/coarse_fine_sampling.py:35 | the product row over the leading 1 and the N factors has N + 1 entries |
| `Compositing.Residual` | extra/coarse_fine_sampling.py:35 | the entry `[:, :-1]` drops: 1 for an empty ray, otherwise the last transmittance times the last sample's factor |
| `Compositing.FullTransmittanceStart` | extra/coarse_fine_sampling.py:35 | the product row starts at 1, from the prepended ones column |
| `Compositing.FullTransmittanceStep` | extra/coarse_fine_sampling.py:35 | entry i + 1 of the product row is entry i times `1 - alpha_i + 1e-10` |
| `Compositing.Transmittance` | extra/coarse_fine_sampling.py:35 | after dropping the last entry, transmittance has exactly as many entries as alpha |
| `Compositing.TransmittanceIsPrefix` | extra/coarse_fine_sampling.py:35 | transmittance agrees with the product row on its first N entries |
| `Compositing.TransmittanceAsProduct` | extra/coarse_fine_sampling.py:35 | T_i is the product of the factors of the samples before i |
| `Compositing.TransmittanceStep` | extra/coarse_fine_sampling.py:35 | T_(i+1) = T_i * (1 - alpha_i + 1e-10) |
| `Compositing.TransmittanceLaw` | extra/coarse_fine_sampling.py:35 | T_0 = 1; each later entry multiplies in the preceding sample's factor; the dropped entry continues the same law; T_i is the product of the earlier factors |
| `Compositing.TransmittancePositive` | extra/coarse_fine_sampling.py:35 | while every alpha is at most 1, every T_i and the dropped residual are strictly positive |
| `Compositing.TransmittanceNonIncreasing` | extra/coarse_fine_sampling.py:35 | with every alpha at most 1, T does not grow past a sample whose alpha is at least 1e-10 |
| `Compositing.ClearSampleRaisesTransmittance` | extra/coarse_fine_sampling.py:35 | over exact reals, two clear samples give T = [1, 1 + 1e-10], so T can grow |
| `Compositing.ExpLawSatisfiable` | extra/coarse_fine_sampling.py:34 | the rational function 1 + x (x >= 0), 1 / (1 - x) (x < 0) obeys every law assumed of `exp`, so lemmas assuming `ExpLaw` are not vacuous |
| `Compositing.Weights` | extra/coarse_fine_sampling.py:35 | one weight per sample |
| `Compositing.WeightAt` | extra/coarse_fine_sampling.py:35 | weight i is alpha_i times T_i |
| `Compositing.FirstWeight` | extra/coarse_fine_sampling.py:35 | the first weight equals the first alpha |
| `Compositing.WeightsNonNegative` | extra/coarse_fine_sampling.py:34-35 | with non-negative densities every weight lies in [0, T_i) |
| `Compositing.WeightCanExceedOne` | extra/coarse_fine_sampling.py:34-35 | over exact reals, densities 0 and 1e11 - 1 under an `ExpLaw` exponential give a second weight above 1 |
| `Compositing.WeightsTelescopePrefix` | extra/coarse_fine_sampling.py:35 | for every prefix k, the weights so far plus the product-row entry k equal 1 + 1e-10 times the transmittance so far |
| `Compositing.WeightsTelescope` | extra/coarse_fine_sampling.py:35 | sum of weights + residual transmittance = 1 + 1e-10 * sum of transmittance: the weights need not sum to 1, and what is missing is the light left after the last sample |
| `Compositing.WeightedSum` | extra/coarse_fine_sampling.py:36 | the `torch.sum` over samples of weight times colour: an empty ray or all-zero weights give colour (0, 0, 0) |
| `Compositing.WeightedSumBound` | extra/coarse_fine_sampling.py:36 | non-negative weights over colours in [0, 1] give components in [0, sum of weights] |
| `Compositing.Colours` | extra/coarse_fine_sampling.py:36 | one colour per sample |
| `Compositing.RgbMap` | extra/coarse_fine_sampling.py:34-36 | one ray's composite, the weighted sum of its colours by `alpha * T`; a ray with no samples gives (0, 0, 0) |
| `Compositing.VolumeRendering` | extra/coarse_fine_sampling.py:32-37 | one 3-vector per ray, each ray composited on its own samples only |
| `Compositing.ZeroDensityIsBlack` | extra/coarse_fine_sampling.py:34-36 | if every density on a ray is 0, every weight is 0 and the colour is (0, 0, 0) |
| `Compositing.RayColourBound` | extra/coarse_fine_sampling.py:34-36 | with non-negative densities and colours in [0, 1], each colour component lies in [0, sum of weights], and that sum is below 1 + 1e-10 * sum of transmittance |
| `Compositing.SingleSample` | extra/coarse_fine_sampling.py:34-36 | a one-sample ray composites to that sample's colour scaled by its alpha |
| `Compositing.UniformMediumWeightsDecrease` | extra/coarse_fine_sampling.py:34-35 | if every density on a ray equals some d >= 2e-10, the weights strictly decrease along the ray |
| `Pipeline.Evaluate` | extra/coarse_fine_sampling.py:56 | one row per ray and one raw sample per point, each the field's value at that point |
| `Pipeline.RayRaw` | extra/coarse_fine_sampling.py:56 | the field's samples along one ray, one per depth |
| `Pipeline.EvaluateAlongRays` | extra/coarse_fine_sampling.py:53-56 | evaluating the batched points gives, for each ray, the field at that ray's points `origin + t * direction` |
| `Pipeline.Render` | extra/coarse_fine_sampling.py:52-67 | one coarse and one fine colour per ray, each the composite of the coarse or fine network's samples at that ray's points; coarse rows are `linspace(0, 1, N)`; fine rows are ascending, 2N long, a permutation of the coarse row plus its jittered copy |
| `Pipeline.SameRaySameCoarseColour` | extra/coarse_fine_sampling.py:52-57 | two rays with the same origin and direction get the same coarse colour, whatever the jitter |
| `Pipeline.RenderFineGrid` | extra/coarse_fine_sampling.py:52-63 | with jitter in [0, 1), every fine depth of the render lies in [0, 1.1) and every coarse depth is among the fine depths |

## Left out

- `CoarseNetwork` and `FineNetwork` (extra/coarse_fine_sampling.py:7-29) are library layer stacks; the model takes them as abstract functions from a point to (colour, density).
- The optimiser, the loss, the backward pass and the module-level random example data (extra/coarse_fine_sampling.py:41-49, 69-77) are gradient training and global state, not rendering.
- The importance `weights` of extra/coarse_fine_sampling.py:61 are never used by the resampler, so they are not modelled and no inverse-CDF sampling is added.
- The `z_vals` and `rays_d` parameters of `volume_rendering` are unused by its body, so `Compositing.VolumeRendering` has no such parameters and alpha is not scaled by segment length.
- IEEE float behaviour of `exp`, of the `1e-10` guard and of `torch.rand` is not modelled: the model is over exact reals, `exp` is a parameter constrained by `ExpLaw`, and the jitter is an injected sequence whose range [0, 1) is assumed only by the lemmas that need it.
- The `.view(-1, 3)` / `.view(1024, 64, 4)` reshapes around the network calls are modelled as applying the field point by point in the (ray, sample) layout; the fixed sizes 1024 rays and 64 samples are parameters.
- `Compositing.WeightsNonNegative`: bounds each weight only by the transmittance reaching it, not by 1, because over exact reals a weight can exceed 1 (see `Compositing.WeightCanExceedOne`); in 32-bit floats `1 + 1e-10` rounds to 1 and weights stay within [0, 1].
- `Compositing.TransmittanceNonIncreasing`: proved only past samples with alpha >= 1e-10, because over exact reals a sample with smaller alpha raises transmittance (see `Compositing.ClearSampleRaisesTransmittance`).
- `reconstruct/ct_reconstruct.py` is not part of this model: it enumerates GPUs, loads `.npz` data, calls the external TIGRE `algs.fdk` solver and saves the result, with no logic of its own.
