# A verified model of the Path-Tracer renderer core

This project models the core of a small spectral path tracer written in Rust. The
`Renderer` keeps a flat buffer of light sums, one per pixel and spectral channel,
and a sweep counter.

- `render` sweeps every pixel and channel. For each one it shoots a jittered camera
  ray, follows one random walk through a scene of spheres with `trace`, and adds the
  light the walk returns to the pixel's slot.
- `trace` calls `intersect` (sphere tracing along the ray) once per bounce. At each
  hit it decides between reflection and absorption, and it pushes one segment
  `(a, b, c)` per hit. It then folds the path from the last hit back to the first
  with `light = (light * a + b) * c`.
- `rgb` scans for the brightest sum, tone-maps three channels per pixel and packs
  them into a `u32` word.

The materials come from three small parts, each of which checks its per-channel
arrays when it is built:

- a reflect-or-absorb ratio function (`Rtrf`);
- a reflection distribution (`Rdf`), which draws diffuse directions by rejection
  sampling;
- a `Material` that also carries an emission per channel.

Modules:

- `Common`: `Option`, `Result`, the construction error, 3-vectors, and the
  per-channel range check that the constructors share.
- `Rtrf`, `Rdf`, `Material`: the validated constructors, the lookups, the rejection
  loop and the hemisphere flip.
- `Scene`: the configuration and object records, the floating-point kernels, and the
  random draws. The kernels (`sdf`, `normal`, `powf`, and `normalize`, which is the
  division by the square root at `Code/src/rdf.rs:91`) and the camera are
  function-valued parameters. The random draws are an oracle indexed by where
  each draw happens.
- `Path`: segments and the backward fold.
- `Tone`: the brightest-sum scan, the saturating `as u32` cast and the packing, and the fact that scaling every sum by the same positive factor leaves the output unchanged.
- `Renderer`: a class holding the `image` array and the `iteration` counter. Its
  methods `Render`, `Trace`, `Intersect` and `Rgb` are proved against
  specification functions: `AccumulatedAt`, `Radiance`, `March` and `Pixel`.

## Model

| member | source | states |
|---|---|---|
| Common.FirstFailing | Code/src/rtrf.rs:35-41 | the scan finds nothing iff every value passes; otherwise it names a failing index, and every value before it passes |
| Common.Checked | Code/src/rtrf.rs:35-47 | the per-channel check succeeds iff every value passes; a failure names the first value that does not, and every earlier value passes |
| Rtrf.Constant.Ratio | Code/src/rtrf.rs:50-53 | the lookup returns the stored entry, which lies in [0, 1] for a validated ratio array |
| Rtrf.NewConstant | Code/src/rtrf.rs:33-47 | construction fails iff some ratio lies outside [0, 1], at the first such channel; on success the array is stored unchanged and is valid |
| Rtrf.Rtrf.Ratio | Code/src/rtrf.rs:12-18 | the enum forwards to the `Constant` lookup unchanged |
| Rtrf.NewConstantRatio | Code/src/rtrf.rs:33-53 | reading a channel back from a built `Constant` gives the value passed in, and it is a probability |
| Rdf.Candidate | Code/src/rdf.rs:80-82 | each uniform draw in [0, 1) becomes a coordinate in [-1, 1) |
| Rdf.FirstAccepted | Code/src/rdf.rs:78-89 | the rejection loop returns at the first round whose candidate is non-zero and inside the unit ball; every earlier round is rejected |
| Rdf.Hemisphere | Code/src/rdf.rs:93-100 | the flip returns `v` when `v·normal > 0` and `-v` otherwise, a zero dot included, and the result never points away from the normal |
| Rdf.Diffuse.Random | Code/src/rdf.rs:76-104 | the drawn direction lies on the normal's side |
| Rdf.Diffuse.RandomUnit | Code/src/rdf.rs:88-99 | the returned direction has unit length whenever dividing an accepted candidate by the square root of its squared length does |
| Rdf.Diffuse.RandomAccepted | Code/src/rdf.rs:78-100 | the direction is the normalized first accepted candidate, or its negation |
| Rdf.Diffuse.Pdf | Code/src/rdf.rs:107-110 | the density is `1/(2π)` for every pair of directions |
| Rdf.Diffuse.Reflection | Code/src/rdf.rs:113-116 | the lookup returns the stored entry, which lies in [0, 1] for a validated array |
| Rdf.NewDiffuse | Code/src/rdf.rs:59-73 | construction fails iff some reflectance lies outside [0, 1], at the first such channel; on success the array is stored unchanged and is valid |
| Rdf.Rdf.Random | Code/src/rdf.rs:17-24 | the enum forwards to `Diffuse::random`, and the result is on the normal's side; the `None` variant is excluded |
| Rdf.Rdf.Pdf | Code/src/rdf.rs:27-34 | the enum forwards to `Diffuse::pdf` and ignores `normal` |
| Rdf.Rdf.Reflection | Code/src/rdf.rs:37-44 | the enum forwards to the `Diffuse` lookup, and the result is in [0, 1] when valid |
| Material.NewMaterial | Code/src/material.rs:19-54 | construction fails iff some emission is negative, at the first such channel; there is no upper bound; on success all four arguments are stored unchanged |
| Material.NewMaterialValid | Code/src/material.rs:21-53 | validated parts with non-negative emission always build a valid material, including emissions above 1 |
| Path.Fold | Code/src/renderer.rs:203-210 | the empty path gives 0, and a one-segment path gives `b * c` |
| Path.FoldAppend | Code/src/renderer.rs:203-210 | folding `p + q` is folding `p` from the light of `q` instead of 0 |
| Path.FoldNonNegative | Code/src/renderer.rs:203-210 | non-negative segments give non-negative light |
| Path.FoldBounded | Code/src/renderer.rs:203-210 | with `a` and `c` in [0, 1] and every emission at most `e`, `n` segments give at most `n * e` |
| Tone.Peak | Code/src/renderer.rs:83-91 | the scanned maximum is at least 0, at least every entry, and either 0 or one of the entries |
| Tone.CastU32 | Code/src/renderer.rs:97-99 | `as u32` truncates toward zero inside [0, 2^32), gives 0 below it and `2^32 - 1` at or above it |
| Tone.Channel | Code/src/renderer.rs:97-99 | a tone-mapped channel is a u32, and a byte whenever the tone curve stays in [0, 1] |
| Tone.Pack | Code/src/renderer.rs:101 | the packed word is always a u32, whatever the three channels |
| Tone.PackRoundTrip | Code/src/renderer.rs:101 | three bytes packed as `(r << 16) + (g << 8) + b` read back as `r`, `g` and `b` |
| Tone.Pixel | Code/src/renderer.rs:95-101 | a packed pixel is a u32 |
| Tone.PixelDecodes | Code/src/renderer.rs:93-101 | for a non-negative buffer with a positive maximum, each channel of a pixel is a byte, and the word decodes to the three tone-mapped channels |
| Tone.PeakMapped | Code/src/renderer.rs:83-91 | the brightest-sum scan commutes with every strictly increasing map that fixes 0 |
| Tone.PeakScale | Code/src/renderer.rs:83-91 | multiplying every sum by `k > 0` multiplies the brightest sum by `k` |
| Tone.ChannelScale | Code/src/renderer.rs:97-99 | a channel is unchanged when its sum and the maximum are multiplied by the same `k > 0` |
| Tone.PixelScale | Code/src/renderer.rs:83-101 | multiplying every accumulated sum by the same `k > 0` leaves every packed pixel unchanged |
| Renderer.Clamp | Code/src/renderer.rs:182-183 | the clamped cosine lies in [0, 1]: it is unchanged inside the range, 0 below it and 1 above it |
| Renderer.Spacing | Code/src/renderer.rs:39-40 | the spacing is positive, and `n - 1` spacings cover exactly [0, 1] |
| Renderer.Jitter | Code/src/renderer.rs:44-45 | for a draw in [0, 1), the noise lies in [-spacing/2, spacing/2) |
| Renderer.Coordinate | Code/src/renderer.rs:44-57 | for a draw in [0, 1), the coordinate `scaled + noise` of pixel `i` lies within half a spacing of its grid point `i * spacing` |
| Renderer.LastOr | Code/src/renderer.rs:198 | `unwrap_or` on the last element of the list returns the default exactly when the list is empty |
| Renderer.Progress | Code/src/renderer.rs:237-250 | a round that does not return moves `t` by at least the accuracy within `ray_max`, so `(ray_max - t) / ray_accuracy` decreases by at least one from a non-negative value |
| Renderer.Renderer.constructor | Code/src/renderer.rs:22-34 | the buffer has `width * height * channels` zeros, the counter is 0 and the parts are stored |
| Renderer.Renderer.Iteration | Code/src/renderer.rs:71-74 | returns the sweep counter |
| Renderer.Renderer.IndexBound | Code/src/renderer.rs:47-60 | every slot `((y * width) + x) * channels + channel` that `render` writes lies in the buffer |
| Renderer.Renderer.IndexCell | Code/src/renderer.rs:60 | a slot decodes back to its pixel and channel, so distinct cells never share a slot |
| Renderer.Renderer.CellIndex | Code/src/renderer.rs:60 | every slot of the buffer belongs to exactly one in-range pixel and channel |
| Renderer.Renderer.Eligible | Code/src/renderer.rs:231 | an object farther than the accuracy is always a candidate; a nearer one is a candidate iff the ray, moved on by its distance, heads into its surface |
| Renderer.Renderer.Scan | Code/src/renderer.rs:220-236 | the scan finds no object iff none is eligible; otherwise it keeps the nearest eligible object and, through the loop's strict `sdf < min_t` test, the earliest among equally near ones, at a valid index |
| Renderer.Renderer.Round | Code/src/renderer.rs:221-250 | a round that goes on moves `t` by at least the accuracy without passing `ray_max`; a round that hits names an eligible object of the scene |
| Renderer.Renderer.RoundCases | Code/src/renderer.rs:237-250 | a round returns the sentinel iff nothing is eligible or `t + min_t > ray_max`; it advances by at least the accuracy without passing `ray_max`; a hit is on the scanned object at `t + 1.5 * min_t` |
| Renderer.Renderer.March | Code/src/renderer.rs:215-252 | a returned hit has a valid scene index and lies less than half the accuracy beyond `ray_max`; an empty scene never yields a hit |
| Renderer.Renderer.ScanScene | Code/src/renderer.rs:220-236 | the inner loop computes `Scan` over the whole scene |
| Renderer.Renderer.Intersect | Code/src/renderer.rs:215-252 | the loop terminates and returns what `March` from 0 returns |
| Renderer.Renderer.Step | Code/src/renderer.rs:173-199 | reflects iff the ratio exceeds the draw; `a` is the reflectance weighted by a cosine in [0, 1]; `b` is the emission; `c` uses `config.attenuation[channel]` over the distance; an absorbed photon keeps position and direction, and `dot` stays 1 |
| Renderer.Renderer.StepReflects | Code/src/renderer.rs:175-186 | a reflected photon moves to the hit point and leaves on the normal's side; the normal is taken at the previous position, and `dot` is the clamped cosine |
| Renderer.Renderer.PathFrom | Code/src/renderer.rs:164-200 | the walk pushes at most `path_length` segments |
| Renderer.Renderer.PathUnfold | Code/src/renderer.rs:166-200 | a hit before `path_length` pushes exactly its bounce's segment and continues from where the bounce leaves the photon |
| Renderer.Renderer.PathEnds | Code/src/renderer.rs:164-171 | the walk pushes nothing iff it has reached `path_length` or the ray misses |
| Renderer.Renderer.Reduce | Code/src/renderer.rs:201-210 | the reversed loop seeded with 0 computes the fold |
| Renderer.Renderer.Walk | Code/src/renderer.rs:159-200 | the path-building loop returns exactly the walk's path |
| Renderer.Renderer.Trace | Code/src/renderer.rs:158-211 | `trace` returns the fold of the walk's path |
| Renderer.Renderer.Radiance | Code/src/renderer.rs:158-211 | with `path_length` 0, or a ray that meets nothing, `trace` returns no light |
| Renderer.Renderer.StepWeight | Code/src/renderer.rs:193-199 | with a valid material, an attenuation in [0, 1] and a non-negative `powf`, a segment is non-negative and its `a` is at most the reflectance |
| Renderer.Renderer.PathNonNegative | Code/src/renderer.rs:164-200 | under those conditions every segment of the walk is non-negative |
| Renderer.Renderer.RadianceNonNegative | Code/src/renderer.rs:158-211 | under those conditions `trace` never returns negative light |
| Renderer.Renderer.AbsorbedRepeats | Code/src/renderer.rs:188-200 | a photon that keeps being absorbed re-hits the same surface, and its path is one segment repeated up to `path_length` |
| Renderer.Renderer.AccumulatedCell | Code/src/renderer.rs:60 | the sum kept for a slot is the sum of its own pixel and channel |
| Renderer.Renderer.AccumulatedStep | Code/src/renderer.rs:55-60 | one more sweep adds exactly that sweep's sample to a slot |
| Renderer.Renderer.AccumulatedSplit | Code/src/renderer.rs:42-66 | `render(a)` then `render(b)` adds what `render(a + b)` adds, because sweeps are numbered by the counter |
| Renderer.Renderer.AccumulatedNonNegative | Code/src/renderer.rs:42-66 | when every sample is non-negative, the accumulated sum is non-negative, so no cell decreases |
| Renderer.Renderer.Settled | Code/src/renderer.rs:42-63 | after the sweeps, each slot holds its starting value plus exactly its own pixel and channel's samples |
| Renderer.Renderer.SampleMisses | Code/src/renderer.rs:55-60 | a pixel whose camera ray meets no object gathers no light in that sweep |
| Renderer.Renderer.JitteredRay | Code/src/renderer.rs:39-57 | with both jitter draws in [0, 1), the ray of a pixel is the camera's ray through a point within half a spacing of the pixel's grid point in both directions |
| Renderer.Renderer.Render | Code/src/renderer.rs:37-68 | the buffer keeps its size; the counter grows by `iterations`; every cell gains exactly the samples of sweeps `iteration .. iteration + iterations` and changes in no other way |
| Renderer.Renderer.Sweep | Code/src/renderer.rs:42-63 | one sweep adds one sample to every slot |
| Renderer.Renderer.RenderPixel | Code/src/renderer.rs:51-61 | the channel loop adds one sample to each channel of one pixel, and only there |
| Renderer.Renderer.AddSample | Code/src/renderer.rs:57-60 | one pass adds the traced light of the pixel's ray to exactly one slot, `((y * width) + x) * channels + channel`, and moves the frontier past it |
| Renderer.Renderer.RgbOffset | Code/src/renderer.rs:93-99 | with three or more channels, the reads at `i * 3 .. i * 3 + 2` are in bounds |
| Renderer.Renderer.RgbOverruns | Code/src/renderer.rs:93-99 | with fewer than three channels, the last pixel's reads run past the buffer |
| Renderer.Renderer.Brightest | Code/src/renderer.rs:83-91 | the scan returns the brightest sum, or 0 |
| Renderer.Renderer.Rgb | Code/src/renderer.rs:78-105 | one word per pixel, each the packed tone-mapped channels at offsets `3i`, `3i + 1` and `3i + 2`, relative to the brightest sum |

## Left out

- Floating point: every `f64` is a real, with no rounding, NaN or infinity. The `f64::INFINITY` sentinels of `intersect` become `None`.
- The geometry kernels of `Code/src/shape.rs` and the ray construction of `Code/src/camera.rs` are parameters, not models: `sdf`, `normal` by finite differences, and `camera.ray` with `tan` and cross products. `powf` is also a parameter. glam's vector arithmetic is exact real arithmetic.
- Rdf.Diffuse.Random: the division by `r2.sqrt()` at `Code/src/rdf.rs:91` is the parameter `normalize`, because square roots are not modelled. The unit length of the result is therefore stated conditionally, in `RandomUnit`: it holds whenever `normalize` gives accepted candidates unit length.
- Randomness: `rand::random` becomes an oracle of draws.
  - The jitter pair is indexed by the sweep number, which is the global iteration counter.
  - The reflect draw and the rejection-loop candidates are indexed by sweep, pixel, channel and bounce.
- The rejection loop of `Diffuse::random` only ends with probability 1. The model requires the candidates to contain an accepted one (`Draws.Valid`), instead of proving termination.
- `Renderer::save` and its EXR encoding, and all of `Code/src/main.rs`, are I/O and a driver loop.
- `Code/src/config.rs` and `Code/src/object.rs` appear only as records. The transmission distribution's file is not part of this model, so `Tdf` is a datatype with the single value `None`.
- Machine integers: `usize` is unbounded, so a wrap of the counter or of the slot arithmetic is not modelled. The `u32` packing wraps as a release build does. The overflow panic of a debug build is not modelled.
- Renderer.Renderer.Render: requires `width` and `height` of at least 2. With 1, `1 / (width - 1)` divides by zero and the spacing is infinite. With 0, `width - 1` underflows `usize`: a debug build panics and a release build wraps.
- Renderer.Renderer.Render: also requires `channels <= N`. This is stronger than the source's panic condition. `trace` indexes the per-channel arrays (`ratio`, `reflection`, `emission` and `config.attenuation`) only after a hit, so a render in which no ray hits anything never panics, whatever the channel count. That every per-channel array has N entries is the type `[f64; N]`, not a requirement.
- Renderer.Renderer.Trace: requires a reflection distribution other than `None` on every object. This is stronger than the source's panic condition: `Rdf::None` panics only when `trace` hits an object that carries it, at the `reflection` call every hit makes. A walk that never hits such an object does not panic.
- Renderer.Renderer.Trace: also requires a positive `ray_accuracy`, without which `intersect` need not terminate.
- Renderer.Renderer.Rgb: requires a positive brightest sum. With `max = 0` the source divides by zero and casts the NaN or infinite result to `u32` without a panic; the model does not describe that output. The requirement also excludes the empty image, for which the source returns an empty buffer.
- Renderer.Renderer.Rgb: also requires three or more channels. With fewer, `RgbOverruns` shows that the last pixel's reads run past the buffer, so the source panics whenever the image has a pixel.
- `render` hoists the jitter, the row offset and the column offset out of the inner loops, and it calls `camera.ray` once per channel. The model computes the same ray once per pixel with `SampleRay`. This is the same value, because the camera is a function of its two arguments.
- `Render`, `Trace` and `Intersect` keep their loops. Their inner loops are split into their own methods (`Sweep`, `RenderPixel`, `AddSample`, `Walk`, `Reduce`, `ScanScene`), each proved against the same specification functions.
- Two behaviours of the code are modelled as written:
  - An absorbed photon keeps its position and direction (`Code/src/renderer.rs:188-191`). The walk therefore meets the same surface again at the next bounce, and at every remaining bounce while it keeps being absorbed. `AbsorbedRepeats` states this. A walk that stopped at its first absorption would return that emission once; the code does not stop.
  - The normal is sampled at the walk's previous position, not at the hit point (`Code/src/renderer.rs:180`).
- `rgb` reads pixel `i` at `i * 3` whatever the channel count, so with more than three channels it does not read pixel `i`'s own slots. The model reads the same offsets.
