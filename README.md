# Massively parallel geometric intelligence: the simulation engine

The program is a browser demo, written in JavaScript and React, in which several thousand
small agents ("scouts", each a *minimodel* like a V1 neuron) swim over a 256 x 256 "psi
field" driven by a webcam. This project models the engine behind the demo:

- **PsiField** is the shared retina: parallel flat buffers (`current`, `previous`,
  `edgeMap`, `motionMap`, `colorMap`, `textureMap`, `attractorField`) indexed by
  `y * 256 + x`, plus a history of at most five frames. `updateFromImage` turns an RGBA
  raster into luminance. `computeFeatureMaps` applies 3x3 stencils to the interior cells:
  a Sobel edge, motion, a colour copy and a texture measure. `updateAttractorField`
  scatter-adds the scouts' activation, and `smoothField` box-blurs the result.
- **Scout** is one agent of one of twelve types. `update` reads the stimulus of its type,
  keeps moving averages of activation and energy, and follows the gradient of its channel
  and the attractor field once its activation exceeds its threshold. It also adds
  exploration noise, damps its velocity and clamps its position to [5, 251].
- The population set-up creates floor(8000 / 12) = 666 scouts of each type, and
  `resetSystem` redraws every scout's position and energy.

The model has four modules:

- `Grid` holds the geometry and the 3x3 window sums.
- `Features` holds the field as values. It defines the feature maps, the luminance, the
  bounded history and the blur as functions, with their properties.
- `Minimodel` holds the scout as a value. It defines one update `Step`, creation and reset
  from random draws, the attractor density and the population layout.
- `Engine` holds the classes `PsiField` and `Scout`, whose methods update arrays and fields
  in place. Each of those methods is proved to compute the corresponding function of
  `Features` or `Minimodel`.

Four behaviours of the code are easy to misread:

- The texture is the sum of squared differences from the *centre* value of the 3x3
  window, divided by 9 (src/App.py:110-122). The mean of the window plays no part.
- With `MAX_SCOUTS = 8000` (src/App.py:5) the set-up creates floor(8000 / 12) = 666 scouts
  of each type, so floor(8000 / 12) x 12 = 7992 scouts in all (src/App.py:380-386).
- A scout whose floored position is off the grid changes only its `age`: `update` returns
  before the stimulus, the forces and the noise (src/App.py:185-189).
- `resetSystem` touches only the scouts, so the field buffers keep their contents. Reset
  positions are drawn over [0, 256) and stay unclamped until the scout's next update
  (src/App.py:526-535).

## Model

| member | source | states |
|---|---|---|
| Grid.Index | src/App.py:84 | the flat index y * 256 + x of a grid cell is in range, and `% 256` and `/ 256` recover x and y |
| Features.Luminance | src/App.py:65-68 | the weighted luminance of a pixel lies in [0, 1]; a grey pixel gives its channel value / 255 |
| Features.Frame | src/App.py:64-69 | the converted raster has one value per cell, all in [0, 1] |
| Features.SobelMagnitudeSq | src/App.py:87-98 | gx * gx + gy * gy is never negative and is 0 when the 3x3 neighbourhood is uniform |
| Features.TextureCell | src/App.py:110-122 | the texture of an interior cell is never negative |
| Features.FeatureMaps | src/App.py:80-125 | the recomputed field is well formed; current, previous and the attractor field are untouched, and with fewer than two frames of history the motion channel is too |
| Features.Ingest | src/App.py:59-78 | after ingesting, current is the raster's luminance frame, previous is the old current, and the attractor field is untouched |
| Features.Smoothed | src/App.py:145-163 | the blur has one value per cell and every border cell is 0, since the zeroed temp buffer is never written there |
| Features.LastN | src/App.py:72-75 | keeping the last m frames gives min(length, m) entries, which are a suffix of the pushed sequence |
| Features.BorderUnchanged | src/App.py:82-83 | the feature pass leaves every border cell of the edge, motion, colour and texture channels unchanged |
| Features.InteriorCell | src/App.py:84-122 | each interior cell receives the Sobel edge, \|current - previous\| when the history holds two frames (else it is left alone), the luminance itself, and the texture |
| Features.MotionNeedsTwoFrames | src/App.py:101-104 | with fewer than two frames in the history the motion channel is untouched; otherwise every interior cell holds \|current - previous\| |
| Features.RepeatedFrameHasNoMotion | src/App.py:59-104 | ingesting the same raster twice, with any history length h1 and then h2 >= 2 (1 then 2 on a fresh field), gives zero motion on every interior cell and leaves the border motion as it was |
| Features.UniformNeighbourhoodIsFlat | src/App.py:87-122 | a uniform 3x3 neighbourhood has zero texture and zero Sobel magnitude |
| Features.TextureOfUnitValues | src/App.py:110-122 | luminance values in [0, 1] give a texture in [0, 1] |
| Features.FeatureMapsKeepRange | src/App.py:80-125 | with a non-negative square root, recomputing the maps keeps motion, colour and texture in [0, 1] and edges non-negative |
| Features.IngestKeepsRange | src/App.py:59-78 | ingesting a raster keeps every channel in range |
| Features.PushKeepsLatest | src/App.py:72-75 | pushing onto the last-m window and trimming again is the same as trimming the whole push sequence: the oldest frame goes first |
| Features.HistoryAfter | src/App.py:72-75 | the push-then-shift history never holds more than five frames |
| Features.HistoryIsLatestFrames | src/App.py:72-75 | the history after any series of frames is exactly the last five of them, oldest first |
| Features.SmoothedBetween | src/App.py:145-163 | blurring a field with values in [lo, hi], where lo <= 0 <= hi, keeps every cell in [lo, hi] |
| Features.SmoothedConstant | src/App.py:145-163 | blurring a constant field c gives c on the interior and 0 on the border, since temp starts zeroed |
| Minimodel.Tag | src/App.py:9-22 | every type has a numeric tag in 0..11 from which TypeAt recovers it |
| Minimodel.TagOfTypeAt | src/App.py:9-22 | TypeAt and Tag are inverse on 0..11 |
| Minimodel.Clamp | src/App.py:257-258 | the clamped coordinate lies in [5, 251] and is unchanged when already there |
| Minimodel.VerticalEdge | src/App.py:264-268 | the stimulus is non-negative, 0 in the first and last column, and at most 1 on luminance in [0, 1] |
| Minimodel.HorizontalEdge | src/App.py:270-274 | the stimulus is non-negative, 0 in the first and last row, and at most 1 on luminance in [0, 1] |
| Minimodel.DiagonalEdge1 | src/App.py:276-280 | the stimulus is non-negative, 0 on every border cell, and at most 1 on luminance in [0, 1] |
| Minimodel.DiagonalEdge2 | src/App.py:282-286 | the stimulus is non-negative, 0 on every border cell, and at most 1 on luminance in [0, 1] |
| Minimodel.Gradient | src/App.py:288-325 | the x component is 0 in the first and last column and the y component is 0 in the first and last row |
| Minimodel.ClusterForce | src/App.py:327-340 | the force is (0, 0) unless the floored position is strictly inside the field |
| Minimodel.Step | src/App.py:184-262 | type, sensitivity and threshold are kept and age goes up by one; off the grid nothing else changes; on the grid the new position lies in [5, 251] |
| Minimodel.StepRecurrences | src/App.py:231-261 | activation' = 0.9 activation + 0.1 sensitivity stimulus, v' = 0.8 v + 0.1 (force + noise), position = clamp(position + v'), energy' = 0.99 energy + 0.01 activation' |
| Minimodel.BelowThresholdOnlyNoise | src/App.py:234-251 | at or below the threshold the velocity changes only through damping and noise |
| Minimodel.AboveThresholdFollowsGradient | src/App.py:234-251 | above the threshold the force is gradient x activation x 5 plus the cluster force, plus noise |
| Minimodel.Stimulus | src/App.py:197-228 | the twelve-way switch of stimuli: on a field in range the stimulus of every type lies in [0, 1] |
| Minimodel.Channel | src/App.py:291-321 | the gradient follows the edge channel for the edge types, the motion channel for the motion types, and the colour channel otherwise; never texture or the attractor field |
| Minimodel.Drive | src/App.py:234-243 | the force before noise is zero at or below the threshold; in the first or last column its x component is zero, and in the first or last row its y component is zero |
| Minimodel.StimulusSigns | src/App.py:219-227 | TEXTURE_LOW's max(0, 0.5 - texture) is never negative and is positive exactly below texture 0.5; COLOR_DARK is 1 - colour |
| Minimodel.StepKeepsUnitLevels | src/App.py:231-261 | with sensitivity in [0, 1] on a field in range, activation and energy stay in [0, 1] |
| Minimodel.RunStaysInBand | src/App.py:185-258 | a scout that starts on the grid stays on it through any series of updates, and after at least one update lies in [5, 251] |
| Minimodel.Spawn | src/App.py:168-182 | a new scout has the given type, is at rest with activation 0 and age 0; with draws in [0, 1) it stands on the grid with energy and sensitivity in [0.5, 1) and threshold in [0.1, 0.4) |
| Minimodel.Respawn | src/App.py:526-535 | a reset scout keeps its type, sensitivity, threshold and age and is at rest with activation 0; with draws in [0, 1) it stands on the grid with energy in [0.5, 1) |
| Minimodel.DensityAppend | src/App.py:132-139 | one more scout adds activation * 0.1 to its floored cell when that cell is on the grid and changes nothing otherwise |
| Minimodel.DepositIsScaledActivation | src/App.py:129-139 | before smoothing, each cell holds 0.1 x the total activation of the scouts whose floored position is that cell |
| Minimodel.OffGridContributesNothing | src/App.py:133-135 | dropping the scouts whose floored position is off the grid changes no cell |
| Minimodel.EmptyCellIsZero | src/App.py:129-139 | a cell no scout stands on stays 0 before smoothing |
| Minimodel.DepositNonNegative | src/App.py:129-139 | scouts with non-negative activation leave a non-negative deposit on a cell |
| Minimodel.DensityNonNegative | src/App.py:129-139 | with non-negative activations the unsmoothed attractor field is non-negative on every cell |
| Minimodel.Layout | src/App.py:380-386 | the set-up order of `types` types with perType scouts each has types x perType entries |
| Minimodel.LayoutOrder | src/App.py:380-386 | position k of the set-up order holds the type whose tag is k div perType: consecutive blocks of perType scouts, in tag order |
| Minimodel.LayoutCounts | src/App.py:380-386 | the set-up order holds perType scouts of each of the first `types` types and none of the rest |
| Minimodel.PopulationComposition | src/App.py:380-386 | floor(8000 / 12) = 666 scouts of each of the twelve types, 7992 in all |
| Engine.Blank | src/App.py:41-57 | the freshly constructed, all-zero field is well formed and satisfies the range invariant the updates keep |
| Engine.WindowSum | src/App.py:150-159 | the neighbourhood loop visits the nine cells of the 3x3 window, and sum / count is the window mean |
| Engine.SobelEdge | src/App.py:86-98 | the edge written is the square root of the Sobel magnitude of the interior cell |
| Engine.TextureSum | src/App.py:110-122 | for an interior cell the bounds guard admits all nine neighbours (count = 9), and variance / count is the texture |
| Engine.PsiField.constructor | src/App.py:41-57 | every buffer has 65536 cells, is a fresh separate array and is zero; the history is empty |
| Engine.PsiField.UpdateFromImage | src/App.py:59-78 | previous becomes the old current and current the raster's luminance; the history becomes the last five frames including the new one; the maps are recomputed |
| Engine.PsiField.ComputeFeatureMaps | src/App.py:80-125 | the row-major pass leaves exactly the feature maps of the field as it was |
| Engine.PsiField.ComputeRow | src/App.py:83-123 | one row of the pass: the channels go from filled before row y to filled before row y + 1 |
| Engine.PsiField.ComputeCell | src/App.py:84-122 | one interior cell of the pass: the channels become filled one cell further |
| Engine.PsiField.StoreCell | src/App.py:98-122 | the four writes at an interior cell put that cell's feature values and nothing else |
| Engine.PsiField.UpdateAttractorField | src/App.py:127-143 | the attractor field becomes the blur of the scouts' deposit density |
| Engine.DepositScouts | src/App.py:129-139 | after clearing and the scatter-add loop, the buffer holds the deposit density of the scouts |
| Engine.PsiField.SmoothField | src/App.py:145-163 | the field becomes its 3x3 blur, with border cells 0 |
| Engine.BlurRows | src/App.py:147-161 | the two loops fill the zeroed temp buffer with the blur |
| Engine.BlurRow | src/App.py:148-160 | one row of the blur loop writes that row's interior means into temp |
| Engine.Scout.constructor | src/App.py:168-182 | the new scout's state is Spawn of its type and draws |
| Engine.Scout.Drift | src/App.py:234-243 | the force before noise is the threshold-gated gradient and cluster force |
| Engine.Scout.Update | src/App.py:184-262 | the scout's new state is one Step against the field's contents |
| Engine.Scout.Move | src/App.py:191-261 | for a scout on the grid, the new state from stimulus, activation, forces, velocity, clamped position and energy is one Step |
| Engine.InitPopulation | src/App.py:378-389 | 7992 distinct new scouts, scout k spawned with the k-th type of the set-up order and the k-th draws |
| Engine.AddType | src/App.py:382-386 | one type's turn appends SCOUTS_PER_TYPE new scouts of that type and keeps the earlier ones |
| Engine.SpawnBatch | src/App.py:383-385 | the inner loop creates one distinct new scout per draw |
| Engine.ResetSystem | src/App.py:526-535 | every scout becomes Respawn of its old state and its draws |

## Left out

- The React component: state hooks, the camera, canvas drawing, the animation loop that
  calls the updates each tick, statistics and JSX (src/App.py:344-688, apart from the
  population set-up and `resetSystem`). These are user interface and browser I/O.
- `Math.random()` is replaced by parameters. The constructor and the set-up take `Draw`
  records, `resetSystem` takes `ResetDraw` records, and `update` takes the two noise draws
  `rx` and `ry`.
- `Math.sqrt` is a parameter `root`. The range lemmas ask only that it is non-negative on
  non-negative arguments.
- Float32 storage and rounding: every buffer holds exact `real` values.
- `SCOUT_COLORS`, the visibility flags and the unused `clusterId` field.
- The grid side is fixed at the source's 256 rather than being a parameter.
- `updateFromImage` takes a raster of exactly 4 x 65536 bytes, which is what the
  256 x 256 canvas provides. A shorter array, which would produce NaN values in the source,
  is not modelled.
- Engine.Scout.Move computes the new values in the source's order but stores them together
  at the end. Where the source reads a field it has just written, Move reads the local
  holding the new value instead: `a` for `this.activation` (src/App.py:234-237 and 261),
  and `nvx` and `nvy` for `this.vx` and `this.vy` (src/App.py:253-254). The stimulus,
  gradient and cluster-force helpers read only `type` and the position before the move. So
  the result is the same; the order of the individual field writes is not modelled.
- Engine.Scout.Update reads the field's buffers as a value. The case of a field buffer
  changing while a scout updates does not arise in the source and is not modelled.
- Engine.ResetSystem requires the scouts to be distinct objects, which InitPopulation
  guarantees. The aliased case does not arise in the source.
