# E/B mode decomposition of weak-lensing shear maps

A Dafny model of the Fourier-space core of `ShearMap` in LensTools
(`lenstools/shear.py`). A shear map holds two real fields, gamma1 and gamma2, and a
side angle. The model covers:

- the frequency grid of an N x (N/2+1) real-FFT layout, built from numpy's `rfftfreq`
  and `fftfreq`;
- the spin-2 rotation fields cos(2 phi) and sin(2 phi) with l^2 = lx^2 + ly^2, where
  l^2 is replaced by 1 at the zero-frequency cell;
- the forward rotation in `decompose`: E = cos g1 + sin g2 and B = -sin g1 + cos g2,
  with E and B forced to 0 at the zero cell;
- the inverse rotation in `fromEBmodes`: g1 = cos E - sin B and g2 = sin E + cos B,
  with both rotation fields overwritten by 0 at the zero cell;
- the input checks of `fromEBmodes`, each one an error of its own;
- the cache of Fourier E/B modes that `fromEBmodes`, `decompose(keep_fourier=...)` and
  `convergence` share.

Files:

- `results.dfy`: the `Option` and `Result` types.
- `complex.dfy`: complex numbers as pairs of exact reals.
- `arrays.dfy`: 2-D arrays with an explicit dtype and shape. The shape is stored so
  that numpy shapes such as (0, 1) can be represented.
- `frequencies.dfy`: the frequency axes and the rotation fields.
- `spin_rotation.dfy`: the forward and inverse rotations on whole arrays, with their
  round trips.
- `shear.dfy`: `ShearMap`, `fromEBmodes`, `decompose`, `convergence`, the bin centres
  and the cache lemmas.

Each operation returns a `Result`. Every assertion of the source and every numpy error
these operations can reach becomes a case of `Shear.Error`.

Three behaviours of the code are worth noting; the model follows the code in each:

- The Python code of `decompose` never validates the bin edges. The bin centres are
  computed for any sequence of edges: |edges| - 1 centres, or none for empty edges.
- The layout check of `fromEBmodes` uses true division (the module imports `division`
  from `__future__`). So it accepts exactly the even N with N/2 + 1 columns, and it
  rejects every odd N.
- `decompose` takes both frequency axes from the row count. Its length check passes
  exactly when rows/2 == cols/2. A 4 x 5 map therefore gets past it, using the column
  frequencies of a 4-point transform (`Shear.DecomposeAcceptsSomeNonSquareMaps`).

## Model

| member | source | states |
|---|---|---|
| Frequencies.RFftFreq | lenstools/shear.py:111 | rfftfreq(N) has N/2+1 entries. Entry j is j/N, so the entries are non-negative and strictly increasing. |
| Frequencies.FftFreq | lenstools/shear.py:112 | fftfreq(N) has N entries. Entry i is i/N for i <= (N-1)/2 and (i-N)/N after that. |
| Frequencies.FftFreqIsCentredResidue | lenstools/shear.py:112 | Entry i of fftfreq(N) is m/N, where m is the unique integer congruent to i mod N in [-(N/2), (N-1)/2]. |
| Frequencies.FftFreqAgreesWithRFftFreq | lenstools/shear.py:111-112 | The non-negative half of fftfreq(N) coincides with the start of rfftfreq(N). |
| Frequencies.RFftFreqEndsAtNyquist | lenstools/shear.py:111 | For even N the last column frequency is the Nyquist frequency 1/2. |
| Frequencies.OnlyDcHasZeroFrequency | lenstools/shear.py:119-120 | lx and ly are both 0 exactly at cell (0, 0). So (0, 0) is the only cell where l^2 needs replacing. |
| Frequencies.LSquared | lenstools/shear.py:119-120 | The l^2 grid, with the zero cell set to 1, is strictly positive everywhere, so both rotation fields are defined. |
| Frequencies.RawSin2Phi | lenstools/shear.py:280 | The sin(2 phi) field of `decompose`, with no override at the zero cell: the value r with r l^2 = 2 lx ly. |
| Frequencies.RawCos2Phi | lenstools/shear.py:281 | The cos(2 phi) field of `decompose`: the value r with r l^2 = lx^2 - ly^2. |
| Frequencies.Sin2Phi | lenstools/shear.py:122-125 | The sin(2 phi) field of `fromEBmodes` is 0 at the zero cell. The override changes nothing: the field equals the one `decompose` builds at every cell. |
| Frequencies.Cos2Phi | lenstools/shear.py:123-126 | The cos(2 phi) field of `fromEBmodes` is 0 at the zero cell, and equals the one `decompose` builds at every cell. |
| Frequencies.RawRotationIsOrthogonal | lenstools/shear.py:277-281 | Off the zero cell, the fields `decompose` builds satisfy cos^2 + sin^2 = 1. |
| Frequencies.UnitCircle | lenstools/shear.py:119-126 | For any (lx, ly) other than (0, 0), l^2 = lx^2 + ly^2 is positive and ((lx^2 - ly^2)/l^2, 2 lx ly/l^2) lies on the unit circle. |
| Frequencies.RotationIsOrthogonal | lenstools/shear.py:119-126 | Off the zero cell, l^2 > 0 and the fields `fromEBmodes` builds satisfy cos^2 + sin^2 = 1. |
| SpinRotation.RotateCell | lenstools/shear.py:284-285 | One cell of the forward rotation. A unit rotation (cos^2 + sin^2 = 1) conserves power: the squared moduli of E and B add up to those of g1 and g2. |
| SpinRotation.UnrotateCell | lenstools/shear.py:129-130 | One cell of the inverse rotation. For a unit (cos, sin), the forward rotation applied to its output gives back (E, B). The zero rotation, used at the zero cell, gives (0, 0) for any (E, B). |
| SpinRotation.UnrotateRotate | lenstools/shear.py:284-285 | For any unit (cos, sin), applying the inverse rotation to the output of the forward rotation gives back (g1, g2). |
| SpinRotation.Forward | lenstools/shear.py:283-291 | The E and B of `decompose` have the shape of the shear transforms (asserts on lines 290-291), and both are 0 at the zero cell. |
| SpinRotation.Inverse | lenstools/shear.py:128-130 | The shear modes of `fromEBmodes` have the same N x (N/2+1) layout as the E/B modes. |
| SpinRotation.CellRotateUnrotate | lenstools/shear.py:129-130 | At any cell other than (0, 0), the rotation of `decompose` undoes the rotation of `fromEBmodes`. |
| SpinRotation.CellUnrotateRotate | lenstools/shear.py:284-285 | At any cell other than (0, 0), the rotation of `fromEBmodes` undoes the rotation of `decompose`. |
| SpinRotation.ZeroCellOfInverse | lenstools/shear.py:125-130 | `fromEBmodes` turns any E/B pair into shear modes that are 0 at the zero cell, because both rotation fields are overridden by 0 there. |
| SpinRotation.InverseThenForward | lenstools/shear.py:128-130 | Inverse rotation followed by forward rotation returns every E and B cell unchanged, except the zero cell, which comes back as 0. |
| SpinRotation.PureEStaysPureE | lenstools/shear.py:128-130 | If B is zero everywhere, the B that `decompose` recovers from the shear modes of `fromEBmodes` is zero everywhere. |
| SpinRotation.ForwardThenInverse | lenstools/shear.py:283-288 | Forward rotation followed by inverse rotation returns every shear cell unchanged, except the zero cell (the mean shear), which is lost. |
| SpinRotation.ForwardPreservesPower | lenstools/shear.py:283-285 | At every cell but (0, 0), the E/B power of `decompose` equals the power of the shear modes. |
| Shear.Rfft2 | lenstools/shear.py:265-266 | rfft2 of a non-empty rows x cols map is a rows x (cols/2+1) array. |
| Shear.Irfft2 | lenstools/shear.py:133-134 | irfft2 of a rows x m array with m > 1 is a rows x 2(m-1) real array. |
| Shear.RealFftLayout | lenstools/shear.py:106-107 | The true-division check shape[1] == shape[0]/2 + 1 holds exactly when shape[0] is even and shape[1] = shape[0]/2 + 1 in integer division. |
| Shear.LayoutMatchesFrequencyAxes | lenstools/shear.py:111-116 | Once the layout checks pass and N > 0, len(lx) and len(ly) equal the array's shape, so the safety assertions never fail. |
| Shear.Reconstruct | lenstools/shear.py:128-141 | The map `fromEBmodes` builds has as gamma1 and gamma2 the irfft2 of the two inversely rotated modes. It is a valid N x N real map that carries the given angle and caches exactly the given E and B. |
| Shear.FromEBModes | lenstools/shear.py:85-141 | Succeeds exactly when both inputs are complex128, both have the (N, N/2+1) layout, the shapes are equal and N > 0. A wrong dtype and a shape mismatch each give their own error. On success the map is the reconstruction from the inverse rotation, with E and B cached. The angle defaults to 3.14 degrees. |
| Shear.ModesOf | lenstools/shear.py:264-291 | The E/B modes `decompose` computes have the layout of the shear transforms and are 0 at the zero cell. |
| Shear.BinCentres | lenstools/shear.py:294 | There is one centre fewer than there are edges, or none for empty edges. Each centre is equidistant from its two edges. |
| Shear.BinCentresInterleave | lenstools/shear.py:294 | For strictly increasing edges, each centre lies strictly between its two edges and the centres are strictly increasing. |
| Shear.Decompose | lenstools/shear.py:245-303 | With the binning routine taken never to raise, it succeeds exactly when the map is non-empty and rows/2 == cols/2. Otherwise it returns the empty-axis error or the frequency-axis error. The returned l is the bin centres of the given edges. The EE, BB and EB spectra bin (E,E), (B,B) and (E,B) with the map's side angle. keep_fourier=True caches the modes; keep_fourier=False leaves the map unchanged, and is the default. |
| Shear.Convergence | lenstools/shear.py:306-324 | The result is irfft2 of the cached E mode and carries the map's side angle. With a cache, the map is left unchanged. Without one, the cache is filled as `decompose(keep_fourier=True)` fills it, and any error of that call is passed on with the map unchanged. If irfft2 then fails, the error comes back with the filled cache still on the map. |
| Shear.ConvergenceFailsAfterFillingCache | lenstools/shear.py:316-321 | On a 1 x 1 map without a cache, `decompose` succeeds and fills the cache, irfft2 of the one-column E mode then fails, and the map keeps the filled cache. |
| Shear.ConvergenceIgnoresB | lenstools/shear.py:321 | The convergence map depends on the cached E mode only: replacing the cached B changes neither success nor the output. |
| Shear.ConvergenceIsIdempotent | lenstools/shear.py:316-321 | A second `convergence` on the map the first one left returns the same result and leaves the same map, whether the first call succeeded or failed. |
| Shear.DecomposeKeepingFourierThenConvergence | lenstools/shear.py:299-321 | After `decompose(keep_fourier=True)` with any bin edges (the binning routine taken never to raise), `convergence` gives the same result as on the map without a cache. |
| Shear.FromEBModesThenConvergence | lenstools/shear.py:138-139 | On a map built by `fromEBmodes`, `convergence` succeeds without decomposing. It returns irfft2 of the given E with the given angle. |
| Shear.FromEBModesThenDecompose | lenstools/shear.py:129-134 | Suppose rfft2 undoes irfft2 on the two shear modes. Then decomposing a map built from (E, B) recovers E and B at every cell except the zero cell, where both come back as 0. |
| Shear.FromEBModesRejectsFullPlaneE | lenstools/shear.py:106 | A 4 x 4 E mode is rejected by the E layout check. |
| Shear.FromEBModesRejectsShapeMismatch | lenstools/shear.py:108 | A 4 x 3 E and a 2 x 2 B both pass their layout checks, and are rejected as a shape mismatch. |
| Shear.FromEBModesRejectsOddSide | lenstools/shear.py:106 | No E mode with an odd number of rows is accepted. |
| Shear.FromEBModesRejectsEmptyMap | lenstools/shear.py:111 | The (0, 1) layout passes every assertion and then fails in rfftfreq(0). |
| Shear.DecomposeAcceptsSomeNonSquareMaps | lenstools/shear.py:269-274 | A 4 x 5 map passes the frequency-length check of `decompose`, and a 4 x 6 map fails it. |

## Left out

- Floating point: all values are exact reals. Float rounding in l^2 and in the
  rotation fields is not modelled, and so the round trips hold exactly in the model.
- Shear.Rfft2: stands for numpy's forward transform. Its cell values are an
  unspecified function (a field of `Shear.Externals`); the model fixes only numpy's
  output shape and the error for an empty axis.
- Shear.Irfft2: stands for numpy's inverse transform. Its cell values are an
  unspecified function in the same way. That rfft2 undoes irfft2 is never assumed,
  except as the explicit hypothesis of `Shear.FromEBModesThenDecompose`.
- Shear.Decompose: `_topology.rfft2_azimuthal` is a C extension. It is an unspecified
  function of (mode, mode, side angle, edges), so the contract says which arguments
  each spectrum is binned from but not what the binning computes. The routine is also
  taken never to raise. So Decompose's success condition, and the cache it fills, hold
  only under that assumption. The source does not show what the routine does with fewer
  than two edges. It runs before the cache is set (lines 295-301), so a raise there would
  leave the cache empty.
- Units: the side angle is a real number of degrees. The astropy unit plumbing and the
  unit assertion in `__init__` (line 61) are not modelled.
- Shape of `gamma`: the two components are separate arrays of equal shape, not one
  stacked (2, N, N) numpy array.
- `fromfilename`, `visualize`, `visualizeComponents` and the matplotlib import: file
  loading and plotting are I/O outside the modelled core.
- The `rfftfreq` fallback in `utils`: the model uses numpy's definition. The fallback
  module is not part of this model.
- Mutation and staleness: operations return the updated map instead of mutating
  `self`. No modelled operation changes `gamma`. A map given a new `gamma` and an old
  cache behaves as the source's stale cache does.
- Float equality for very large N: the true-division layout check is modelled with
  exact reals, so precision loss in a float division of a huge N is not modelled.
