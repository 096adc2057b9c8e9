# Starfish grid, kernel and rebinning core in Dafny

This project models the deterministic core of Starfish, a spectroscopic
inference package. The model covers:

- **The synthetic-spectrum archive.**
  - `RawGridInterface.check_params` checks a parameter tuple against the grid.
  - `HDF5Creator.__init__` restricts the parameter axes to the requested ranges. It also clips the wavelength window to what the library and the instrument cover, and chooses the final wavelength grid.
  - `HDF5Creator.process_grid` walks the cartesian product of the axes, stores one dataset per loadable spectrum and writes the surviving parameter matrix.
  - `HDF5Interface` reads the file back: the bounds and unique points of each parameter column, `load_flux` and `fluxes`.
- **Velocity-spaced wavelength grids** (`create_wave_grid`) and the velocity `v` between two wavelengths.
- **Spectral helpers from `model.py`:**
  - the broadening-kernel abscissa `karray`, built on `np.arange`;
  - the radial-velocity shift `shift_vz`;
  - the flux-conserving rebinning `downsample`;
  - the parameter-box gate at the top of `lnprob` and `lnprob_old`.
- **The parameter-name tables of `constants.py`** and the helpers that put parameter names or values into canonical order.

Numbers are exact reals. Three kinds of input are passed in as function parameters rather than modelled:

- **Oracles:** loading a raw spectrum, the resample/broaden transform, the dataset-name format, `create_log_lam_grid` and the likelihood body.
- **Square roots:** the Doppler factor `sqrt((c + v) / (c - v))` is a parameter `r`. It comes with the relation `IsDopplerFactor(r, v)`, which says `r >= 0` and `r * r == (c + v) / (c - v)`.
- **Python's error behaviour:** each raised exception becomes an `Err` value of the `Errors.Error` datatype.

Modules, in dependency order:

| module | models |
|---|---|
| `Errors`, `Seqs`, `Reals` | Result/Option, numpy-style sequence helpers (mask selection, `np.delete`, slicing), real-arithmetic facts |
| `Product` | `itertools.product(*axes)` |
| `RawGrid` | `RawGridInterface.check_params`, the axis restriction of `HDF5Creator.__init__` |
| `Creator` | the wavelength window and final grid of `HDF5Creator.__init__` |
| `Archive` | `HDF5Creator.process_grid` and `HDF5Interface` |
| `Velocity`, `WaveGrid` | `c_kms`, `v(ls, lo)`, `create_wave_grid` |
| `Kernel`, `Shift`, `Downsample`, `Prior` | `karray`, `shift_vz`, `downsample`, the `lnprob` gates |
| `Constants` | the name tables, `dictkeys_to_tuple`, `dictkeys_to_covtuple`, `dict_to_tuple` |

## Model

| member | source | states |
|---|---|---|
| RawGrid.CheckParams | Starfish/grid_tools/base_interfaces.py:49-70 | A length mismatch is reported first. Otherwise the tuple is accepted exactly when every coordinate lies on its axis, and a rejection names the first axis whose coordinate is off-grid. |
| RawGrid.RestrictAxes | Starfish/grid_tools/base_interfaces.py:133-142 | Without ranges the axes are kept. Otherwise each axis keeps, in order, exactly its points inside the closed range. One axis is produced per range, and more ranges than axes is an index error. |
| RawGrid.RestrictedAxisSorted | Starfish/grid_tools/base_interfaces.py:139-142 | Restricting a sorted axis leaves it sorted. |
| Product.CartesianProduct | Starfish/grid_tools/base_interfaces.py:246-248 | The product has as many tuples as the product of the axis lengths. |
| Product.ProductMembers | Starfish/grid_tools/base_interfaces.py:246-248 | A tuple is in the product exactly when it has one coordinate per axis, each taken from that axis. |
| Product.ProductOrder | Starfish/grid_tools/base_interfaces.py:246-248 | The first axis varies slowest. Position `j * |tails| + k` holds the `j`-th first coordinate followed by the `k`-th tail. |
| Product.ProductDistinct | Starfish/grid_tools/base_interfaces.py:246-248 | Axes without repeats give a product without repeated tuples. |
| Product.ProductColumn | Starfish/grid_tools/base_interfaces.py:313-317 | Column `i` of the product, as a matrix, holds exactly the points of axis `i`. |
| Creator.ImposedRange | Starfish/grid_tools/base_interfaces.py:184-189 | The imposed range lies within the native grid and the instrument range. Each end is one of the two candidates. |
| Creator.WavelengthWindow | Starfish/grid_tools/base_interfaces.py:173-200 | The buffered request is clipped to the imposed range, and a missing request means `(0 - buffer, +inf)`. The window fails exactly when the intervals do not meet. Otherwise it lies inside both, with each end being either the request or the imposed limit. |
| Creator.NewCreator | Starfish/grid_tools/base_interfaces.py:119-227 | Errors come in order: axes, then the native grid, then the window, then a zero oversampling. Without an instrument the final grid is the native samples strictly inside the window, with the native `dv`. With an instrument it is the log-lambda grid at `FWHM / oversampling` over the window. |
| Creator.NoInstrumentFinalGrid | Starfish/grid_tools/base_interfaces.py:211-214 | Without an instrument the final grid is sorted, holds exactly the native samples strictly inside the window, and keeps the native `dv`. |
| Creator.InstrumentWindowExamples | tests/test_grid_tools/test_hdf5.py:48-72 | The invalid and truncated wavelength ranges of the test cases give the errors and windows the tests expect. |
| Archive.ProcessGrid | Starfish/grid_tools/base_interfaces.py:235-283 | The build succeeds exactly when no two loadable tuples share a dataset name, and otherwise reports a duplicate key. On success the archive holds the writer's grid, `pars` as the product minus the failed tuples in order, and one transformed dataset per loaded tuple and no other. Kept and failed tuples add up to the grid size. |
| Archive.Walk | Starfish/grid_tools/base_interfaces.py:257-275 | The loop's result is the list of failed indices together with the dataset map. It fails exactly on a repeated dataset name. |
| Archive.MissingUpToMembers | Starfish/grid_tools/base_interfaces.py:260-265 | The recorded indices are exactly the positions whose load raised. |
| Archive.StoreUpToKeys | Starfish/grid_tools/base_interfaces.py:267-271 | A dataset name is present exactly when some loaded tuple is named by it. |
| Archive.StoreUpToValues | Starfish/grid_tools/base_interfaces.py:267-275 | With distinct names, each loaded tuple's dataset is its transformed flux with the non-empty header entries as attributes. |
| Archive.BuildNeverCollides | Starfish/grid_tools/base_interfaces.py:247-271 | Repeat-free axes and an injective name format can never make the build fail. |
| Archive.LoadFlux | Starfish/grid_tools/base_interfaces.py:343-355 | Loading succeeds exactly when the tuple's dataset exists, and otherwise raises `KeyError` for that name. It returns the stored attributes and the stored flux, sliced to `ind` with Python slice rules when set (clipped to the stored length), which is the plain sub-sequence when `ind` lies within it. |
| Archive.ColumnBounds | Starfish/grid_tools/base_interfaces.py:314-316 | Both bounds occur in the column, and every entry lies between them. |
| Archive.ColumnPoints | Starfish/grid_tools/base_interfaces.py:317 | The unique points of a column are sorted and hold exactly the column's values. |
| Archive.Open | Starfish/grid_tools/base_interfaces.py:296-325 | An empty `pars` is an error, and a first row whose dataset is missing is the key-name error. Otherwise the reader gets the wavelengths, `dv`, the matrix, per-column bounds and per-column sorted unique points. |
| Archive.Fluxes | Starfish/grid_tools/base_interfaces.py:357-367 | It yields each grid point's stored flux in `pars` order, or raises `KeyError` for a point with no dataset such that every earlier point has one. |
| Archive.BuiltParsIsMatrix | Starfish/grid_tools/base_interfaces.py:278-281 | The written `pars` is a matrix whose rows are grid points. |
| Archive.RoundTrip | Starfish/grid_tools/base_interfaces.py:269-275 | Reading back a product tuple gives exactly what the build stored for it, or a `KeyError` when its load had failed. |
| Archive.ExcludedPointsAbsent | Starfish/grid_tools/base_interfaces.py:260-278 | A product tuple is in `pars`, and has a dataset, exactly when it loaded. |
| Archive.BuiltArchiveOpens | Starfish/grid_tools/base_interfaces.py:322-325 | A non-empty build passes the reader's key-name check, and every row of `pars` has a dataset. |
| Velocity.V | PHOENIX_tools.py:459-460 | `v` lies within `[-c, c]`. It is zero exactly for wavelengths of equal size and positive exactly when the observed one is longer. |
| Velocity.VAntisymmetric | PHOENIX_tools.py:459-460 | `v(a, b) == -v(b, a)`. |
| Velocity.VOfDopplerFactor | PHOENIX_tools.py:459-460 | The velocity between `a` and `a` times the Doppler factor of `v` is `v`. |
| Velocity.DopplerFactorSign | PHOENIX_tools.py:70 | The factor is positive, and above, at or below 1 as the velocity is positive, zero or negative. |
| Velocity.DopplerInverse | PHOENIX_tools.py:70 | The reciprocal of the factor of `v` is the factor of `-v`. |
| WaveGrid.CreateWaveGrid | PHOENIX_tools.py:64-75 | The grid is `start * r^k` for `k = 0, 1, ...`. Every value is below `end`, and the next one would reach `end` unless the working array's size capped the grid. It is empty when `start >= end` or `start == 0`. |
| WaveGrid.Working | PHOENIX_tools.py:66-74 | The loop fills the working array geometrically and stops at the first value reaching `end` or at the array's size. |
| WaveGrid.DropLast | PHOENIX_tools.py:75 | Dropping the zero padding and then the last value removes exactly the value that reached `end`. |
| WaveGrid.EvenlySpaced | PHOENIX_tools.py:70-74 | Consecutive grid values are the velocity `v` apart. |
| WaveGrid.GridIncreasing | PHOENIX_tools.py:70-74 | For a positive start and velocity the grid increases strictly. |
| Kernel.ARange | model.py:124-125 | `np.arange` is `ceil((stop - start) / step)` values `start + i * step`, or none. A zero step is an error. |
| Kernel.ARangeStops | model.py:124-125 | Every value is on the `start` side of `stop`, and the next value would not be. |
| Kernel.ARangeEmpty | model.py:124-125 | There are no values when `stop` is not beyond `start` in the direction of the step. |
| Kernel.KArray | model.py:120-127 | The kernel fails exactly for a zero resolution. |
| Kernel.KArrayShape | model.py:120-127 | The kernel has `2n - 1` values (odd), where `n = ceil(width / res)`. The middle value is `center` and consecutive values are `res` apart. It increases, is symmetric about `center`, and stays strictly within `width` of it. |
| Kernel.KArrayEmpty | model.py:120-127 | A non-positive width gives an empty kernel. |
| Shift.ShiftVz | model.py:155-161 | A zero velocity leaves the wavelength unchanged. For a positive wavelength, a negative velocity shortens it (blueshift) and a positive one lengthens it. |
| Shift.ShiftIsVelocity | model.py:155-161 | The velocity between the source and the shifted wavelength is `vz`. |
| Shift.ShiftRoundTrip | model.py:155-161 | Shifting by `vz` and then by `-vz` gives back the source wavelength. |
| Downsample.Edges | model.py:198-211 | There is one more edge than samples. |
| Downsample.EdgesBracket | model.py:198-211 | Interior edges are midpoints. The outer edges mirror their neighbours about the end samples. Every sample lies strictly between its two edges, and the edges increase. |
| Downsample.FirstAbove | model.py:213-214 | It finds the first edge above `x`, or none when every edge is at or below `x`. |
| Downsample.Average | model.py:227 | `np.average` fails on a length mismatch or on zero total weight. Otherwise the result times the total weight is the weighted sum. |
| Downsample.AverageOfConstant | model.py:227 | The average of a constant is that constant. |
| Downsample.AverageWithin | model.py:227 | With non-negative weights, the average lies between the smallest and largest value. |
| Downsample.BinWeights | model.py:223-225 | The weights are `ones[:count]` with the first value replaced by the left fraction and the last by the right fraction. There are at most ten, and counts that leave nothing to index raise. |
| Downsample.FillBin | model.py:221-227 | A closed bin records its slice, its left fraction and its right fraction (the part of the model bin below the instrument edge). Its value is the weighted average of the model slice. More than ten samples is a weights mismatch. |
| Downsample.BelowFraction | model.py:222 | The right weight is the fraction of the model bin below the edge, in `[0, 1)` when the edge lies in the bin. |
| Downsample.AboveFraction | model.py:217 | The left weight is the fraction of the model bin above the edge, in `(0, 1]` when the edge lies in the bin. |
| Downsample.FractionsComplement | model.py:217-231 | The part above an edge is one minus the part below, which is why `left_weight = 1 - right_weight` carries over. |
| Downsample.Prepare | model.py:194-217 | Set-up fails with an index error exactly when a grid has fewer than two samples or no model edge lies above the first instrument edge. Otherwise it gives both edge arrays, the first model edge above the first instrument edge, and the first left weight. |
| Downsample.Downsample | model.py:194-234 | The output has one flux per instrument sample. The closed bins satisfy the trace of the loop, and the unclosed ones stay zero. When bins remain open, no further model edge passed their instrument edge. An error is the one the first failing bin raised. |
| Downsample.Scan | model.py:219-234 | The loop over model edges as above, for a prepared set-up. |
| Downsample.Outputs | model.py:194-229 | The flux array has one entry per instrument sample: the closed bins' fluxes in order, then zeros for the bins never closed. |
| Downsample.Close | model.py:221-233 | Closing a bin extends the trace and moves the scan past its edge. |
| Downsample.BinsChained | model.py:217-231 | Bins close at increasing model edges. Each slice starts one below the edge that closed the previous bin, and each left weight is one minus the previous right weight, the part above that edge. The weights have the left/ones/right shape, and each value is their average. |
| Downsample.ConstantSpectrum | model.py:227 | A constant model spectrum is rebinned to the same constant in every closed bin. |
| Prior.LnProb | model.py:400-404 | Exactly six values are required. The result is minus infinity exactly outside the box `2300 <= temp <= 10000`, `0 <= logg <= 6`, `vsini >= 0`, `Av >= 0`, and otherwise the likelihood. |
| Prior.LnProbOld | model.py:432-455 | The corrected `lnprob_old` (see Findings). At least five values are required, the same box without `Av` is applied to `p[:5]`, and inside the box the likelihood is returned. |
| Prior.LnProbOldAsWritten | model.py:432-448 | `lnprob_old` as written. Fewer than five values fail to unpack, a vector outside the box gives minus infinity, and every vector inside the box raises `TypeError`, so no finite value is ever returned. |
| Prior.OldGateAsWrittenVsIntended | model.py:436-448 | As written and corrected agree wherever the corrected version fails or returns minus infinity. Wherever it returns a finite value, the version as written raises `TypeError`. |
| Prior.OldModelCallRaises | model.py:448 | For the in-box vector `[5800, 4.5, 0, 0, 1]` the version as written raises `TypeError` and the corrected one returns the likelihood. |
| Prior.GatesAgree | model.py:400-436 | Comparing `lnprob` with the corrected `lnprob_old`: the old gate accepts everything the new one does. The two agree for non-negative `Av`, and only the new one rejects a negative `Av`. |
| Constants.TablesConsistent | constants.py:30-43 | Grid and post-processing names are disjoint. The stellar set is exactly the names of the stellar tuple, and no table repeats a name. `var_default` has exactly one entry per stellar parameter. |
| Constants.SelectPresent | constants.py:53-59 | The loop keeps exactly the names of the order that are among the keys, in that order, each once. |
| Constants.DictkeysToTuple | constants.py:45-59 | The result is the stellar parameters present among the keys, each once, in `stellar_parameters` order. |
| Constants.DictkeysToCovtuple | constants.py:61-75 | The result is the covariance parameters present among the keys, each once, in `cov_parameters` order. |
| Constants.Lookups | constants.py:87-94 | Successive dictionary reads give the values, or the `KeyError` of the first missing name. |
| Constants.Head | constants.py:86-89 | The grid part is (temp, logg, Z, alpha) in that order, with alpha defaulted. |
| Constants.Suffix | constants.py:91-94 | The suffix is (vsini, FWHM, vz, Av, Omega) with `FWHM` present and (vsini, vz, Av, Omega) without. |
| Constants.DictToTuple | constants.py:77-96 | The result has 8 or 9 values, with the grid part then the suffix. It fails exactly when one of the seven needed keys is missing. |
| Constants.DictToTupleAsWritten | constants.py:86-96 | With `alpha` present it agrees with the corrected function. Without it, it always fails, with a `NameError` once the three grid keys are present. |
| Constants.AlphaAbsentNameError | constants.py:89 | A dictionary without `alpha` that has every other key read fails as written and succeeds as intended. |
| Constants.DefaultsLackOmega | constants.py:41-94 | `var_default` itself cannot be ordered, because it names `logOmega` and the function reads `Omega`. |

## Left out

- FFT broadening, spline and linear resampling, `instrumental_broaden`, `calculate_dv` and `create_log_lam_grid`: floating-point numerics. They are passed in as opaque functions.
- HDF5 and FITS file I/O, logging, progress bars, `multiprocessing`: a file is a value (`Archive.Archive`) and the rest has no effect on results.
- `MasterToFITSIndividual`, `MasterToFITSGridProcessor`, `create_fits`: they are not part of the archive core.
- `vsini_ang`, `G`, `gauss_kernel`, `gauss_series`, and the einsum/determinant/inverse likelihood body of `lnprob`: transcendental functions and linear algebra. The likelihood is a parameter of `Prior.LnProb`.
- Floating-point rounding, NaN and infinities: all arithmetic is exact. A NaN parameter fails every comparison in the `lnprob` gate and so passes it; the model's reals have no NaN.
- WaveGrid.CreateWaveGrid: the square root is not computed. The Doppler factor is a parameter related to `v` by `IsDopplerFactor`, which also excludes `|v| >= c`, where the source takes the root of a negative number or divides by zero.
- Shift.ShiftVz: the same treatment of the square root, so the range `|vz| >= c` (NaN or infinity in numpy) is excluded by the requirement.
- Velocity.V: requires one of the two wavelengths to be non-zero. With both zero numpy returns NaN from `0/0` with a warning.
- Downsample.Downsample: requires strictly increasing model wavelengths. With a repeated wavelength the source divides by a zero-width model bin and produces infinities or NaN rather than raising.
- Downsample.Prepare: the same requirement, for the same reason.
- Creator.NewCreator: the docstring promises a `ValueError` for parameter ranges disjoint from the grid. The code never raises it (the axes just come out empty), and the model follows the code.
- Constants.DictToTuple: the docstring calls the result a 4-tuple. The code returns eight or nine values, and the model follows the code.
- Archive.LoadFlux: the docstring (Starfish/grid_tools/base_interfaces.py:336) promises a `GridError` for a missing spectrum. The code lets h5py's `KeyError` through, as its own comment at line 351 says, and the model follows the code.
- Prior.LnProbOldAsWritten: inside the box, the `reshape` and `data` calls before line 448 depend on module-level data that is not modelled and may raise first. The model names only the `TypeError` of line 448 and does not distinguish the error that comes first.
- Physical constants of constants.py other than `c_kms` (`c_ang`, `n_air`, `G`, ...) and the exception classes: they are not used by the modelled code.

## Findings

| source | as written | input that shows it | evidently intended | confidence | as-written member | corrected member |
|---|---|---|---|---|---|---|
| constants.py:89 | Without `alpha`, `dict_to_tuple` reads `C.var_default['alpha']`, but constants.py never defines or imports `C`, so the branch raises `NameError`. | `{"temp": 5800, "logg": 4.5, "Z": 0, "vsini": 0, "vz": 0, "Av": 0, "Omega": 0}` | Use the module's own `var_default['alpha']` (0.0) for a missing `alpha`. | high; not executed | Constants.DictToTupleAsWritten | Constants.DictToTuple |
| model.py:448 | `lnprob_old` calls `model`, which takes six parameters (model.py:302), with five arguments and no `Av`. Every vector inside the box therefore raises `TypeError`. | `[5800, 4.5, 0, 0, 1]` | Evaluate the model and return the likelihood of the vector. | high; not executed | Prior.LnProbOldAsWritten | Prior.LnProbOld |
