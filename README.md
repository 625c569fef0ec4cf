# MaNGA MPL10 helpers: data-product paths and major-axis dispersion sampling

This project models, in Dafny, the two discrete parts of a small set of
analysis scripts for the MaNGA galaxy survey (data release MPL10):

- **Data-product paths** (`GalaxyPaths`, FileDir_generator.py; `PlotGalaxy`,
  PlotGalaxy.py). `generate_dir_from` reads the PLATE and IFUDESIGN columns
  of the sample catalog. For each row it builds the path
  `MPL10/<plate>/<ifu>/manga-<plate>-<ifu>-MAPS-SPX-MILESHC-MASTARHC2.fits.gz`.
  It first makes the directory part `dapdir`, then the file name `dapname`,
  and appends their concatenation to the list `gal_dir`.
  `GalaxyPaths.GenerateDirFrom` is that loop, proved against the pure
  `GalaxyPaths.DapPath`. `plot_galaxy` spells out the same path in one
  concatenation. `PlotGalaxy.FileDir` is proved equal to `DapPath`. For
  numeric plate and IFU numbers, the path determines the pair
  (`GalaxyPaths.SamePathSameGalaxy`).
- **Major-axis dispersion samples** (`MajorAxis`, find_ma_sigma.py). After
  the position-angle fit, `find_ma_sigma` picks an independent axis. It steps
  along `nx` when `45 < angBest < 135`, and along `ny` otherwise. At each step
  it turns the centred coordinates back into array indices with Python's
  `round`. It keeps a sample only if `y_int < ssig.shape[1]` and
  `x_int < ssig.shape[0]`, and reads that sample with numpy's indexing.
  At the end it drops the zero samples. `MajorAxis.FindMaSigma` runs one of the two
  loops of the source (`CollectAlongNx`, `CollectAlongNy`), proved against the function `MajorAxis.MajorAxisSigma`.
  `MajorAxis.Collect` models the collection loop, whose outcome may be an
  IndexError. `MajorAxis.NonZero` models the final list comprehension.

The dispersion map `ssig` is an `array2<real>` that is only read. Its
`Length0` and `Length1` play the part of `ssig.shape[0]` and `ssig.shape[1]`.
From the velocity map `svel`, only its shape matters here (`velShape0`, `velShape1`).
The fitter and the line fit are inputs. `angBest` is the fitted angle.
`fitted[k]` is the value of the fitted line at step `k`: `a * i + b` when
stepping along `nx`, `(i - b) / a` when stepping along `ny`. The model adds
half of the map shape and rounds, as the source does.

Two behaviours are modelled exactly as written. Lemmas spell each one out.

- The bounds check tests only the upper bound. A negative index passes it,
  and numpy then counts from the end of the axis
  (`MajorAxis.NegativeIndexWraps`). An index below `-N` raises IndexError.
- The check compares the row with `shape[1]` and the column with `shape[0]`,
  which is the wrong way round. On a square map, as MaNGA maps are, this does
  no harm (`MajorAxis.SquareMapFailsOnlyBelowMinusN`). On a `ssig` of 2×3,
  row 2 passes the check and the lookup raises (`MajorAxis.NonSquareMapCanRaise`).
  The whole function only gets that far when `svel` has a shape whose axes
  broadcast (equal lengths, or one of length 1), so such an `ssig` must differ
  in shape from `svel`.

A `svel` whose two axes have different lengths, both above 1, or an empty axis,
makes `max(nx**2 + ny**2)` raise ValueError before either loop
(`MajorAxis.RadiusDefined`, `MajorAxis.NonSquareVelocityMapRaises`).

`angBest = 90` lies strictly inside (45, 135), so it steps along `nx`; the
boundary values 45 and 135 step along `ny` (`MajorAxis.BranchBoundaries`).

## Model

| member | source | states |
|---|---|---|
| `GalaxyPaths.DapDir` | FileDir_generator.py:67 | the directory part starts with `MPL10/`, ends with `/`, and has the length of its two numbers plus the fixed separators |
| `GalaxyPaths.DapName` | FileDir_generator.py:68-69 | the file name starts with `manga-` and ends with `-MAPS-SPX-MILESHC-MASTARHC2.fits.gz`, with matching length; it holds no `/` when plate and ifu hold none |
| `GalaxyPaths.DapPath` | FileDir_generator.py:67-70 | every path has prefix `MPL10/` and suffix `-MAPS-SPX-MILESHC-MASTARHC2.fits.gz`; for slash-free plate and ifu, the path's last `/` ends `dapdir`, so splitting there gives back `dapdir` and `dapname` |
| `GalaxyPaths.DapPathSpelledOut` | FileDir_generator.py:67-70 | the path equals the full literal concatenation of plate, ifu and the fixed pieces |
| `GalaxyPaths.GenerateDirFrom` | FileDir_generator.py:59-73 | one entry per catalog row, in row order; entry `i` is the path built from `plate[i]` and `ifu[i]`; an empty catalog gives an empty list |
| `GalaxyPaths.SlashJoinInjective` | FileDir_generator.py:67 | joining two strings with `/`, the first free of `/`, can be undone uniquely |
| `GalaxyPaths.DapPathInjective` | FileDir_generator.py:67-70 | for slash-free plate and ifu strings, equal paths imply equal plates and equal ifus |
| `GalaxyPaths.Decimal` | FileDir_generator.py:53-54 | the string form of a catalog number is non-empty and all decimal digits, is `"0"` for zero and has no leading zero otherwise |
| `GalaxyPaths.DecimalRoundTrip` | FileDir_generator.py:53-54 | reading the string form back in base 10 gives the number |
| `GalaxyPaths.DecimalInjective` | FileDir_generator.py:53-54 | different numbers have different decimal strings |
| `GalaxyPaths.SamePathSameGalaxy` | FileDir_generator.py:53-71 | two catalog rows whose numbers give the same path have the same plate and the same IFU design |
| `PlotGalaxy.FileDir` | PlotGalaxy.py:33-34 | the file `plot_galaxy` opens for a pair is exactly the path `generate_dir_from` lists for it |
| `MajorAxis.IterateHorizontally` | find_ma_sigma.py:68 | the `ny` branch (line 86) is taken exactly when `angBest <= 45` or `angBest >= 135` |
| `MajorAxis.IterateCount` | find_ma_sigma.py:69-87 | the number of loop steps is `svel.shape[0]` (the length of `nx`) on the `nx` branch and `svel.shape[1]` (the length of `ny`) on the `ny` branch, so at most the larger of the two |
| `MajorAxis.CoordX` | find_ma_sigma.py:39 | adding half of `shape[0]` back to `nx[k]` gives exactly `k` |
| `MajorAxis.CoordY` | find_ma_sigma.py:40 | adding half of `shape[1]` back to `ny[k]` gives exactly `shape[1] - k` |
| `MajorAxis.AxisIndex` | find_ma_sigma.py:73-89 | along `nx` the column is `k` and the row is within 1/2 of the fitted value plus half of `shape[1]`; along `ny` the row is `shape[1] - k` and the column is within 1/2 of the fitted value plus half of `shape[0]`; a dependent index halfway between two integers is the even one, as Python's `round` gives it |
| `MajorAxis.Candidates` | find_ma_sigma.py:69-89 | one index per loop step, in loop order: step `k` gets the index `AxisIndex` gives for `fitted[k]` and `k`, so the independent index is `k` along `nx` and `shape[1] - k` along `ny` and the dependent one is the rounded `fitted[k]` plus half the other shape |
| `MajorAxis.PassesBoundsCheck` | find_ma_sigma.py:80 | on a square map, for non-negative indices, the check passes exactly when the index lies inside the map |
| `MajorAxis.BranchBoundaries` | find_ma_sigma.py:68 | 45 and 135 themselves, 0 and 180 take the `ny` branch; 45.0001, 90 and 134.9999 take the `nx` branch |
| `MajorAxis.PyRound` | find_ma_sigma.py:73-76 | the result is an integer within 1/2 of the argument, and even when the argument lies halfway between two integers |
| `MajorAxis.PyRoundExamples` | find_ma_sigma.py:73-76 | ties go to the even neighbour (2.5 to 2, 3.5 to 4, -0.5 to 0, -1.5 to -2); other values go to the nearest integer |
| `MajorAxis.NumpyAxis` | find_ma_sigma.py:81-83 | an index is accepted iff `-n <= i < n`, and then denotes position `i mod n` |
| `MajorAxis.Lookup` | find_ma_sigma.py:91 | `ssig[y_int, x_int]` yields a value iff both indices lie in numpy's accepted range of their axis, and that value is the cell at `row mod shape[0]`, `col mod shape[1]` |
| `MajorAxis.Collect` | find_ma_sigma.py:64-92 | at most one sample per loop step; an IndexError is raised only at a step that passed the check and whose lookup numpy rejects |
| `MajorAxis.Kept` | find_ma_sigma.py:80 | the steps that pass the check are at most all steps, a step is among them iff it passes, and when none is dropped they are all the steps in order |
| `MajorAxis.KeptIsSubsequence` | find_ma_sigma.py:69-90 | the steps that pass the check are a subsequence of the steps: loop order is kept |
| `MajorAxis.CollectIsKeptLookups` | find_ma_sigma.py:69-92 | the loop raises iff some step that passes the check has an unreadable index; otherwise it returns the value of each passing step, one each, in loop order, and drops the failing steps silently |
| `MajorAxis.CollectErrorPersists` | find_ma_sigma.py:81 | once IndexError is raised, later steps do not change the outcome |
| `MajorAxis.KeptShorter` | find_ma_sigma.py:90 | one step that fails the check means fewer kept steps than steps |
| `MajorAxis.NonZero` | find_ma_sigma.py:96 | the filtered list is no longer than the input, has no zero, and has the input's multiset of non-zero values |
| `MajorAxis.NonZeroIsSubsequence` | find_ma_sigma.py:96 | the filtered list is a subsequence of the input: order is kept |
| `MajorAxis.NonZeroKeepsZeroFree` | find_ma_sigma.py:96 | a list with no zero passes the filter unchanged |
| `MajorAxis.NonZeroIdempotent` | find_ma_sigma.py:96 | filtering twice gives the same as filtering once |
| `MajorAxis.NonZeroAppend` | find_ma_sigma.py:96 | filtering a concatenation is the concatenation of the filtered parts |
| `MajorAxis.MajorAxisSigma` | find_ma_sigma.py:53-98 | ValueError is raised exactly when `svel`'s axes do not broadcast or one is empty; the returned samples number at most the loop steps and contain no zero |
| `MajorAxis.NonSquareVelocityMapRaises` | find_ma_sigma.py:39-53 | a 2×3 `svel` raises ValueError, a 1×3 one does not |
| `MajorAxis.CollectAlongNx` | find_ma_sigma.py:69-84 | the `for i in nx` loop returns exactly what `Collect` gives for the steps along `nx` |
| `MajorAxis.CollectAlongNy` | find_ma_sigma.py:87-92 | the `for i in ny` loop returns exactly what `Collect` gives for the steps along `ny` |
| `MajorAxis.FindMaSigma` | find_ma_sigma.py:53-98 | the shape test and the two loops compute `MajorAxisSigma`; the result has at most `shape[0]` samples along `nx` (`shape[1]` along `ny`) and no zero |
| `MajorAxis.HorizontalOnlyRowCanFail` | find_ma_sigma.py:73-80 | along `nx`, on a map at least as wide as `svel`, a step passes the check iff its row is below `shape[1]` |
| `MajorAxis.VerticalFirstStepDropped` | find_ma_sigma.py:87-92 | along `ny`, with `ssig.shape[1] == svel.shape[1]`, the first step (row `shape[1]`) always fails the check, so fewer than `shape[1]` samples come back |
| `MajorAxis.NegativeIndexWraps` | find_ma_sigma.py:80-84 | every row from `-shape[0]` to -1 passes the check, and the sample read is the one in row `row + shape[0]` |
| `MajorAxis.SquareMapFailsOnlyBelowMinusN` | find_ma_sigma.py:80-83 | on a square map an IndexError comes only from an index below `-N` |
| `MajorAxis.NonSquareMapCanRaise` | find_ma_sigma.py:80-83 | on a 2×3 map, row 2 passes the check with swapped axes and the lookup raises IndexError |

## Left out

- Reading the catalog with `fits.open` (FileDir_generator.py:43-54). `GenerateDirFrom` takes the two columns already converted to strings. `Decimal` models the conversion only for non-negative integers.
- `GenerateDirFrom` requires `|plate| <= |ifu|`. That is exactly what the loop needs not to raise. Both columns come from one table row by row, so the lengths are always equal.
- All of PlotGalaxy.py except the path: FITS reading (lines 35-48), the replacement of zeros by NaN (lines 51-53), the plots, the image path and `savefig`. These are plotting and floating-point sentinel handling.
- `fit_kinematic_pa` (find_ma_sigma.py:45-49). It is a third-party fitter whose code is not part of this model. Its angle `angBest` is an input. Its failure to converge, and any error it raises itself for a `svel` shape, are not modelled.
- `np.meshgrid` (find_ma_sigma.py:41). It only feeds the fitter.
- The floating-point geometry: the value of `rad` (only its ValueError is modelled), `ang`, `np.polyfit`, `sin`, `cos` (find_ma_sigma.py:53-59), and the evaluation of the fitted line. The line value for each step is the input `fitted`. The model adds half the shape and applies Python's rounding.
- `FindMaSigma` requires one fitted value per loop step, which the line evaluation always supplies.
- Float effects. Dafny reals are exact. So the model has no NaN sample (which `x != 0` would keep), no `-0.0` (which it would drop), and no infinite line value (from `a == 0` along `ny`, which would make `int(round(...))` raise OverflowError). `nx[k] + shape/2` is exact in the model, as it is in floating point for any realistic map size.
- The contents of `svel`. Only its shape enters the loop, and the model does not check that `svel` and `ssig` have the same shape, just as the source does not.
- The unused `matplotlib` import in find_ma_sigma.py.
