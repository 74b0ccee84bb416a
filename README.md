# Deletion spectrum container, modelled in Dafny

This project models the deletion-spectrum container of `moments`
(`moments/Deletions/DelSpectrum.py`). A deletion spectrum for sample size `n`
is a two-dimensional frequency table whose meaningful cells are `(i, j)` with
`i + j <= n`. It is stored flat, row after row: row `i` holds `n + 1 - i`
entries, so the flat array has `(n + 1)(n + 2) / 2` entries.

Modules:

- `Types` (`types.dfy`): `Option`, `Result`, and one `Error` constructor per
  exception the source raises.
- `Validators` (`validators.dfy`): the attribute validators `positive`,
  `non_negative` and `finite`, and the `optional` wrapper, on a number type
  `Num` that has the reals, both infinities and NaN, with Python's comparison
  rules.
- `Triangle` (`triangle.dfy`): the index arithmetic of the packed triangle.
  It covers the flat length `Tri(n)`, the row offsets, and the flat position of
  each stored cell. It proves that stored cells and flat positions match one to
  one. It also infers a sample size from a data length.
- `DelSpectrum` (`del_spectrum.dfy`): construction as a specification
  function (`Construct`) and the class `Spectrum`. The class has the fields
  `data`, `sampleSize` and `folded`, and the methods `New` (constructor plus
  post-initialisation), `AsMaskedArray`, `GetItem` and `Project`.

Stored values are `real`; nothing does arithmetic on them. Two `array2`
values stand for the numpy masked array: the values and the mask.

Where the code differs from a plain reading of its intent, the model follows
the code:

- the sample-size validator runs only on a supplied argument, so a length-1
  data array yields sample size 0;
- `project` tests for the same size before the bounds, so `project(0)` on a
  size-0 spectrum returns it unchanged;
- `finite` and `positive` let NaN through.

The one exception is the length-0 case described under "## Findings".

## Model

| member | source | states |
|---|---|---|
| `Validators.Run` | moments/Deletions/DelSpectrum.py:9-21 | a failing validator reports one of the three errors, each naming the attribute |
| `Validators.PositiveAccepts` | moments/Deletions/DelSpectrum.py:9-11 | `positive` passes exactly the positive reals, plus infinity and NaN; otherwise it raises "must be greater than zero" |
| `Validators.NonNegativeAccepts` | moments/Deletions/DelSpectrum.py:14-16 | `non_negative` passes exactly the reals `>= 0`, plus infinity and NaN; otherwise it raises "must be non-negative" |
| `Validators.FiniteAccepts` | moments/Deletions/DelSpectrum.py:19-21 | `finite` rejects exactly the two infinities |
| `Validators.RunAll` | moments/Deletions/DelSpectrum.py:33-36 | the validator loop passes iff every validator passes; otherwise its error is that of the first validator that fails, and all earlier ones passed |
| `Validators.Optional` | moments/Deletions/DelSpectrum.py:33-36 | the wrapper's validator passes None; on a present value it passes iff every wrapped validator passes, and a failure is the failure of one of them |
| `Validators.OptionalAcceptsNone` | moments/Deletions/DelSpectrum.py:33-34 | the `optional` wrapper accepts None whatever it wraps |
| `Validators.SingleIsOneElementList` | moments/Deletions/DelSpectrum.py:28-31 | wrapping one validator equals wrapping a one-element list of it (through the helper `ValidatorList`, which turns a single validator into a list) |
| `Validators.OptionalPassesIffAllPass` | moments/Deletions/DelSpectrum.py:33-36 | on a present value, `optional(f)` passes iff every wrapped validator passes |
| `Validators.PositiveFiniteOutcome` | moments/Deletions/DelSpectrum.py:55-57 | `optional([positive, finite])` accepts None, positive reals and NaN; minus infinity is reported as not positive, infinity as not finite |
| `Triangle.OffsetClosedForm` | moments/Deletions/DelSpectrum.py:90-96 | the running offset `c` at the start of row `i` is `i(2n + 3 - i) / 2`, the sum of the earlier row lengths |
| `Triangle.OffsetTotal` | moments/Deletions/DelSpectrum.py:90-96 | after the last row the offset equals the flat length `(n + 1)(n + 2) / 2` |
| `Triangle.FlatIndex` | moments/Deletions/DelSpectrum.py:92-94 | the flat position of every stored cell lies inside the data array |
| `Triangle.FlatIndexInjective` | moments/Deletions/DelSpectrum.py:90-96 | two stored cells with the same flat position are the same cell |
| `Triangle.FlatIndexSurjective` | moments/Deletions/DelSpectrum.py:90-96 | every flat position is the position of some stored cell |
| `Triangle.RowFrom` | moments/Deletions/DelSpectrum.py:90-96 | returns the row whose span holds flat position k, and no other row's span holds it |
| `Triangle.SizeFrom` | moments/Deletions/DelSpectrum.py:61-73 | the search returns a size whose flat length is the given length, or None when no size from the start on has it |
| `Triangle.SizeFromLength` | moments/Deletions/DelSpectrum.py:61-73 | a length is accepted iff it is `(m + 1)(m + 2) / 2` for some `m >= 0`, and the inferred size is that `m` |
| `Triangle.SizeFromLengthOfTri` | moments/Deletions/DelSpectrum.py:67-73 | the flat length of size `m` infers back exactly `m` |
| `Triangle.SizeFromLengthRejectsEmpty` | moments/Deletions/DelSpectrum.py:70-72 | an empty data array has no sample size (corrected behaviour, see Findings) |
| `Triangle.SizeFromLengthOfOne` | moments/Deletions/DelSpectrum.py:70-75 | a one-entry array infers sample size 0 |
| `Triangle.SizeFromLengthAsWritten` | moments/Deletions/DelSpectrum.py:61-62 | the float formula's root, as written: an accepted length gives a size `>= -1` with that flat length |
| `Triangle.EmptyLengthAcceptedAsWritten` | moments/Deletions/DelSpectrum.py:61-75 | as written, length 0 infers sample size -1, where the corrected inference rejects it |
| `Triangle.AsWrittenAgreesOnNonEmpty` | moments/Deletions/DelSpectrum.py:61-73 | for every non-empty length the formula as written and the corrected inference agree |
| `DelSpectrum.Zeros` | moments/Deletions/DelSpectrum.py:67 | `np.zeros(k)`: `k` entries, all zero |
| `DelSpectrum.ValidateSampleSize` | moments/Deletions/DelSpectrum.py:55-57 | the sample-size argument passes iff it is absent or positive; otherwise it raises "sample_size must be greater than zero" |
| `DelSpectrum.Construct` | moments/Deletions/DelSpectrum.py:54-80 | a built spectrum's data length is the flat length of its sample size; given data is kept as is; a given sample size is kept; `folded` is stored |
| `DelSpectrum.ConstructNeedsDataOrSize` | moments/Deletions/DelSpectrum.py:64-65 | with neither data nor a sample size, construction raises |
| `DelSpectrum.ConstructRejectsNonPositiveSize` | moments/Deletions/DelSpectrum.py:55-57 | a supplied sample size `<= 0` raises before any other check, whatever the data |
| `DelSpectrum.ConstructFromSizeOnly` | moments/Deletions/DelSpectrum.py:66-80 | given only `n > 0`, the data is all zeros of length `(n + 1)(n + 2) / 2` and the size stays `n` |
| `DelSpectrum.ConstructFromDataOnly` | moments/Deletions/DelSpectrum.py:70-75 | given only data, construction succeeds iff its length is triangular; the size is then the `m` of that length; otherwise it raises "Length of data is not valid" |
| `DelSpectrum.InferredSizeNotRevalidated` | moments/Deletions/DelSpectrum.py:73-75 | a one-entry data array is accepted with sample size 0, since the positivity check never sees an inferred size |
| `DelSpectrum.ConstructFromBoth` | moments/Deletions/DelSpectrum.py:70-80 | given both, construction succeeds iff the length is the flat length of the given size; a non-empty non-triangular length raises the invalid-length error; an empty array, whose inferred size is -1, and a triangular length of another size raise the mismatch error |
| `DelSpectrum.Unpacked` | moments/Deletions/DelSpectrum.py:86-96 | cell `(i, j)` of the unpacked square holds a value iff `i + j <= n`, and that value is `data[off(i) + j]`; every other cell is masked |
| `DelSpectrum.NormalizeIndex` | moments/Deletions/DelSpectrum.py:108-109 | numpy's index rule on an axis of length `n + 1`: an index is valid iff it lies in `-(n + 1) .. n`, and a valid one names the cell congruent to it modulo `n + 1` |
| `DelSpectrum.EveryEntryShownOnce` | moments/Deletions/DelSpectrum.py:86-96 | every flat entry appears in exactly one unmasked cell of the square |
| `DelSpectrum.ProjectGuard` | moments/Deletions/DelSpectrum.py:111-119 | `project`'s guards: a non-integer raises; the current size means "same object"; otherwise `<= 0` and `> n` raise; it projects exactly when `0 < n_proj < n` |
| `DelSpectrum.ProjectSameSizeFirst` | moments/Deletions/DelSpectrum.py:114-117 | the same-size test precedes the positivity test: size 0 projects to 0 unchanged, while 0 is rejected for any larger size |
| `DelSpectrum.Spectrum.constructor` | moments/Deletions/DelSpectrum.py:54-58 | stores the three attributes of an already checked spectrum |
| `DelSpectrum.Spectrum.New` | moments/Deletions/DelSpectrum.py:54-80 | runs the validator and the post-initialisation steps; it fails exactly when `Construct` fails, with the same error, and otherwise yields a new valid spectrum with `Construct`'s fields |
| `DelSpectrum.Spectrum.AsMaskedArray` | moments/Deletions/DelSpectrum.py:82-98 | returns newly allocated `(n + 1) x (n + 1)` values and mask; cell `(i, j)` is unmasked iff `i + j <= n`; there it holds `data[off(i) + j]`, elsewhere 0 (that the counter ends at `len(data)` is `Triangle.OffsetTotal`) |
| `DelSpectrum.Spectrum.GetItem` | moments/Deletions/DelSpectrum.py:108-109 | reads cell `(i, j)` of that square; negative indices count from the end; out-of-range indices raise; a masked cell gives the masked constant |
| `DelSpectrum.Spectrum.Project` | moments/Deletions/DelSpectrum.py:111-122 | follows `ProjectGuard`: the same object, the guard's error, or a new spectrum built from the projected data with no sample size; if the projected length is that of the requested size, the result has that size and `folded` false |

## Findings

| source | as written | input that shows it | evidently intended | confidence | as-written member | corrected member |
|---|---|---|---|---|---|---|
| moments/Deletions/DelSpectrum.py:61-75 | `_get_n_from_length(0)` is `(sqrt(1) - 1) / 2 - 1 = -1`, a whole number. So an empty data array passes the length check, and `sample_size` becomes -1. | `Spectrum(data=np.array([]))` | reject an empty array as "Length of data is not valid". A supplied sample size must be positive, so -1 is never a valid size. | medium; not executed | `Triangle.EmptyLengthAcceptedAsWritten` (on `Triangle.SizeFromLengthAsWritten`) | `Triangle.SizeFromLength`, proved by `Triangle.SizeFromLengthRejectsEmpty` |

The rest of the model (`Construct`, `Spectrum.New`) uses the corrected
`SizeFromLength`. The correction only matters when no sample size is given.
With `Spectrum(data=np.array([]), sample_size=3)`, the source infers -1 and
raises the mismatch error "Data does not have valid length for sample size =
3". `Construct` keeps that error for an empty array with a supplied size, so
the correction does not change this case.

## Left out

- `__repr__` (moments/Deletions/DelSpectrum.py:100-106): string formatting only. It prints `folded=False` whatever the field holds.
- `folded` is stored but never read, so it has no behaviour to model.
- `util.project` is not part of this model. Its hypergeometric down-projection is floating point. `Spectrum.Project` takes it as the function parameter `downProject`.
- Floating point in `_get_n_from_length`: `np.sqrt`, `np.isclose` and `np.rint` are replaced by an exact search for `m` with `(m + 1)(m + 2) / 2 == len(data)`.
- `Triangle.SizeFromLength` rejects every non-triangular length. The source does not. `np.isclose` has a relative tolerance of 1e-5, so the source accepts non-triangular lengths from 50402 on. Length 50402 is one less than the flat length for sample size 316, and it infers size 316. Lengths 50404, 50720, 50722 and more beyond also pass. For a length just below a flat length, such as 50402 or 50720, the source then raises in `_as_masked_array`, because the last row's slice of the data is short. For a length just above one, such as 50404 or 50722, the source accepts the spectrum. Its extra entries are never read by `_as_masked_array` or `__getitem__`, so they are silently dropped. The model rejects both kinds with the invalid-length error.
- The numpy masked array: it is modelled as a pair of `array2` values. The arrays are built in place, but numpy's masked-array arithmetic and fill value are not modelled.
- `Validators.FiniteAccepts`: `math.isinf` converts its argument to a float, so a Python int of 2**1024 or more raises `OverflowError` in the source; the model treats every integer as a finite real, which `finite` passes.
- `DelSpectrum.ValidateSampleSize`: for the same reason, a sample size of 2**1024 or more raises `OverflowError` in the source, but passes the validator in the model, and `Construct(None, Some(n), _)` succeeds for it.
- `Spectrum.New`: takes the sample size as an integer or None. A float sample size such as `5.0` is not modelled for construction, because `np.zeros` and the comparisons would then involve floats. The validators themselves are modelled on general numbers.
- `Spectrum.GetItem`: models only a key that is a pair of integers. Slices, a single row index and fancy indexing are not modelled.
- `Spectrum.Project`: the `isinstance(n_proj, int)` test is modelled as the choice between `IntArg` and `NonInt`. Python's `bool` counts as `int`, and numpy integers do not; callers must classify the argument themselves.
- Aliasing: `data` is a value sequence. In Python the spectrum keeps the caller's array object, so later changes by the caller would be visible through the spectrum. The model does not capture this.
- tests/test_Demes.py and bench/demographic_models_dadi.py are not modelled. They test or wrap numerical code whose source is not part of this model: the graph-to-spectrum compiler and the `dadi` integrator.
