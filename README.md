# Coupled biased random walks: fitting the model

This project models how the `CBRW` detector is fitted. Fitting turns the statistics of an
observation counter into two things. The first is a bias weight for every value of every feature.
The second is a row-normalised transition matrix over all symbols, where a symbol is a
(feature, value) pair.

- `observations.dfy` (module `Observations`) describes the counter statistics that fitting reads.
  These are the symbol index, the per-feature value counts, the joint counts of co-occurring
  pairs, the per-symbol counts and the number of observations. `Counter.Valid()` is what the
  counter promises about them. The counter itself is not part of this model.
- `biases.dfy` (module `Biases`) holds the pure bias arithmetic: the mode of a feature, its base
  `1 - mode / n_obs` and a value's bias `0.5 * ((1 - count / mode) + base)`.
- `matrices.dfy` (module `Matrices`) holds coordinate-format entries, how they are assembled into
  an n-by-n matrix (weights on the same cell are summed) and row normalisation.
- `detection.dfy` (module `Detection`) holds the class `CBRW`. Its fields `biasDict` and
  `transMatrix` are the fitted state. `ComputeBiases` and `CollectEntries` are the loops of the
  source. They are proved against the specification functions `FittedBiases` and `RawMatrix`, and
  the lemmas beside those functions state the promised properties.

A sparse matrix is modelled by the dense matrix it stands for (`seq<seq<real>>`, an entry that is
not stored being 0). Arithmetic is exact (`real`). Every quantity is a ratio of counts, so the
"each row sums to 1" property holds exactly.

Direction of the edge weights. A joint count `j` of the pair
`(s1, s2)` puts `bias(s2) * j / count(s2)` at row `index[s1]`, column `index[s2]`. It puts
`bias(s1) * j / count(s1)` at row `index[s2]`, column `index[s1]`. So the column symbol supplies
the bias and the denominator (detection.py:40-45).

A bias can be 0. A value present in every observation is its feature's mode, its feature's base is
0, and so is its bias (detection.py:55-63, `Biases.UbiquitousValueHasZeroBias`).

The model reproduces two ways in which fitting fails. With no observation, `fit` fails with "no observations provided"
before touching the fitted state. With observations but no joint count at all (every observation
has a single feature), the coordinate list is empty, and building the sparse matrix from it fails
with SciPy's "invalid input format" (detection.py:48). By then the bias weights have already been
replaced, and the previous transition matrix is kept. Both failures are `Err` results in the model.
The source can fail in a third way, which the model does not reproduce: a bias of 0 leaves stored
zeros that make the row normalisation raise (detection.py:80-81; see "## Left out").

## Model

| member | source | states |
|---|---|---|
| Biases.MostCommonExists | coupled-biased-random-walks/detection.py:66-67 | every non-empty value-count map has a count that is at least every other count |
| Biases.GetMode | coupled-biased-random-walks/detection.py:65-67 | the mode is a count of some value of the feature and no value's count exceeds it |
| Biases.Base | coupled-biased-random-walks/detection.py:55 | for 0 < mode <= n_obs the base lies in [0, 1), and it is 0 exactly when the mode equals n_obs |
| Biases.ComputeBias | coupled-biased-random-walks/detection.py:60-63 | for 0 < count <= mode the bias lies in [base/2, (1+base)/2), and it equals base/2 exactly when count == mode |
| Biases.BiasDecreasesWithCount | coupled-biased-random-walks/detection.py:60-63 | a larger count gives a strictly smaller bias |
| Biases.FeatureBiases | coupled-biased-random-walks/detection.py:53-57 | one feature's update gives a bias to exactly that feature's values |
| Biases.FeatureBiasesOrder | coupled-biased-random-walks/detection.py:53-57 | within a feature, the rarer value has the strictly larger bias, and equal counts give equal biases |
| Biases.FeatureBiasesBounds | coupled-biased-random-walks/detection.py:53-57 | each bias lies in [base/2, (1+base)/2) of its feature, and the feature's most frequent values have exactly base/2 |
| Biases.FeatureBiasesInUnitInterval | coupled-biased-random-walks/detection.py:53-57 | when no count exceeds n_obs, every bias of the feature lies in [0, 1) |
| Biases.UbiquitousValueHasZeroBias | coupled-biased-random-walks/detection.py:54-63 | a value seen in every observation has bias 0 |
| Biases.ExampleFeatureBiases | coupled-biased-random-walks/detection.py:53-63 | counts {1: 2, 2: 1} over 3 observations give biases 1/6 and 5/12 |
| Matrices.CellSumUntouched | coupled-biased-random-walks/detection.py:48 | a cell that no coordinate entry lands on holds 0 (the sum defining `Matrices.CellSum`) |
| Matrices.CellSumAppend | coupled-biased-random-walks/detection.py:48 | appending a coordinate entry adds its weight to its own cell and to no other |
| Matrices.CellSumNonNegative | coupled-biased-random-walks/detection.py:48 | non-negative entries sum to a non-negative cell |
| Matrices.AssembleNonNegative | coupled-biased-random-walks/detection.py:47-48 | non-negative entries assemble (`Matrices.Assemble`, the n-by-n matrix whose cells sum the weights of the entries placed there) into a non-negative matrix |
| Matrices.SumOfZeroRow | coupled-biased-random-walks/detection.py:78 | an all-zero row sums to 0 (the row sum `Matrices.Sum` of `sum(axis=1)`) |
| Matrices.SumBounds | coupled-biased-random-walks/detection.py:78 | a non-negative row sum is at least 0 and at least each entry |
| Matrices.SumDivideNonZero | coupled-biased-random-walks/detection.py:78-80 | dividing only the non-zero entries of a row by t (`Matrices.DivideNonZero`, zero entries left undivided) divides the row sum by t |
| Matrices.QuotientsInUnitInterval | coupled-biased-random-walks/detection.py:80 | an entry divided by a bound on all entries lies in [0, 1] |
| Matrices.NormalizeRow | coupled-biased-random-walks/detection.py:76-81 | a normalised row has the same length and the same non-zero positions, entries in [0, 1], and each non-zero entry divided by the positive row sum |
| Matrices.RowNormalize | coupled-biased-random-walks/detection.py:70-81 | a new matrix of the same shape with the same non-zero positions and entries in [0, 1], each non-zero entry divided by its positive row sum |
| Matrices.NormalizeRowSumsToOne | coupled-biased-random-walks/detection.py:76-81 | a row with a non-zero entry sums to exactly 1 after normalisation |
| Matrices.NormalizeZeroRow | coupled-biased-random-walks/detection.py:76-81 | an all-zero row is returned unchanged |
| Matrices.RowNormalizeIsStochastic | coupled-biased-random-walks/detection.py:70-81 | every row of the normalised matrix sums to 1, or is the all-zero row it was |
| Matrices.RowNormalizeIdempotent | coupled-biased-random-walks/detection.py:70-81 | normalising a normalised matrix changes nothing |
| Detection.FittedBiases | coupled-biased-random-walks/detection.py:51-58 | the fitted biases cover exactly the values of all features, each computed with its own feature's mode and base |
| Detection.FittedBiasesInUnitInterval | coupled-biased-random-walks/detection.py:51-58 | every fitted bias lies in [0, 1) |
| Detection.FittedBiasesDeterministic | coupled-biased-random-walks/detection.py:51-58 | any map that gives each feature's values their feature's biases is the fitted biases, whatever order the features are visited in |
| Detection.AddFeatureBiases | coupled-biased-random-walks/detection.py:53-57 | merging one more feature's biases keeps the map equal to the biases of exactly the features done |
| Detection.EdgeWeightNonNegative | coupled-biased-random-walks/detection.py:42-45 | an edge weight (`Detection.EdgeWeight`, the bias of the given symbol times the joint count over the given symbol's count) is non-negative |
| Detection.EdgeWeightPositive | coupled-biased-random-walks/detection.py:42-45 | an edge weight from a positive bias and a positive joint count is positive |
| Detection.RawCellNonNegative | coupled-biased-random-walks/detection.py:40-45 | every raw cell is non-negative |
| Detection.RawCellAddPair | coupled-biased-random-walks/detection.py:40-45 | one more joint count adds p(s1 given s2) to cell (index s1, index s2) and p(s2 given s1) to cell (index s2, index s1), and nothing elsewhere |
| Detection.RawMatrix | coupled-biased-random-walks/detection.py:27-48 | the matrix before normalisation is n-by-n with n = number of indexed symbols, and non-negative |
| Detection.RawMatrixAt | coupled-biased-random-walks/detection.py:30-48 | cell (index a, index b) is the sum of the edge weights given b of the joint counts of (a, b) and (b, a), and 0 if a and b never co-occurred |
| Detection.RawMatrixNoSelfLoops | coupled-biased-random-walks/detection.py:30-48 | the diagonal is 0 |
| Detection.IsolatedSymbolRowIsZero | coupled-biased-random-walks/detection.py:30-48 | a symbol in no joint count has an all-zero row |
| Detection.PairedSymbolRowIsNonZero | coupled-biased-random-walks/detection.py:40-42 | a joint count (s1, s2) with s2 of positive bias gives a positive cell (index s1, index s2) |
| Detection.FittedMatrix | coupled-biased-random-walks/detection.py:23-24 | the fitted matrix is n-by-n and non-negative |
| Detection.FittedMatrixFromBiases | coupled-biased-random-walks/detection.py:23-24 | the fitted biases are weighable, and the fitted matrix is the normalised raw matrix built from them |
| Detection.FittedMatrixIsStochastic | coupled-biased-random-walks/detection.py:49 | every row of the fitted matrix sums to 1 or is all zero (exactly when its raw row is), and the diagonal is 0 |
| Detection.AppendPairEntries | coupled-biased-random-walks/detection.py:32-45 | appending the two entries of one joint count (`Detection.PairEntries`, p(s1 given s2) at (index s1, index s2) and p(s2 given s1) at (index s2, index s1)) keeps every cell equal to the raw weight of the pairs done |
| Detection.CollectEntries | coupled-biased-random-walks/detection.py:28-45 | the loop's entries lie in range, are two per joint count, and account exactly for the raw weight of all joint counts |
| Detection.AssembledIsRaw | coupled-biased-random-walks/detection.py:47-48 | assembling (`Matrices.Assemble`) entries that account for all joint counts gives the raw matrix |
| Detection.CBRW.constructor | coupled-biased-random-walks/detection.py:12-15 | a new model holds the counter and has no biases and no transition matrix |
| Detection.CBRW.ComputeBiases | coupled-biased-random-walks/detection.py:51-58 | the loop stores exactly the fitted biases |
| Detection.CBRW.ComputeTransMatrix | coupled-biased-random-walks/detection.py:27-49 | with no joint count it fails with "invalid input format" and leaves the matrix unchanged; otherwise it stores the row normalisation of the raw matrix built from the stored biases |
| Detection.CBRW.Fit | coupled-biased-random-walks/detection.py:20-25 | with no observations it fails with "no observations provided" and leaves both fields unchanged; with observations but no joint count it stores the fitted biases, then fails with "invalid input format" and keeps the old matrix; otherwise it stores the fitted biases and the fitted matrix and returns the model itself |

## Left out

- The observation counter and `add_observations` are left out, because the counting logic is not part of this model. `add_observations` only hands observations to the counter. The counter's statistics are a value (`Observations.Counter`) given to the constructor, and `Counter.Valid()` states what fitting relies on.
- Detection.CBRW.constructor: takes the counter statistics as a parameter. The source creates an empty counter, which `add_observations` fills later.
- SciPy's sparse-matrix internals are left out, except the one failure they cause here: an empty coordinate list is rejected, which the model returns as `Err("invalid input format")`. The exception type (`TypeError`) is not modelled, only its message. The compressed-sparse-row matrix is modelled by the dense matrix it represents. Building it from coordinate triples sums the weights per cell. `nonzero()` and `sum(axis=1)` are modelled by their mathematical meaning.
- Stored zeros are left out. A bias of 0 produces an entry of weight 0, which SciPy stores explicitly. This happens whenever a feature has a value present in every observation and some other feature exists, since the entries whose column is that value then weigh 0. `matrix.data` then holds more entries than the positions returned by `nonzero()`. Unless `nonzero()` finds exactly one entry, the division at detection.py:80 raises a broadcast error. When it finds exactly one, the division broadcasts, but building the result at detection.py:81 from arrays of different lengths raises. Either way `fit` fails. The model normalises over the non-zero entries only and does not reproduce this failure.
- Detection.CBRW.ComputeTransMatrix: returns `Ok` and stores the normalised matrix when a stored bias of 0 yields zero-weight entries. The source raises there, at detection.py:80 or detection.py:81.
- Detection.CBRW.Fit: returns `Ok(this)` when a feature has a value present in every observation and another feature exists. The source's `fit` raises there, in the normalisation at detection.py:80-81.
- Floating-point rounding is left out. Arithmetic is exact over `real`.
- Dictionary and set iteration order is left out. Each loop picks the next feature or joint count nondeterministically. The lemmas show the result does not depend on that choice.
- Dictionary overwrites when two features share a value key are left out. `Counter.ValidCounts()` requires every symbol to be a value of one feature only. Symbols carry their feature name, so they are distinct across features.
- Matrices.RowNormalize: requires non-negative entries. With negative entries a row could sum to 0 and be divided by 0. Every matrix the detector builds is non-negative (`Detection.RawMatrix`).
- Detection.CBRW.ComputeTransMatrix: requires every symbol of a joint count to have a bias and a positive count. The source would raise a key or division error otherwise, and that error is not modelled. `Detection.CBRW.Fit` establishes the requirement from `Counter.Valid()`.
- Detection.CBRW.Fit: requires `Counter.Valid()`, the contract of the counter whose code is not part of this model.
- The `six` iteration helpers are left out. Iterating over a dictionary is modelled directly.
- Anomaly scoring over the fitted matrix is left out, because it is not part of the fitting code.
