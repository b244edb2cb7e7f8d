# thetafit: adaptive Metropolis sampler and parameter partition, in Dafny

thetafit fits the parameters of a user objective `ssfun(theta_dict, data)`
(a sum of squares) by an adaptive random-walk Metropolis sampler. Some
parameters are free (`target=True`) and are sampled; the others are fixed at
their `init` value. This project models two parts of it:

- `thetafit/utils.py`, in module `Utils` (`utils.dfy`):
  - `McmcOptions` and its `printint` default;
  - the `Parameter` record and its defaults, with bounds as extended reals;
  - `vectorize_ssfun`: the free/fixed partition, the `th_no_opt` map, the
    merged name->value map given to the objective, and the failure when no
    parameter is free.
- `thetafit/sampling.py`, in two modules:
  - `Sampling` (`sampling.dfy`) holds the pure parts:
    - `accept` and `out_of_bounds`;
    - the adaptation schedule and the shape of the adapted covariance;
    - the results record and the chain table;
    - a step-by-step functional specification `Run` of the main loop of
      `sample`, and the invariants it keeps.
  - `Sampler` (`sampler.dfy`) holds `sample` itself, imperatively:
    - `Iterate` preallocates the `chain`/`sschain` arrays, and `Loop` fills
      them one row per iteration in a `while` loop;
    - it is proved equal to `Run`.
  - `SamplerProperties` (also in `sampler.dfy`) states what a call of
    `sample` promises.

Randomness and numerics are inputs of the model:
- the proposal `np.random.multivariate_normal(oldpar, prop_cov)` at
  iteration i is `draw(oldpar, prop_cov rows, i)`;
- the uniform draws `np.random.random()` are a sequence read from the front,
  one draw consumed only when `0 < acc_prob < 1`;
- `np.exp(-0.5 * (newss - oldss))` is an arbitrary function `accProb` of the
  score difference;
- entry (j, k) of `np.cov(rows, rowvar=False)` is an arbitrary function
  `covEntry(rows, j, k)`.

The module `Wrappers` (`wrappers.dfy`) holds `Option` and `Result`.

## Model

| member | source | states |
|---|---|---|
| Utils.NewMcmcOptions | thetafit/utils.py:4-17 | nsimu, adaptint and qcov are stored as given; printint is adaptint when absent, otherwise the given value |
| Utils.PrintintDefaultsToAdaptint | thetafit/utils.py:6-16 | the defaults are nsimu 10000, adaptint 100, qcov None; printint then follows adaptint (100, or the adaptint given) |
| Utils.ParameterDefaults | thetafit/utils.py:20-30 | a Parameter built from name and init has minimum -inf, maximum +inf and target true, so no real lies outside its bounds |
| Utils.Select | thetafit/utils.py:35 | a comprehension over the parameters is no longer than the parameter list |
| Utils.Positions | thetafit/utils.py:35 | the positions with a given target flag are in range, strictly increasing, and include every parameter with that flag |
| Utils.SelectAtPositions | thetafit/utils.py:35-40 | a filtered comprehension has one element per matching parameter, and its j-th element is f of the j-th matching parameter in input order |
| Utils.FreeFixedPartition | thetafit/utils.py:35-39 | every position is in exactly one of the free and fixed filters, so the two lists together have one entry per parameter |
| Utils.NamesOpt | thetafit/utils.py:35 | names_opt has one entry per target parameter, and its j-th entry is the name of the j-th target parameter in input order |
| Utils.SelectEmpty | thetafit/utils.py:35-37 | names_opt is empty iff no parameter has target true |
| Utils.ZipDictKeys | thetafit/utils.py:41 | the keys of dict(zip(keys, values)) are the keys that have a partner value |
| Utils.ZipDictLast | thetafit/utils.py:41 | in dict(zip(keys, values)), a key at its last occurrence j is bound to values[j] |
| Utils.ZipDictBindings | thetafit/utils.py:41 | both facts at once, for every position |
| Utils.ThNoOpt | thetafit/utils.py:39-41 | the keys of th_no_opt are exactly the names of the fixed parameters |
| Utils.FixedNamesBindInits | thetafit/utils.py:39-41 | th_no_opt maps a fixed parameter's name to its init; on repeated fixed names the last one wins |
| Utils.ThDict | thetafit/utils.py:43-45 | the merged map has the free names (up to len(th)) and the fixed names as keys; fixed names carry their th_no_opt value; any other free name at its last occurrence j carries th[j] |
| Utils.Vectorize | thetafit/utils.py:33-47 | fails, with NoTargetParameters, iff no parameter is free; otherwise returns names_opt (non-empty), th_no_opt, and a vector objective equal to ssfun at the merged map for every vector |
| Utils.ObjectiveBindings | thetafit/utils.py:43-45 | the objective's map binds the j-th free name to th[j] when that name is not repeated later and not fixed |
| Utils.FixedWinsOnClash | thetafit/utils.py:44 | when a name is both free and fixed, the objective's map carries the fixed init value |
| Sampling.Accept | thetafit/sampling.py:6-15 | acc_prob <= 0 rejects and acc_prob >= 1 accepts, both without a draw; in between, exactly one draw u is consumed and the result is acc_prob > u, so equality rejects |
| Sampling.Clamp | thetafit/sampling.py:8-13 | the clamped acceptance ratio lies in [0, 1] |
| Sampling.AcceptIsBelowClamp | thetafit/sampling.py:6-15 | for u in [0, 1), accept holds iff u < min(1, max(0, acc_prob)) |
| Sampling.AcceptMonotone | thetafit/sampling.py:6-15 | with the same draws, a larger acc_prob never turns an acceptance into a rejection |
| Sampling.OutOfBoundsIff | thetafit/sampling.py:18-21 | out_of_bounds(theta, bounds) is true iff some index k, within both lists, has theta[k] < min_k or theta[k] > max_k |
| Sampling.BoundaryIsInBounds | thetafit/sampling.py:18-21 | a vector lying exactly on finite interval ends is in bounds; the empty vector is never out of bounds |
| Sampling.PastBoundIsOut | thetafit/sampling.py:18-21 | moving one coordinate strictly past a finite bound makes the vector out of bounds |
| Sampling.AdaptFiresMod | thetafit/sampling.py:70-71 | adaptation fires at iteration isimu iff adaptint > 0 and isimu % adaptint == 0 |
| Sampling.AdaptFiresWhen | thetafit/sampling.py:70-71 | adaptation never fires when adaptint <= 0, fires at every iteration when adaptint == 1, never strictly before iteration adaptint, and at iteration adaptint |
| Sampling.NpCovShape | thetafit/sampling.py:74 | np.cov(rows, rowvar=False) is 0-d exactly when there is one column or a single row (numpy transposes only inputs of more than one row); otherwise it is the p x p matrix of the entries covEntry(rows, j, k) |
| Sampling.Newaxis2 | thetafit/sampling.py:75-76 | indexing a 0-d value with [np.newaxis, np.newaxis] gives the 1 x 1 matrix holding it |
| Sampling.AdaptedCovShape | thetafit/sampling.py:72-76 | the adapted covariance is a usable p x p matrix iff p == 1 or it was computed from more than one row; then entry (j, k) is 2.4^2/p times covEntry(rows, j, k), and for p == 1 it is the 1 x 1 matrix of the scaled variance; from a single row with p >= 2 it stays the 0-d value 2.4^2/p times covEntry(rows, 0, 0) |
| Sampling.Initial | thetafit/sampling.py:29-46 | before the loop, row 0 holds the initial point and its score, the counters are 0, and prop_cov is qcov |
| Sampling.Candidate | thetafit/sampling.py:49 | the proposal has the dimension of the current point |
| Sampling.Move | thetafit/sampling.py:49-68 | the accept/reject half appends exactly one row to chain and one score to sschain, leaves prop_cov alone and consumes at most one uniform |
| Sampling.Adapt | thetafit/sampling.py:70-76 | only prop_cov changes: when adaptation fires it becomes the adapted covariance of rows 0..isimu-1, otherwise it is kept |
| Sampling.Step | thetafit/sampling.py:47-76 | an iteration appends one row and keeps the earlier rows; at most one uniform is used |
| Sampling.StepCovValid | thetafit/sampling.py:49-76 | starting from a p x p prop_cov, the prop_cov after iteration isimu is p x p unless that iteration adapted from the single row 0 with p >= 2 (isimu == 1, adaptint == 1) |
| Sampling.Run | thetafit/sampling.py:47-76 | after n iterations there are n+1 rows and at most n uniforms are used |
| Sampling.RunCovValid | thetafit/sampling.py:43-76 | when iterations 1..n could all draw, prop_cov after iteration n is p x p exactly when iteration n+1 could draw too |
| Sampling.InitialInv | thetafit/sampling.py:29-41 | an in-bounds initial point of dimension p satisfies the loop invariant |
| Sampling.StepInv | thetafit/sampling.py:49-68 | one iteration keeps the invariant: rows of dimension p, each in bounds, each with sschain[j] == ss(chain[j]); oldpar/oldss are the last row; rejb <= rej <= isimu |
| Sampling.RunCounters | thetafit/sampling.py:45-66 | starting from zero counters, out-of-bounds rejections <= rejections <= n after iteration n |
| Sampling.RunInv | thetafit/sampling.py:45-68 | after any number of iterations n the invariant holds with rejb <= rej <= n and the current point in bounds |
| Sampling.RunPrefix | thetafit/sampling.py:54-68 | rows once written never change: the first j+1 rows after iteration n are those after iteration j |
| Sampling.StepRow | thetafit/sampling.py:49-68 | row isimu is the accepted candidate with its score when the iteration advances, otherwise a copy of row isimu-1 with its score |
| Sampling.StepCounters | thetafit/sampling.py:45-66 | rejb grows by one iff the candidate is out of bounds; rej grows by one iff the iteration does not advance |
| Sampling.OutOfBoundsSkipsObjective | thetafit/sampling.py:51-57 | for an out-of-bounds candidate the iteration is the same whatever the objective, so it is never evaluated |
| Sampling.StepUniforms | thetafit/sampling.py:51-60 | an iteration uses one uniform exactly when the candidate is in bounds and 0 < acc_prob < 1 |
| Sampling.RowsStickOrAdvance | thetafit/sampling.py:49-68 | each row i >= 1 repeats row i-1 with its score, or is the in-bounds, accepted candidate of iteration i |
| Sampling.RowKeptOrDrawn | thetafit/sampling.py:49-68 | each row i >= 1 repeats row i-1 with its score, or is a proposal drawn around row i-1 at iteration i |
| Sampling.RunCovUnadapted | thetafit/sampling.py:43-76 | with adaptint <= 0, or before iteration adaptint, prop_cov is still the input qcov |
| Sampling.LastAdaptationIs | thetafit/sampling.py:70-71 | the last firing iteration up to n is n - n % adaptint: at most n, a firing iteration or 0, and no iteration after it up to n fires |
| Sampling.RunCovAdapted | thetafit/sampling.py:70-76 | once n >= adaptint > 0, prop_cov is the adapted covariance of rows 0..k-1, where k is n rounded down to a multiple of adaptint |
| Sampling.RunCovAdaptedBy | thetafit/sampling.py:70-76 | the same, written for a given estimator and dimension |
| Sampling.MakeResults | thetafit/sampling.py:87-94 | N is nsimu, qcov is the final prop_cov, last is the final chain row, and the percentages are computed from the final rej and rejb |
| Sampling.ResultsPercentages | thetafit/sampling.py:89-91 | accepted + rejected == 100; when 0 <= rejb <= rej < N, 0 <= out_of_bounds <= rejected < 100 |
| Sampling.ColumnsShape | thetafit/sampling.py:84 | chain.T has p columns, and column j holds entry j of every row |
| Sampling.ChainTable | thetafit/sampling.py:84-96 | the table has a column per free and fixed name; a fixed name's column is its constant init value; a free name, at its last occurrence j and not fixed, has chain column j |
| Sampler.Bounds | thetafit/sampling.py:27 | bounds has one (minimum, maximum) pair per target parameter, the j-th being that of the j-th target parameter in input order |
| Sampler.FreeInits | thetafit/sampling.py:29 | the initial point has one entry per target parameter, the j-th being the init of the j-th target parameter in input order |
| Sampler.FreeSizes | thetafit/sampling.py:27-29 | bounds, names_opt and the initial point have the same length |
| Sampler.WriteRow | thetafit/sampling.py:49-68 | writing row isimu into the arrays changes no other row and gives exactly the state of the accept/reject half Move |
| Sampler.Iteration | thetafit/sampling.py:49-76 | one pass of the loop body fails, writing nothing, exactly when prop_cov is not p x p (multivariate_normal raises); otherwise it changes only row isimu and turns the state after iteration isimu-1 into the state Run gives after iteration isimu |
| Sampler.Loop | thetafit/sampling.py:43-82 | the while loop over isimu = 1..nsimu-1, from row 0 in the arrays, succeeds iff every draw meets a p x p prop_cov, and then ends in the state Run gives after nsimu-1 iterations; otherwise it fails with BadProposalCovariance |
| Sampler.Iterate | thetafit/sampling.py:37-82 | after preallocating chain and sschain and writing row 0, the run succeeds iff every draw meets a p x p prop_cov, and then ends in the state Run gives after nsimu-1 iterations |
| Sampler.SampleFrom | thetafit/sampling.py:27-96 | everything after vectorize_ssfun returns the outcome SampleWith specifies |
| Sampler.Sample | thetafit/sampling.py:24-96 | the whole of sample returns the outcome (or error) SampleSpec specifies |
| SamplerProperties.SampleFailures | thetafit/sampling.py:26-49 | sample fails iff no parameter is free, the initial point is out of bounds, nsimu < 1, or a draw meets a prop_cov that is not p x p (qcov at iteration 1, or at iteration 2 the 0-d value left by a one-row adaptation when adaptint == 1 and p >= 2); the first of these that applies names the error |
| SamplerProperties.SampleWithFailures | thetafit/sampling.py:27-49 | after vectorize_ssfun, the same failures without the missing-target one, in the same order |
| SamplerProperties.SampleChain | thetafit/sampling.py:29-68 | a successful run has nsimu rows and scores; row 0 is the initial point; every row has dimension p, lies within bounds and has sschain[i] == ss(chain[i]) |
| SamplerProperties.SampleRows | thetafit/sampling.py:49-68 | every row i >= 1 is a copy of row i-1 with its score, or a proposal drawn around row i-1 at iteration i |
| SamplerProperties.SampleResults | thetafit/sampling.py:86-94 | accepted + rejected == 100, 0 <= out_of_bounds <= rejected < 100, last == chain[nsimu-1]; without any adaptation the returned qcov is the input qcov |
| SamplerProperties.SampleCovariance | thetafit/sampling.py:70-92 | whenever an iteration ran, the returned qcov is p x p unless the only iteration adapted from row 0 alone with p >= 2 (nsimu == 2, adaptint == 1), where it is numpy's 0-d value; once adaptation fired it is the adapted covariance of rows 0..k-1, k the last multiple of adaptint below nsimu |
| SamplerProperties.SampleObjective | thetafit/sampling.py:26-62 | sschain[i] is the user's ssfun at the merged map of row i; row 0 is the free inits; every row is within the free parameters' bounds |

## Left out

- Progress output: the `print` calls (sampling.py lines 33-35 and 78-82) are I/O and change no state. `printint` is therefore stored but has no other effect.
- Random number generation: the proposals and uniform draws are inputs. The source takes both from the one numpy global stream, so the interleaving of the two kinds of draw is not modelled.
- Floating point:
  - `np.exp` and `np.cov` are abstract functions (`accProb`, `covEntry`).
  - Arithmetic is over `real`, so NaN and infinite objective values are not modelled. An infinite bound is `NegInf`/`PosInf`.
- Covariance validity: `multivariate_normal` needs a 2-d p x p covariance and raises otherwise. That error is `BadProposalCovariance`. It is raised at iteration 1 when `qcov` is not p x p, and at iteration 2 when iteration 1 adapted from the single row 0 with p >= 2. numpy's positive-definiteness warning is not modelled.
- The value of the covariance of a single row: for p == 1 numpy gives NaN (with one degree of freedom lost). This is numerics; the model keeps the abstract `covEntry` value.
- `nsimu < 1`: numpy raises for a negative size at `np.zeros`, and for 0 at the `chain[0, :]` write. Both are one error, `EmptyChain`.
- Exceptions raised inside the user objective are not modelled. The objective is a total function.
- The pandas `DataFrame` is modelled as a map from names to columns, with fixed parameters as constant columns. Column order and the row index are not modelled.
- `thetafit/optimization.py` (a wrapper over `scipy.optimize.minimize`) and `setup.py` are not part of this model.
- Repeated names: the free and fixed filters are disjoint by position. Names themselves may repeat, and then `dict` keeps the last value. For free names the contracts state the binding only at a name's last occurrence that is not also fixed.
- Utils.Select: its own ensures only bounds the length; which elements it keeps, and in which order, is stated by Utils.SelectAtPositions.
- The adapted covariance is computed, as in `chain[0:isimu]` (sampling.py:74), from rows 0..isimu-1, without the row written by the same iteration. Only the form scaled by 2.4^2/p exists in the code (sampling.py:73), and only that form is modelled.
