# Petrophysically guided inversion: Gaussian mixture with a prior

This project models the clustering core of SimPEG's petrophysically guided inversion (PGI) in Dafny. The core is a Gaussian mixture model fitted by expectation-maximisation (EM). A reference mixture acts as a conjugate prior: after every M-step, the fitted means, covariances or precisions, and weights are pulled towards the reference. The strengths of that pull are called kappa, nu and zeta.

Covered operations:

- Validating user weights.
- Relabelling the fitted clusters to match the reference clusters: by weight, then greedily by likelihood.
- The weighted parameter estimates of the M-step.
- The prior update itself.
- Forcing known memberships.
- The best-of-`n_init` EM driver of `GaussianMixtureWithPrior.fit`.
- The point-set distances helper.
- Three tensor-mesh helpers: padded cell widths, nearest node, and the argument checks of the example grid.

## Modelling choices

Arithmetic and arrays:

- Numbers are exact reals. A numpy division by zero, which yields inf/nan rather than raising, is the error `NonFinite`.
- A lower bound that starts at minus infinity is an `ExtReal`.
- numpy arrays are sequences. A mixture's weights are either one row (`PerCluster`) or one row per sample (`PerSample`, the spatially varying weights).
- A mixture's shape invariants are the predicate `Gmm.WellFormed`. User-supplied arrays are checked and the mismatches returned as errors.

Routines outside the core are function-valued parameters:

- scikit-learn's log densities, covariance estimators, Cholesky-based inversion and initialisation.
- KMeans labels.
- The random draws.

Their results are taken as given. scikit-learn's `_compute_lower_bound` for a Gaussian mixture returns the log normaliser it is passed. So the lower bound is modelled directly as the E-step's result: the volume-weighted average of the per-sample log normalisers (`np.average(log_prob_norm, weights=self.vol)`).

Every failure is a `Result` error, not an exception:

- `ShapeMismatch`: `_check_shape`.
- `OutOfRange` and `NotNormalized`: the two `_check_weights` errors.
- `IndexError`: an out-of-range fancy index.
- `NegativeDimension`: `np.ones` of a negative count.
- `EmptyReduction`: an argmin/argmax over nothing.
- `AssertionFailed`: a failed `assert`.
- `UnknownInitMethod`.
- `NoTrial`: fit ran no iteration, so `best_params` is unbound.

## Where the code and its description differ

- Ordering a mixture by weight a second time does not always leave it unchanged. numpy's argsort is reversed after sorting ascending, so two tied weights trade places (`Ordering.TiedWeightsAreSwapped`). The model follows the code. The stable ascending sort, reversed, is one of numpy's admissible orders. `Ordering.OrderedMixtureUnchanged` proves that order changes nothing when the weights are strictly decreasing.
- The code keeps only the best trial's parameters and iteration count. `lower_bound_` and `last_step_change` stay those of the LAST trial, and `converged_` is true when ANY trial converged. `EmDriver.Fit` states exactly that.

## Model

| member | source | states |
|---|---|---|
| Distances.ComputeDistances | SimPEG/utils/pgi_utils.py:281-306 | vectors become one-feature columns; different column counts are an error, as is an empty second set; otherwise entry (i, j) is the squared Euclidean distance of the points and index i names the first nearest point |
| Distances.ExpansionIsSqDist | SimPEG/utils/pgi_utils.py:298-302 | the expanded form \|x\|^2 + \|y\|^2 - 2 x.y equals the squared distance for all inputs |
| Distances.ExactHitIsFound | SimPEG/utils/pgi_utils.py:304 | a point that occurs among the targets is at distance 0 from its nearest target, found no later than its first occurrence |
| Ordering.OrderByWeight | SimPEG/utils/pgi_utils.py:531-552 | the index is a permutation; afterwards the cluster totals are non-increasing; weights (columns for per-sample weights), means and, unless tied, covariances and precisions are gathered by it |
| Ordering.OrderedMixtureUnchanged | SimPEG/utils/pgi_utils.py:535-548 | a mixture whose totals strictly decrease is left unchanged, with the identity index |
| Ordering.TiedWeightsAreSwapped | SimPEG/utils/pgi_utils.py:536 | reversing the ascending argsort puts two tied weights in the opposite order |
| Ordering.BestFree | SimPEG/utils/pgi_utils.py:317-320 | the chosen reference is unused, scores at least as high as every other unused reference and strictly higher than every earlier one |
| Ordering.MatchFrom | SimPEG/utils/pgi_utils.py:316-325 | extending a partial matching succeeds exactly when there are enough references; the result is distinct, in range and greedy at every step: the chosen reference is the first (lowest-index) best-scoring free one, as numpy's argmax picks |
| Ordering.GreedyMatch | SimPEG/utils/pgi_utils.py:312-325 | each fitted component gets its own reference, the first best-scoring one still free (argmax's tie-break); with equal counts the result is a permutation |
| Ordering.GreedyMatchAsWritten | SimPEG/utils/pgi_utils.py:316-325 | the code's matching: the chosen reference is located by the first reference mean equal to it |
| Ordering.AsWrittenAgreesOnDistinctMeans | SimPEG/utils/pgi_utils.py:321-323 | when no two reference means are equal, the code's lookup matches exactly like the corrected one |
| Ordering.DuplicateMeansAssignedTwice | SimPEG/utils/pgi_utils.py:321-324 | with two equal reference means the code assigns reference 0 to both components |
| Ordering.OrderCluster | SimPEG/utils/pgi_utils.py:309-341 | after ordering by weight, every component moves to the label of its greedily matched reference (ties going to the lowest index); the result is a relabelling of the weight-ordered mixture by a permutation, and succeeds whenever the counts agree |
| Ordering.OrderClusterAsWritten | SimPEG/utils/pgi_utils.py:327-338 | the code's relabelling: position i receives the weight-ordered component whose index is the i-th entry of the match (a gather by the match) |
| Ordering.AsWrittenAgreesOnInvolutions | SimPEG/utils/pgi_utils.py:309-338 | with distinct reference means and a match that is its own inverse (the identity, or swaps of pairs), the code's relabelling equals the corrected one |
| Ordering.InvolutionIsOwnInverse | SimPEG/utils/pgi_utils.py:327-338 | a match that is its own inverse equals its inverse permutation, so the code's gather by the match and the corrected gather by the inverse coincide |
| Ordering.GatherMisaligns | SimPEG/utils/pgi_utils.py:327 | for a 3-cycle match, gathering means by the match misplaces all three, while gathering by its inverse aligns them with the reference |
| Mixture.GatherWeights | SimPEG/utils/pgi_utils.py:329-332 | per-cluster weights are gathered entrywise, per-sample weights column by column, keeping the row count |
| Mixture.TotalsOfGathered | SimPEG/utils/pgi_utils.py:539-540 | the column totals of gathered weights are the gathered column totals |
| Mixture.ReorderIdentity | SimPEG/utils/pgi_utils.py:542-548 | reordering by the identity changes nothing |
| Validation.CheckWeights | SimPEG/utils/pgi_utils.py:584-623 | accepts exactly shaped weights in [0, 1] whose rows sum to 1 within allclose tolerance, returning them unchanged; otherwise the shape, range or normalisation error, checked in that order |
| Validation.DistributionsAccepted | SimPEG/utils/pgi_utils.py:608-621 | every non-negative row summing to one is accepted |
| Validation.AcceptedTotals | SimPEG/utils/pgi_utils.py:617-621 | accepted per-cluster weights, and every row of accepted per-sample weights, sum to 1 within the allclose tolerance; the component totals of per-sample weights add up to n within n times the tolerance |
| Estimation.Masses | SimPEG/utils/pgi_utils.py:727-728 | for non-negative volumes and responsibilities every component mass is at least 10 machine epsilons |
| Estimation.MassesAddUp | SimPEG/utils/pgi_utils.py:727-728 | when responsibility rows sum to one, the masses add up to the total volume plus K times 10 epsilons |
| Estimation.RespVolRow | SimPEG/utils/pgi_utils.py:727 | a volume-weighted responsibility row sums to the sample's volume |
| Estimation.EstimateParameters | SimPEG/utils/pgi_utils.py:705-736 | returns the masses and, per component and feature, the volume-and-responsibility-weighted feature sum divided by the mass; non-negative inputs never fail |
| Estimation.MeanEntry | SimPEG/utils/pgi_utils.py:729 | each estimated mean entry is the weighted feature sum over the component's mass |
| Estimation.MeansWithinData | SimPEG/utils/pgi_utils.py:729 | with non-negative weights every estimated mean lies within the data's range in that feature, widened to include 0 because of the epsilon shrink |
| Estimation.MStepWeights | SimPEG/utils/pgi_utils.py:693-697 | the weights times the total volume give back the masses; a zero total volume is NonFinite |
| Estimation.MStepWeightsNearlyNormalized | SimPEG/utils/pgi_utils.py:693-697 | the M-step weights sum to one plus K times 10 epsilons over the total volume |
| Estimation.MStep | SimPEG/utils/pgi_utils.py:683-703 | means are the weighted estimates; per-cluster weights are replaced by the M-step weights and per-sample weights kept; shape preserved |
| Estimation.WeightedAverage | SimPEG/utils/pgi_utils.py:752 | np.average with weights: a length mismatch or zero weight sum is an error |
| Estimation.AverageWithinRange | SimPEG/utils/pgi_utils.py:752 | with non-negative weights the average lies between the smallest and largest value |
| Estimation.AverageOfConstant | SimPEG/utils/pgi_utils.py:752 | averaging a constant gives that constant |
| Estimation.InitialResponsibilities | SimPEG/utils/pgi_utils.py:663-679 | kmeans gives one-hot rows at the labels (labels out of range are an IndexError), random gives rows divided by their sums, any other method is an error |
| Estimation.InitialRowsAreDistributions | SimPEG/utils/pgi_utils.py:663-675 | every initial responsibility row is non-negative and sums to one |
| Membership.OverrideRows | SimPEG/utils/pgi_utils.py:871-877 | succeeds exactly when every constraint addresses an existing sample and cluster; an unconstrained row is kept, a constrained row becomes one-hot at the cluster of its last constraint |
| Membership.OverrideIdempotent | SimPEG/utils/pgi_utils.py:871-877 | forcing memberships twice gives the same rows as forcing them once |
| Membership.ForceResponsibilities | SimPEG/utils/pgi_utils.py:871-877 | constrained samples get log-responsibility 0 at their cluster and minus infinity elsewhere; others are untouched |
| Membership.ForceLocalWeights | SimPEG/utils/pgi_utils.py:892-896 | per-cluster weights pass through; per-sample rows of constrained samples become one-hot, the others are untouched |
| Membership.ForcedWeightsStayValid | SimPEG/utils/pgi_utils.py:892-896 | weights that passed validation still pass after forcing local weights |
| Membership.OneHotSumsToOne | SimPEG/utils/pgi_utils.py:894-895 | a one-hot row sums to one |
| PriorBlend.BlendBetween | SimPEG/utils/pgi_utils.py:415-417 | a blend with non-negative strengths lies between the fitted and the reference value |
| PriorBlend.BlendContracts | SimPEG/utils/pgi_utils.py:415-417 | the blended value moves towards the reference by the fraction a/(a+b) of the gap |
| PriorBlend.BlendWithoutPrior | SimPEG/utils/pgi_utils.py:415-417 | a zero prior strength leaves the value unchanged |
| PriorBlend.BlendBlock | SimPEG/utils/pgi_utils.py:422-435 | a covariance or precision block is blended entry by entry, keeping its shape |
| PriorBlend.BlockWithoutPrior | SimPEG/utils/pgi_utils.py:432-435 | a zero prior strength leaves a block unchanged |
| PriorBlend.MeanShiftNonNegative | SimPEG/utils/pgi_utils.py:410-413 | the full-prior covariance correction is non-negative for non-negative strengths |
| PriorBlend.AggregateWeights | SimPEG/utils/pgi_utils.py:395-407 | per-cluster weights are used as they are; per-sample weights become volume-weighted column sums over their grand total, with a length mismatch or zero total as errors |
| PriorBlend.AggregatedWeightsSumToOne | SimPEG/utils/pgi_utils.py:398-400 | aggregated per-sample weights sum to one |
| PriorBlend.BlendRowSumsToOne | SimPEG/utils/pgi_utils.py:437-440 | a blended weight row still sums to one |
| PriorBlend.BlendRowWithoutPrior | SimPEG/utils/pgi_utils.py:437-440 | zero zeta leaves a weight row unchanged |
| PriorBlend.BlendWeights | SimPEG/utils/pgi_utils.py:437-440 | handles the four combinations of per-cluster and per-sample fitted and reference weights with numpy broadcasting; succeeds exactly when zeta and the rows broadcast, each row being blended with its zeta row |
| PriorBlend.BlendedWeightsSumToOne | SimPEG/utils/pgi_utils.py:437-440 | if every fitted weight row sums to one, so does every blended row |
| PriorBlend.ZeroZetaKeepsWeights | SimPEG/utils/pgi_utils.py:437-440 | with zeta zero the weights are unchanged, or only broadcast to the reference's rows |
| PriorBlend.CheckedInputs | SimPEG/utils/pgi_utils.py:386-407 | components are relabelled to the reference and both weight summaries computed; a component-count mismatch is a shape error; succeeds exactly when counts agree and every division is finite |
| PriorBlend.MixtureMeans | SimPEG/utils/pgi_utils.py:409-417 | each mean entry is blended with the reference mean with strengths w[k] and rw[k]*kappa[k][f] |
| PriorBlend.BlendMeanRow | SimPEG/utils/pgi_utils.py:415-417 | each entry of a mean row is blended with its reference entry |
| PriorBlend.BlendComponents | SimPEG/utils/pgi_utils.py:419-435 | each component's block is blended with strengths w[k] and rw[k]*nu[k], plus the mean shift under a full prior |
| PriorBlend.BlendBlocks | SimPEG/utils/pgi_utils.py:419-474 | the tied block is blended with strength 1 against the total rw*nu, the others per component; covariances when updating covariances, precisions otherwise |
| PriorBlend.BlendBlocksWithoutPrior | SimPEG/utils/pgi_utils.py:442-454 | zero nu leaves the blended side unchanged (except for the full-prior shift) |
| PriorBlend.UpdateWithPriors | SimPEG/utils/pgi_utils.py:376-474 | a component-count mismatch is a shape error; on success the mixture keeps its size and family, its weights, means and blended side are the blends of the relabelled fit with the reference, and the other side is re-derived from the blended side by the inverse |
| PriorBlend.ZeroKappaKeepsMeans | SimPEG/utils/pgi_utils.py:415-417 | zero kappa leaves the relabelled means unchanged |
| PriorBlend.MeansWithoutKappa | SimPEG/utils/pgi_utils.py:415-417 | for any relabelled mixture and weight summaries, zero kappa makes the blended means equal the fitted means |
| PriorBlend.ZeroNuKeepsBlocks | SimPEG/utils/pgi_utils.py:419-454 | zero nu leaves the relabelled blocks unchanged |
| PriorBlend.UpdatedMeansBetween | SimPEG/utils/pgi_utils.py:415-417 | with non-negative strengths each updated mean entry lies between the relabelled fitted value and the reference value |
| PriorBlend.UpdatedWeightsSumToOne | SimPEG/utils/pgi_utils.py:387-440 | under the corrected relabelling (a permutation), if the fitted weight rows sum to one, the updated weight rows do too; the relabelling and the blend both keep the sums |
| PriorBlend.SumOfRelabelled | SimPEG/utils/pgi_utils.py:329-332 | moving entries by a permutation keeps their sum |
| EmDriver.PriorsFromScalars | SimPEG/utils/pgi_utils.py:797-799 | scalar kappa, nu and zeta are broadcast to the shapes of the reference means, components and weights |
| EmDriver.EStep | SimPEG/utils/pgi_utils.py:738-752 | fails exactly when the volumes do not fit the samples or sum to zero; the lower bound is the volume-weighted average of the per-sample log normalisers; one log-responsibility per sample and component |
| EmDriver.ExpRows | SimPEG/utils/pgi_utils.py:695 | exp is applied entrywise, minus infinity giving 0 |
| EmDriver.ForcedRowIsOneHot | SimPEG/utils/pgi_utils.py:873-879 | exponentiating a forced log-responsibility row gives the one-hot row |
| EmDriver.Responsibilities | SimPEG/utils/pgi_utils.py:869-879 | E-step then forced memberships; constraints out of range are an IndexError; the result has the sample shapes the M-step needs |
| EmDriver.UpdateStep | SimPEG/utils/pgi_utils.py:879-896 | M-step, prior update and forced local weights keep the mixture well-formed and leave constrained samples one-hot |
| EmDriver.EmIteration | SimPEG/utils/pgi_utils.py:866-898 | one EM iteration: shape errors, an IndexError for constraints out of range, success only when the reference has as many components, the E-step's lower bound, a well-formed result of the same size and family, one-hot forced local weights |
| EmDriver.Iterate | SimPEG/utils/pgi_utils.py:866-905 | iterates until the change of the lower bound is below tol or max_iter iterations have run; converged exactly when the last change passed; a cold start never converges in its first iteration |
| EmDriver.IterateStopsAtFirst | SimPEG/utils/pgi_utils.py:898-905 | the reported change is the one made by the last iteration, and no earlier iteration's change was below tol, so the trial stops at the first converging iteration; the reported state and lower bound are those produced by that last iteration, which is what fit ranks trials by |
| EmDriver.RunTrial | SimPEG/utils/pgi_utils.py:859-905 | a cold trial initialises and starts from minus infinity, so it cannot converge at iteration 0; a warm trial continues from the current parameters and bound |
| EmDriver.Fit | SimPEG/utils/pgi_utils.py:850-925 | runs n_init trials (one for a warm start); fails on the first failing trial, or when no iteration can run; keeps the first trial with the largest lower bound and its iteration count; converged exactly when some trial converged; lower bound and change of the last trial |
| EmDriver.InitTrial | SimPEG/utils/pgi_utils.py:653-681 | an unknown initialisation method is an error |
| EmDriver.FitConfig | SimPEG/utils/pgi_utils.py:850-851 | a warm start after an earlier fit runs one trial, otherwise n_init; every step is one EM iteration |
| EmDriver.IterationOutputShaped | SimPEG/utils/pgi_utils.py:879-896 | anything an EM iteration outputs is a well-formed mixture of the reference's size and family with one-hot forced local weights |
| EmDriver.FitWithPrior | SimPEG/utils/pgi_utils.py:825-925 | max_iter 0 is an error; the kept parameters are a well-formed mixture of the reference's size and family whose constrained samples are one-hot, and are the state of the first trial with the largest final lower bound, every trial having succeeded |
| MeshUtils.Padding | SimPEG/Utils/meshutils.py:46-49 | entry i is start * factor^i, listed backwards when reverse is set; a negative count is an error |
| MeshUtils.ReversedPadding | SimPEG/Utils/meshutils.py:47-48 | the reversed padding is the forward padding read backwards |
| MeshUtils.PaddingGrows | SimPEG/Utils/meshutils.py:47 | with a factor of at least 1 and a non-negative start the padding widths never shrink outward |
| MeshUtils.Tensor | SimPEG/Utils/meshutils.py:52 | one tensor is as long as its three parts together; any negative count is an error |
| MeshUtils.TensorLayout | SimPEG/Utils/meshutils.py:52 | a tensor is the reversed left padding, then the core widths, then the right padding |
| MeshUtils.MirrorSymmetric | SimPEG/Utils/meshutils.py:52 | equal left and right padding make the tensor a palindrome |
| MeshUtils.MeshTensors | SimPEG/Utils/meshutils.py:28-54 | no argument is an error (tensors[0] of an empty tuple); one argument gives the bare tensor, several give one tensor per argument |
| MeshUtils.AtLeast2d | SimPEG/Utils/meshutils.py:66 | a vector becomes a single row, a matrix is kept |
| MeshUtils.Points2Nodes | SimPEG/Utils/meshutils.py:56-76 | a mesh type other than TENSOR or CYL, or a column count other than the mesh dimension, fails the assertion, and points without any node are an error; otherwise each point gets the first nearest node |
| MeshUtils.NearestNode | SimPEG/Utils/meshutils.py:74 | the returned node is the first node at the smallest squared distance |
| MeshUtils.CheckLrmGridArgs | SimPEG/Utils/meshutils.py:5-11 | nC must be a list of two or three counts and the lower-cased type rect or rotate; any other argument fails the assertion |
| MeshUtils.CheckIgnoresCase | SimPEG/Utils/meshutils.py:8-11 | the check gives the same answer for a type and its lower-cased form |
| MeshUtils.LowerIdempotent | SimPEG/Utils/meshutils.py:8 | lower-casing twice is lower-casing once |
| MeshUtils.CumSumOfConstant | SimPEG/Utils/meshutils.py:14 | cumulative sums of a constant grow by that constant per entry |
| MeshUtils.AxisNodesEvenlySpaced | SimPEG/Utils/meshutils.py:14 | node i of an axis with nx cells is at i/nx, from 0 to 1 |
| MeshUtils.RectAxes | SimPEG/Utils/meshutils.py:13-14 | one axis of nodes per count; a negative count is an error |

## Left out

- The PGI regularization factories (`make_*_regularization`) and the dask simulation file are outside this model. So are `order_clusters_GM_mean`, `score`, and the classes with nonlinear relationships.
- scikit-learn internals are parameters whose results are taken as given:
  - the log densities;
  - the covariance estimators;
  - `_compute_precision_cholesky`, including `compute_clusters_precision` and `computeCovariance`;
  - `_initialize`;
  - KMeans;
  - the random generator.
- `_check_X`, `_check_parameters` and `_check_initial_parameters` are not modelled, beyond `_check_weights`.
- Floating point is modelled as exact reals. Rounding is ignored, and inf/nan appear only as the `NonFinite` error or an `ExtReal` infinity.
- Printing under `verbose` and the ConvergenceWarning have no effect on results and are left out.
- Negative (wrap-around) numpy indices are not modelled. Fixed-membership indices must lie in range, and anything else is an `IndexError`.
- A broadcast of a one-component array against K components is not modelled. Shapes must match exactly, or broadcast as row against rows.
- `fixed_membership=None` is modelled as the empty constraint list. The two behave the same.
- The rotated example grid, `ndgrid`, and the 3-tuple vs 2-tuple unpacking of padding arguments are not modelled. A padding argument always carries its factor; `MeshUtils.PadWithDefaultFactor` supplies 1.3.
- `str.lower` is modelled for ASCII letters only.
- Distances.ComputeDistances: returns the squared distances. The final square root is not modelled, because exact reals have no square root.
- EmDriver.EStep: the per-sample log normaliser (logsumexp) is a parameter, so the contract does not state that the responsibilities of a row sum to one.
- EmDriver.InitTrial: states only the error for an unknown method. The initial mixture comes from scikit-learn's `_initialize`, which is a parameter.
- EmDriver.FitWithPrior: with `max_iter == 0` or `n_init == 0` it returns `NoTrial`, even if initialisation would have raised first. The code would raise an UnboundLocalError once the empty loops end.
- EmDriver.Iterate: the lower bound is finite after every iteration. An infinite lower bound from the kernels is not modelled.
- PriorBlend.CheckedInputs: relabels with the corrected `Ordering.OrderCluster` (component i moves to label `indx[i]`), not with the code's first-equal-mean lookup and `means_[indx]` gather (see Findings). The two agree when reference means are distinct and the match is its own inverse (`Ordering.AsWrittenAgreesOnInvolutions`). Otherwise the code blends other components against the reference; for example, fitted means 10, 20, 0 against reference means 0, 10, 20 are blended in the order 20, 0, 10 by the code and 0, 10, 20 by the model.
- PriorBlend.UpdateWithPriors: runs on the corrected relabelling of `PriorBlend.CheckedInputs`, not the code's gather, with the same consequences.
- PriorBlend.UpdatedWeightsSumToOne: holds for the corrected relabelling only. With two equal reference means the code's gather can repeat one component's weight and drop another's, and then the sums are not kept.
- EmDriver.UpdateStep: the prior update inside it uses the corrected relabelling, not the code's gather.
- EmDriver.EmIteration: inherits the corrected relabelling of `PriorBlend.UpdateWithPriors`.
- EmDriver.FitWithPrior: every iteration inherits the corrected relabelling of `PriorBlend.UpdateWithPriors`, so its results are those of the intended `order_cluster`, not the code's.

## Findings

| source | as written | input that shows it | evidently intended | confidence | as-written member | corrected member |
|---|---|---|---|---|---|---|
| SimPEG/utils/pgi_utils.py:321-324 | the chosen reference is mapped back to an index by the first reference mean equal to it, among all references including those already used | two equal reference means `[[0.0], [0.0]]` and two components: both components get reference 0 | each component gets a distinct, still unused reference | not executed | Ordering.DuplicateMeansAssignedTwice | Ordering.GreedyMatch |
| SimPEG/utils/pgi_utils.py:327-338 | parameters are gathered by the match (`means_[indx]`), where `indx[i]` is the reference matched to component i | fitted means `[[10.0], [20.0], [0.0]]` against reference means `[[0.0], [10.0], [20.0]]` match as `[1, 2, 0]`; the gather gives `[[20.0], [0.0], [10.0]]` | component i moves to position `indx[i]` (a gather by the inverse), so the means align as `[[0.0], [10.0], [20.0]]` | not executed | Ordering.GatherMisaligns | Ordering.OrderCluster |

The prior update (`PriorBlend.CheckedInputs`, `PriorBlend.UpdateWithPriors`) and the EM driver built on it use the corrected members, so they model the intended `order_cluster`, not the code's.
