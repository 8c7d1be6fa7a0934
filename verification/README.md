# Recommender challenge glue, modelled in Dafny

This project models the logic that sits around the recommender algorithms of a
TV-show recommendation challenge repository. It covers four pieces.

- **`ScoresHybridP3alphaPureSVD`**, a score-level hybrid.
  - `fit` stores the blend weight `alpha` and the `norm_scores` flag, and trains
    a P3alpha and a PureSVD sub-model.
  - `_compute_item_score` first has both sub-models score. When
    `norm_scores` holds, it z-scores each matrix with that matrix's own global
    mean and standard deviation. It then blends them as `s1*alpha + s2*(1-alpha)`.
  - `save_model` writes a bundle of five named keys.
  - `load_model` walks a bundle's keys and routes each recognised key to
    exactly one field.
- **`reader.py`**, three helpers.
  - `group_users_in_urm` computes profile lengths from the CSR row pointers. It
    argsorts the users by profile length and cuts the sorted list into blocks of
    `floor(n/2)` users. It returns an evaluator that ignores every user outside
    the requested block.
  - `load_target` deduplicates and sorts the target ids (`np.unique`).
  - `load_icm` scales the ICM data column by a weight.
- **`evaluate.py`**, the `evaluate_all_recommenders` experiment loop.
  - It optionally stacks the transposed ICM under the training URM.
  - For each recommender class in the list, it picks `fit` parameters from an
    `isinstance` chain whose first match wins and whose default is `{}`.
  - Each class's run either succeeds or raises. Either way, exactly one record
    is appended to the log and the log is flushed.
- **`submission.py`**, the `create_csv` text format.
  - The file is a header line, then one line `id, item item ...` per pair of
    `zip(target_ids, results)`.
  - The model adds a reader for that format and proves that writing then
    reading gives back what was written.

## How the model is laid out

- **`Results`** holds `Option` and `Result`.
- **`Matrices`** holds dense real matrices and a shaped `Grid` with transpose.
- **`Scores`** holds the global mean and variance of a score batch, z-scoring
  (`Normalize`) and the weighted blend (`Fuse`).
- **`HybridP3alphaPureSVD`** holds the hybrid's state, `Fit`, `ComputeItemScore`,
  `SaveModel` and `LoadModel`.
  - The persisted attributes are dynamically typed in Python. They are a
    `Value`: a number, a flag, an array, or `Unset` for an attribute the
    object does not have yet (reading it raises `AttributeError`).
  - The trained sub-models appear only through what they contribute. `Fit`
    receives the two trainers as function parameters, and the state of
    numpy's global random generator that PureSVD's randomised SVD draws from.
  - `ComputeItemScore` receives the two sub-models' scoring functions. It applies them to the state the hybrid holds: P3alpha scores from the training URM and `W_sparse`, PureSVD from its user and item factors.
  - The standard deviation is abstract. It is a real `sd` with `sd > 0` and
    `sd * sd` equal to the population variance, so no square root or floating
    point is needed.
- **`Argsort`** defines what an argsort is: a permutation of the indices that
  orders the keys non-decreasingly, with ties in any order. It proves facts
  every argsort shares and gives one executable argsort.
- **`Reader`** holds profile lengths, the block arithmetic, the `np.isin`
  complement, `group_users_in_urm`, `np.unique` and the ICM weighting.
- **`Evaluate`** holds the ICM stacking, the parameter chain, the log records
  and the loop.
  - Instantiating, fitting and evaluating a class is one opaque function
    parameter `run`. It yields `Ok(results text)` or `Err(exception message)`.
  - The log is a sequence of records plus a count of flushed records.
- **`Text`** holds `str` of an integer, `sep.join`, `str.split` with a
  one-character separator, and their inverses.
- **`Submission`** holds `create_csv`'s text and the reader for it.

## Behaviour worth knowing

The model follows the code in each of these cases.

- `alpha` and `norm_scores` exist only after `fit` (or a `load_model` whose
  bundle holds them). Scoring or saving a hybrid before that raises.
  Likewise the sub-models can score only once `W_sparse` and the SVD factors
  have been learned or loaded.
- `if self.norm_scores:` tests truthiness, so a number stored there acts as
  "normalise" exactly when it is non-zero. A boolean stored as `alpha` counts
  as 1 or 0 in the blend, which selects one sub-model's scores.
- `load_model` silently ignores keys it does not recognise. It does not reject
  them.
- `np.argsort` is called with its default, unstable sort. The model therefore
  accepts any ordering that sorts the profile lengths, not one stable
  ordering.
- With `n` users, the block size is `int(n * 0.5)`. The group is
  `sorted_users[g*bs : min((g+1)*bs, n)]`.
  - When `n` is odd, groups 0 and 1 together hold `n-1` users. The user with
    the longest profile is in neither group. For `n >= 3` group 2 holds only
    that user; for `n = 1` the block size is 0 and every group is empty.
  - No block absorbs a remainder.
- The diagnostic `print` in `group_users_in_urm` takes `.min()` of the group's
  profile lengths. That raises on an empty group, for example any `g >= 2`
  when `n` is even. `GroupUsersInUrm` therefore returns `Err` exactly when the
  group is empty.

## Model

| member | source | states |
|---|---|---|
| HybridP3alphaPureSVD.New | Recommenders/Hybrids/others/ScoresHybridP3alphaPureSVD.py:17-22 | A new hybrid keeps its training URM and has none of the attributes `fit` sets: no `alpha`, no `norm_scores`, no P3alpha similarity and no SVD factors. |
| HybridP3alphaPureSVD.Fit | Recommenders/Hybrids/others/ScoresHybridP3alphaPureSVD.py:24-29 | `alpha` and `norm_scores` are stored exactly as given. P3alpha is trained with `topK_P`, `alpha_P` and `normalize_similarity_P`, and PureSVD with `num_factors` and the random state it draws from, both on the training URM. The training URM itself is unchanged. |
| HybridP3alphaPureSVD.FitForgetsPreviousState | Recommenders/Hybrids/others/ScoresHybridP3alphaPureSVD.py:24-29 | Two hybrids on the same URM are identical after the same `fit` with the same random state: nothing from the earlier state survives. |
| HybridP3alphaPureSVD.FitWithDefaults | Recommenders/Hybrids/others/ScoresHybridP3alphaPureSVD.py:24-25 | `fit()` with no arguments stores `alpha = 0.5` and `norm_scores = True`, trains P3alpha with `topK = 991`, `alpha = 0.4705816992313091` and no similarity normalisation, and PureSVD with 340 factors. |
| HybridP3alphaPureSVD.Contribution | Recommenders/Hybrids/others/ScoresHybridP3alphaPureSVD.py:43-49 | A sub-model's contribution keeps the shape of its scores. Without normalisation it is the raw scores, unchanged. |
| HybridP3alphaPureSVD.SubScores | Recommenders/Hybrids/others/ScoresHybridP3alphaPureSVD.py:40-41 | Both sub-models score exactly when `W_sparse` and both SVD factor matrices are present. P3alpha scores from the hybrid's own training URM and similarity, PureSVD from its user and item factors. |
| HybridP3alphaPureSVD.Truth | Recommenders/Hybrids/others/ScoresHybridP3alphaPureSVD.py:43 | `if self.norm_scores:` holds for a true flag, a non-zero number and a one-element array holding a non-zero value. It raises when the attribute is missing or is an array of any other size. |
| HybridP3alphaPureSVD.Weight | Recommenders/Hybrids/others/ScoresHybridP3alphaPureSVD.py:57 | In the blend a stored number weighs as itself, a boolean as 1 or 0, and a one-element array as its element. A missing attribute raises. |
| HybridP3alphaPureSVD.ComputeItemScore | Recommenders/Hybrids/others/ScoresHybridP3alphaPureSVD.py:40-57 | Scoring succeeds exactly when both sub-models have their learned matrices, `norm_scores` has a truth value, `alpha` is a scalar weight and the two score matrices have the same shape. The result is the blend, with that weight, of the two sub-models' scores, each z-scored exactly when `norm_scores` is truthy. |
| HybridP3alphaPureSVD.RawScoresFused | Recommenders/Hybrids/others/ScoresHybridP3alphaPureSVD.py:43-57 | With `norm_scores` false, the raw matrices are blended unchanged. |
| HybridP3alphaPureSVD.NormalizedScoresFused | Recommenders/Hybrids/others/ScoresHybridP3alphaPureSVD.py:43-57 | With `norm_scores` true, each matrix is z-scored on its own, with one global mean and std for the whole batch (not per row), before the blend. |
| HybridP3alphaPureSVD.ZeroNormScoresBlendsRaw | Recommenders/Hybrids/others/ScoresHybridP3alphaPureSVD.py:43-57 | A `norm_scores` of `0.0` is falsy: the raw matrices are blended unchanged. |
| HybridP3alphaPureSVD.FlagAlphaSelectsOneModel | Recommenders/Hybrids/others/ScoresHybridP3alphaPureSVD.py:57 | A boolean `alpha` selects one sub-model: `True` yields the P3alpha scores and `False` the PureSVD scores. |
| HybridP3alphaPureSVD.UnfittedCannotScore | Recommenders/Hybrids/others/ScoresHybridP3alphaPureSVD.py:17-43 | Scoring a hybrid that was created and never fitted raises. |
| HybridP3alphaPureSVD.FittedCanScore | Recommenders/Hybrids/others/ScoresHybridP3alphaPureSVD.py:24-57 | After any `fit`, scoring succeeds. |
| HybridP3alphaPureSVD.SelfFusionIsIdentity | Recommenders/Hybrids/others/ScoresHybridP3alphaPureSVD.py:57 | Blending a score matrix with itself gives that matrix's contribution, whatever `alpha` is. |
| HybridP3alphaPureSVD.OneElementArraysActAsNumbers | Recommenders/Hybrids/others/ScoresHybridP3alphaPureSVD.py:43-57 | One-element arrays stored as `alpha` and `norm_scores` score exactly as the numbers they hold. |
| HybridP3alphaPureSVD.SaveModel | Recommenders/Hybrids/others/ScoresHybridP3alphaPureSVD.py:68-70 | Saving raises exactly when one of the five attributes is missing. Otherwise the bundle holds exactly the five keys `Item_Factors_svd`, `User_Factors_svd`, `norm_scores`, `W_sparse_P3Alpha` and `alpha`, each bound to its current field. |
| HybridP3alphaPureSVD.SaveNeedsFit | Recommenders/Hybrids/others/ScoresHybridP3alphaPureSVD.py:17-70 | A hybrid cannot be saved before `fit` and can be after any `fit`. |
| HybridP3alphaPureSVD.Dispatch | Recommenders/Hybrids/others/ScoresHybridP3alphaPureSVD.py:89-98 | One pass of the loop body writes a recognised key's value into that key's field and nothing else. An unrecognised key leaves the hybrid unchanged. |
| HybridP3alphaPureSVD.DispatchThenOverlay | Recommenders/Hybrids/others/ScoresHybridP3alphaPureSVD.py:88-98 | Routing one bundle key and then the rest equals overlaying the bundle with that key counted as seen. Each branch writes one field. |
| HybridP3alphaPureSVD.LoadKeys | Recommenders/Hybrids/others/ScoresHybridP3alphaPureSVD.py:88-98 | Walking any list of bundle keys sets each recognised field to the bundle's value when its key was walked, and leaves it unchanged otherwise. |
| HybridP3alphaPureSVD.LoadModel | Recommenders/Hybrids/others/ScoresHybridP3alphaPureSVD.py:88-98 | After loading, each of the five fields holds the bundle's value when its key is present and its old value when absent. The URM is untouched. |
| HybridP3alphaPureSVD.LoadOrderIndependent | Recommenders/Hybrids/others/ScoresHybridP3alphaPureSVD.py:88-98 | The loaded state does not depend on the order in which the bundle's keys are walked. |
| HybridP3alphaPureSVD.UnknownKeyIgnored | Recommenders/Hybrids/others/ScoresHybridP3alphaPureSVD.py:88-98 | Adding a key outside the five to the bundle changes nothing that is loaded. |
| HybridP3alphaPureSVD.SaveLoadRoundTrip | Recommenders/Hybrids/others/ScoresHybridP3alphaPureSVD.py:68-98 | Loading a successfully saved bundle into any hybrid restores all five persisted fields to their values at save time. |
| HybridP3alphaPureSVD.SaveOrderEnumerates | Recommenders/Hybrids/others/ScoresHybridP3alphaPureSVD.py:68-70 | The order in which the keys are written lists each saved key exactly once. |
| HybridP3alphaPureSVD.PartialLoadCannotScore | Recommenders/Hybrids/others/ScoresHybridP3alphaPureSVD.py:17-98 | Loading a bundle without `alpha` into a hybrid that was never fitted leaves it unable to score. |
| HybridP3alphaPureSVD.MissingSimilarityCannotScore | Recommenders/Hybrids/others/ScoresHybridP3alphaPureSVD.py:17-98 | Loading a bundle without `W_sparse_P3Alpha` into a hybrid that was never fitted leaves P3alpha without a similarity, so scoring raises whatever else was loaded. |
| HybridP3alphaPureSVD.RoundTripPreservesScores | Recommenders/Hybrids/others/ScoresHybridP3alphaPureSVD.py:40-98 | A hybrid restored from the saved bundle scores as the saved hybrid would on the restoring hybrid's training URM. On the same URM it scores exactly as the saved hybrid does. |
| Scores.Mean | Recommenders/Hybrids/others/ScoresHybridP3alphaPureSVD.py:44-45 | `np.mean` over all cells: the mean times the number of cells is the total. |
| Scores.Variance | Recommenders/Hybrids/others/ScoresHybridP3alphaPureSVD.py:46-47 | The square of `np.std`, the population variance over all cells, is non-negative, and times the number of cells it is the sum of squared deviations from the mean. |
| Scores.Standardize | Recommenders/Hybrids/others/ScoresHybridP3alphaPureSVD.py:48-49 | `(m - mean) / std` keeps the matrix's shape. |
| Scores.Normalize | Recommenders/Hybrids/others/ScoresHybridP3alphaPureSVD.py:44-49 | Z-scoring with the batch's own mean keeps the shape and the number of cells. |
| Scores.NormalizedMeanZero | Recommenders/Hybrids/others/ScoresHybridP3alphaPureSVD.py:44-49 | When `sd` is the batch's standard deviation, the normalised batch has global mean 0. |
| Scores.CentredAtMeanHasMeanZero | Recommenders/Hybrids/others/ScoresHybridP3alphaPureSVD.py:44-48 | Subtracting a non-empty batch's mean and dividing by any non-zero number leaves a batch of mean 0. |
| Scores.NormalizedVarianceOne | Recommenders/Hybrids/others/ScoresHybridP3alphaPureSVD.py:44-49 | When `sd` is the batch's standard deviation, the normalised batch has population variance 1. |
| Scores.NormalizeIdempotent | Recommenders/Hybrids/others/ScoresHybridP3alphaPureSVD.py:44-49 | A normalised batch has std 1, and normalising it again changes nothing. |
| Scores.StandardizedTotal | Recommenders/Hybrids/others/ScoresHybridP3alphaPureSVD.py:48-49 | The sum of the standardised cells is `(sum - count*mu) / sd`. |
| Scores.StandardizedSquares | Recommenders/Hybrids/others/ScoresHybridP3alphaPureSVD.py:48-49 | The squared deviations of the standardised cells from 0 sum to those of the input from `mu`, divided by `sd^2`. |
| Scores.Fuse | Recommenders/Hybrids/others/ScoresHybridP3alphaPureSVD.py:57 | The blend has the inputs' shape, and each cell is `s1[i][j]*alpha + s2[i][j]*(1-alpha)`. |
| Scores.FuseAlphaOne | Recommenders/Hybrids/others/ScoresHybridP3alphaPureSVD.py:57 | With `alpha = 1` the blend is the first matrix. |
| Scores.FuseAlphaZero | Recommenders/Hybrids/others/ScoresHybridP3alphaPureSVD.py:57 | With `alpha = 0` the blend is the second matrix. |
| Scores.FuseSelf | Recommenders/Hybrids/others/ScoresHybridP3alphaPureSVD.py:57 | Blending a matrix with itself gives the matrix, for every `alpha`. |
| Reader.ProfileLengths | reader.py:121 | There is one profile length per CSR row, the difference of consecutive row pointers. It is non-negative when the row pointers never decrease. |
| Reader.ProfileLengthsTotal | reader.py:121 | The profile lengths add up to the last row pointer minus the first, which is the number of stored interactions. |
| Reader.BlockSize | reader.py:124 | `int(n * 0.5)` is `floor(n/2)`: twice it is `n` or `n-1`. |
| Reader.GroupStart | reader.py:131 | `group_id * block_size` is non-negative for a non-negative group. It lies at most `g * n / 2` and less than `g` below that. |
| Reader.GroupEnd | reader.py:132 | The end of a block never passes `n`, and it is non-negative for a non-negative group. |
| Reader.NextStart | reader.py:131 | Consecutive groups start one block apart. |
| Argsort.ArgSort | reader.py:127 | One executable argsort: a permutation of `0..n-1` along which the keys never decrease. |
| Argsort.ArgsortIsPermutation | reader.py:127 | Any argsort of `n` keys lists each of `0..n-1` exactly once. |
| Argsort.ArgsortKeysDetermined | reader.py:127 | Two argsorts of the same keys may order tied users differently, but they read the same keys at every position. |
| Argsort.SortedSameMultisetEqual | reader.py:127 | Two non-decreasing sequences with the same elements are equal. This is why the tie-break cannot change the sorted keys. |
| Argsort.IndicesCount | reader.py:127 | The list `0..n-1` holds each index below `n` once and nothing else. |
| Argsort.Insert | reader.py:127 | Inserting an index into a key-sorted list keeps it key-sorted and adds exactly that index. |
| Argsort.SortPrefix | reader.py:127 | Insertion-sorting the first `n` indices by key gives a key-sorted permutation of them. |
| Reader.Without | reader.py:146-147 | `sorted_users[np.isin(sorted_users, excluded, invert=True)]` holds every element not excluded and nothing else. |
| Reader.WithoutAppend | reader.py:146-147 | The complement of a concatenation is the concatenation of the complements, so the kept elements stay in their order. |
| Reader.WithoutSingleton | reader.py:146-147 | A one-element list keeps its element exactly when it is not excluded. |
| Reader.PySlice | reader.py:134 | Python's slice agrees with the plain slice inside the bounds. An end past the length stops at the end, and a start past the end or a non-negative end before the start gives an empty list. |
| Reader.WithoutSlice | reader.py:146-147 | Removing a contiguous run from a list without repetitions leaves the part before the run followed by the part after it. |
| Reader.GroupUsers | reader.py:127-147 | The group and its complement are disjoint, and together they hold exactly the users `0..n-1`. |
| Reader.GroupUsersInUrm | reader.py:116-151 | The call fails exactly when the group is empty, because `.min()` of nothing raises. Otherwise the evaluator is on the test URM with cutoff 10 and ignores exactly the users outside the group. |
| Reader.GroupIsBlock | reader.py:131-134 | Group `g` is the sorted users at positions `g*bs .. min((g+1)*bs, n)`, and empty when that range is empty. |
| Reader.GroupSize | reader.py:131-134 | A group that fits before the end of the list holds exactly `bs` users. |
| Reader.ComplementKeepsOrder | reader.py:146-147 | The users outside the group are the sorted users before the block followed by those after it. |
| Reader.GroupsMonotone | reader.py:127-134 | Every user of an earlier group has a profile no longer than every user of a later group. |
| Reader.PositionsAscend | reader.py:127-134 | A position in an earlier group has a key no larger than any position in a later group. |
| Reader.StartsAscend | reader.py:131 | Later groups start no earlier. |
| Reader.TwoGroups | reader.py:124-134 | Groups 0 and 1 together are the first `2*bs` sorted users. |
| Reader.OddCountDropsLongestProfile | reader.py:124-134 | With `n` odd, groups 0 and 1 together are all sorted users but the last. That last user has the longest profile and is in neither group. |
| Reader.LastHasLongestProfile | reader.py:127 | The last user of an argsort has a profile at least as long as every user's. |
| Reader.EvenCountCoversAll | reader.py:124-134 | With `n` even, groups 0 and 1 together are all the sorted users. |
| Reader.FirstTwoGroupsSucceed | reader.py:131-144 | With at least two users, groups 0 and 1 are non-empty, so the call succeeds. |
| Reader.ThirdGroupHoldsLeftover | reader.py:124-134 | With `n` odd and at least 3, group 2 is exactly the last sorted user. |
| Reader.FourUsersExample | reader.py:121-134 | For profile lengths 0, 5, 5, 10: group 0 starts with the empty profile and group 1 ends with the longest, whatever the tie-break. |
| Reader.InsertSorted | reader.py:49 | Inserting into a strictly increasing list keeps it strictly increasing and adds exactly that value. |
| Reader.Unique | reader.py:49 | `np.unique` gives a strictly increasing list holding exactly the input's values. |
| Reader.StrictlyIncreasingDetermined | reader.py:49 | Two strictly increasing lists with the same members are equal. |
| Reader.UniqueDependsOnlyOnIds | reader.py:49 | Lists with the same members give the same unique list, and `np.unique` is idempotent. |
| Reader.ApplyWeight | reader.py:67-69 | Each ICM entry keeps its item and feature, and its data is multiplied by the weight. |
| Reader.WeightScalesCells | reader.py:67-71 | Every ICM cell, summed over duplicate (item, feature) entries as the CSR constructor does, is scaled by the weight. |
| Reader.UnitWeightIsIdentity | reader.py:59-69 | The default weight 1 leaves the entries unchanged. |
| Matrices.Transpose | evaluate.py:89 | `ICM.T` has the row and column counts swapped, and cell `(i, j)` is the ICM's cell `(j, i)`. |
| Matrices.TransposeInvolution | evaluate.py:89 | Transposing twice gives the matrix back. |
| Evaluate.VStack | evaluate.py:90 | `sps.vstack` succeeds exactly when the column counts agree. It yields the top rows followed by the bottom rows. |
| Evaluate.StackIcm | evaluate.py:88-90 | Without an ICM the training matrix is unchanged. With one, stacking succeeds exactly when the ICM has one row per URM column. The result is `n_users + n_features` rows, with row `n_users + f` holding feature `f` of every item. |
| Evaluate.StackedIcmRecoverable | evaluate.py:88-90 | The URM and the ICM can both be read back from the stacked matrix. |
| Evaluate.ParamTable | evaluate.py:106-138 | The chain has 16 branches, and the first gives `ItemKNNCBFWeightedSimilarityRecommender` the ICM as `ICMs`. |
| Evaluate.Lookup | evaluate.py:106-140 | The parameters are those of the first matching branch, or `{}` when no branch matches. |
| Evaluate.FitParamsFirstMatchOrEmpty | evaluate.py:106-140 | For every class there is either a first matching branch whose parameters are chosen, or no match and `{}`. |
| Evaluate.WeightedCbfReceivesIcm | evaluate.py:106-107 | A weighted-similarity CBF instance, whatever else it inherits from, is fitted with the ICM. |
| Evaluate.EarlierBranchWins | evaluate.py:108-116 | A class that is both an `ItemKNNCFRecommender` and an `RP3betaRecommender` gets the earlier `ItemKNNCFRecommender` parameters. |
| Evaluate.ListedHybridParams | evaluate.py:137-138 | For a lineage naming `Hybrid_SLIM_EASE_R_IALS` and no class of an earlier branch, the last branch's alpha, beta and gamma are chosen. |
| Evaluate.UnlistedClassGetsNoParams | evaluate.py:139-140 | A class matching no branch is fitted with `{}`. |
| Evaluate.Record | evaluate.py:150-163 | Success appends `"1-Algorithm: <name>, results: \n<res>\n"` and failure appends `"Algorithm: <name> - Exception: <msg>\n"`. A record starts with `1` exactly on success. |
| Evaluate.RecordDeterminesOutcome | evaluate.py:151-163 | The outcome, including the results text or the message, can be read back from a class's record. |
| Evaluate.Step | evaluate.py:101-164 | One class appends exactly its record, and everything written is then flushed, on both paths. |
| Evaluate.RunAll | evaluate.py:99-164 | After the loop, the log is the old log followed by one record per class, in list order. Each record is the one the `run` function gives for that class, its parameters and the shared matrices. The log is flushed after the last class. |
| Evaluate.RunAllAppendOnly | evaluate.py:151-163 | The previous log contents are a prefix of the new contents, and the log grows by exactly the number of classes. |
| Evaluate.RunAllAppends | evaluate.py:81-99 | The records a class list adds do not depend on what the log file held before. |
| Evaluate.RunAllConcat | evaluate.py:99 | Running two class lists one after the other is running their concatenation. |
| Evaluate.FailureDoesNotStopLoop | evaluate.py:101-164 | A class whose run raises contributes its failure record. The classes after it are still processed. |
| Evaluate.EvaluateAll | evaluate.py:84-164 | A URM/ICM shape mismatch raises before any class runs and outside the per-class `try`. Otherwise the log gains one record per class, in order. |
| Text.NatToString | submission.py:28 | `str` of a non-negative integer is a non-empty string of decimal digits with no leading zero. |
| Text.IntToString | submission.py:28 | `str` of an integer is non-empty and has no space, comma or line break. |
| Text.ParseIntOfIntToString | submission.py:28 | `int(str(i)) == i` for every integer `i`. |
| Text.SplitJoin | submission.py:28 | Splitting `sep.join(xs)` at a separator that occurs in no piece gives `xs` back. |
| Text.JoinSplit | submission.py:28 | Joining the pieces of `s.split(c)` with `c` gives `s` back. |
| Text.BreakAtFirst | submission.py:28 | Breaking at the first `", "` yields the text before it, which has no comma, and the text after it. |
| Text.BreakAtFirstOfCommaFree | submission.py:28 | Breaking `p + ", " + q` at the first `", "`, with `p` comma-free, gives back `p` and `q`. |
| Submission.CreateCsv | submission.py:26 | The file starts with `user_id,item_list\n`. |
| Submission.Body | submission.py:27-28 | The written body is empty exactly when `zip` yields no pair. Otherwise it ends with a line break. |
| Submission.Lines | submission.py:27 | There is one data line per pair of `zip(target_ids, results)`: `min` of the two lengths. |
| Submission.BodyIsTerminatedLines | submission.py:27-28 | What follows the header is each data line followed by a line break, in the order of the ids. |
| Submission.CsvPieces | submission.py:26-28 | Split at its line breaks, the file is the header, the data lines, and an empty piece after the final break. |
| Submission.CsvLines | submission.py:26-28 | The file has exactly `min(len(target_ids), len(results))` data lines after the header. Line `k` is `str(id_k) + ", " + " ".join(items_k)`, so neither ids nor items are reordered or truncated. |
| Submission.EmptyItemsLine | submission.py:28 | An empty recommendation list gives the line `"<id>, \n"`. |
| Submission.ItemsRoundTrip | submission.py:28 | Splitting the joined items at spaces and reading each piece back gives the item list. |
| Submission.LineRoundTrip | submission.py:28 | Splitting a data line at its first `", "` and the rest at spaces gives back the id and the items. |
| Submission.LinesRoundTrip | submission.py:27-28 | Reading back the data lines gives the first `min(...)` ids and item lists, in order. |
| Submission.CsvRoundTrip | submission.py:26-28 | Reading back a written file gives exactly the ids and lists written: the first `min(len(target_ids), len(results))` of each, unchanged. |

## Left out

- File and library I/O is not modelled: `pandas.read_csv`, `DataIO` zip files, `os.makedirs`, opening, writing and flushing files. Bundles are maps, the log is a sequence of records with a flushed-count, and CSV files are strings.
- The CSV file name built from `datetime.now()` (submission.py:23) is not modelled; only the file's contents are.
- `print` diagnostics are not modelled, except that the `.min()` inside one makes an empty group raise.
- `split_train_in_two_percentage_global_sample` is random. Its result is not computed; the training matrix is a parameter.
- `EvaluatorHoldout` and its metrics are not modelled. The results text of a run is opaque.
- `_get_instance`, `fit` and `evaluateRecommender` of the listed recommenders are not modelled. Together they are one function parameter returning the results text or an exception message.
- The P3alpha and PureSVD algorithms are not modelled. They appear as trainer and scorer functions.
- IEEE floating point and `float32` (`np.mean`, `np.std`, `/`, the `float32` cast in the ICM stacking) are not modelled. Scores are exact reals.
- Scores.IsStd: the standard deviation is abstract, a real with `sd > 0` and `sd * sd` equal to the population variance. There is no square root. A zero std (which numpy would turn into NaN or inf) is excluded by that precondition, and so is an empty score batch with normalisation on (numpy returns an empty result there after a warning).
- HybridP3alphaPureSVD.Truth: an empty array stored as `norm_scores` gives `Err`. Depending on its version, numpy reads it as false with a warning or raises. An array with more than one element raises in numpy as in the model.
- HybridP3alphaPureSVD.Weight: an `alpha` array with more than one element gives `Err`. numpy would broadcast it against the score matrices when the shapes allow.
- HybridP3alphaPureSVD.SubScores: a number or flag stored as `W_sparse` or as an SVD factor gives `Err`. What scipy and numpy would compute with it is not modelled.
- HybridP3alphaPureSVD.ComputeItemScore: score matrices of different shapes give `Err`. numpy would broadcast some of them, for instance a single row.
- HybridP3alphaPureSVD.New: whether the P3alpha and PureSVD constructors already create `W_sparse`, `ITEM_factors` and `USER_factors` is not part of this model; they are taken as absent until `fit` or `load_model`.
- HybridP3alphaPureSVD.Fit: the global random generator is a parameter. How far `fit` advances it, and so what a later `fit` draws, is not modelled.
- Evaluate.RunAll: a class's outcome is a function of the shared matrices, the class and its parameters. State carried from one class to the next is not threaded: numpy's global random generator, the single evaluator object, and any in-place change a recommender makes to `URM_train`.
- `user_id_array` and `items_to_compute` are not modelled. The sub-models' scoring functions are taken as already restricted to them.
- Reader.ApplyWeight: the weight is an integer, which is what every call site passes. A float weight, which would make the data column float, is not modelled. The `int32` data column is not wrapped around on overflow: products are unbounded integers.
- `load_icm` is not modelled as a CSR matrix with a shape inferred from the largest ids. Its cells are modelled as sums over the (item, feature) entries.
- `load_urm`, `load_all_icms` and `load_urm_icm` are file loading and are not modelled.
- `load_merged_icm` (reader.py:76-93) is not modelled because it is broken code: the constructor call it makes is invalid.
- `evaluate_best_saved_model`, `run_prediction_on_target` and `run_prediction_best_saved_model` are not modelled; they are wrappers around `load_model`, `recommend` and `create_csv`.
- `run_hyperparameter_search.py` is not modelled: it is a process-pool map over an external Bayesian search.
- The `isinstance` test is modelled as membership of the branch's class name in the instance's set of class and ancestor names. The class hierarchy itself is a parameter.
- Submission.ParseItems reads an empty remainder as an empty list. Python's `''.split(' ')` would give one empty piece. The reader is the model's own partner to `create_csv`; the repository has no reader.
- Submission.CsvRoundTrip covers integer ids and items, which is what the recommenders return. Other element types, whose `str` may contain spaces or commas, are not modelled.
