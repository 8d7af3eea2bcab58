# ParallelOptimizer coordination layer, modelled in Dafny

`ParallelOptimizer` (core/optimisers.py) runs one optimiser per cost
object side by side. A request phase gathers every optimiser's next point.
Depending on the sharing method it also synthesises "padding" points. Each
point is recorded in a per-round ledger under a key `(requester, point
index)` with a fresh request name, and all requests go out in one batch.
An update phase then walks a sharing matrix of
`(consumer, requester, point)` triples. For each triple it looks up the
recorded point and its result, and appends the pair to the consumer's
data. After that, every optimiser refits its model. An initialisation
phase does the same with randomly drawn points.

The project has four modules:

- `Sharing` (sharing.dfy) covers the pure topology:
  - the constructor's method check;
  - the sharing matrix for `independent`, `shared`, `left` and `right`, with its sizes, its entries by position, and its membership;
  - how many entries name each optimiser as consumer;
  - the set of keys a request round creates, and its size (n, or n(n+1)/2).
- `Ledger` (ledger.dfy) gives pure folds that specify the imperative
  code:
  - `RecordAll` records a sequence of (key, point) items, issuing consecutive request names.
  - `PadFold` is the padding pass.
  - `RequestRound` is the whole request phase, and `InitItems` the init requests.
  - `CrossEvaluation` is the ledger lookup.
  - `XsFor`/`YsFor` give the rows an optimiser receives from a list of sharing entries, and `FirstMiss` is where a lookup fails.
  - `InitRows` is the init phase's sharing list.

  This module also holds the lemmas that connect these folds to the
  properties.
- `ParallelOptim` (parallel_optimizer.dfy) has two classes:
  - `Optimiser`, with data `X`, `Y` and a fit history: for every refit of its model, the number of data points that refit saw;
  - `ParallelOptimizer`, whose ledger maps `ids`/`xs`, token counter and batch its methods update in place.

  Each method's postcondition ties the new state to the folds above. The
  module also has the driver's order of phases (`Lifecycle`).
- `BayesianOptim` (bayesian_optim.dfy) covers the arithmetic of
  `nb_init='max'` and the layout of `_bind_circuits`.

Collaborators the model cannot see are passed in as function parameters:
- `propose`: an optimiser's next point from its data;
- `pad`: the padding point, built from the generator's point, the other optimiser's point and the request's name (which stands in for the random draw);
- `draw`: the init points;
- `decode`: cost object c's reading, at request name id, of the results object in use.

Request names are a counter, so they are distinct by construction.

The constructor check follows the code, not the docstring. The first
test refuses every name outside the four modes. The message it prints
goes to `sys.stderr`, but core/optimisers.py never imports `sys`, so
evaluating that argument raises `NameError` and the `raise ValueError`
after it is never reached. The model states this (`Sharing.ParseMode`)
and records the intended `ValueError` under "## Findings". Names such as
`random1`/`random2` are refused by the same first test, so the
`NotImplementedError` branch is never reached.

## Model

| member | source | states |
|---|---|---|
| Sharing.ParseMode | core/optimisers.py:411-416 | a name is accepted iff it is one of the four modes (and round-trips through `NameOf`); every refusal is `NameError`, raised by the print's `sys.stderr` argument since `sys` is not imported (core/optimisers.py:8-12) |
| Sharing.IntendedParseMode | core/optimisers.py:411-414 | the intended check: the same names accepted with the same round trip, every other name refused with `ValueError` |
| Sharing.ParseModeMismatch | core/optimisers.py:411-414 | the as-written and intended checks accept the same names with the same mode, and every refused name is `NameError` as written and `ValueError` as intended |
| Sharing.UnknownModeRaisesNameError | core/optimisers.py:411-414 | the unknown name `bogus` is refused with `NameError` as written and `ValueError` as intended |
| ParallelOptim.ParallelOptimizer.Create | core/optimisers.py:411-436 | an unrecognised method is refused with `NameError`, as the check is written, before any object exists; otherwise a fresh, valid optimiser of that mode storing `share_init` and `nb_init`, with one fresh empty optimiser per cost object and an empty ledger |
| ParallelOptim.ParallelOptimizer.constructor | core/optimisers.py:418-436 | one fresh, empty, distinct optimiser per cost object, the mode's sharing matrix, empty ledger maps |
| Sharing.Matrix | core/optimisers.py:452-490 | the sharing list, consumer-major: for each consumer i its entries for the generators 0..n-1 (its one own entry for independent); size, positions and membership are stated by MatrixSize, MatrixAt and MatrixMembership |
| Sharing.MatrixSize | core/optimisers.py:452-490 | the matrix has n entries for independent and n*n for the other modes (the asserts at 474 and 489) |
| Sharing.MatrixAt | core/optimisers.py:457-490 | entry i*n+j is the triple built for consumer i and generator j: `(i,j,j)` for shared, `(i,j,j)`/`(i,i,j)` split at i>=j (left) or i<=j (right); entry i is `(i,i,i)` for independent |
| Sharing.MatrixMembership | core/optimisers.py:452-490 | a triple is in the matrix iff the mode's description `Shares` admits it (both directions) |
| Sharing.SharedIsCrossProduct | core/optimisers.py:457-458 | 'shared' holds every `(i,j,j)` with i, j < n and nothing else |
| Sharing.MatrixInRange | core/optimisers.py:452-490 | every consumer, requester and point index of the matrix is below n |
| Sharing.MatrixCountFor | core/optimisers.py:457-490 | each optimiser is the consumer of exactly n entries (1 for independent) |
| Sharing.RoundKeysMembership | core/optimisers.py:634-645 | the keys a request round creates are the diagonal (independent, shared), `(i,j)` with i<=j (left) or i>=j (right) |
| Sharing.RoundKeysCount | core/optimisers.py:648-659 | that key set has n elements for independent/shared and n(n+1)/2 for left/right |
| Sharing.MatrixKeysRecorded | core/optimisers.py:677-678 | every matrix entry's `(requester, point)` key is among the keys the request round creates |
| Ledger.RecordAll | core/optimisers.py:639-644 | recording (key, point) items in order, each with the next request name and one request; its effect is stated by RecordAllShape, RecordAllAt and RecordAllFresh |
| Ledger.OwnRound | core/optimisers.py:639-644 | the own-point part of a request round: optimiser i's point recorded under (i, i), for i < n in order, on an empty ledger |
| Ledger.RecordAllShape | core/optimisers.py:640-644 | recording items adds exactly their keys to both maps, appends one request per item in order, and advances the name counter by the item count |
| Ledger.RecordAllAt | core/optimisers.py:640-644 | with distinct keys, the item at position q ends under its key with the q-th fresh name and its own point |
| Ledger.RecordAllFresh | core/optimisers.py:640-644 | recording keeps the ledger well formed (same keys in both maps, names pairwise distinct and below the counter); every recorded key ends with a name issued at or after the starting counter |
| Ledger.PadFold | core/optimisers.py:509-535 | the padding pass over the sharing list in order, as the loop performs it; its effect is stated by PadFoldRecords and PadFoldBatch |
| Ledger.PadFoldRecords | core/optimisers.py:510-535 | the padding pass records, in matrix order, one item per entry with consumer == requester != point, derived from the recorded `(requester,requester)` and `(point,point)` points |
| Ledger.PadItemsOwnOnly | core/optimisers.py:516-517 | padding points read only own-point keys, so writing an off-diagonal key changes no later padding point |
| Ledger.PadFoldBatch | core/optimisers.py:509-537 | the padding pass appends to whatever batch it starts from and otherwise does not depend on it |
| Ledger.RequestRound | core/optimisers.py:634-645 | a whole request round from an empty ledger: the own points, then the padding pass; its keys, points and batch are stated by RequestRoundKeys, RequestRoundPoints and RequestRoundBatch |
| Ledger.RequestRoundKeys | core/optimisers.py:634-659 | after a request round the ledger is well formed, its keys are exactly the round's key set, its size is n or n(n+1)/2, every matrix entry's key is present, and every name is fresh |
| Ledger.RequestRoundPoints | core/optimisers.py:643-644 | padding never overwrites an own point: `(i,i)` holds optimiser i's point, and every other key holds `pad` of the two own points and that key's own name |
| Ledger.RequestRoundBatch | core/optimisers.py:645 | the batch has one request per ledger key, each carrying that key's name, requester and point |
| Ledger.RequestRoundSplit | core/optimisers.py:634-645 | the request round is the own round followed by the padding pass, and the two batches are concatenated |
| Ledger.InitItems | core/optimisers.py:583-593 | the init requests: for each drawing cost c in order, its nbInit drawn points under (c, k); stated by InitItemsKeys |
| Ledger.InitItemsKeys | core/optimisers.py:579-593 | the init requests have keys `(c,k)` exactly for c below the number of drawing costs and k < nbInit, each with the point drawn for it |
| Ledger.RecordAllDrawn | core/optimisers.py:592-593 | recorded init keys hold the point drawn for them, whatever the ledger held before |
| Ledger.CrossEvaluation | core/optimisers.py:562-571 | the lookup finds the key `(requester, point, defaulting to requester)` iff it is in both maps, and then returns the recorded point and the consumer's decoding of the recorded name; otherwise it reports the missing key |
| Ledger.FirstMiss | core/optimisers.py:677-678 | the index of the first entry whose key is missing: every earlier key is present, and the key at that index is absent |
| Ledger.FirstMissNone | core/optimisers.py:677-678 | if every entry's key is in the ledger, no lookup fails |
| Ledger.XsFor | core/optimisers.py:677-680 | the points optimiser i receives from a list of sharing entries, in entry order |
| Ledger.YsFor | core/optimisers.py:677-681 | the values optimiser i receives from a list of sharing entries, each decoded by i's cost object, in entry order |
| Ledger.AbsorbStep | core/optimisers.py:677-681 | reading one more entry appends one point and one value to its consumer's rows and nothing to anyone else's |
| Ledger.RowsForCount | core/optimisers.py:677-681 | an optimiser receives as many values as entries naming it as consumer |
| Ledger.MatrixXs | core/optimisers.py:677-681 | in one update optimiser i receives RowLength points: for each generator j, the point recorded under entry (i,j)'s key, in matrix order |
| Ledger.InitRows | core/optimisers.py:610-613 | the init sharing list: for each optimiser c, entries (c, 0 or c, run) for run < nbInit; stated by InitRowsShape |
| Ledger.InitRowsShape | core/optimisers.py:610-613 | every init entry names a consumer below n, requester 0 (shared init) or the consumer, and a run below nbInit; each optimiser is named by nbInit entries |
| Ledger.InitRowsDrawn | core/optimisers.py:610-618 | when the init keys hold their drawn points, optimiser i receives exactly the nbInit points drawn for its source cost, in order |
| ParallelOptim.ParallelOptimizer.Proposals | core/optimisers.py:636-637 | one proposal per optimiser, the i-th computed from optimiser i's data |
| ParallelOptim.ParallelOptimizer.NextEvaluationCircuits | core/optimisers.py:622-662 | the ledger after the phase is the request round of x_new (or the proposals) started from empty maps; the batch is the one stored; the key count is n or n(n+1)/2; every matrix key is present in both maps |
| ParallelOptim.ParallelOptimizer.RecordOwnPoints | core/optimisers.py:639-644 | the own-point loop leaves the ledger equal to the own round: `(i,i)` for each optimiser, in order, with consecutive names |
| ParallelOptim.ParallelOptimizer.GetPaddingCircuits | core/optimisers.py:493-537 | the loop's ledger and returned requests equal the padding fold over the sharing matrix |
| ParallelOptim.ParallelOptimizer.Absorb | core/optimisers.py:677-681 | each optimiser's X and Y grow by exactly the rows of the entries before the first missing key, in entry order; success iff no key is missing; X and Y stay of equal length |
| ParallelOptim.ParallelOptimizer.Receive | core/optimisers.py:679-681 | one row is appended to the consumer's X and Y; no other optimiser changes |
| ParallelOptim.ParallelOptimizer.Refit | core/optimisers.py:683-684 | every optimiser's data is unchanged and its fit history gains one fit on all the data it holds |
| ParallelOptim.ParallelOptimizer.Update | core/optimisers.py:666-684 | every entry's point and decoded value go to its consumer in matrix order, up to the first missing key; iff no lookup failed, every model is refitted once, after all the appends (the fit sees the enlarged data) |
| ParallelOptim.ParallelOptimizer.GenInitCircuits | core/optimisers.py:574-595 | fails with the ledger untouched iff init is shared with no cost object; otherwise the ledger is the old one with the init requests recorded on top (cost 0 only when shared), and the batch is stored |
| ParallelOptim.ParallelOptimizer.RecordDrawRow | core/optimisers.py:588-593 | the inner loop records cost c's nbInit drawn points under `(c,k)` with consecutive names |
| ParallelOptim.ParallelOptimizer.InitOptimisers | core/optimisers.py:598-619 | each optimiser receives the rows of the init sharing list up to the first missing key; iff none is missing, every model is refitted once after all the appends |
| ParallelOptim.ParallelOptimizer.InitKeysPresent | core/optimisers.py:579-593 | after the init requests on an empty ledger, every init entry's key is present and holds the point drawn for it |
| ParallelOptim.ParallelOptimizer.InitPhase | core/optimisers.py:574-619 | init requests then init update on empty optimisers: every optimiser holds exactly the nbInit points drawn for its source cost (cost 0 when shared), and was fitted once, on those nbInit points |
| ParallelOptim.ParallelOptimizer.RequestAndUpdate | core/optimisers.py:622-684 | a request phase followed by an update never fails a lookup; every optimiser keeps its data as a prefix, gains RowLength rows (n, or 1 for independent), and is refitted once on all of its data |
| ParallelOptim.Lifecycle | optim/test_optim_paralell.py:87-103 | init requests, init update, request phase, update: it succeeds unless init is shared with no cost; every optimiser ends with its nbInit drawn points followed by RowLength rows; its two fits saw nbInit and nbInit + RowLength points |
| BayesianOptim.InitPointCount | core/optimisers.py:146-150 | a count is used as given; 'max' divides by zero iff there are no measurement circuits, and otherwise is the largest k with k * #meas <= init_jobs * 900 |
| BayesianOptim.BindAll | core/optimisers.py:184-190 | every point's bound circuits, point after point; the layout is stated by BindAllLayout |
| BayesianOptim.BindAllLayout | core/optimisers.py:184-190 | binding yields #points * #circuits circuits, point-major: position k is circuit k mod m bound to point k div m with name prefix k div m |
| BayesianOptim.BindCircuits | core/optimisers.py:181-192 | the nested loop returns that layout; a single 1-D point counts as one point |

## Findings

| source | as written | input that shows it | evidently intended | confidence | as-written member | corrected member |
|---|---|---|---|---|---|---|
| core/optimisers.py:411-414 | an unrecognised `method` reaches `print(..., file=sys.stderr)`; `sys` is never imported (:8-12), so `NameError` is raised and the `raise ValueError` is dead | `method='bogus'` | refuse the name with `ValueError` after printing the message | high; from reading the text, not executed | Sharing.ParseMode (with Sharing.UnknownModeRaisesNameError) | Sharing.IntendedParseMode (with Sharing.ParseModeMismatch) |

`Create` states the check as written. Both checks accept the same names with the same mode (`ParseModeMismatch`), so every member built from an accepted mode behaves the same under the intended check.

## Left out

- The padding point's floating-point geometry (`_find_min_dist`, the Gaussian hypersphere direction, `np.mod(..., 2*pi)`) is the parameter `pad`. The uniform random init points are the parameter `draw`.
- Calls into qiskit, GPyOpt and the helper modules are abstracted:
  - `cost.bind_params`, `ut.prefix_to_names` and the circuits a request stands for become one `Request` per point;
  - `evaluate_cost` becomes `decode`;
  - `_compute_next_evaluations` becomes `propose`;
  - `_update_model` and `run_optimization` become an entry in the fit history, which records how many points the fit saw;
  - `ut.gen_random_str` names become a counter.
- `_last_results_obj` is folded into the `decode` argument: each phase is given the decoder of its own results object.
- `_prefix` and the unused `_initialised` flag carry no behaviour the model states.
- ParallelOptim.ParallelOptimizer.NextEvaluationCircuits requires at least n points in x_new. The source zips the cost objects with x_new. It silently ignores extra points. With fewer points, a later padding lookup raises KeyError or the size assertion fails, and the model does not follow that failure.
- ParallelOptim.ParallelOptimizer.Proposals: the `np.squeeze`/`np.atleast_2d` reshaping at core/optimisers.py:637 is not modelled. `Proposals` always yields n points, one per optimiser. In the source, with a one-parameter ansatz and more than one optimiser, the n proposals of shape (1, 1) squeeze to one vector and become a single row. `zip` then records only key (0, 0), and either the key-count assertion (:648-659) or a padding lookup (:516-517) raises.
- The `vstack` row shapes are not modelled: a point is one sequence of reals and a value one real.
- ParallelOptim.ParallelOptimizer.constructor: the init count is a natural number. The class documentation gives `nb_init` as an int or 'max' with an `init_jobs` count, but the signature (core/optimisers.py:349-357) has no `init_jobs` and passes `nb_init` unchanged to `np.random.rand` (:586) and `range` (:611, :613). So 'max' or a negative count raises in `gen_init_circuits` before the ledger is touched. That error path is not modelled. The 'max' arithmetic is modelled only for the single optimiser, by `BayesianOptim.InitPointCount`.
- Each optimiser's `X`/`Y` starts empty. The library's habit of pre-filling them with `eval_init` data is not modelled.
- `BayesianOptimParallel` is not part of this model, nor is `BayesianOptim.update` or `_get_random_points_in_domain`. Of `BayesianOptim`, only the 'max' arithmetic and `_bind_circuits` are modelled.
- The assertion branch for `random1`/`random2` at core/optimisers.py:652-655 is not modelled, because the constructor never accepts those methods.
- The contents of the measurement circuits and their parameters are not modelled. A bound circuit is (point index, circuit index, point).
