# HEOM solver core, modelled in Dafny

This project models the combinatorial and index logic of qutip's hierarchical equations of
motion (HEOM) solver, `qutip/solver/heom/bofin_solvers.py`, and proves properties of it:

- **The ADO label space** (`HierarchyADOs`). A label is a tuple with one excitation count per
  bath exponent. The model covers the label enumeration with per-exponent caps and a depth
  cap, the label index `idx`, the neighbours `next` and `prev`, `exps`, and `filter`.
- **The gradient blocks** (`_grad_n`, `_grad_prev_*`, `_grad_next_*`). They are symbolic
  superoperator terms over `spre`/`spost` of each exponent's coupling operator `Q` or its
  adjoint. Their coefficients are exact complex numbers, with the fermionic parity signs
  and the partner coefficient `ck[k + sigma_bar_k_offset[k]]`.
- **The assembly of the right-hand side.** `_rhs` loops over the labels and exponents and
  records blocks in a `_GatherHEOMRHS`, which sorts them and places each at its block
  position. The constant branch of `_calculate_rhs` then adds `L_sys` to every diagonal
  block.
- **The state-vector layout.** `_prepare_state` writes `rho` column-major into the first
  `n*n` entries, or flattens a whole ADO array. `_restore_state` reads the vector back, and
  `HierarchyADOsState.extract` returns one ADO.
- **The steady-state constraint system** of `steady_state` and the density matrix read
  back from its solution. The solution vector itself is a parameter.

The modules follow the source:

| Module | Models |
|---|---|
| `Errors` | the raise sites |
| `Exponents` | the bath exponents |
| `Labels` | labels and their enumeration |
| `Hierarchy` | `HierarchyADOs` |
| `Filter` | `filter` |
| `Superops` | the cached superoperator forms |
| `Gradients` | the `_grad_*` family |
| `Gather` | `_GatherHEOMRHS` |
| `Solver` | `__init__` and `_combine_bath_exponents` |
| `Assembly` | `_rhs` |
| `FullRhs` | `_calculate_rhs` |
| `Layout` | `_prepare_state`, `_restore_state` and `extract` |
| `SteadyState` | `steady_state` |

Where the code mutates state the model is imperative:
- `filter` updates `filtered_dims` in nested loops (`Filter.FilterLabels`).
- The gatherer is a class whose `ops` field `add_op` appends to and `gather` sorts.
- `_rhs` is a pair of nested loops calling `add_op`.
- `_prepare_state` assigns into a zero vector.
- `steady_state` zeroes row 0 of the system and adds the ones in.

Each of these methods is proved equal to a specification function, and the properties are
lemmas about those functions.

Modelling choices:
- `state_number_enumerate` belongs to another qutip module and is not part of this model.
  `Labels.Enumerate` defines the enumeration itself: lexicographic order, first entry
  slowest, over the tuples within the caps and the depth.
- Python's `exp.dim or (max_depth + 1)` treats a zero `dim` like a missing one, and so does
  the model.
- `BathExponent.fermionic` is a field of its own, independent of `typ`. So the model reaches
  `_grad_next` on a fermionic exponent of a bosonic type, and `_grad_prev_bosonic` on a "+" or
  "-" exponent, both of which raise. Whether a real bath can build such an exponent is decided
  by the bath classes, which are not part of this model.

The docstring of `filter` says that any exponent matching a position may supply that
excitation. The code only bounds each exponent's excitations by one more than the number of
positions it matches, capped by its `dim`. The model states what the code computes.

## Model

| member | source | states |
|---|---|---|
| Errors.PyIndex | qutip/solver/heom/bofin_solvers.py:754 | A Python list index succeeds exactly on `[-len, len)`; a negative index counts from the end. |
| Labels.IndexMap | qutip/solver/heom/bofin_solvers.py:121 | `_label_idx` has exactly the labels as keys, and each key maps to a position holding it. |
| Labels.IndexMapAt | qutip/solver/heom/bofin_solvers.py:121 | Over distinct labels, `_label_idx[labels[i]] == i`. |
| Labels.EnumerateMembers | qutip/solver/heom/bofin_solvers.py:120 | A tuple is enumerated exactly when entry `k` is below `dims[k]` and its sum is at most the depth. |
| Labels.EnumerateSorted | qutip/solver/heom/bofin_solvers.py:120 | The enumeration is strictly increasing in lexicographic order. |
| Labels.LexSortedNoDuplicates | qutip/solver/heom/bofin_solvers.py:120 | A strictly increasing label list has no duplicates. |
| Labels.EnumerateStartsAtZero | qutip/solver/heom/bofin_solvers.py:120 | When every cap is at least 1, the enumeration is nonempty and starts with the all-zero label. |
| Hierarchy.HierarchyADOs.Dims | qutip/solver/heom/bofin_solvers.py:113 | One cap per exponent, each at least 1 (a missing or zero `dim` becomes `max_depth + 1`). |
| Hierarchy.HierarchyADOs.Next | qutip/solver/heom/bofin_solvers.py:158-162 | `next` is None exactly when `l[k] >= dims[k] - 1` or `sum(l) >= max_depth`. Otherwise it has the same length, `l[k] + 1` at `k` and `l` elsewhere. |
| Hierarchy.HierarchyADOs.Prev | qutip/solver/heom/bofin_solvers.py:182-184 | `prev` is None exactly when `l[k] == 0`. Otherwise it has the same length, `l[k] - 1` at `k` and `l` elsewhere. |
| Hierarchy.LabelsExactly | qutip/solver/heom/bofin_solvers.py:113-120 | The labels are exactly the tuples within the dims and the maximum depth. |
| Hierarchy.LabelsOrdered | qutip/solver/heom/bofin_solvers.py:120 | The labels are lexicographically sorted and contain no duplicates. |
| Hierarchy.FirstLabelIsSystem | qutip/solver/heom/bofin_solvers.py:120 | `labels[0]` is the all-zero label, the system state of block 0. |
| Hierarchy.IdxOfLabel | qutip/solver/heom/bofin_solvers.py:123-138 | `idx(labels[i]) == i`. |
| Hierarchy.IdxFindsLabel | qutip/solver/heom/bofin_solvers.py:123-138 | `idx` succeeds exactly on the labels of the hierarchy (KeyError otherwise) and returns a position holding the label. |
| Hierarchy.NextInHierarchy | qutip/solver/heom/bofin_solvers.py:158-162 | A defined `next` of a label is again a label. |
| Hierarchy.PrevInHierarchy | qutip/solver/heom/bofin_solvers.py:182-184 | A defined `prev` of a label is again a label. |
| Hierarchy.PrevUndoesNext | qutip/solver/heom/bofin_solvers.py:158-184 | `prev(next(l, k), k) == l` whenever `next(l, k)` is defined. |
| Hierarchy.NextUndoesPrev | qutip/solver/heom/bofin_solvers.py:158-184 | Within the hierarchy, `next(prev(l, k), k) == l` whenever `prev(l, k)` is defined. |
| Hierarchy.ExpsMultiplicity | qutip/solver/heom/bofin_solvers.py:217-220 | `exps(l)` has `sum(l)` entries, lists exponent `k` exactly `l[k]` times, and keeps exponent order. |
| Filter.FilterLabels | qutip/solver/heom/bofin_solvers.py:270-311 | The in-place loops over positions and exponents compute exactly `FilterResult`, the filter's value or exception. |
| Filter.WithLevel | qutip/solver/heom/bofin_solvers.py:289 | The comprehension keeps exactly the labels of the given level; a sorted list stays sorted. |
| Filter.FilterRaises | qutip/solver/heom/bofin_solvers.py:273-294 | Each ValueError is raised exactly under its condition: unequal filter lengths; more filters than the depth; a level other than the filter length. No other exception is raised. |
| Filter.FilterWithoutPatterns | qutip/solver/heom/bofin_solvers.py:282-289 | With no filters the result is all labels, or exactly the labels of the requested level. |
| Filter.FilterWithPatterns | qutip/solver/heom/bofin_solvers.py:296-311 | With filters the result is exactly the labels of level `n` whose entry `j` is below `min(dims[j], 1 + matches of j)`. They are hierarchy labels, in strictly increasing lexicographic order. |
| Filter.FilteredWithinDims | qutip/solver/heom/bofin_solvers.py:296-311 | A label within the filtered caps and the filter depth is within the hierarchy's caps and depth. |
| Gradients.GradN | qutip/solver/heom/bofin_solvers.py:692-697 | `_grad_n` is the identity with coefficient `-sum(l[i] * vk[i])`, and nothing else. |
| Gradients.NegOnePow | qutip/solver/heom/bofin_solvers.py:742 | `(-1) ** e` is 1 for even `e` and -1 for odd `e`. |
| Gradients.GradNOfSystemLabel | qutip/solver/heom/bofin_solvers.py:692-697 | The all-zero label's diagonal block is the zero operator. |
| Gradients.DecayRateOfNext | qutip/solver/heom/bofin_solvers.py:692-697 | One more excitation of exponent `k` adds `vk[k]` to the decay rate. |
| Gradients.GradNextBosonicCoefficients | qutip/solver/heom/bofin_solvers.py:779-781 | A bosonic `next` block is `-1j * (spre(Q) - spost(Q))`, whatever the label. |
| Gradients.GradPrevBosonicCoefficients | qutip/solver/heom/bofin_solvers.py:706-732 | For R, I and RI the block has the coefficients of the source's form and factor. A fermionic type raises ValueError; RI without `ck2` raises TypeError. |
| Gradients.GradPrevFermionicCoefficients | qutip/solver/heom/bofin_solvers.py:734-770 | `Q.dag()` for "+" and `Q` for "-", with the signs `(-1)**b` and `(-1)**(f+1)` and the conjugated partner `ck[k + offset]`. Also: TypeError without an offset, ValueError for other types, IndexError for a partner outside the list. |
| Gradients.GradNextFermionicCoefficients | qutip/solver/heom/bofin_solvers.py:783-809 | `Q` for "+" and `Q.dag()` for "-". The difference form is chosen exactly when the fermionic excitations are even (`sign1 == -1`), scaled by `-1j * sign2`. Other types raise ValueError. |
| Gradients.GradientsRaise | qutip/solver/heom/bofin_solvers.py:699-777 | After dispatch on `fermionic`, exactly these raise: `_grad_next` for a fermionic exponent of a bosonic type; `_grad_prev` in the cases of its two branches. |
| Gather.Gatherer.constructor | qutip/solver/heom/bofin_solvers.py:1271-1275 | The gatherer starts with no triples, with `f_idx`, block size and block count as given. |
| Gather.Gatherer.AddOp | qutip/solver/heom/bofin_solvers.py:1277-1281 | `add_op` appends exactly the triple `(f_idx(row), f_idx(col), op)` and keeps the earlier ones. An unknown label raises KeyError and appends nothing. |
| Gather.Gatherer.Gather | qutip/solver/heom/bofin_solvers.py:1301-1317 | `gather` sorts the triples in place and builds the block matrix from the sorted list. |
| Gather.SortByKey | qutip/solver/heom/bofin_solvers.py:1301 | The sorted list is ordered by `(row, col)` and is a permutation of the triples. |
| Gather.SortKeepsTriples | qutip/solver/heom/bofin_solvers.py:1301 | Sorting keeps exactly the recorded triples. |
| Gather.BlockMap | qutip/solver/heom/bofin_solvers.py:1314-1317 | The block positions of the matrix are exactly those of the triples. |
| Gather.BlockMapAt | qutip/solver/heom/bofin_solvers.py:1314-1317 | When positions determine the operators, each triple's operator is at its position. |
| Gather.GatherPlacesBlocks | qutip/solver/heom/bofin_solvers.py:1283-1317 | `gather` places every recorded block, and nothing else, at its block position, in any recording order. |
| Gather.BlockLayout | qutip/solver/heom/bofin_solvers.py:1291-1294 | Row `N*block + i` lies in block row `N` at offset `i`. |
| Gather.EntryOfBlock | qutip/solver/heom/bofin_solvers.py:1291-1299 | Entry `(N*block + i, M*block + j)` is entry `(i, j)` of block `(N, M)`, or zero when no block was recorded there. |
| Solver.CombineBathExponents | qutip/solver/heom/bofin_solvers.py:676-690 | One bath gives its exponents and a list the concatenation of theirs. Mixed coupling dims raise ValueError. |
| Solver.NewHEOMSolver | qutip/solver/heom/bofin_solvers.py:603-611 | The solver holds the hierarchy built from the combined exponents and the maximum depth, or raises as combining does. |
| Solver.ConcatPositions | qutip/solver/heom/bofin_solvers.py:680-682 | The combined list holds each bath's exponents in order, after those of earlier baths. |
| Solver.ConcatMembers | qutip/solver/heom/bofin_solvers.py:680-682 | The combined list holds exactly the exponents of the baths. |
| Assembly.RecordNeighbours | qutip/solver/heom/bofin_solvers.py:825-832 | One inner pass records the `next` block and then the `prev` block where they exist. It fails exactly when the needed `_grad_next`/`_grad_prev` raises. |
| Assembly.RecordExponents | qutip/solver/heom/bofin_solvers.py:824-832 | The inner loop records `ExponentRequests` for the label, or raises its first exception. |
| Assembly.RecordLabel | qutip/solver/heom/bofin_solvers.py:819-832 | One outer pass records the diagonal block, then the inner loop. |
| Assembly.RecordLabels | qutip/solver/heom/bofin_solvers.py:819-832 | The outer loop records `AllRequests` label by label, or raises the first exception. |
| Assembly.Rhs | qutip/solver/heom/bofin_solvers.py:811-834 | `_rhs` returns exactly `RhsMatrix`: the gathered matrix of all recorded blocks, or the exception. |
| Assembly.AccumulateErrorPersists | qutip/solver/heom/bofin_solvers.py:819-832 | Once a loop pass raised, the loop's result is that exception. |
| Assembly.AccumulateOk | qutip/solver/heom/bofin_solvers.py:819-832 | A loop succeeds exactly when each of its passes does. |
| Assembly.AccumulateMembers | qutip/solver/heom/bofin_solvers.py:819-832 | A successful loop records exactly the requests of its passes. |
| Assembly.NeighbourRequestsSound | qutip/solver/heom/bofin_solvers.py:825-832 | Every request of one inner pass is a `next` block or a `prev` block of that exponent. |
| Assembly.NeighbourRequestsOk | qutip/solver/heom/bofin_solvers.py:825-832 | An inner pass succeeds exactly when the `_grad_next`/`_grad_prev` of each existing neighbour succeeds. |
| Assembly.ExponentRequestsOk | qutip/solver/heom/bofin_solvers.py:824-832 | The inner loop succeeds exactly when every pass does. |
| Assembly.ExponentRequestsColumns | qutip/solver/heom/bofin_solvers.py:824-832 | Neighbour blocks lie in the label's row, their columns differ from the label and from each other, and they leave later entries alone. |
| Assembly.ExponentRequestsSound | qutip/solver/heom/bofin_solvers.py:824-832 | Every neighbour block recorded is a `next` or `prev` block of some exponent. |
| Assembly.ExponentRequestsComplete | qutip/solver/heom/bofin_solvers.py:824-832 | Every defined `next` and `prev` gets its block, built by `_grad_next`/`_grad_prev`. |
| Assembly.NeighbourColumns | qutip/solver/heom/bofin_solvers.py:819-832 | A label's diagonal and neighbour blocks have distinct columns, and every column is a label. |
| Assembly.LabelRequestsShape | qutip/solver/heom/bofin_solvers.py:819-832 | For one label: the diagonal block first, then exactly one block per defined `next`/`prev`. Columns are distinct labels. |
| Assembly.AllRequestsOk | qutip/solver/heom/bofin_solvers.py:819-832 | `_rhs` raises exactly when some label's gradient raises. |
| Assembly.AllRequestsShape | qutip/solver/heom/bofin_solvers.py:819-832 | Over distinct labels, every block is a diagonal or neighbour block of its row, and no `(row, col)` pair repeats. Every label's blocks are present. |
| Assembly.IndexesLabels | qutip/solver/heom/bofin_solvers.py:813 | `f_idx` knows every label of the hierarchy. |
| Assembly.LabelIdxInjective | qutip/solver/heom/bofin_solvers.py:121 | Distinct labels get distinct indices. |
| Assembly.RecordAll | qutip/solver/heom/bofin_solvers.py:1277-1281 | With every label known, recording never raises and yields one triple per request, in order. |
| Assembly.RecordedTriples | qutip/solver/heom/bofin_solvers.py:1277-1281 | Requests at distinct label positions give triples whose positions determine their operators. The triples match the requests one for one. |
| Assembly.RhsBlocks | qutip/solver/heom/bofin_solvers.py:811-834 | `_rhs` succeeds exactly when no needed gradient raises. The matrix is then `nhe` by `nhe` blocks: `_grad_n` on the diagonal, `_grad_next`/`_grad_prev` towards each neighbour, and nothing else. |
| Assembly.RhsLayoutRows | qutip/solver/heom/bofin_solvers.py:819-834 | With every request placed, the diagonal, `next` and `prev` blocks are at their label indices. |
| Assembly.BlocksRecorded | qutip/solver/heom/bofin_solvers.py:1301-1317 | Every block of the gathered matrix comes from a recorded request between two labels. |
| FullRhs.AddSystem | qutip/solver/heom/bofin_solvers.py:842 | `kron(identity(nhe), L_sys)` touches exactly the diagonal blocks and leaves every other block unchanged. |
| FullRhs.AddSystemOnDiagonal | qutip/solver/heom/bofin_solvers.py:842 | On the diagonal every coefficient becomes the old one plus that of `L_sys`. |
| FullRhs.CalculateRhs | qutip/solver/heom/bofin_solvers.py:836-866 | Propagates `_rhs`'s exception. A constant `L_sys` gives `_rhs` plus the diagonal `L_sys`; otherwise `_rhs` with the time-dependent part symbolic. |
| FullRhs.RhsDiagonal | qutip/solver/heom/bofin_solvers.py:819-821 | Every label's diagonal block is `_grad_n` at its index. |
| FullRhs.DiagonalBlockOf | qutip/solver/heom/bofin_solvers.py:840-842 | After adding `L_sys`, a `_grad_n` block is `L_sys - decay * 1`. |
| FullRhs.ConstantDiagonalBlock | qutip/solver/heom/bofin_solvers.py:840-842 | With a constant `L_sys`, the diagonal block of ADO `l`: coefficient 1 on `L_sys`, minus its decay rate on the identity, and 0 on every `spre`/`spost`. |
| Layout.RavelFAt | qutip/solver/heom/bofin_solvers.py:1059 | `ravel('F')` puts entry `(i, j)` at position `i + j*n`. |
| Layout.ReshapeFAt | qutip/solver/heom/bofin_solvers.py:1074 | The column-major reshape reads entry `(i, j)` from position `i + j*n`. |
| Layout.TransposeRect | qutip/solver/heom/bofin_solvers.py:371 | `.T` of a `q` by `w` block is `w` by `q`, with the indices swapped. |
| Layout.PrepareState | qutip/solver/heom/bofin_solvers.py:1026-1065 | The method fills a zero vector, or flattens an ADO array, and returns exactly `PreparedState`, including its exceptions. |
| Layout.PreparedStateErrors | qutip/solver/heom/bofin_solvers.py:1036-1056 | Each exception under its condition: TypeError for other inputs; ValueError for wrong rho dims or a wrong ADO array shape. A result has length `n*n*nhe`. |
| Layout.PreparedRhoSize | qutip/solver/heom/bofin_solvers.py:1058-1059 | A `Qobj` with the system dims is accepted, and the vector has length `n*n*nhe`. |
| Layout.PreparedRhoAt | qutip/solver/heom/bofin_solvers.py:1059 | `rho[i][j]` is at position `i + j*n`. |
| Layout.PreparedZeroAt | qutip/solver/heom/bofin_solvers.py:1058 | Every position from `n*n` on is zero. |
| Layout.RestoreState | qutip/solver/heom/bofin_solvers.py:1067-1080 | `_restore_state` builds a well-formed `(nhe, n, n)` array, and an `n` by `n` `rho` with the system dims. |
| Layout.RestorePreparedRho | qutip/solver/heom/bofin_solvers.py:1058-1076 | Restoring a prepared `Qobj` gives it back. |
| Layout.RestorePreparedArray | qutip/solver/heom/bofin_solvers.py:1061-1079 | Flattening an ADO array of the hierarchy's shape and reshaping it back gives the same array. |
| Layout.Extract | qutip/solver/heom/bofin_solvers.py:350-371 | `extract(int)` succeeds exactly on `[-nhe, nhe)`. A label succeeds exactly when `idx` finds it inside the array. The result has `rho`'s dims. |
| Layout.ExtractAt | qutip/solver/heom/bofin_solvers.py:371 | Entry `(i, j)` of `extract(b)` is C-order position `(b*n + j)*n + i`. |
| Layout.ExtractSystemIsRho | qutip/solver/heom/bofin_solvers.py:1067-1080 | After `_restore_state`, `extract(0)` equals `rho`. |
| Layout.ExtractByLabel | qutip/solver/heom/bofin_solvers.py:366-371 | Extracting by label equals extracting at the label's index; the all-zero label gives `extract(0)`. |
| SteadyState.SteadyStateSystem | qutip/solver/heom/bofin_solvers.py:914-931 | A time-dependent `L_sys` raises ValueError and an empty state IndexError. Otherwise `b` is 1 at 0 and 0 elsewhere, row 0 is the trace row, and rows 1 on are those of `rhs(0)`. |
| SteadyState.BuildSteadyStateSystem | qutip/solver/heom/bofin_solvers.py:914-931 | The statement-by-statement construction gives exactly `SteadyStateSystem`. |
| SteadyState.UnitVector | qutip/solver/heom/bofin_solvers.py:921-922 | `b_mat` has the full length, 1 at index 0 and 0 elsewhere. |
| SteadyState.NormalisationRow | qutip/solver/heom/bofin_solvers.py:926-931 | Row 0 after zeroing and adding the ones is 1 exactly at diagonal positions. |
| SteadyState.DiagonalColumnsAreDiagonal | qutip/solver/heom/bofin_solvers.py:930 | The columns `num*(n+1)` for `num < n` are exactly the positions of diagonal entries of `rho`. |
| SteadyState.TraceRowIsTrace | qutip/solver/heom/bofin_solvers.py:926-931 | Row 0 applied to a state vector is the trace of its column-major `rho`. |
| SteadyState.SolutionIsNormalised | qutip/solver/heom/bofin_solvers.py:921-946 | A solution has `trace(rho) == 1`, and every other row of `rhs(0)` maps it to zero. |
| SteadyState.SteadyStateResult | qutip/solver/heom/bofin_solvers.py:948-955 | The corrected read-back: a Hermitian `n` by `n` `Qobj` with the system dims, and an ADO state of the hierarchy's shape with that `rho`. |
| SteadyState.SteadyStateResultAsWritten | qutip/solver/heom/bofin_solvers.py:948-955 | The read-back as written: an `n` by `n` `Qobj` with the system dims, and an ADO state of the hierarchy's shape with that `rho`. |
| SteadyState.SteadyRhoSymmetric | qutip/solver/heom/bofin_solvers.py:949 | The corrected symmetrisation is Hermitian for any solution. |
| SteadyState.SteadyRhoOfHermitian | qutip/solver/heom/bofin_solvers.py:948-950 | The corrected read-back leaves a Hermitian system block unchanged; it is what `_restore_state` reads. |
| SteadyState.SteadyStateExtractsRho | qutip/solver/heom/bofin_solvers.py:948-955 | Corrected, with a Hermitian block, `steady_ados.extract(0) == steady_state`. |
| SteadyState.SteadyRhoAsWrittenAt | qutip/solver/heom/bofin_solvers.py:948-949 | As written, entry `(i, j)` is the real part of position `i*n + j`. |
| SteadyState.SteadyRhoAsWrittenIsRealPart | qutip/solver/heom/bofin_solvers.py:948-949 | As written, with a Hermitian block, entry `(i, j)` is the real part of `rho[i][j]`. |
| SteadyState.SteadyStateAsWrittenDisagrees | qutip/solver/heom/bofin_solvers.py:948-955 | As written, with a Hermitian block, the returned state and `extract(0)` differ at every entry with a nonzero imaginary part. |
| SteadyState.SteadyStateAsWrittenLosesCoherence | qutip/solver/heom/bofin_solvers.py:948-955 | As written, for a one-ADO qubit with solution `[0.5, 0.5j, -0.5j, 0.5]`: `extract(0)` is `[[0.5, -0.5j], [0.5j, 0.5]]`, but the returned state has 0 at `(0, 1)`. |

## Left out

- Floating point: complex numbers are pairs of exact reals.
- Superoperator arithmetic (`spre`, `spost`, `_data.mul/add/sub/kron`, `identity`) is symbolic: an `Op` term whose coefficients on the independent pieces are read off by `Coef`.
- `_csr.from_csr_blocks` is a map from block positions to operators; its sparse-matrix internals belong to another module. The matrix is built from the sorted list.
- The order `list.sort` gives triples with equal `(row, col)` is not modelled. `_rhs` never records two such triples (`Assembly.AllRequestsShape`).
- The time-dependent branch of `_calculate_rhs` is the symbolic `TimeDependentRhs`. `QobjEvo.linear_map` is not part of this model.
- The sparse solve (`spsolve` / `mkl_spsolve`) and its options: the solution vector is a parameter of the read-back.
- The numeric value of `rhs(0)` is a parameter of the constraint system; it is not computed from the symbolic blocks.
- `HEOMSolver.__init__` takes the Liouvillian's shape, dims and constancy as parameters. Excluded: the type check of `H`, the conversion to a Liouvillian, `int(np.sqrt(...))` and the superoperator caches (symbolic forms).
- State data types: `_data.create`, and the `state_data_type` conversion in `_prepare_state`.
- `Layout.PreparedState` and `Layout.PrepareState` require `ValidInitial`: an array holds `prod(shape)` entries, and a `Qobj` with the system dims is `n` by `n`. numpy and `Qobj` guarantee both.
- String names for exponent types in `filter`: types are given as the enumeration directly.
- The stray `breakpoint()` in `_rhs` (an `isinstance` check on the data layer).
- Hierarchy.HierarchyADOs.Next, Hierarchy.HierarchyADOs.Prev: model only `0 <= k < len(label)`, the exponent indices `_rhs` passes. A `k` past the end makes `label[k]` or `self.dims[k]` raise IndexError. A negative `k` indexes from the end, and with `k = -1` the slice `label[k + 1:]` is the whole label, so `next` returns a longer tuple. Neither is modelled.
- `HierarchyADOsState.__getattr__` delegation: the model reads the hierarchy explicitly.
- `HEOMResult`, `heomsolve`, `run`, `start`, `options`, `_initialize_stats`, timing and `HSolverDL`: solver framework and bath-model code outside this core.
- `state_number_enumerate` is not part of this model. `Labels.Enumerate` defines the order it produces.

## Findings

| source | as written | input that shows it | evidently intended | confidence | as-written member | corrected member |
|---|---|---|---|---|---|---|
| qutip/solver/heom/bofin_solvers.py:948-949 | `steady_state` reshapes the first `n*n` entries in C order and adds the elementwise `conj`. Entry `(i, j)` becomes the real part of position `i*n + j`, so the returned state is real and differs from `steady_ados.extract(0)`. | One-ADO qubit with solution `[0.5, 0.5j, -0.5j, 0.5]`, which is `rho = [[0.5, -0.5j], [0.5j, 0.5]]` column-major. `steady_state` gives `[[0.5, 0], [0, 0.5]]`. | The column-major reshape of `_prepare_state` / `_restore_state` (`order='F'`), symmetrised with the adjoint. The returned state is then Hermitian and equals `extract(0)`. | medium; not executed | SteadyState.SteadyStateResultAsWritten, SteadyState.SteadyStateAsWrittenLosesCoherence, SteadyState.SteadyStateAsWrittenDisagrees | SteadyState.SteadyStateResult, SteadyState.SteadyStateExtractsRho, SteadyState.SteadyRhoOfHermitian |
