# Verified models of ABC and BayesOpt

Dafny 4.11 models of the most intricate parts of this repository, with proofs of what they promise. Every file is a
module; `dafny verify dfyconfig.toml` checks all of them.

Code that works in place is modelled in place: matrices are `array2<real>`, truth tables, signatures and index lists are
arrays, hash chains are linked objects, and the surrogate model, the optimiser, the recording table, the file store and
the PDF writer are classes. Each method is proved against a specification, and what the source promises is proved about that.
Arithmetic is over the reals, except for the pseudorandom generator and the words of truth tables, which have 32 bits.

## The parts

**Semi-canonical truth tables** (`TruthTables`, `WordBits`, `WordTables`, `WordOperations`, `SemiCanonical`,
`CanonicalForms`, `InputSymmetries`, `OutputPhases`, `Recorder`). A table is a sequence of 2^n bits, and the table operations have their meaning on
assignments; the masks, shifts and block copies on 32-bit words are proved to compute them. The group of input permutations
and complementations acts on tables. On top of it: phase normalisation by cofactor counts, the adjacent-exchange sort that
alternates between two buffers, its inversion count, the self check, and canonicity exactly when every tie is a symmetry of
the function.

**The recording table** (`RecordTable`, `RecordTableGrowth`). Chains of objects, slots as addresses, rehashing, growth.

**Cholesky factors under the optimiser** (`RealVectors`, `CholeskyTheory`, `Cholesky`, `GaussianProcesses`,
`BayesOptimizer`). What a factor is and when it exists is independent of any algorithm; four routines, the solves, the
inverse and the added row are proved against that. The square root is any function with the defining property, the
kernel any function; a run is about symmetric ones.

**The thread limit** (`ThreadLimit`, `ThreadProgress`, `ThreadFairness`). The main thread and its workers as interleaved
atomic steps; every mutex section is three steps. Safety over all runs, from which states the program can finish, and
termination of every run under a fair scheduler.

**Contour lines** (`ContourTracing`, `ContourLines`, `ContourShapes`, `OpenContours`, `ContourComponents`,
`ContourDisplay`). Crossings, the mode machine that joins them, when the crossings of a level are closed and open contours
and what becomes of these, the flat encoding, and the display loop that decodes it.

**BSP sorting** (`BspPrimitives`, `BspPlanes`, `BspSplit`, `BspRoutines`, `BspTrees`, `BspDepth`, `BspTraversal`,
`BspScenes`). A vertex is a place with a colour, seven numbers; a primitive shows the convex combinations of its vertices.
Splitting, building and drawing show exactly the same places in the same colours. When the eye is clear of all node planes,
the fragments are drawn in a painter's order, except for those that stray from the plane of their node. (The eye of the
program is behind the scene, lib/bayesopt/matplotpp/gl2ps.c:5488: what is nearer to it is drawn first.) The depth is bounded
by the number of primitives as long as no fragment degenerates.

**PDF objects** (`PdfGroups`, `PdfObjects`). Grouping, allocation of object numbers in three passes, writing, and the
cross-reference table, for byte lengths that are any function of what is printed.

**Text formats** (`Texts`, `ExpressionParser`, `ExpressionTrees`, `CriteriaFactory`, `FileStore`, `FileEntries`,
`FileMatrices`). The n-ary expression parser with its recursive factory, and the key and array store.

**The pseudorandom generator** (`UniformGenerator`, `GeneratorPeriod`). Its 32-bit arithmetic, and its full period.

`Sequences` flattens and reverses lists; `Residues` has remainders and primes.

## Where the code does not do what its text suggests

- A recording table that grows stores the new entry through a slot found before the growth
  (src/aig/aig/aigCanon.c:222-237). `RecordTable.RMan.GrowthHarmless` is the exact condition, readable before the call,
  under which this keeps the table; otherwise a lookup misses a recorded key, and reports it as new again
  (`RecordTable.HiddenKey`, `RecordTableGrowth.GrowthLosesAnEntry`), with the program's own hash too
  (`RecordTableGrowth.ProgramLosesAnEntry`).
- Signatures are compared with `memcmp` (src/aig/aig/aigCanon.c:410-414): the order is that of the bytes, least significant
  first on a little-endian machine, and 256 comes before 1. It is a total order all the same, and that of the numbers
  exactly for counts below 256 (`SemiCanonical.SigOrderIsNumericIff`).
- The semi-canonical form is canonical exactly when every tie of signatures is a symmetry of the function
  (`InputSymmetries.OneFormIff`). It is not for the parity functions (`SemiCanonical.TiesBreakCanonicity`), and it is for
  the conjunction of two inputs although the uniqueness test fails for it (`CanonicalForms.ConjunctionIsCanonical`).
- The output is complemented when entry 0 of the table is true, before the inputs are looked at
  (src/aig/aig/aigCanon.c:637-638): functions that differ only in complemented inputs can get different keys, exactly as
  `OutputPhases.OneKeyIff` says; the conjunction and the joint denial do (`OutputPhases.AndAndNorHaveTwoKeys`).
- Tracing an open contour starts at its first crossing in scan order. If this is neither the end that the front part goes to
  nor next to it, the front part returns to the starting point after one step, because a starting point may be used again
  in a line of more than two points (lib/bayesopt/matplotpp/matplotpp.cc:2554), and one segment of the contour is never
  drawn (`OpenContours.OpenContourIff`, `OpenContours.ShoreIsBroken`).
- The incremental update evaluates the kernel with its arguments in the other order than the full matrix does
  (lib/bayesopt/src/kernelregressor.cpp:54-55, lib/bayesopt/src/kernel_functors.cpp:169): it gives the factor of the full
  matrix exactly when the kernel is symmetric between the new sample and the old ones (`GaussianProcesses.UpdateIsRightIff`).
  It also never checks the number under its square root: the caches are right exactly when the matrix is positive definite.
- With one CPU, which is accepted, no command is ever launched: the bound is one less than the number of CPUs
  (src/starter.c:141, `ThreadProgress.CanFinishIffTwoCPUs`).
- The generator rejects only seed 0, but the seeds 2^31 - 1 and -(2^31 - 1) give the value 0 and make the next draw fail
  (`UniformGenerator.NeverFatalIff`).
- Text after a closing parenthesis at depth 0 becomes part of the name, and a second group of parentheses continues the
  last child (lib/bayesopt/utils/parser.cpp:90-103, `ExpressionTrees.PrintInvertsParseIff`). Criteria that do not combine
  others silently drop their arguments (`CriteriaFactory.RebuiltIff`).
- Splitting drops an empty last item (`Texts.SplitInvertsJoinIff`), and a stored matrix that is not rectangular does not
  come back (`FileMatrices.MatrixIsReadIff`).
- The primitive that gives a node its plane lies in that plane only if it is regular or level (`BspTraversal.StrayIff`,
  `BspPlanes.VerticalTriangleStrays`); otherwise it can be drawn in the wrong order (`BspScenes.DrawScene`). Fragments of
  nodes whose plane is within the tolerance of the eye are not drawn at all (`BspTraversal.DrawnWholeIff`,
  `BspScenes.DrawGrazing`).
- Names with an equals sign can make the store answer with the value of another variable, and what follows a line break in a
  value is lost (`FileEntries.AlwaysAnsweredIff`, `FileEntries.EqualsSignHides`, `FileEntries.LineBreakHides`).
- Polling makes termination depend on the scheduler (`ThreadFairness.UnfairRunsNeedNotFinish`).
- Special text for PDF is written in the object loop (lib/bayesopt/matplotpp/gl2ps.c:4672-4677) but never gets into a group
  (lib/bayesopt/matplotpp/gl2ps.c:3543-3545), so it is not part of any file.

## Model

| member | source | states |
|---|---|---|
| `TruthTables.ChangePhaseAt` | src/bool/kit/kitTruth.c:1259-1302 | complementing input v evaluates the old table at the assignment with v flipped |
| `WordBits.PhaseBit` | src/bool/kit/kitTruth.c:1266-1285 | the masks and shifts take every bit of a word from the position with that input complemented |
| `WordBits.SwapBit` | src/bool/kit/kitTruth.c:48-62 | the three masks and two shifts take every bit from the position with the two inputs exchanged |
| `WordBits.Cofactor0Bit` | src/bool/kit/kitTruth.c:528-547 | the mask and shift take every bit from the position with the input 0 |
| `WordBits.Cofactor1Bit` | src/bool/kit/kitTruth.c:580-599 | ... and with the input 1 |
| `WordTables.Layout` | src/bool/kit/kitTruth.c:1259-1302 | bit k of the table is bit k % 32 of word k / 32 |
| `WordTables.WordInChunk` | src/bool/kit/kitTruth.c:1288-1299 | the inputs from the fifth on select the chunk of words, and the place in it |
| `WordOperations.ChangePhaseWords` | src/bool/kit/kitTruth.c:1259-1302 | masks, shifts and exchanges of blocks of words, in place, complement the input of the table that the words hold, for any number of inputs |
| `WordOperations.SwapAdjacentWords` | src/bool/kit/kitTruth.c:46-89 | masks within words, halves of two words, or blocks of words: each exchanges the two inputs of the table |
| `WordOperations.CofactorWords` | src/bool/kit/kitTruth.c:521-612 | both cofactor routines give the cofactor of the table |
| `TruthTables.SwapAdjacentVarsAt` | src/bool/kit/kitTruth.c:46-89 | exchanging inputs i and i + 1 evaluates the old table at the assignment with these two exchanged |
| `TruthTables.CofactorAt` | src/bool/kit/kitTruth.c:521-612 | a cofactor evaluates the old table with one input fixed, and keeps the number of inputs |
| `TruthTables.OnesInvariant` | src/aig/aig/aigCanon.c:382-397 | permuting and complementing inputs does not change the number of ones: why counts can be signatures |
| `TruthTables.CofactorOnesMove` | src/aig/aig/aigCanon.c:382-397 | under any permutation and complementation the two cofactor counts travel with their input, exchanged if it is complemented |
| `TruthTables.EquivalentTransitive` | src/aig/aig/aigCanon.c:479-531 | being the same function up to input permutation and complementation is transitive (with EquivalentSymmetric, an equivalence) |
| `TruthTables.EquivalentSymmetric` | src/aig/aig/aigCanon.c:479-531 | ... and symmetric: every transformation of the inputs has an inverse |
| `SemiCanonical.SigOrder` | src/aig/aig/aigCanon.c:410-414 | comparing the bytes of two counts is a total order in which only equal counts tie |
| `SemiCanonical.SigOrderIsNumericIff` | src/aig/aig/aigCanon.c:410-414 | it is the order of the numbers, for all counts up to a bound, if and only if the bound is below 256 |
| `SemiCanonical.ComputeVSigs` | src/aig/aig/aigCanon.c:382-397 | entry 2v + k is the number of ones of cofactor k of input v |
| `SemiCanonical.CanonicizePhases` | src/aig/aig/aigCanon.c:486-497 | the table is the old one with exactly the inputs of the returned mask complemented; signatures stay right; every pair is ordered |
| `SemiCanonical.SigsAfterPhase` | src/aig/aig/aigCanon.c:493-496 | exchanging one signature pair keeps all signatures right when that input is complemented |
| `SemiCanonical.SigsAfterSwap` | src/aig/aig/aigCanon.c:514-522 | exchanging two signature pairs keeps all signatures right when the two inputs are exchanged |
| `SemiCanonical.InversionsExchange` | src/aig/aig/aigCanon.c:500-525 | one exchange of neighbours that are out of order removes exactly one inversion |
| `SemiCanonical.ExchangeInputs` | src/aig/aig/aigCanon.c:510-523 | one exchange acts alike on table, permutation and signatures |
| `SemiCanonical.TrackSwap` | src/aig/aig/aigCanon.c:510-523 | recording an exchange in the permutation keeps it the permutation from the start to the current table |
| `SemiCanonical.SemiCanonicize` | src/aig/aig/aigCanon.c:479-531 | the result, in the buffer that the flag names whatever the parity of the exchanges, is semi-canonical; phases and permutation lead to it from the input; the number of exchanges is the initial number of inversions |
| `CanonicalForms.CanonicalIff` | src/aig/aig/aigCanon.c:479-531 | the class of a semi-canonical table has no other semi-canonical table if and only if every input with equal cofactor counts can be complemented, and all neighbours with equal keys can be exchanged, without changing the table |
| `InputSymmetries.OneFormIff` | src/aig/aig/aigCanon.c:479-531 | the same on the function itself: it has one semi-canonical table if and only if every input with equal cofactor counts can be complemented, and any two inputs with a cofactor count in common can be exchanged, with both complemented if the polarities differ, without changing it |
| `InputSymmetries.TiesOfFormIff` | src/aig/aig/aigCanon.c:479-531 | the condition on the function is the condition on any of its semi-canonical tables |
| `InputSymmetries.OnesSum` | src/aig/aig/aigCanon.c:382-397 | the two cofactor counts of every input add up to twice the number of ones |
| `InputSymmetries.Canonicity` | src/aig/aig/aigCanon.c:479-531 | functions equal up to input permutation and complementation get the identical table when the tied inputs of one of them are symmetries |
| `CanonicalForms.NoTiesIsEnough` | src/aig/aig/aigCanon.c:427-434 | so it is when no input has equal counts in its cofactors and the uniqueness test passes |
| `CanonicalForms.ConjunctionIsCanonical` | src/aig/aig/aigCanon.c:427-434 | the uniqueness test is not necessary: it fails for the conjunction of two inputs, whose class has one semi-canonical table |
| `SemiCanonical.TiesBreakCanonicity` | src/aig/aig/aigCanon.c:479-531 | a class with two semi-canonical tables: the two parities of two inputs |
| `Recorder.VarsAreUnique` | src/aig/aig/aigCanon.c:427-434 | true if and only if all adjacent sort keys differ |
| `Recorder.TruthPermute` | src/bool/kit/kitTruth.c:233-257 | sorting the permutation back with adjacent exchanges undoes it on the table, and leaves the identity |
| `Recorder.UndoPhases` | src/aig/aig/aigCanon.c:682-685 | complementing the inputs in the mask again gives the table before canonicization |
| `Recorder.Canonicize` | src/aig/aig/aigCanon.c:639-646 | a permutation started at the identity, with the phases, leads from the function to the semi-canonical table; the flag is the uniqueness of its keys |
| `Recorder.Undo` | src/aig/aig/aigCanon.c:675-690 | permuting back and undoing the phases always gives the initial table: "Verification failed." is unreachable |
| `Recorder.Record` | src/aig/aig/aigCanon.c:636-690 | the key is semi-canonical and equivalent to the function or to its complement, to the one whose entry 0 is false; the key list grows if and only if the key is new; the self check holds for every input |
| `OutputPhases.ComplementsShareKey` | src/aig/aig/aigCanon.c:637-673 | a function and its complement are recorded under one key when the tied inputs are symmetries |
| `OutputPhases.OneKeyIff` | src/aig/aig/aigCanon.c:637-673 | functions equal up to input permutation and complementation are recorded under one key, when their tied inputs are symmetries, if and only if they agree at the assignment 0 or are also equal up to that to their complement |
| `OutputPhases.AndAndNorHaveTwoKeys` | src/aig/aig/aigCanon.c:637-638 | two that are not: complementing both inputs makes the conjunction the joint denial, and their keys differ |
| `InputSymmetries.RecordedIffClassRecorded` | src/aig/aig/aigCanon.c:672-673 | a table of keys tells, whatever keys have been recorded, whether a semi-canonical table of the class of f was recorded, if and only if the tied inputs of f are symmetries |
| `RecordTable.Lookup` | src/aig/aig/aigCanon.c:146-160 | returns the slot of the entry with the key, or the slot at the end of the chain where it belongs, and then the key is in no entry of the chain |
| `RecordTable.Append` | src/aig/aig/aigCanon.c:194-199 | storing through the end slot extends one chain and leaves a well-formed table |
| `RecordTable.RMan.RehashChain` | src/aig/aig/aigCanon.c:191-201 | moves the entries of one old chain to the ends of their new chains, in order, and counts them |
| `RecordTable.RMan.Rehash` | src/aig/aig/aigCanon.c:189-201 | moves the entries of all old chains, and counts as many as there are |
| `RecordTable.RMan.TableResize` | src/aig/aig/aigCanon.c:174-205 | triples the bins; exactly the same entries are there, each in the chain of its hash, in the order of the old bins |
| `Sequences.FlattenMembers` | src/aig/aig/aigCanon.c:189-201 | an entry is met by the rehash loop if and only if it is in some chain |
| `RecordTable.RedistributedMembers` | src/aig/aig/aigCanon.c:189-201 | redistribution loses and invents no entry |
| `RecordTable.RMan.Find` | src/aig/aig/aigCanon.c:146-160 | finds an entry if and only if the key is recorded, and there is only one |
| `RecordTable.RMan.TableFindOrAdd` | src/aig/aig/aigCanon.c:218-239 | returns 1 if and only if the key is new; Ids are 0, 1, 2, ... in order of arrival; visits count modulo 2^27; the table stays well formed except after a harmful growth, and then a lookup misses some recorded key, and no choice of chains makes it a table of all entries |
| `RecordTable.RMan.StoreThrough` | src/aig/aig/aigCanon.c:229-237 | storing through the slot found before the growth keeps the table if that slot is also the end of the new chain, and otherwise hides a recorded key from lookups |
| `RecordTable.HiddenKey` | src/aig/aig/aigCanon.c:229-237 | which key a lookup misses: the new one, unless it was written behind an entry of its own chain, and then the one that followed this entry |
| `RecordTable.RMan.ValidHidesNone` | src/aig/aig/aigCanon.c:146-160 | a table of all entries hides none of their keys, so that the two outcomes exclude each other |
| `RecordTable.KeyFound` | src/aig/aig/aigCanon.c:146-160 | a key is recorded exactly when it is in the chain of its hash |
| `RecordTableGrowth.GrowthLosesAnEntry` | src/aig/aig/aigCanon.c:218-239 | for any hash and any number of bins: when the table is full with keys of other bins than the next key, this key is not found after it was recorded |
| `RecordTableGrowth.SuchKeysExist` | src/aig/aig/aigCanon.c:130-137 | with the hash of the program on tables of one word there are such keys for every number n of bins from 4 to a million in which 1291 is invertible: the first 3 n words that are not multiples of n, and then the word 0 |
| `RecordTableGrowth.ProgramLosesAnEntry` | src/aig/aig/aigCanon.c:109-110 | so with its 5003 bins the table reports the word 0 as new again after recording it behind 15009 other words |
| `CholeskyTheory.FactorImpliesPosDef` | lib/bayesopt/utils/ublas_cholesky.hpp:57-88 | a matrix that has a factor with positive diagonal is positive definite |
| `CholeskyTheory.PosDefIffPivot` | lib/bayesopt/utils/ublas_cholesky.hpp:71-78 | with the rows before it factored, the next leading block is positive definite if and only if the pivot is positive |
| `CholeskyTheory.PivotWitnessQuad` | lib/bayesopt/utils/ublas_cholesky.hpp:74-75 | a vector other than zero at which the quadratic form equals the pivot: the witness of a failure |
| `CholeskyTheory.FactorUnique` | lib/bayesopt/utils/ublas_cholesky.hpp:57-88 | the factor with positive diagonal is unique on the lower triangle |
| `CholeskyTheory.PosDefLeading` | lib/bayesopt/utils/ublas_cholesky.hpp:57-88 | leading blocks of a positive definite matrix are positive definite |
| `CholeskyTheory.FactorMatVec` | lib/bayesopt/utils/ublas_cholesky.hpp:220-228 | A x = L (L' x) |
| `CholeskyTheory.BackSolveSolves` | lib/bayesopt/utils/ublas_cholesky.hpp:227 | the system with the transposed factor always has a solution |
| `CholeskyTheory.LowMulInjective` | lib/bayesopt/utils/ublas_cholesky.hpp:226 | the system with the factor has at most one solution |
| `Cholesky.CholeskyDecompose` | lib/bayesopt/utils/ublas_cholesky.hpp:57-88 | returns 0 exactly for positive definite matrices, with L L' = A and positive diagonal; otherwise 1 + k for the first leading block of order k + 1 that is not; the upper triangle of L is untouched |
| `Cholesky.CholeskyDecomposeInPlace` | lib/bayesopt/utils/ublas_cholesky.hpp:98-127 | the same outcome when the matrix is overwritten, its strict upper triangle unchanged |
| `Cholesky.IncompleteCholeskyDecompose` | lib/bayesopt/utils/ublas_cholesky.hpp:174-211 | the same outcome for the dense case of the incomplete variant |
| `Cholesky.OutcomeUnique` | lib/bayesopt/utils/ublas_cholesky.hpp:57-211 | any two routines with this outcome return the same code and, when it is 0, the same lower triangle |
| `Cholesky.OutcomeDecidesPosDef` | lib/bayesopt/utils/ublas_cholesky.hpp:57-88 | the code decides positive definiteness of the matrix and of every leading block |
| `Cholesky.PivotTest` | lib/bayesopt/utils/ublas_cholesky.hpp:71-78 | the sign of the number under the root decides the next block, and the root is positive when it is taken |
| `Cholesky.ColumnStep` | lib/bayesopt/utils/ublas_cholesky.hpp:80-84 | filling column k keeps the earlier columns and makes column k reproduce A |
| `Cholesky.SolveLower` | lib/bayesopt/utils/ublas_cholesky.hpp:226 | for a nonzero diagonal the new x solves L y = b |
| `Cholesky.SolveUpper` | lib/bayesopt/utils/ublas_cholesky.hpp:227 | for a nonzero diagonal the new x is the solution of the transposed system |
| `Cholesky.CholeskySolve` | lib/bayesopt/utils/ublas_cholesky.hpp:220-228 | for any L with nonzero diagonal, L (L' x) is the old x |
| `Cholesky.InverseCholesky` | lib/bayesopt/utils/ublas_cholesky.hpp:238-254 | code 0 if and only if M is positive definite, and then M times the result is the identity, entry by entry; otherwise the output is untouched |
| `Cholesky.CholeskyAddRow` | lib/bayesopt/utils/ublas_cholesky.hpp:263-287 | keeps the old entries; the new row has the wanted products with the old rows, and the root of the remainder on the diagonal |
| `GaussianProcesses.ComputeCorrMatrix` | lib/bayesopt/src/kernel_functors.cpp:158-174 | fills the matrix symmetrically from the kernel of the later with the earlier sample, with the nugget on its diagonal |
| `GaussianProcesses.NewRowIff` | lib/bayesopt/src/kernelregressor.cpp:54-56 | the row that the update computes is the new row of the kernel matrix if and only if the kernel is symmetric between the new sample and every old one |
| `GaussianProcesses.KernelGrows` | lib/bayesopt/src/kernelregressor.cpp:52-56 | if it is, the update continues the factor of the new matrix: the old block is the old matrix |
| `GaussianProcesses.UpdateIsRightIff` | lib/bayesopt/src/kernelregressor.cpp:52-59 | updating a right factor gives the factor of the new matrix, when that is positive definite, if and only if the kernel is symmetric there |
| `GaussianProcesses.AddRowDecides` | lib/bayesopt/src/kernelregressor.cpp:57 | one added row gives the factor of the bordered matrix exactly when that is positive definite |
| `GaussianProcesses.ExtendedFactor` | lib/bayesopt/utils/ublas_cholesky.hpp:263-287 | a factor with the added row is the factor of the bordered matrix when the last number under the root is positive |
| `GaussianProcesses.GaussianProcess.PrecomputePrediction` | lib/bayesopt/src/gaussian_process.cpp:85-92 | the cached vector solves L alpha = y - m: each product with the factor is the value less the mean function at its sample |
| `GaussianProcesses.GaussianProcess.FitSurrogateModel` | lib/bayesopt/src/kernelregressor.cpp:62-76 | code 0 if and only if the kernel matrix is positive definite, and then the caches are its factor and solve; otherwise the code names the first bad block |
| `GaussianProcesses.GaussianProcess.UpdateSurrogateModel` | lib/bayesopt/src/kernelregressor.cpp:52-59 | after the incremental update the caches are those of the new kernel matrix if and only if that matrix is positive definite |
| `GaussianProcesses.GaussianProcess.Prediction` | lib/bayesopt/src/gaussian_process.cpp:68-82 | the mean is the mean function plus the product of k with any solution w of K w = y - m; at sample j it is the value less w_j times the nugget if the kernel is symmetric, so that without a nugget it is the value, and the deviation 0; the bracket kq - v'v is positive if and only if the bordered kernel matrix is positive definite |
| `GaussianProcesses.Interpolates` | lib/bayesopt/src/gaussian_process.cpp:68-82 | for a symmetric kernel the product of the correlations of sample j with a solution of K w = r is r_j less w_j times the nugget |
| `GaussianProcesses.BracketDecides` | lib/bayesopt/src/gaussian_process.cpp:78 | kq - v'v > 0 if and only if the kernel matrix bordered by the query is positive definite |
| `GaussianProcesses.SolvesGiveProduct` | lib/bayesopt/src/gaussian_process.cpp:74-77 | the inner product of two triangular solves is the product with the inverse |
| `BayesOptimizer.BayesOpt.ChooseSample` | lib/bayesopt/src/bayesoptbase.cpp:109-134 | the sample, the counter of near-equal values and the last value are those of the specification |
| `BayesOptimizer.JumpsIff` | lib/bayesopt/src/bayesoptbase.cpp:114-134 | a jump is forced exactly when the values have been near their predecessors without interruption for a positive multiple of force_jump + 1 steps, those before the run counted too |
| `BayesOptimizer.BayesOpt.StepOptimization` | lib/bayesopt/src/bayesoptbase.cpp:107-154 | appends one sample; takes the new hyperparameters in the iterations whose number is a multiple of n_iter_relearn and keeps the old ones in all others; keeps the caches consistent; fails if and only if a relearned kernel matrix is not positive definite |
| `BayesOptimizer.BayesOpt.InitializeOptimization` | lib/bayesopt/src/bayesoptbase.cpp:164-211 | takes the samples, relearns and refits: a run starts consistent if and only if the first kernel matrix is positive definite |
| `BayesOptimizer.SaveAndRestore` | lib/bayesopt/src/bayesoptbase.cpp:221-281 | an optimiser restored from what another one saved, with the same hyperparameters learned, has its parameters, samples, counters, iteration, factor and solve; restoring fails if and only if the saved one had no factor |
| `BayesOptimizer.BayesOpt.RestoreOptimization` | lib/bayesopt/src/bayesoptbase.cpp:235-281 | creates the model from the saved parameters, restores samples, counters and iteration, evaluating what had not been evaluated, and is consistent if and only if the kernel matrix is positive definite |
| `BayesOptimizer.ConsistentModelsAgree` | lib/bayesopt/src/bayesoptbase.cpp:221-281 | optimisers with equal samples and hyperparameters have equal factors and equal solves, whether they were updated row by row, refitted or restored |
| `BayesOptimizer.BayesOpt.Optimize` | lib/bayesopt/src/bayesoptbase.cpp:98-101 | over a whole run, with any mix of relearning and incremental updates, the caches stay consistent; the samples added are the next queries, and the jumps exactly where the values have been near each other for a multiple of force_jump + 1 steps; the hyperparameters are those of the last iteration that is a multiple of n_iter_relearn, or the old ones; a run that ends early ends in such an iteration |
| `BayesOptimizer.BayesOpt.CacheIsRefactoring` | lib/bayesopt/src/bayesoptbase.cpp:136-154 | consistent caches have the same lower triangle as any full refactoring of the current kernel matrix |
| `ThreadLimit.NextKeepsInv` | src/starter.c:60-84 | every step of every thread keeps the invariant of counter, mutex and drain loop |
| `ThreadLimit.RunKeepsInv` | src/starter.c:121-171 | the invariant holds in every state of every run |
| `ThreadLimit.ThreadLimitHolds` | src/starter.c:136-158 | in every run the shared counter is the number of workers still counted plus at most one pending launch, and never exceeds the limit |
| `ThreadLimit.CleanShutdown` | src/starter.c:160-171 | once the mutex is destroyed every command has returned, nobody holds the mutex, and nobody takes it again |
| `ThreadLimit.CommandsConserved` | src/starter.c:121-158 | commands launched, in hand and unread add up to those of the input |
| `ThreadLimit.DrainingMeansRead` | src/starter.c:121-158 | the reading loop ends only at the end of the input or at the maximal number of commands |
| `ThreadLimit.DoneMeansAllExecuted` | src/starter.c:121-171 | a finished run has executed every command, up to the maximal number |
| `ThreadProgress.ServableCanFinish` | src/starter.c:136-168 | from every state with a CPU for workers, or with nothing to launch, some continuation finishes: no deadlock |
| `ThreadProgress.StuckForEver` | src/starter.c:136-144 | with one CPU a command is never launched |
| `ThreadProgress.CanFinishIffTwoCPUs` | src/starter.c:109-144 | the program can finish if and only if there are two CPUs or no command, although one CPU is accepted |
| `ThreadProgress.AlwaysCanFinish` | src/starter.c:121-171 | with two CPUs no run gets into a state from which it cannot finish |
| `ThreadFairness.FairRunFinishesIff` | src/starter.c:121-171 | every endless run under a strongly fair scheduler ends if and only if there are two CPUs or no command |
| `ThreadFairness.GetsAhead` | src/starter.c:136-168 | from every state before the end, a fair run reaches one in which the main thread or the workers have less left |
| `ThreadFairness.UnfairRunsNeedNotFinish` | src/starter.c:160-168 | without fairness the main thread can poll for ever while a command runs |
| `ContourTracing.FindCrossings` | lib/bayesopt/matplotpp/matplotpp.cc:2499-2516 | lists, row by row, exactly the grid edges whose end values lie strictly on both sides of the level, with the interpolated point |
| `ContourTracing.Interpolation` | lib/bayesopt/matplotpp/matplotpp.cc:2503-2514 | the computed coordinate is inside the edge, at the parameter where the linear interpolation equals the level |
| `ContourTracing.AdjoinsIffShareCell` | lib/bayesopt/matplotpp/matplotpp.cc:2555-2566 | the twelve cases are exactly the pairs of different edges of one grid cell |
| `ContourLines.SearchStart` | lib/bayesopt/matplotpp/matplotpp.cc:2534-2538 | finds the first unused point |
| `ContourLines.SearchNext` | lib/bayesopt/matplotpp/matplotpp.cc:2550-2570 | finds the first usable neighbour: unused, or a starting point when the line has more than two points |
| `ContourLines.Extend` | lib/bayesopt/matplotpp/matplotpp.cc:2549-2591 | the first point that can follow extends the line at the end being traced; otherwise none can |
| `ContourLines.TraceLevel` | lib/bayesopt/matplotpp/matplotpp.cc:2529-2609 | terminates; every crossing is emitted once, starting points perhaps twice; neighbours in a line adjoin; each line starts at the first unused point and grew at both ends by the first points that could follow, until none could; the flat output encodes exactly these lines |
| `ContourLines.MarkStep` | lib/bayesopt/matplotpp/matplotpp.cc:2539-2574 | marking and emitting a point keeps the marks equal to what was emitted, and the measure decreases |
| `ContourLines.SearchFollows` | lib/bayesopt/matplotpp/matplotpp.cc:2550-2570 | the marks decide which points can follow: unused ones, and starting points emitted once when the line is longer than two points |
| `ContourLines.LineFinished` | lib/bayesopt/matplotpp/matplotpp.cc:2596-2606 | flushing a line keeps the account of what was traced |
| `ContourShapes.ClosedContour` | lib/bayesopt/matplotpp/matplotpp.cc:2529-2609 | crossings that adjoin each other around a cycle become one polyline that starts and ends at its starting point and has every other point once; no other polyline touches them |
| `OpenContours.OpenContourIff` | lib/bayesopt/matplotpp/matplotpp.cc:2549-2591 | crossings that adjoin each other along a path are drawn without a gap if and only if the first of them in scan order is the first or the second of the path, taken in the direction of the first search; otherwise one segment is never drawn |
| `OpenContours.Direction` | lib/bayesopt/matplotpp/matplotpp.cc:2549-2570 | every path is like this in one of its two directions |
| `ContourComponents.AllOnCurvesIff` | lib/bayesopt/matplotpp/matplotpp.cc:2499-2566 | all crossings of a level are on such cycles and paths if and only if no cell of the grid has crossings on all four edges |
| `ContourComponents.EveryContour` | lib/bayesopt/matplotpp/matplotpp.cc:2529-2609 | without such a cell every crossing is on a closed contour, which is one closed polyline, or on an open one, drawn without a gap exactly under the condition above |
| `OpenContours.PathTraced` | lib/bayesopt/matplotpp/matplotpp.cc:2549-2591 | what the line of a path is: from its start to one end, and at the front back to the start again after one step |
| `OpenContours.ShoreIsFound` | lib/bayesopt/matplotpp/matplotpp.cc:2499-2516 | the crossings of a valley on a grid of three by three points |
| `OpenContours.ShoreIsBroken` | lib/bayesopt/matplotpp/matplotpp.cc:2529-2609 | its shore line is drawn with a gap |
| `ContourDisplay.Contourc` | lib/bayesopt/matplotpp/matplotpp.cc:2480-2620 | the same for all levels, one after the other; each line is a header with its level and its number of points, and then a column for each of its crossings, with x first |
| `ContourDisplay.NeighboursShareCell` | lib/bayesopt/matplotpp/matplotpp.cc:2555-2566 | consecutive points of every polyline are crossings on different edges of one grid cell |
| `ContourDisplay.DrawStrips` | lib/bayesopt/matplotpp/matplotpp.cc:2644-2661 | for every flat sequence, well formed or not, the loop draws its strips |
| `ContourDisplay.LevelsSplit` | lib/bayesopt/matplotpp/matplotpp.cc:2644-2661 | taking the encoded polylines apart gives exactly them, whatever follows |
| `ContourDisplay.DisplayContour` | lib/bayesopt/matplotpp/matplotpp.cc:2623-2662 | draws a strip for each traced line, in order; its points are those where the level crosses the edges, with the transformations of the axes applied to x and y |
| `BspPrimitives.CutIsBetween` | lib/bayesopt/matplotpp/gl2ps.c:1159-1182 | the cut of an edge whose ends are beyond the tolerance on both sides is strictly inside it, on the plane, with the interpolated colour |
| `BspPrimitives.ParallelEdge` | lib/bayesopt/matplotpp/gl2ps.c:1159-1182 | an edge along the plane is cut at its first end |
| `BspPrimitives.TriangleHalves` | lib/bayesopt/matplotpp/gl2ps.c:1278-1336 | cutting a triangle from a vertex to the opposite edge keeps its points and their colours |
| `BspPrimitives.BlendKeepsSide` | lib/bayesopt/matplotpp/gl2ps.c:1159-1182 | a cut point is in every half space of both ends |
| `BspPlanes.NormalIsOrthogonal` | lib/bayesopt/matplotpp/gl2ps.c:1076-1093 | the normal is orthogonal to both directions and has length one |
| `BspPlanes.RegularLiesInPlane` | lib/bayesopt/matplotpp/gl2ps.c:1095-1157 | the plane of a regular primitive contains all its vertices |
| `BspPlanes.LiesInPlaneIff` | lib/bayesopt/matplotpp/gl2ps.c:1095-1157 | a primitive lies in the plane that it is given if and only if it is regular or level |
| `BspPlanes.LinePlaneIsParallel` | lib/bayesopt/matplotpp/gl2ps.c:1122-1141 | the plane of a regular line is parallel to an axis: to the first one along which the line hardly extends, or to the third |
| `BspPlanes.QuadranglePlane` | lib/bayesopt/matplotpp/gl2ps.c:1100-1121 | the plane of a quadrangle is that of its first three vertices |
| `BspPlanes.ShortMeansNear` | lib/bayesopt/matplotpp/gl2ps.c:1108-1109 | the test for a negligible edge holds below the tolerance and fails above it, up to a factor of three on the square of the length |
| `BspPlanes.VerticalTriangleStrays` | lib/bayesopt/matplotpp/gl2ps.c:1095-1157 | one that does not: a triangle of three points above each other |
| `BspSplit.TurnsMean` | lib/bayesopt/matplotpp/gl2ps.c:1298-1326 | the side found on the walk around the primitive is the one that its vertices have |
| `BspSplit.TriangleWalk` | lib/bayesopt/matplotpp/gl2ps.c:1228-1240 | each cut edge and each kept vertex is listed once, in cyclic order |
| `BspSplit.WalkIsValid` | lib/bayesopt/matplotpp/gl2ps.c:1298-1326 | only vertices of the right side and edges that cross are listed |
| `BspSplit.FragmentKeepsSides` | lib/bayesopt/matplotpp/gl2ps.c:1184-1226 | a fragment is on its side within the tolerance, and in every half space of its parent |
| `BspRoutines.AddIndex` | lib/bayesopt/matplotpp/gl2ps.c:1228-1240 | adds the pair unless it is listed in either order; the arrays of five are large enough |
| `BspRoutines.CreateSplitPrimitive` | lib/bayesopt/matplotpp/gl2ps.c:1184-1226 | the fragment has the listed vertices and cuts, the kind for their number, and the look of its parent |
| `BspRoutines.SplitPrimitive` | lib/bayesopt/matplotpp/gl2ps.c:1278-1336 | gives the side; a spanning primitive is split into fragments that are on their sides and show together exactly what it shows |
| `BspRoutines.SpanningSplits` | lib/bayesopt/matplotpp/gl2ps.c:1328-1333 | the two fragments of every spanning line or triangle have these properties |
| `BspRoutines.TestSplitPrimitive` | lib/bayesopt/matplotpp/gl2ps.c:1247-1276 | the quick test agrees with the full routine: 1 if and only if the primitive spans the plane |
| `BspRoutines.DividedShows` | lib/bayesopt/matplotpp/gl2ps.c:1338-1360 | the two triangles of a quadrangle show what it shows |
| `BspRoutines.AddPrimitiveInList` | lib/bayesopt/matplotpp/gl2ps.c:1474-1488 | appends the primitive, or the two triangles of a quadrangle |
| `BspRoutines.FindRoot` | lib/bayesopt/matplotpp/gl2ps.c:1402-1446 | without the option the first primitive; with it, the first one of the first maxbestroot that splits fewer others than any of these, or the first of all if none splits fewer than a million |
| `BspTrees.PlacePrimitive` | lib/bayesopt/matplotpp/gl2ps.c:1534-1550 | one primitive goes to the three lists as pieces of its kind that are on their sides and show what it shows; one that the plane does not split goes to the list of its side as it is |
| `BspTrees.Distribute` | lib/bayesopt/matplotpp/gl2ps.c:1532-1552 | the three lists together show what the primitives show; the coincident primitives follow the root in their order, and so do the others on their sides if none is split |
| `BspTrees.BuildBspTree` | lib/bayesopt/matplotpp/gl2ps.c:1516-1577 | at every node of the tree, however many levels of it are built, the fragments under back and front are on their sides of the plane; nothing is lost or invented; each node has the plane of one of its primitives, chosen by FindRoot from the list of its side, and the others lie in it |
| `BspDepth.RootHolds` | lib/bayesopt/matplotpp/gl2ps.c:1095-1157 | the plane of a regular fragment contains the whole primitive that it was cut from, and so all other fragments of it |
| `BspDepth.DepthIsEnough` | lib/bayesopt/matplotpp/gl2ps.c:1516-1577 | the recursion ends: if all fragments of the tree are regular or single vertices, at most as many levels are built as there were primitives |
| `BspTraversal.TraverseBspTree` | lib/bayesopt/matplotpp/gl2ps.c:1579-1613 | visits in the order of the specification, for any tolerance and comparison |
| `BspTraversal.DrawnOnce` | lib/bayesopt/matplotpp/gl2ps.c:1579-1613 | exactly the fragments of nodes whose plane is clear of the eye are drawn, each once |
| `BspTraversal.DrawnWholeIff` | lib/bayesopt/matplotpp/gl2ps.c:1579-1613 | a finished tree is drawn whole if and only if the eye is clear of the planes of all its nodes |
| `BspTraversal.DrawnInOrder` | lib/bayesopt/matplotpp/gl2ps.c:1586-1613 | if the eye is clear of all node planes, of any two fragments that do not stray from the planes of their nodes the one drawn first is divided from the other by a node plane, on the side of the eye |
| `BspTraversal.FlatAreDivided` | lib/bayesopt/matplotpp/gl2ps.c:1586-1613 | in particular any two fragments that are regular or level |
| `BspTraversal.NearToFarIsReverse` | lib/bayesopt/matplotpp/gl2ps.c:5541-5547 | the traversal for culling visits in exactly the opposite order |
| `BspTraversal.StraysAreNotFlat` | lib/bayesopt/matplotpp/gl2ps.c:1525-1538 | only fragments that gave their node its plane can stray from it, and only if they are neither regular nor level |
| `BspTraversal.StrayIff` | lib/bayesopt/matplotpp/gl2ps.c:1525-1538 | a node has no stray if and only if the primitive that gave the plane is regular or level |
| `BspTraversal.DrawSorted` | lib/bayesopt/matplotpp/gl2ps.c:5537-5548 | building and drawing keeps the picture and, if the eye is clear of all node planes, draws all fragments but strays in a painter's order; as many levels as primitives are enough if no fragment degenerates |
| `BspScenes.OutOfOrderIsThin` | lib/bayesopt/matplotpp/gl2ps.c:1586-1613 | what that order means on a sight line: where a fragment is drawn after another, and yet is nearer to the eye, it is within the tolerance of the plane of a node, unless one of the two strays |
| `BspScenes.DrawScene` | lib/bayesopt/matplotpp/gl2ps.c:1516-1613 | a stray drawn in the wrong order although the eye of the program is clear of all planes: a triangle with its vertices on a line is drawn after another triangle although it is nearer to the eye, with either way to choose the root |
| `BspScenes.DrawGrazing` | lib/bayesopt/matplotpp/gl2ps.c:1586-1613 | a line that is not drawn at all: from (1, 1, 0) to (2, 2, 0), whose plane goes through the eye of the program |
| `PdfGroups.GroupListInit` | lib/bayesopt/matplotpp/gl2ps.c:3454-3548 | the groups are stretches of the list, in order; consecutive lines are in one group if and only if they agree in width, pattern and factor and their colours agree within the tolerance, points likewise without pattern and factor, triangles if and only if they have the same properties and are not plain ones of one colour, and others never |
| `PdfGroups.GroupsKeepItems` | lib/bayesopt/matplotpp/gl2ps.c:3454-3548 | all items of the grouped kinds are in a group, in their order, and no others |
| `PdfGroups.SortOutTriangleGroup` | lib/bayesopt/matplotpp/gl2ps.c:3550-3600 | takes from the stack exactly the numbers that the properties need: a shader for a varying colour, a graphics state for alpha below one, and also a transparency group and a mask for a varying alpha |
| `PdfGroups.NumberImage` | lib/bayesopt/matplotpp/gl2ps.c:3851-3856 | one number for a pixmap, a second one for its mask |
| `PdfGroups.NumberFont` | lib/bayesopt/matplotpp/gl2ps.c:3871-3889 | one number for a text |
| `PdfGroups.HeldStep` | lib/bayesopt/matplotpp/gl2ps.c:3454-3600 | one group of a pass moves its numbers from the stack to the group |
| `PdfObjects.PdfWriter.PrintHeader` | lib/bayesopt/matplotpp/gl2ps.c:4011-4040 | the objects are the information, the catalogue, the pages and the stream, with the numbers 1 to 4; the first four entries are their offsets, and the fifth is where the data start |
| `PdfObjects.PdfWriter.WriteTriangles` | lib/bayesopt/matplotpp/gl2ps.c:4635-4659 | writes each number that the group holds once, and no other |
| `PdfObjects.PdfWriter.WriteGroup` | lib/bayesopt/matplotpp/gl2ps.c:4629-4680 | the same for every kind of group |
| `PdfObjects.PdfWriter.WriteObjects` | lib/bayesopt/matplotpp/gl2ps.c:4613-4683 | after the loop no number is left to write |
| `PdfObjects.PdfWriter.PrintFooter` | lib/bayesopt/matplotpp/gl2ps.c:4689-4735 | the fixed objects, each with its number, and the needs of the groups use every number below the size once; every number is the number of exactly one object, which is the part that its group needs under it; its entry is the offset where that starts, the printed length is that of the data, and startxref is the end offset, as section 7.5.4 of ISO 32000-1 asks |
| `PdfObjects.FreshNumber` | lib/bayesopt/matplotpp/gl2ps.c:4613-4683 | a number still to come is in range and not started yet |
| `ExpressionParser.ParseExpression` | lib/bayesopt/utils/parser.cpp:70-108 | accepts exactly the texts whose parentheses balance; otherwise it reports an error |
| `ExpressionTrees.ChildrenAreSmaller` | lib/bayesopt/utils/parser.cpp:70-108 | every child is balanced and strictly shorter than the input |
| `ExpressionTrees.ParseInvertsPrint` | lib/bayesopt/utils/parser.cpp:70-108 | parsing a printed expression gives its name and its printed children |
| `ExpressionTrees.PrintInvertsParseIff` | lib/bayesopt/utils/parser.cpp:90-103 | printing what was parsed gives the text back if and only if nothing follows the closing parenthesis |
| `ExpressionTrees.NameAfterClose` | lib/bayesopt/utils/parser.cpp:90-103 | a text for which it does not: a(b)c becomes ac(b) |
| `ExpressionTrees.ParseIgnoresSpaces` | lib/bayesopt/utils/parser.cpp:80-84 | white space makes no difference |
| `CriteriaFactory.Create` | lib/bayesopt/src/criteria_functors.cpp:81-109 | terminates, with the result of the recursion over the text |
| `CriteriaFactory.CreateInvertsPrint` | lib/bayesopt/src/criteria_functors.cpp:81-109 | from its printed text every tree is rebuilt, or the first unregistered name in preorder is reported |
| `CriteriaFactory.BadSyntaxIff` | lib/bayesopt/src/criteria_functors.cpp:81-109 | creation meets a syntax error if and only if the whole text is unbalanced |
| `CriteriaFactory.RebuiltIff` | lib/bayesopt/src/criteria_functors.cpp:100-107 | a tree comes back unchanged if and only if arguments are given to combining criteria only |
| `CriteriaFactory.ArgumentIsLost` | lib/bayesopt/src/criteria_functors.cpp:100-107 | one that does not: cEI(cEI) becomes cEI |
| `Texts.Split` | lib/bayesopt/utils/parser.cpp:113-119 | appends the items that reading up to the delimiter yields |
| `Texts.SplitInvertsJoinIff` | lib/bayesopt/utils/parser.cpp:113-119 | splitting inverts joining if and only if there is no empty last part |
| `FileStore.FileParser.SearchOn` | lib/bayesopt/utils/fileparser.cpp:284-289 | ends at the first line with the key from the position on, or at the end |
| `FileStore.FileParser.MovePointer` | lib/bayesopt/utils/fileparser.cpp:275-296 | finds a variable if and only if some line has it; value, position and current line are those of the specification |
| `FileStore.ReadNextMeans` | lib/bayesopt/utils/fileparser.cpp:275-296 | what that specification means: the line of the variable is the one found last, or the next one that starts with its name and an equals sign, going on from the start after the end of the file |
| `FileStore.FileParser.Read` | lib/bayesopt/utils/fileparser.cpp:95-109 | the value of the line found, or nothing |
| `FileEntries.AlwaysAnsweredIff` | lib/bayesopt/utils/fileparser.cpp:275-296 | every list of reads is answered with what was written, for any entries, if and only if every line of the file that starts with the name of an entry and an equals sign, and at which a read can end, is the line of this entry, and entries without such a line are empty |
| `FileEntries.SingleLinesIff` | lib/bayesopt/utils/fileparser.cpp:275-296 | for entries of one line each the condition is that no other line starts with the name of an entry and an equals sign |
| `FileEntries.BreaksAreLost` | lib/bayesopt/utils/fileparser.cpp:92-94 | it excludes every value with a line break, and every name with one unless the value is empty |
| `FileEntries.OneEntryIff` | lib/bayesopt/utils/fileparser.cpp:92-94 | and for a single entry it is nothing more |
| `FileEntries.LineBreakHides` | lib/bayesopt/utils/fileparser.cpp:92-94 | the value of a in two lines is read without the second one |
| `FileEntries.AmbiguousMisleads` | lib/bayesopt/utils/fileparser.cpp:275-296 | for entries of one line each: if another line starts with the name of an entry and an equals sign, reading the two entries in a certain order gives at least one wrong value |
| `FileEntries.DistinctNamesAreUnambiguous` | lib/bayesopt/utils/fileparser.cpp:275-300 | distinct names without an equals sign meet the condition for entries of one line each |
| `FileEntries.EqualsSignHides` | lib/bayesopt/utils/fileparser.cpp:275-279 | with a and a=b written, reading a=b and then a gives the wrong value of a |
| `FileEntries.WriteThenRead` | lib/bayesopt/utils/fileparser.cpp:92-109 | for any entries and any list of names, the values are those of the specification, and if the entries are retrievable each read gives what was written |
| `FileStore.FormatArray` | lib/bayesopt/utils/fileparser.cpp:112-134 | dimensions and items are joined with commas between their brackets |
| `FileStore.ParseArray` | lib/bayesopt/utils/fileparser.cpp:302-322 | for every text: the items between the first brackets of each kind, with the behaviour for missing ones that the wrap-around of unsigned positions gives |
| `FileStore.ParseInvertsFormat` | lib/bayesopt/utils/fileparser.cpp:112-134 | parsing a formatted array of tokens gives its items and dimensions |
| `FileMatrices.WriteVecOfVec` | lib/bayesopt/utils/fileparser.cpp:207-222 | writes the two dimensions and the items row by row; fails without writing for an empty list |
| `FileMatrices.ReadVecOfVec` | lib/bayesopt/utils/fileparser.cpp:223-237 | reads back rows of the second dimension; out of range without two dimensions or enough items |
| `FileMatrices.ReadRows` | lib/bayesopt/utils/fileparser.cpp:228-236 | succeeds if and only if there are enough items, with item i * d + j at row i and column j |
| `FileMatrices.DecimalMeans` | lib/bayesopt/utils/fileparser.cpp:116-123 | dimensions are written as their decimal digits, with the right place values and no zero in front |
| `FileMatrices.UnflattenInvertsIff` | lib/bayesopt/utils/fileparser.cpp:207-237 | row-major order is undone if and only if all rows have the length of the first |
| `FileMatrices.MatrixIsReadIff` | lib/bayesopt/utils/fileparser.cpp:207-237 | a matrix of printable numbers is read back if and only if it is rectangular |
| `FileMatrices.StoreMatrix` | lib/bayesopt/utils/fileparser.cpp:207-237 | through a file: a matrix comes back if and only if it is rectangular and its name has no line break |
| `UniformGenerator.Uniform01` | lib/bayesopt/sobol/sobol.cpp:379-406 | for every 32-bit seed: fatal if and only if it is 0, all operations stay in 32 bits, the new seed is 16807 times the old modulo 2^31 - 1, and the value is below 1, and 0 only for multiples of the modulus |
| `UniformGenerator.StepIsInvertible` | lib/bayesopt/sobol/sobol.cpp:391-398 | the step is a bijection with inverse multiplier 1407677000 |
| `UniformGenerator.SeedIsPower` | lib/bayesopt/sobol/sobol.cpp:391-398 | the n-th seed is the first times 16807^n modulo 2^31 - 1 |
| `GeneratorPeriod.OrderIsPeriod` | lib/bayesopt/sobol/sobol.cpp:391-398 | 16807^n is 1 modulo 2^31 - 1 if and only if n is a multiple of 2^31 - 2 |
| `GeneratorPeriod.FullPeriod` | lib/bayesopt/sobol/sobol.cpp:391-398 | a run from any seed between 0 and 2^31 - 1 comes back to it exactly after the multiples of 2^31 - 2 draws |
| `GeneratorPeriod.EverySeedReached` | lib/bayesopt/sobol/sobol.cpp:391-398 | and meets every other such seed in between |
| `UniformGenerator.NeverFatalIff` | lib/bayesopt/sobol/sobol.cpp:383-389 | no run meets seed 0 if and only if the first seed is no multiple of the modulus |
| `UniformGenerator.DrawMany` | lib/bayesopt/sobol/sobol.cpp:379-406 | runs of any length: values strictly between 0 and 1 for every other seed, and exactly when a run fails |

## Left out

- Rounding, NaN and overflow of floating point numbers: all arithmetic on them is over the reals.
- Division by a zero diagonal in the solves and in the added row: the result is unspecified there, and the contracts speak
  of nonzero diagonals only.
- The population count of a word (src/bool/kit/kit.h:246-253), for which `TruthTables.CountOnes` counts, and the repetition
  of small tables in a 32-bit word, which multiplies all counts by the same power of two. The semi-canonical form is about
  tables; `WordOperations` says what the routines on words do to the tables that the words hold.
- Contours through a grid cell with four crossed edges, where a crossing has more than two neighbours: `ContourLines` says how
  their lines grow; all other contours are cycles or paths (`ContourComponents.AllOnCurvesIff`).
- The secondary signatures nCofOnes, which no comparison reads; the decomposition before and the saving after recording.
- The hash of tables of more than one word and the choice of a prime number of bins: any function, and any positive size.
  One recording table holds functions with one number of inputs. Which functions a circuit records, and in which order.
- Sparse matrices in the incomplete factorization: every element is stored.
- Hyperparameter learning, likelihoods, criteria evaluation and initial sampling: their results are inputs of a step. The
  mean function is fixed during a run.
- The file format of a saved optimiser state. Hyperparameters are learned again when a state is restored.
- Failing system calls, and builds in which `assert` does not evaluate its argument.
- Lines of the command file longer than the buffer, which are read in pieces.
- The axis transformations and drawing calls of the contour display: any two functions.
- BspTrees.BuildBspTree: builds a given number of levels and leaves the lists below as pending; that the recursion ends is
  proved only for trees without degenerate fragments (`BspDepth.DepthIsEnough`). Nodes are values, since they are not changed
  after they are built.
- Boundary flags of fragments, which the original does not maintain either, and the two-dimensional occlusion tree.
- BspRoutines.SplitPrimitive: is about labels, points, lines and triangles, because lists hold no quadrangles.
- Sorting of lists: any function that rearranges them.
- Names of PDF resources, compression, the contents of the objects; the stream is taken to start at the PDF header.
- Which criteria are registered, and which of them combine others: any map from names.
- The two-child expression parser and the factories that use it.
- The text of numbers in the store: any printing whose results can be read again and have no structural characters;
  dimensions are decimal. A file that does not end with a line break.
- The other generators and the Sobol sequence itself.
