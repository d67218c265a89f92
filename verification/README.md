# BitZ, verified

BitZ commits to integer vectors as bits and proves linear claims about them modulo a prime. This project models
the parts of the repository where a simple statement meets an intricate implementation, and proves the statement
of the implementation.

- **Interactive reductions.** An integer claim modulo `q` becomes, in order: the column folds, a claim on the
  images of the folds in a binary field, the layers of a grand product (GKR), an inner product with the committed
  bits, a degree-two sumcheck, and one evaluation of the bits' multilinear extension. The field is any finite field
  of characteristic two with `N` elements (`FiniteField`), the challenges are an arbitrary stream, and a dishonest
  prover is an arbitrary function of the challenges it has seen. `AtMost(K, n, S, k)` says that a set `S` of
  challenge vectors of length `n` has at most `k N^(n-1)` of the `N^n` vectors. Both sides are methods over a
  transcript; completeness and soundness are proved of the records those methods write and read.
- **Circuit compilers.** A circuit program is a sequence of steps over handles (`Circuits.Step`), with an exact
  integer meaning at every column (`Circuits.MeaningAt`, `Circuits.BoolMeaningAt`) and a run on a witness
  (`Circuits.RunBools`, `Circuits.RunInts`). The matrix generator, the sparse transposed matrices, the transposed
  Boolean matrix and the differentiated tape are modelled step by step and each is proved against that meaning.
- **Limb arithmetic.** Barrett and Montgomery reduction, Knuth's Algorithm D with its offset-carry subtraction,
  two's-complement storage, Miller-Rabin, and the multi-limb arithmetic behind the P-256 hints, all on words of
  explicit width.
- **Bit layouts.** The recursive-doubling transposes and their tilings.
- **Gadgets.** SHA-256 and ECDSA over P-256. A gadget is a method on an `Assignments.Circuit`, which supplies an
  arbitrary value for every hinted bit and notes whether all rows `a b = c` hold. `c.satisfied ==> ...` is
  therefore a statement about every satisfying assignment; `Completes(c)` says that the honest hints never fail and
  satisfy every row the gadget emits; `Emits(c, b, r)` counts the hinted bits and the rows. SHA-256 follows
  sections 4, 5.1.1, 5.3.3 and 6.2.2 of FIPS 180-4, the group law section 2.2.1 of SEC 1, signatures its sections
  4.1.3 and 4.1.4, and the curve section D.1.2.3 of FIPS 186-4.

Every file holds one module, named after what it models. `dafny verify dfyconfig.toml` checks the project.

Three results say where the code stops meeting a simpler statement. A recording whose coefficients wrap no longer
means what its program does: `WengertMeaning.WrappedProgram` gives one, and `WengertMeaning.ScaleKeepsMeaning` says
when a step is still right. The layered prover run on no layer returns the claim zero rather than the value it
should (`GkrSystem.GpgkrProve`); the callers always have a layer. The honest records of a sumcheck are accepted for
a false claim exactly when a challenge is zero (`SumcheckProtocol.HonestVerdict`).

## Model

| member | source | states |
|---|---|---|
| Transcript.DrawnAt | crates/post_gkr/src/sumcheck.rs:138-162 | the `i`-th challenge of a run is the stream's own `i`-th value from where the run begins: every draw is a fresh one |
| Transcript.StreamDraws | crates/post_gkr/src/sumcheck.rs:138-162 | every vector of challenges is what some stream draws, so a count of vectors is a count of streams |
| Sumcheck.Completeness | crates/post_gkr/src/sumcheck.rs:126-190 | for all weights and values on `n` variables and every challenge sequence, the honest messages on the true inner product leave the running claim equal to the product of the two extensions at the challenges |
| Sumcheck.Soundness | crates/post_gkr/src/sumcheck.rs:148-190 | from any false claim on `n` variables, every adaptive prover leaves a running claim equal to that product on at most `2n N^(n-1)` of the `N^n` challenge vectors |
| SumcheckProtocol.Prove | crates/post_gkr/src/sumcheck.rs:98-176 | the prover, folding both tables in place, records exactly the honest messages at the drawn challenges and then the extension of its values there |
| SumcheckProtocol.Verify | crates/post_gkr/src/sumcheck.rs:112-190 | the verdict on any records is the replay of the claim at the drawn challenges, malformed when the records run out, and accepted only if the closing product equals the running claim |
| SumcheckProtocol.AcceptanceSoundness | crates/post_gkr/src/sumcheck.rs:112-190 | from a false claim, an adaptive prover that also picks its closing evaluation adaptively is accepted with the true evaluation on at most `2n N^(n-1)` challenge vectors |
| SumcheckProtocol.HonestVerdict | crates/post_gkr/src/sumcheck.rs:98-190 | the verifier accepts the honest records if and only if the claim is the inner product or some challenge is zero |
| ChallengeCounting.EscapeBound | crates/post_gkr/src/sumcheck.rs:148-190 | if after every prefix at most `d[i]` challenges turn a false state true, then at most `(d[0] + ... + d[n-1]) N^(n-1)` vectors ever do |
| StagedCounting.TwoStages | crates/verifier/src/verify.rs:115-134 | the union bound over two stages: few bad first stages, and few bad second stages after each other first stage, make few bad vectors |
| Multilinear.WeightAtVertex | crates/poly/src/eq.rs:8-16 | between points of the cube the equality weight is one for equal points and zero otherwise |
| Multilinear.Interpolates | crates/poly/src/eq.rs:43-61 | at the point of an index, whose coordinate `i` is bit `i` of the index, the extension is the table's entry there |
| Multilinear.MleHigh | crates/poly/src/mle.rs:174-238 | and it is affine in its highest variable |
| Multilinear.EqTable | crates/poly/src/eq.rs:63-104 | the table doubled in place level by level holds the equality weight of every index |
| Multilinear.EvaluateExactIsMle | crates/poly/src/mle.rs:174-238 | the recursion on the highest variable, with its unrolled cases, is the inner product with the equality weights |
| Multilinear.EvaluateSerialIsMle | crates/poly/src/f128.rs:45-72 | so is the chunked evaluation with the point split in two factors |
| Cubes.DenseMle.Fold | crates/poly/src/mle.rs:136-158 | folding in place binds the lowest variables to the challenges in order; more challenges than variables are refused before anything changes |
| Cubes.BindAllExtension | crates/poly/src/mle.rs:136-172 | binding the lowest variables and evaluating at the rest is evaluating at all of them |
| GkrTheorems.Completeness | crates/gkr/src/lib.rs:19-352 | for every table of leaves, output point and challenges, zero coordinates included, the verifier started on the layer's extension accepts the honest messages through all layers and ends with the leaves' extension at the derived point |
| GkrTheorems.LayerSoundness | crates/gkr/src/lib.rs:305-352 | one layer: from a false claim on `m` variables an adaptive prover reaches acceptance with a true next claim on at most `(3m + 1) N^m` of the `N^(m+1)` challenge vectors |
| GkrTheorems.Soundness | crates/gkr/src/lib.rs:273-352 | all layers: from a false claim, at most the sum of `3m + 1` over the layers times `N^(T-1)` of the `N^T` challenge vectors of the run |
| GkrTheorems.ClosedForms | crates/gkr/src/lib.rs:273-352 | the layers' numbers of challenges and their error bound in closed form |
| GkrProver.FillSuffixTable | crates/gkr/src/lib.rs:213-267 | one shared buffer holds the equality weights of every suffix of the point |
| GkrProver.ReduceSumcheckRound | crates/gkr/src/lib.rs:155-207 | both sums of a round, two entries at a time, are the weighted sums over the halves and over their differences |
| GkrSystem.BatchedEval | crates/gkr/src/lib.rs:383-412 | the kept witnesses are exactly the layers of the product tree from the leaves up, and the output the first layer with no more entries than groups |
| GkrSystem.GpgkrProve | crates/gkr/src/lib.rs:19-153 | the prover, in one buffer and two tables folded in place, records exactly the honest messages of all layers and returns the point and claim of the honest run; with no layer the claim is zero |
| GkrVerifier.GpgkrVerify | crates/gkr/src/lib.rs:273-352 | the verifier returns the outcome of replaying the records from the opening state, nothing when it rejects or the records run out, and reads two records a challenge |
| GkrVerifier.OutcomeOfPlayed | crates/gkr/src/lib.rs:273-352 | on the records of an adaptive prover that replay is the run the counting is about |
| GkrSystem.ProverMeetsVerifier | crates/gkr/src/lib.rs:19-352 | the verifier accepts the records the prover writes, whatever follows them, ends in the prover's own state, and its claim is the leaves' extension |
| GkrSystem.GpgkrSoundness | crates/gkr/src/lib.rs:273-352 | the layered bound for the verifier as the callers use it, on reversed points |
| Folds.FoldColumn | crates/common/src/fold.rs:29-46 | clearing lowest set bits word by word adds the weight of every set bit of the column once |
| Folds.FoldBounded | crates/common/src/params.rs:130-139 | over weights below `q` a fold of `k` bits is at most `k (q - 1)` |
| Folds.FoldImage | crates/common/src/fold.rs:68-110 | the generator raised to a fold is the product of the images of the weights at the set bits |
| Folds.ImageDeterminesFold | crates/common/src/params.rs:77-117 | under the fold gate two folds in the accepted range have equal images if and only if they are equal |
| Folds.PrimeBitsWidest | crates/common/src/params.rs:51-70 | every modulus of the computed width passes the gate, and unless the cap applies some modulus one bit wider does not |
| Folds.TooNarrowIff | crates/common/src/params.rs:51-70 | a shape is refused if and only if the gate refuses some modulus of the least width, 100 bits |
| Folds.PrimeBitsAre | crates/common/src/params.rs:51-70 | the width by row variables: 126 up to one of them, `128` less their number up to 28, and a refusal above |
| Shapes.NewShapeIs | crates/common/src/shape.rs:35-54 | in numbers of bits: a column of fewer than 128 is refused, and so is a table outside `2^20` to `2^35`; every other shape is admitted |
| Shapes.BenchmarkShapes | crates/common/src/shape.rs:56-64 | every size in that window has its benchmark shape, with the columns the transpose needs and a prime of at least 107 bits |
| Shapes.OwnWidthPasses | crates/common/src/params.rs:87-118 | with a generator of full order, a modulus of the shape's own width is refused only for fewer than 128 columns |
| Shapes.AcceptedParams | crates/common/src/params.rs:87-118 | under accepted parameters two folds in range have equal images if and only if they are equal |
| Folds.Reconstruct | crates/common/src/fold.rs:112-135 | the reduced sum of products is the weighted sum of the folds modulo `q`; a wrong number of folds is the one error |
| Folds.FoldsReconstruct | crates/common/src/fold.rs:112-135 | the weighted sum of a table's folds is the bilinear value of its bits |
| GrandProducts.LayerEntry | crates/gkr/src/lib.rs:383-412 | an entry of a layer is the product of all leaves with its residue |
| GrandProducts.CircuitLeaves | crates/gkr/src/lib.rs:360-381 | filling rows from the transposed table gives each set bit its row's image and every other leaf one |
| GrandProducts.OutputIsImage | crates/gkr/src/lib.rs:360-412 | the circuit's output at a column is the generator raised to that column's fold |
| Reduction.ClaimTrueIff | crates/prover/src/reduce.rs:23-59 | the inner-product claim made from a leaf point is true of the table if and only if the leaf claim is |
| Reduction.GkrReduce | crates/prover/src/reduce.rs:17-59 | the prover's claim is true of its table, and is what the verifier derives from the records it wrote |
| Reduction.GkrReduceVerify | crates/verifier/src/reduce.rs:24-60 | the verifier derives the claim at the reversed point of the replayed layers, or nothing when a layer rejects |
| FoldSoundness.FewAgreements | crates/verifier/src/verify.rs:115-134 | two different tables on `s` variables agree at no more than `s N^(s-1)` points |
| FoldSoundness.ReceiveFolds | crates/verifier/src/fold.rs:40-78 | each of the four outcomes has its exact condition: a fold out of range, otherwise a wrong count, otherwise a missed target, otherwise acceptance |
| FoldSoundness.FalseFoldsCaught | crates/verifier/src/fold.rs:40-78 | folds in range that are not the table's own have images agreeing with the circuit's outputs at no more than `s N^(s-1)` points, `s` the column variables |
| FoldSoundness.FalseTargetNeedsFalseFolds | crates/verifier/src/fold.rs:40-78 | folds that reconstruct a value the table does not have are not the table's |
| FoldSoundness.ReductionSoundness | crates/verifier/src/reduce.rs:24-60 | from a false output claim few challenge vectors leave a claim that is true of the committed bits |
| BitWeights.IterOverSetBits | crates/post_gkr/src/lib.rs:252-262 | the set bits of a word, each once and ascending |
| BitWeights.FirstMessage | crates/post_gkr/src/lib.rs:189-238 | the first message off the packed bits equals the generic message of the two tables written out |
| BitWeights.BindFirst | crates/post_gkr/src/lib.rs:265-288 | binding the first variable off the words equals folding the table of bits |
| BitWeights.FoldFactors | crates/post_gkr/src/lib.rs:241-250 | folding the row factor equals folding the flattened weights |
| PostGkr.ProveFactors | crates/post_gkr/src/lib.rs:121-148 | a claim the bits do not meet is refused; otherwise the records are the honest sumcheck of the flattened weights and the bits, and the query is the bits' extension at the challenges |
| PostGkr.VerifyFactors | crates/post_gkr/src/lib.rs:150-172 | the verdict is that of the generic verifier on the flattened weights, computed from the factors alone |
| PostGkr.FactoredMle | crates/post_gkr/src/lib.rs:150-172 | the extension of the flattened weights is the product of the factors' extensions |
| PostGkr.ReductionComplete | crates/post_gkr/src/lib.rs:85-172 | on a claim that holds, the verifier accepts the prover's records and is left with an evaluation claim that holds |
| PostGkr.ReductionSound | crates/post_gkr/src/lib.rs:105-172 | on a claim that does not hold, at most `2n N^(n-1)` challenge vectors leave an evaluation claim that holds |
| BitzProtocol.MovedMeans | crates/common/src/virtual_map.rs:157-226 | moving a claim from the table to what was committed, directly or through M, keeps whether it is true |
| BitzProtocol.ProtocolSoundness | crates/verifier/src/verify.rs:41-134 | from an integer claim modulo `q` false of the committed table, for every list of folds that passes and every adaptive prover after it, at most `(s + E + 2c) N^(T-1)` of the `N^T` challenge vectors leave an evaluation claim that is true of the commitment; `s` is the number of column variables, `E` the bound of all layers and `c` the number of closing rounds |
| BitzSystem.Verify | crates/verifier/src/verify.rs:41-134 | the verifier's answer is a function of the records and of the stream: the fold check's own reason, the layers exactly when they derive no claim, the closing sumcheck with its verdict, or the evaluation claim at the drawn point |
| BitzSystem.Prove | crates/prover/src/prove.rs:53-165 | on every table and weights the prover succeeds, and on the stream it drew from its records make the verifier derive the very query it returns, which holds of what was committed |
| BitzSoundness.VerifierSoundness | crates/verifier/src/verify.rs:41-134 | for a claim false of the committed table, any list of folds and any adaptive prover, the challenge vectors on which the verifier's own answer is an evaluation claim true of the commitment number at most the bound of `BitzProtocol.ProtocolSoundness` |
| BitzSoundness.FooledDraws | crates/verifier/src/verify.rs:41-134 | a stream fools the verifier if and only if the vector it draws is one of those |
| BitzSoundness.ErrorInNumbers | crates/verifier/src/verify.rs:41-134 | the number of challenges and the bound as polynomials in the numbers of row, column and committed variables |
| BitzSoundness.VerifierCompleteness | crates/verifier/src/verify.rs:41-134 | on a true integer claim the verifier's answer on the records the prover wrote is the prover's own evaluation claim |
| BitzSystem.DirectCommits | crates/common/src/table.rs:40-92 | a table's own words commit to its bits, so the direct statement is an instance |
| ConstraintGenerator.Materialize | crates/circuit/src/constraints.rs:645-732 | the matrices of a program are canonical and every entry of A, B, C and M is the program's meaning at that row and column |
| LinearCombinations.MergeSorted | crates/circuit/src/constraints.rs:586-620 | merging two canonical combinations is canonical and adds coefficients at every column; what cancels is dropped |
| LinearCombinations.SymmetricDifference | crates/circuit/src/matrix_transpose.rs:71-105 | three cursors leave the columns in exactly one of the two sorted supports |
| RowSums.ColumnsAgainstRun | crates/circuit/src/constraints.rs:326-398 | against the integer witness of any run, the vector `r (A + x B + x^2 C)` that both backends compute is `r` times the left sides plus `x` times `r` times the right sides plus `x^2` times `r` times the outputs of the assertions on that run |
| Satisfaction.IntegerWitness | crates/circuit/src/constraints.rs:326-349 | the integer witness is one and then the bits the program lifts on that witness; a wrong length is the one error |
| Satisfaction.PackedIsNumber | crates/circuit/src/lib.rs:506-525 | a packed lift of a run is the number in its bits, lowest first |
| Satisfaction.CheckWitness | crates/circuit/src/constraints.rs:354-398 | the matrices accept a witness if and only if the program run on it satisfies every assertion; otherwise the first that fails is named |
| WengertGenerator.Replay | crates/circuit/src/matrix_wengert.rs:98-310 | the recorder's growing vectors hold the recording of the program |
| WengertMeaning.RecordAgrees | crates/circuit/src/matrix_wengert.rs:98-345 | at every column every recorded handle and row has the program's meaning, when no coefficient wraps |
| Circuits.WrapInRange | crates/circuit/src/matrix_wengert.rs:286-290 | what a fixed width keeps of a coefficient is the value in range that is congruent to it |
| WengertMeaning.ScaleKeepsMeaning | crates/circuit/src/matrix_wengert.rs:286-290 | a scaled handle keeps its meaning at a column if and only if the coefficient fits its width or the node is zero there |
| WengertMeaning.NegKeepsMeaning | crates/circuit/src/matrix_wengert.rs:209-290 | the same for a negation |
| WengertMeaning.AddKeepsMeaning | crates/circuit/src/matrix_wengert.rs:209-290 | a sum keeps its meaning unless it adds two coefficients on one node, nonzero there, and the result does not fit |
| WengertMeaning.ConstantKeepsMeaning | crates/circuit/src/matrix_wengert.rs:209-290 | a constant means itself if and only if it fits its width |
| WengertMeaning.LiftKeepsPower | crates/circuit/src/matrix_wengert.rs:1246-1298 | the coefficient of a lifted bit is its power of two if and only if that fits |
| WengertMeaning.WrappedProgram | crates/circuit/src/matrix_wengert.rs:286-290 | a valid two-step program whose recorded coefficient wraps to `-2^63` where the program means `2^63` |
| WengertGroups.RecordGroups | crates/circuit/src/matrix_wengert.rs:1246-1298 | the inputs of every packed lift are used by nothing but its two sums, with the powers of two as coefficients |
| WengertAdjoint.SweepDual | crates/circuit/src/matrix_wengert.rs:770-812 | evaluating a seeded graph at a column equals the reverse sweep's value at that input |
| WengertAdjoint.AdjointIsColumn | crates/circuit/src/matrix_wengert.rs:770-812 | the exact adjoint of an input is that column of `r (A + x B + x^2 C)` |
| WengertTape.Depths | crates/circuit/src/matrix_wengert.rs:394-412 | a node's depth is above that of every live dependent, and if positive exactly one above some of them: the longest chain of dependents |
| WengertTape.Order | crates/circuit/src/matrix_wengert.rs:414-463 | the order lists every live node once, internal nodes level by level and then the live inputs, and no level is empty |
| WengertTables.FromRecorder | crates/circuit/src/matrix_wengert.rs:354-580 | pruning, group removal, the order by depth, the renumbering and the interned tables give a tape that describes the recording |
| WengertTheorem.TapeOfProgram | crates/circuit/src/matrix_wengert.rs:354-580 | in every finished tape each level reads earlier levels only, and the tape's equations have the adjoints as solution and the program's columns as output |
| WengertApply.ReversePass | crates/circuit/src/matrix_wengert.rs:849-930 | level by level every internal adjoint is the exact one, in Montgomery form |
| WengertApply.OutputPass | crates/circuit/src/matrix_wengert.rs:930-1013 | every column is written once and its value does not depend on the chunk size |
| WengertSystem.Apply | crates/circuit/src/matrix_wengert.rs:354-1015 | end to end: for every program without wrapping coefficients, odd modulus above one, challenges and `x`, the canonical output is `r (A + x B + x^2 C)` of the program's matrices modulo the modulus; a small or even modulus and a wrong number of challenges are the errors |
| WengertSystem.PreparedWengertEvaluator.Apply | crates/circuit/src/matrix_wengert.rs:840-1015 | an application overwrites the reused storage with the exact columns; a refused one leaves the output alone |
| Buckets.Distribute | crates/circuit/src/matrix_sparse.rs:100-146 | the counting sort puts each key's items, in their order, between its two offsets |
| SparseAbc.FromMatrices | crates/circuit/src/matrix_sparse.rs:75-147 | the column-major table holds each column's entries of A, B and C in row order |
| SparseAbc.Apply | crates/circuit/src/matrix_sparse.rs:75-330 | end to end: the canonical output is that same `r (A + x B + x^2 C)`, so both backends agree on every program in the scope of both |
| StoredCoefficients.PrepareCoefficient | crates/circuit/src/matrix_wengert.rs:637-655 | an integer stored in limbs, reduced by the runtime modulus and encoded is the Montgomery form of its residue |
| StoredCoefficients.FromBigInt | crates/circuit/src/matrix_products.rs:319-358 | every integer is stored as the canonical two's-complement limbs of its value |
| MTranspose.Recorder.Xor | crates/circuit/src/matrix_transpose.rs:201-223 | the new support holds a column if and only if exactly one operand does, and no older handle changes |
| MTranspose.SameMatrix | crates/circuit/src/matrix_transpose.rs:114-239 | the recorder's rows are the M of the matrix generator, row for row |
| TransposedMatrix.Finish | crates/circuit/src/matrix_transpose.rs:241-281 | the finished table is the transpose of the recorded rows |
| TransposedMatrix.Apply | crates/circuit/src/matrix_transpose.rs:306-370 | the output is the challenges times M, or nothing when the counts differ |
| VirtualMap.TransposeIsDual | crates/circuit/src/matrix_transpose.rs:372-383 | weights against M x equal weights times M against x |
| VirtualMap.TransposeQuery | crates/common/src/virtual_map.rs:157-226 | each size check has its error, and a query that passes them is rewritten to one that holds of the committed bits if and only if the query holds of the padded virtual bits |
| VirtualMap.TransposeProgramQuery | crates/circuit/src/matrix_transpose.rs:372-452 | the same for the M of any circuit program: with the bits the program lifts and the witnesses it takes as the sizes, every error has its exact condition and success the remaining one, and then the rewritten query holds of a witness if and only if the query holds of the bits the program lifts on it |
| VirtualMap.RunCounts | crates/circuit/src/matrix_transpose.rs:114-239 | those sizes are the numbers of bits every run of the program lifts and takes |
| Primality.MulMod | crates/field/src/helpers.rs:51-70 | doubling gives the product modulo any modulus below `2^127` |
| Barrett.BarrettMu | crates/field/src/helpers.rs:101-121 | binary long division gives the floor of `2^(2k) / q` |
| Barrett.EstimateBounds | crates/field/src/helpers.rs:123-136 | the quotient estimate is right or at most two too small for every numerator below `2^(2k)` |
| Barrett.BarrettReduce | crates/field/src/helpers.rs:131-146 | with the wrapped difference and two conditional subtractions the result is the exact residue |
| Primality.FieldMetadata.Pow | crates/field/src/helpers.rs:181-194 | square and multiply gives the power modulo the modulus |
| Primality.FieldMetadata.StrongRound | crates/field/src/helpers.rs:198-214 | a round passes if and only if the modulus is a strong probable prime to the base |
| Primality.PrimePasses | crates/field/src/helpers.rs:198-214 | a prime passes the round at every base it does not divide |
| Primality.IsPrime | crates/field/src/helpers.rs:13-48 | the test accepts exactly the bases and the numbers without a small factor that pass all rounds, among them every prime |
| Primality.DecidesBelow1849 | crates/field/src/helpers.rs:13-48 | below `43^2` the test accepts if and only if the number is prime |
| NumberTheory.Fermat | crates/field/src/helpers.rs:198-214 | Fermat's little theorem |
| Montgomery.MontgomeryMul | crates/circuit/src/matrix_wengert.rs:1060-1104 | for odd moduli below `2^128` the product is reduced and congruent to the operands' product over `2^128`, with no carry lost |
| Montgomery.MontgomeryRetrieve | crates/circuit/src/matrix_wengert.rs:1106-1114 | the retrieved value is reduced and congruent to the operand over `2^128`, with no final subtraction |
| Montgomery.Decoded | crates/circuit/src/matrix_wengert.rs:1106-1114 | retrieval of an encoding is the canonical residue |
| KnuthDivision.EstimateIsClose | crates/circuit/src/p256.rs:780-800 | the estimate is the quotient digit or one more, and exact for a two-limb divisor |
| KnuthDivision.DivideWindow | crates/circuit/src/p256.rs:774-818 | one digit: the offset-carry subtraction and at most one addition back leave the exact digit and remainder; a two-limb divisor is never added back |
| KnuthDivision.DivRem | crates/circuit/src/p256.rs:750-826 | quotient and remainder are exact for every dividend and normalized four-limb divisor |
| StoredIntegers.FromInteger | crates/circuit/src/matrix_products.rs:379-400 | dropping sign limbs keeps the value and reaches the canonical form |
| StoredIntegers.CanonicalUnique | crates/circuit/src/matrix_products.rs:291-400 | canonical limbs are determined by their value, so every source stores an integer alike |
| RuntimeReduction.ReduceStep2 | crates/circuit/src/matrix_products.rs:123-171 | one limb is reduced exactly and the corrected estimate never needs the divisor back |
| RuntimeReduction.TwosComplementMagnitude | crates/circuit/src/matrix_products.rs:179-191 | the magnitude of a negative integer |
| RuntimeReduction.RuntimeModulus.Reduce | crates/circuit/src/matrix_products.rs:47-99 | the limbs of the residue of any signed integer, for moduli of any number of limbs, normalized or not |
| HintWords.MultiplyWide | crates/circuit/src/p256.rs:828-851 | the exact product of two nine-limb operands |
| HintWords.MulHint | crates/circuit/src/p256.rs:369-389 | the limb code gives exactly the hint `P256Field.LazyMul` is complete for; negative and oversized operands fail |
| HintWords.MulSubHint | crates/circuit/src/p256.rs:395-423 | the same for a product less a target |
| HintWords.MulEqHint | crates/circuit/src/p256.rs:525-550 | the same for an asserted product |
| HintWords.ReduceHint | crates/circuit/src/p256.rs:480-492 | the same for a reduction |
| HintWords.OperandsFit | crates/circuit/src/p256.rs:701-713 | representatives within the gadgets' bounds fit nine limbs and leave room for the bias |
| HintInverses.ModularInverse | crates/circuit/src/p256.rs:892-906 | there is an inverse exactly for a nonzero reduced value invertible modulo an odd modulus |
| HintInverses.DivideHint | crates/circuit/src/p256.rs:433-470 | the limb code gives exactly the hint `P256Field.LazyDivide` is complete for; a zero residue fails |
| HintInverses.ZeroHint | crates/circuit/src/p256.rs:638-646 | the packed flag and inverse are exactly the hint the zero test is complete for |
| Transposes.TransposeBitBlock | crates/common/src/matrix.rs:161-176 | the in-place walk transposes the 128 by 128 block |
| BitMatrices.BitTranspose | crates/common/src/matrix.rs:121-155 | block by block, every bit of the output is the mirrored bit of the input, for any number of words on both axes |
| BitMatrices.SwappedTwice | crates/common/src/matrix.rs:121-155 | transposing the words back gives them back, for any number of words on both axes |
| BitMatrices.TransposedTwice | crates/common/src/matrix.rs:63-69 | transposing twice gives the matrix back, words and axes |
| TensorTranspose.TensorAlgebraTranspose | crates/pcs/src/transpose.rs:14-48 | the half-word quadrant swap and the six masked stages transpose the block |
| TensorTranspose.TransposedBack | crates/pcs/src/transpose.rs:14-48 | the half-word transpose is an involution |
| Sha256.ChoiceIdentity | crates/circuit/src/sha256.rs:317-327 | the linear form of the choice function is twice its value |
| Sha256.MajorityIdentity | crates/circuit/src/sha256.rs:329-341 | the linear form of the majority function is twice its value |
| Sha256.SumDoubled32 | crates/circuit/src/sha256.rs:268-315 | every satisfying assignment gives the sum of words and halved doubled values modulo `2^32` |
| Sha256Constants.RoundConstantIsRoot | crates/circuit/src/sha256.rs:12-21 | round constant `t` is the first 32 bits of the fraction of the cube root of the prime with `t` primes below it |
| Sha256Constants.InitialWordIsRoot | crates/circuit/src/sha256.rs:24-26 | word `t` of the initial state is the same of the square root |
| Sha256.SmallSigmas | crates/circuit/src/sha256.rs:358-373 | bit by bit, the circuit's rotations and shifts are the two functions of the message schedule |
| Sha256.BigSigmas | crates/circuit/src/sha256.rs:388-402 | and the two of the rounds |
| Sha256Arithmetic.RoundIs | crates/circuit/src/sha256.rs:386-453 | a round in integers modulo `2^32`: `T1 + T2`, `d + T1`, and the six words that move on |
| Sha256Arithmetic.ScheduleIs | crates/circuit/src/sha256.rs:358-384 | the schedule's recurrence in integers modulo `2^32` |
| Sha256Arithmetic.MajorityIs | crates/circuit/src/sha256.rs:329-341 | the majority has a bit where two of the three words do |
| Sha256Arithmetic.ChoiceIs | crates/circuit/src/sha256.rs:317-327 | the choice takes the second word's bit where the first has one and the third's elsewhere |
| Sha256Arithmetic.PaddingIs | crates/circuit/src/sha256.rs:508-553 | the padded message is the message, a one, the fewest zeros that fill the block, and the length with its highest bit first |
| Sha256.Compression | crates/circuit/src/sha256.rs:344-461 | every satisfying assignment gives the compression function, and honest hints satisfy all rows; it hints exactly `48 * 34 + 64 * 70 + 8 * 33` bits |
| Sha256.BlockAligned | crates/circuit/src/sha256.rs:508-553 | for every block-aligned message every satisfying assignment gives the padded hash, honest hints satisfy all rows, and the witness is one compression's for every block and one more |
| P256Field.LazyMul | crates/circuit/src/p256.rs:369-393 | a satisfying assignment gives a word congruent to the product; within the bounds honest hints complete |
| P256Field.LazyMulSub | crates/circuit/src/p256.rs:395-431 | the same for a product less a target |
| P256Field.LazyDivide | crates/circuit/src/p256.rs:433-478 | the same for a quotient, with a nonzero denominator |
| P256Field.AssertMulEq | crates/circuit/src/p256.rs:525-559 | a satisfying assignment has congruent sides, and congruent sides within the bounds complete |
| P256Gadgets.ZeroTest | crates/circuit/src/p256.rs:953-995 | in every satisfying assignment the flag is one if and only if the operand is zero modulo the prime |
| P256Gadgets.LazyReduce | crates/circuit/src/p256.rs:480-495 | in every satisfying assignment the result is the canonical residue |
| P256Group.SumOnCurve | crates/circuit/src/p256.rs:1093-1169 | from the primality of the modulus alone, the sum of two points of the curve is on the curve |
| P256Group.SumCommutes | crates/circuit/src/p256.rs:1093-1169 | and does not depend on their order |
| P256Group.SumWithOpposite | crates/circuit/src/p256.rs:1093-1169 | every point and the one across the axis sum to infinity |
| P256Points.AddComplete | crates/circuit/src/p256.rs:1093-1169 | on curve points every satisfying assignment gives the group law's sum, infinite, opposite and equal operands included, and honest hints complete |
| P256Points.DoubleComplete | crates/circuit/src/p256.rs:1043-1091 | the same for doubling, with the one exception a point of order two, where no assignment satisfies the rows unless the tangent's numerator is zero too |
| P256Group.NoSmallOrder | crates/circuit/src/p256.rs:1289-1327 | below a prime order no multiple of a finite point is infinite, so the generator's table has only finite points |
| P256Joint.MaterializeMultiples | crates/circuit/src/p256.rs:1171-1182 | the table holds the first sixteen multiples |
| P256Joint.GeneratorTable | crates/circuit/src/p256.rs:1289-1327 | the table holds the multiples of the generator up to 255 |
| P256Joint.LookupPoint | crates/circuit/src/p256.rs:1184-1287 | the one-hot lookup gives the multiple at its digit |
| P256Joint.JointScalarMul | crates/circuit/src/p256.rs:1412-1439 | after 32 rounds of byte and nibble windows every satisfying assignment gives `u1 G + u2 Q`, and honest hints complete |
| P256Verify.VerifyDigest | crates/circuit/src/p256.rs:1463-1517 | the rows can be satisfied only by inputs that are a valid signature of the digest, and on those the honest hints satisfy them; with its inputs the circuit has exactly the 1,215,662 witness bits and the 7,061 rows the source declares |
| P256Verify.FactsGive | crates/circuit/src/p256.rs:45-64 | prime moduli, associativity and an order that annihilates every point make the points an abelian group without a point of order two |
| P256Signing.CurveParameters | crates/circuit/src/p256.rs:45-64 | the coefficient is the one its published seed gives, the generator is on the curve, and the order is within Hasse's bound |
| P256Signing.Moduli | crates/circuit/src/p256.rs:45-64 | the field's prime is `2^256 - 2^224 + 2^192 + 2^96 - 1` |
| P256Signing.WellFormedIff | crates/circuit/src/p256.rs:1463-1505 | the input checks accept exactly a point of the curve, nonzero reduced scalars and their own inverses |
| P256Signing.AcceptedIff | crates/circuit/src/p256.rs:1463-1517 | for a key with logarithm `d`, the accepted inputs are exactly those in range for which some nonce `k` has `r` the abscissa of `k G` and `k s = z + r d` modulo the order |
| P256Signing.SignerVerifies | crates/circuit/src/p256.rs:1463-1517 | whatever a signer makes of a digest, a key and a nonce is accepted, unless `r` or `s` is zero |

## Left out

- The transcript's hashing, its grinding and the end-of-transcript check: challenges are an arbitrary stream.
- The commitment itself, the opening of the final evaluation claim, profiles, codecs, digests, the proof container, the command line and the Spartan layer.
- Thread scheduling and vector instructions: parallel loops run in order over the same cells. `Wide256` and `FixedBasePow` are the field's own sums of products and powers.
- Overflow of 32-bit index counters, recorder identities and locks, which the source guards with panics.
- The random choice of the prime, its challenger and the soundness of reducing an integer claim modulo that prime: the modulus `q` is given.
- The counting sort is one member used by every table, where the source writes it out in each.
- The Montgomery conversions of the big-integer library are its contract, `Montgomery.Encode`; the negated inverse of the modulus's low limb is a parameter tied to it.
- Primality of the P-256 moduli, associativity of the curve's sum and that the order annihilates every point are hypotheses, `P256Verify.CurveFacts`; the rest of the group is proved from them in `P256Group`.
- The modular inverse of the big-integer library is a parameter with its contract, `HintInverses.IsLibraryInverse`.
- Gadgets are runs under an arbitrary assignment, not programs of `Circuits.Step`: the step from the emitted rows to the matrices is `Satisfaction.CheckWitness`, for programs.
- The lifting of the P-256 inputs bit by bit: inputs are 256-bit words with the bits those words have.
- WengertSystem.Apply: requires that no coefficient wraps, because `Z<LIMBS>` wraps silently; `WengertMeaning.WrappedProgram` shows why. A lift of 64 bits per limb is outside it too.
- WengertMeaning.RecordAgrees: requires that no coefficient wraps, for the same reason.
- SparseAbc.Apply: requires the number of rows the packed 32-bit index can hold.
- Primality.IsPrime: does not say that composites are rejected, beyond `43^2`; the fixed bases do not decide it at these widths.
- P256Points.DoubleComplete: says nothing of completeness at points of order two, which the curve does not have.
- HintWords.MulSubHint: speaks of operands that leave room for the bias; `HintWords.OperandsFit` shows that all the gadgets' operands do.
- HintWords.MulEqHint: speaks of operands that leave room for the bias, as above.
- GkrSystem.GpgkrProve: bounds the number of layers by the size the caller allocates the buffer for.
