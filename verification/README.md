# A model of the proof stack, from circuits to group arithmetic

This project models the algebraic core of a stack of provers: a rank-one constraint system proved by an inner-product
argument (`r1csipa`), the multi-scalar multiplication and FFT underneath (`halo2curves`), sum-check, product circuits,
memory checking and sparse evaluation (`Spartan-t256`), and the elliptic-curve circuit with its compilation to matrices
(`nr-blind-sig`, `bellpepper`). Loops that update buffers are methods over arrays, sequences or objects; each is proved
against a specification function, and the properties are proved about those functions.

## How things are modelled

* **Fields.** A field element is an integer and equality in the field is congruence (`PrimeField.Cong`); the code's
  results are canonical representatives (`Mod`). The modulus is any prime, so the theorems hold for every field.
* **Groups.** For group algebra (inner-product arguments, multi-scalar products) a point is its discrete logarithm, an
  arbitrary element of the same prime field, and 0 is the identity. Where coordinates matter (`batch_add`, the scheduler,
  the circuit) a curve is an odd-order group with an x/y map obeying the chord-and-tangent law (`Curve.IsCurve`);
  `Curve.CurveExists` shows that the law can be met, by the five points of a curve over F_7.
* **Transcript.** The sequence of messages absorbed so far and an arbitrary challenge function of that sequence
  (`Transcript`). Randomness is an explicit argument.
* **Integers.** Booth windows use 32-bit words, and their shifts and masks are written out; bytes are `bv8`. The
  floating-point logarithm that picks the window size is a parameter bounded as 32-bit lengths require.
* **Failures.** Failed assertions, out-of-range indices and inverted zeros are result values (`Panic`, `Reject`, `None`,
  `Abort`), not preconditions, wherever the code can meet them.
* **Circuits.** A gadget writes constraints to a constraint system whose assignment is arbitrary and hidden from it, so
  what is proved holds for every satisfying assignment; `honest` records whether the assignment gives every variable the
  value its allocation asks for, and then the constraints are proved to hold.

## Main results

* R1CS: the compiled inner product misses its target by exactly the combined residual of the instance
  (`R1csToIpa.CompilerIdentity`); the prover finishes whenever no challenge is zero and its proof of a satisfied instance is
  accepted (`R1csProof.CreateRuns`, `R1csProof.SatisfiedAccepted`); the verdict is known exactly for unsatisfied ones
  (`R1csProof.R1csVerdict`, `R1csProof.FewGammasPass`) and for arbitrary proofs (`R1csAnyProof.VerifyR1csExact`); the
  transcript binds the instance and every point (`R1csAnyProof.TranscriptBinds`); and the proofs a satisfying witness can
  send are exactly the accepted ones, so a proof does not tell witnesses apart (`R1csHiding.SentIsAccepted`).
* Inner-product arguments: every round keeps the group equation (`IpaSpec.RoundKeeps`), the single equation unrolls the
  recursive verifier (`IpaScalars.SingleEquationIsRecursive`), which settles the verdict on every proof, of whatever lengths
  (`IpaAnyProof.VerifyExact`, `IpaAnyProof.VerifyPlainExact`, `BulletAnyProof.HatsExact`); the deferred provers refine the
  plain one for every collapse threshold (`IpaProver.DeferredRounds`), and every accepted proof is one that any opening of
  the statement could have sent (`IpaHiding.AnyWitnessExplains`).
* Multi-scalar multiplication: for every window width that 32-bit words admit, the serial and scheduled products are the sum
  of what the windows recode (`MsmSerial.MsmSerialWithC`, `MsmScheduled.MsmScheduledWithC`); recoding, and with it the
  product, is right exactly for widths up to 24 (`Booth.ExactWidths`, `MsmScheduled.ProductWidths`); at the widths the
  heuristic picks the dispatcher computes the naive sum (`MsmScheduled.MsmBest`).
* Sum-check and product circuits: acceptance, agreement of the challenges and the returned multilinear claims, single and
  batched (`SumcheckRun.CubicVerdict`, `ProductTree.TreeVerdict`, `ProductBatch.BatchVerdict`); the batched prover over
  polynomial objects bound in place refines its specification (`ProductBatchRun.ProveBatched`). Against any prover: a false
  claim that ends in a true one met a challenge at which two different polynomials, lines or weighted sums agree, for the
  sum-check, the tree and the batch (`SumcheckSound.SumcheckSoundness`, `ProductSound.TreeSound`,
  `ProductBatchSound.BatchSound`), and such challenges are few (`SumcheckSound.FewCoincide`). Transcripts bind what was sent
  (`SumcheckTrace.SumcheckBinds`, `ProductTrace.TreeBinds`, `ProductBatchTrace.BatchBinds`).
* Memory: the multiset check holds if and only if every value read is right (`MemoryCheck.CheckIsExact`), and the hashed
  check, repeated over enough challenges, does too (`MemorySound.CheckSound`, `MemorySound.FewBadKeys`).
* FFT: both branches evaluate the polynomial, and the inverse transform restores it (`FftSpec.TransformEvaluates`,
  `FftSpec.InverseRestores`).
* Scalar multiplication circuit: for every satisfying assignment the output is one determined point
  (`EccScalarMul.ScalarMul`), because incomplete addition never meets its exceptional case (`EccScalarMul.IncompleteSafe`);
  that point is the product exactly when no complete addition meets infinity and a point of x = 0
  (`EccClash.RightWithoutClash`), which never happens for a = 0 (`EccClash.RightWhenAIsZero`).
* Compilation: the padded, renumbered matrices are satisfied exactly when the circuit's constraints hold
  (`CircuitInstance.CompiledMeans`, `CircuitInstance.NewInstanceCompiles`).

## Where the code falls short of its documentation

* `get_booth_index` loads four bytes, which is enough for windows up to 24 bits and for no wider ones: for each width from 25
  to 30 there is a power of two that is recoded as its double (`Booth.WideRecoded`), and one finite point with that scalar
  makes the product wrong (`MsmScheduled.WideProduct`). `msm_scheduled_with_c` is documented as correct for any window of at
  least 2; it is for exactly those up to 24 (`MsmScheduled.ProductWidths`). Beyond 30 the mask's shift leaves 32 bits.
* The sum-check verifier asserts f(0) + f(1) = claim on a polynomial it has just decompressed with that claim as hint; the
  assertion cannot fail (`UniPoly.DecompressMeetsHint`), and the whole run accepts whatever has the right number of
  polynomials of the right length (`SumcheckSpec.AcceptedByShape`). A wrong claim is carried along instead, and reaches the
  final value unless a challenge is 0, 2 or 3 (`SumcheckRun.ClaimCaught`).
* Every scheduler entry initially names bucket 0 and `contains` scans stale entries, so bucket 0 always looks scheduled
  (`MsmScheduled.BucketZeroLooksScheduled`) and is never used: digits 1 and -1 always take the Jacobian path
  (`MsmScheduled.Place`). The result is unaffected.
* Complete addition is documented to work for any two points. Infinity carries x = 0, so infinity plus a finite point of
  x = 0 is taken for a sum of opposite points, and the output is infinity (`EccCircuit.AddPoints`, with
  `EccCircuit.Clash`). On P-256, the default curve, such points exist (`EccClash.P256HasZeroX`), and scalar multiplication
  of some point by 2^254 gives infinity in place of that point (`EccClash.P256Fails`, for any curve `EccClash.ClashInput`).
* Scalar multiplication is documented to return the default point for infinity. With a = -3 the first doubling's constraint
  reads 0 = -3 there, and no assignment satisfies the circuit (`EccCircuit.DoubleIncomplete`). With a = 0 the honest values
  satisfy it and the output's flag is set, but the output is the default point if and only if bit NUM_BITS - 2 is 0 or
  some higher bit is 1 (`EccScalarMul.ScalarMul`, with `EccScalarMul.Drifts`).
* The inner-product verifiers do not compare the number of generators with 2^rounds: they accept fewer, as if the lists were
  filled up with zeros, and a zero challenge does not stop them (`IpaAnyProof.VerifyExact`, with `IpaScalars.Filled` and
  `IpaVerify.InversesOrOne`).
* A circuit without constraints is padded to one row, not to the at least two the comment announces
  (`CircuitInstance.FewestRows`).

## Model

| member | source | states |
|---|---|---|
| R1csToIpa.Check | r1csipa/src/r1cs.rs:111-119 | the check returns true exactly when every row satisfies (Az)(Bz) = Cz on the witness followed by the inputs |
| SparseMatrix.MultiplyVec | r1csipa/src/utils.rs:83-106 | the loop over the entries of a sparse matrix gives M z, duplicates and order included |
| SparseMatrix.VecMultiplyMat | r1csipa/src/utils.rs:113-136 | the transposed loop gives v M |
| SparseMatrix.Adjoint | r1csipa/src/r1cs.rs:265-269 | the two loops are adjoint: <v M, z> = <v, M z> in the field, for every sparse matrix with in-range entries |
| SparseMatrix.ExpIter | r1csipa/src/utils.rs:17-38 | the powers iterator yields x^0 .. x^(n-1) |
| Vectors.InnerProduct | r1csipa/src/utils.rs:72-81 | the accumulating loop is the inner product in the field |
| R1csToIpa.CompilerIdentity | r1csipa/src/r1cs.rs:243-336 | for every z, satisfying or not, and non-zero delta and gamma: <u, v> - w is <gamma^m, Az o Bz - Cz> |
| R1csToIpa.ClaimIsError | r1csipa/src/r1cs.rs:243-336 | for every z and non-zero delta: <u, v> = w holds exactly when <gamma^m, Az o Bz - Cz> vanishes |
| R1csToIpa.SatisfiedClaimHolds | r1csipa/src/r1cs.rs:327-331 | for a satisfied instance the prover's self-check <u, v> = w holds, whatever the challenges |
| R1csProof.WitnessCommitment | r1csipa/src/r1cs.rs:145-162 | the multi-scalar product over witness and blinding is <(witness, 0), G> + eta V |
| R1csProof.InputsCommitment | r1csipa/src/r1cs.rs:164-174 | the multi-scalar product over the inputs is <(0, inputs), G> |
| R1csProof.ValuesCommitment | r1csipa/src/r1cs.rs:176-213 | S0 commits to Az on the last m generators of G, to Bz on those of H, and to r on V |
| R1csProof.StatementMatches | r1csipa/src/r1cs.rs:276-299 | the P that the verifier assembles from T, S and public scalars is the commitment to the prover's u, v, w and eta' over the factored generators |
| R1csProof.StatementError | r1csipa/src/r1cs.rs:279-331 | for any witness, satisfying or not, the verifier's P differs from the prover's folded statement by exactly the residual of the instance times U |
| R1csProof.R1csVerdict | r1csipa/src/r1cs.rs:343-426 | on the prover's own output the verifier accepts exactly when no proof point is the identity and the residual times U vanishes or the last challenge is zero |
| R1csProof.SatisfiedAccepted | r1csipa/src/r1cs.rs:343-426 | completeness: for a satisfied instance and any randomness, the prover sends a proof whenever the challenge function never draws zero, and every proof it sends is accepted unless one of its points is the identity |
| R1csProof.CreateRuns | r1csipa/src/r1cs.rs:343-396 | the prover sends a proof exactly when delta, gamma and every folding challenge it draws are non-zero, for satisfied and broken instances alike |
| R1csAnyProof.VerifyR1csExact | r1csipa/src/r1cs.rs:398-426 | for every proof, honest or not: a panic exactly when gamma or delta is zero, else the verdict of the round-by-round inner-product verifier; each challenge is written out as drawn after the digest, T, S' and the draws before it |
| R1csAnyProof.StatementShift | r1csipa/src/r1cs.rs:279-299 | the verifier's P depends on the proof through S + T/delta alone |
| R1csAnyProof.SerializeInjective | r1csipa/src/r1cs.rs:233-233 | the absorbed instance digest determines the whole instance, sizes, entries and inputs |
| R1csAnyProof.CreateTranscript | r1csipa/src/r1cs.rs:343-396 | a run of the prover absorbs exactly the digest, T, S', the four draws, the length, every L and R with its draw, A, B and the last draw, in this order |
| R1csAnyProof.TranscriptBinds | r1csipa/src/r1cs.rs:232-239 | two provers' runs that start and end with the same transcript proved the same instance and sent the same T, L, R, A, B and the same S', whatever their witnesses |
| R1csHiding.AnyWitnessSends | r1csipa/src/r1cs.rs:343-396 | for every accepted proof and every satisfying witness there is randomness with which the prover sends exactly this proof |
| R1csHiding.SentIsAccepted | r1csipa/src/r1cs.rs:343-426 | zero knowledge about the witness: among proofs without identity points and zero challenges, a satisfying witness can send exactly the accepted ones, so all satisfying witnesses can send the same proofs |
| R1csProof.FewGammasPass | r1csipa/src/r1cs.rs:243-336 | for an unsatisfied instance <u, v> = w holds for at most m - 1 distinct values of gamma, whatever the other challenges are |
| Roots.RootBound | r1csipa/src/r1cs.rs:265-274 | a polynomial with a coefficient that is not zero in the field has fewer distinct roots than coefficients |
| R1csRun.CreateR1cs | r1csipa/src/r1cs.rs:343-396 | the prover run over one transcript produces the specified proof and leaves the specified transcript, or fails when the specification does (exactly as `R1csProof.CreateRuns` says) |
| R1csRun.VerifyRun | r1csipa/src/r1cs.rs:398-426 | the verifier run over one transcript returns the specified verdict for any proof |
| R1csRun.DrawChallenges | r1csipa/src/r1cs.rs:232-239 | the instance digest, T and S' are absorbed before alpha, beta, gamma and delta are drawn |
| R1csRun.CombineRows | r1csipa/src/r1cs.rs:259-269 | the combined row is mu^m A + beta^m B - gamma^m C |
| R1csRun.ScaleInPlace | r1csipa/src/r1cs.rs:280-284 | the loop over the G scalars multiplies each by its factor |
| CircuitInstance.ArgumentInstanceMeans | r1csipa/src/r1cs.rs:72-105 | rows are added until rows + cols is the least power of two that reaches them, and the padded instance is satisfied by a witness exactly when every constraint of the circuit holds |
| IpaSpec.FoldDot | r1csipa/src/ipa.rs:198-204 | inner product of two vectors folded with u, 1/u and 1/u, u: the old one plus u^2 and u^-2 times the two cross products |
| IpaSpec.RoundKeeps | r1csipa/src/ipa.rs:145-222 | one folding round keeps P + u^2 L + u^-2 R = <a, G> + <b, H> + <a, b> U + alpha V |
| IpaSpec.ReduceKeeps | r1csipa/src/ipa.rs:145-222 | over all rounds: P + sum u^2 L + sum u^-2 R is the commitment to the last entries |
| IpaRuns.ReduceRuns | r1csipa/src/ipa.rs:145-222 | the halving loop ends with a result exactly when no round draws a zero challenge, each drawn after its L and R |
| IpaRuns.ProveRuns | r1csipa/src/ipa.rs:87-271 | the prover sends a proof exactly under that condition |
| IpaRuns.ReduceTranscript | r1csipa/src/ipa.rs:185-222 | the transcript grows by L, R and a draw for each round, and challenge j is drawn after the points of rounds 0 .. j |
| IpaRuns.RunsBind | r1csipa/src/ipa.rs:185-222 | runs that start and end with the same transcript sent the same L and R |
| IpaSpec.SpreadFolds | r1csipa/src/ipa.rs:311-321 | the verifier's scalars applied to the original generators give the prover's fully folded generators |
| IpaSpec.SpreadReverse | r1csipa/src/ipa.rs:365-371 | the scalars in reverse order are those of the inverse challenges |
| IpaScalars.SpreadInverse | r1csipa/src/ipa.rs:365-371 | s[i] times s[n-1-i] is one |
| Tensor.SpreadBits | r1csipa/src/ipa.rs:311-321 | closed form: s[i] is the product over the bits of i of u_j where the bit is set and its inverse elsewhere |
| IpaVerifier.GrowAt | r1csipa/src/ipa.rs:312-319 | the recurrence: entry i is entry i - 2^j times the square of the challenge for its top bit j |
| IpaComplete.GrowIsSpread | r1csipa/src/ipa.rs:311-321 | for all challenges, zeros included, the recurrence yields exactly those closed-form scalars, a zero counting as having the inverse one |
| IpaVerifier.BatchInvert | r1csipa/src/utils.rs:41-65 | every non-zero entry is inverted in place, zeros stay, and the returned value is the inverse of the product of the non-zero entries |
| IpaComplete.ProductOfInverses | r1csipa/src/utils.rs:45-63 | that returned value is the product of the inverses of the non-zero entries |
| IpaVerifier.ReadChallenges | r1csipa/src/ipa.rs:287-295 | challenges are recomputed in order, and an identity L or R stops with an error |
| IpaVerifier.VerificationScalars | r1csipa/src/ipa.rs:274-322 | squares of the challenges, of their inverses, and the s vector, with the two error outcomes |
| IpaVerifier.GrowScalars | r1csipa/src/ipa.rs:310-319 | the loop over the top-bit index fills the whole s vector |
| IpaVerifier.VerifyProof | r1csipa/src/ipa.rs:324-411 | the verifier over one transcript returns the specified verdict for any proof; `IpaAnyProof.VerifyExact` says what that is |
| IpaProver.CreateZk | r1csipa/src/ipa.rs:87-271 | the deferred, periodically collapsed prover sends what the argument over materialised generators sends; it fails exactly when a challenge is zero |
| IpaProver.ProveLast | r1csipa/src/ipa.rs:224-256 | A, B, r, s and delta of the last step, from generators that are still symbolic |
| IpaProver.FoldInPlace | r1csipa/src/ipa.rs:198-200 | the in-place loop leaves the folded vector in the first half |
| IpaComplete.HonestVerdict | r1csipa/src/ipa.rs:324-411 | for an honest run and any statement P, the verifier accepts exactly when no point is the identity and P is the folded statement or e = 0 |
| IpaScalars.SingleEquationIsRecursive | r1csipa/src/ipa.rs:274-411 | for every proof with as many R as L and at most 2^rounds generators, zero challenges included, the single equation holds exactly when the verifier that folds round by round accepts |
| IpaAnyProof.ReadRoundsMeans | r1csipa/src/ipa.rs:287-295 | the challenges read back are those drawn after each round's points, unless some point is the identity |
| IpaAnyProof.VerifyExact | r1csipa/src/ipa.rs:274-411 | the verdict on every proof: rejected for an identity point, a panic for fewer R than L, for more R than L and for more generators than 2^rounds, and otherwise accepted exactly when the round-by-round last check holds, with the transcript written out message by message |
| IpaHiding.AnyWitnessExplains | r1csipa/src/ipa.rs:87-271 | every accepted proof with non-zero challenges is one that any opening of the statement sends for some blinds and coins |
| IpaHiding.BlindsFor | r1csipa/src/ipa.rs:155-192 | whatever the vectors, some blinds make the rounds send any given L and R |
| IpaBases.IPABases.Defer | r1csipa/src/ipa_bases.rs:34-45 | base i becomes the list of its own terms scaled by x and the right base's terms scaled by y |
| IpaBases.IPABases.DeferInit | r1csipa/src/ipa_bases.rs:22-29 | one more symbolic base at the end |
| IpaBases.IPABases.SplitAt | r1csipa/src/ipa_bases.rs:53-69 | the two halves, in order, as separate objects |
| IpaBases.IPABases.Get | r1csipa/src/ipa_bases.rs:76-95 | the flattened terms, each scaled by the value for its base |
| IpaBases.IPABases.Collapse | r1csipa/src/ipa_bases.rs:100-123 | every base becomes one term and still stands for the same group element |
| IpaBases.GetDenotes | r1csipa/src/ipa_bases.rs:76-95 | the flattened product is the inner product of the values with what the bases stand for |
| IpaBases.DeferDenotes | r1csipa/src/ipa_bases.rs:31-45 | a deferred base stands for x times the left plus y times the right one |
| IpaBases.FlatSize | r1csipa/src/ipa_bases.rs:76-95 | with t terms in each of n bases the product has n t terms |
| IpaProver.DeferAll | r1csipa/src/ipa_no_zk.rs:579-585 | after the loop the left bases stand for the folded generators and hold twice the terms |
| IpaProver.DeferredRounds | r1csipa/src/ipa_no_zk.rs:533-604 | for every collapse threshold: same L, R, a, b as the loop on materialised generators, each symbolic base denotes the folded generator, and at every loop head a base holds one term or fewer than the threshold |
| IpaNoZk.CreateOrig | r1csipa/src/ipa_no_zk.rs:43-239 | the plain prover, with its special first round and in-place generator folding, sends what the specification sends |
| IpaNoZk.CreateDeferred | r1csipa/src/ipa_no_zk.rs:471-616 | the deferred prover sends the same proof as the plain one, for the adaptive and any forced threshold |
| IpaNoZk.FactoredCross | r1csipa/src/ipa_no_zk.rs:96-130 | moving the factors into the scalars does not change a cross term |
| IpaNoZk.VerifyPlainProof | r1csipa/src/ipa_no_zk.rs:619-682 | the verdict of the plain verifier for any proof |
| IpaAnyProof.VerifyPlainExact | r1csipa/src/ipa_no_zk.rs:619-682 | the plain verifier's verdict on every proof, wrong lengths, identity points and zero challenges included: acceptance is the round-by-round equation for P |
| IpaAnyProof.PlainRuns | r1csipa/src/ipa_no_zk.rs:471-616 | a plain prover sends a proof exactly when no round draws a zero challenge |
| IpaNoZk.HonestPlainVerdict | r1csipa/src/ipa_no_zk.rs:619-682 | an honest run by either prover is accepted exactly when no L or R is the identity and P is the folded statement |
| Bullet.ProveBullet | Spartan-t256/src/nizk/bullet.rs:37-147 | behind its assertions (a power of two, equal lengths, 2 lg n pairs of blinds) the prover with deferred generators returns the L, R, folded entries, folded generator, blinding and commitment of the halving loop over the first lg n pairs |
| Bullet.AssertionsPass | Spartan-t256/src/nizk/bullet.rs:60-70 | with vectors of 2^k entries and 2k pairs of blinds no assertion fires, and only the first k pairs are used |
| Bullet.BulletVerdict | Spartan-t256/src/nizk/bullet.rs:207-242 | for an honest run the verifier's three values are the prover's folded generator, folded commitment and folded public entry |
| Bullet.VerifyBullet | Spartan-t256/src/nizk/bullet.rs:153-242 | the verifier for any proof, with its two size errors, its failing inversion, the error for a point that does not decompress, and the failing length checks, in that order |
| BulletAnyProof.HatsExact | Spartan-t256/src/nizk/bullet.rs:153-242 | for every proof: the generators, the commitment and the public vector folded round by round, or the first error in the source's order |
| BulletAnyProof.BulletRuns | Spartan-t256/src/nizk/bullet.rs:60-147 | the prover returns exactly when n is a power of two, the vectors have that length, there are 2 lg n blinds and no challenge is zero |
| Bullet.SpreadFoldsPlain | Spartan-t256/src/nizk/bullet.rs:231-232 | the verifier's scalars applied to the public vector give its folded entry |
| Bullet.BatchInvertAll | Spartan-t256/src/scalar/mod.rs:27-72 | fails exactly when some entry is zero; otherwise every entry is inverted in place and the product of all inverses returned |
| Booth.ReadWindowIsWindow | halo2curves/src/msm.rs:15-45 | the four loaded bytes, shifted and masked, are bits wc-1 .. wc+c-1 of the scalar, for 1 <= c <= 24 and any byte string |
| Booth.DigitRange | halo2curves/src/msm.rs:46-57 | every digit lies between -2^(c-1) and 2^(c-1) |
| Booth.RecodedPrefix | halo2curves/src/msm.rs:15-57 | after n windows: scalar = sum of digits times 2^(cw) plus 2^(cn) times the rounded rest |
| Booth.BoothExact | halo2curves/src/msm.rs:15-57 | for 1 <= c <= 24 and enough windows the recoded digits sum to the scalar exactly |
| Booth.ExactWidths | halo2curves/src/msm.rs:15-57 | for 1 <= c <= 30: recoding is exact for every scalar of at most 32 bytes and every covering number of windows if and only if c <= 24 |
| Booth.WideRecoded | halo2curves/src/msm.rs:15-34 | for each width from 25 to 30 a power of two whose recoding is its double, for every covering number of windows |
| Booth.HornerIsRecoded | halo2curves/src/msm.rs:384-387 | taking the windows from the top down, c doublings between two, gives the same sum |
| MsmSerial.FillBuckets | halo2curves/src/msm.rs:420-430 | the buckets, weighted 1 .. 2^(c-1), sum to the window's digits times the bases, for every width up to 30 |
| MsmSerial.SumByParts | halo2curves/src/msm.rs:432-440 | the running sums add every bucket as often as its weight |
| MsmSerial.Windows | halo2curves/src/msm.rs:384-441 | all windows, for every width up to 30: acc becomes 2^(c n) acc + the sum of recoded scalar times base; when c <= 24 and the windows cover the scalars, these are the scalars |
| MsmSerial.MaxBytes | halo2curves/src/msm.rs:365-378 | the OR mask finds the number of bytes in use among all scalars |
| MsmSerial.WindowsCover | halo2curves/src/msm.rs:382-382 | the window count chosen covers all bits in use |
| MsmSerial.MsmSerialWithC | halo2curves/src/msm.rs:356-442 | for every width up to 30: acc is unchanged when all scalars are zero, and otherwise 2^(c n) acc + the sum of recoded scalar times base; for c <= 24 that is 2^(c n) acc + sum k_i P_i |
| MsmSerial.MsmSerial | halo2curves/src/msm.rs:349-351 | from the identity: the naive sum, with the window size the heuristic picks |
| MsmSerial.MsmParallel | halo2curves/src/msm.rs:449-475 | the sum over chunks is the naive sum, for every number of threads |
| Curve.SameXCases | halo2curves/src/msm.rs:75-100 | two finite points of equal x are equal or opposite, told apart by y |
| AffineBatch.SlopeCancels | halo2curves/src/msm.rs:70-113 | the cancel case is taken exactly when bucket and signed base are opposite points |
| AffineBatch.SumPointIs | halo2curves/src/msm.rs:119-144 | with the right slope the new coordinates are those of bucket plus or minus base, chord and tangent alike |
| AffineBatch.BatchAdd | halo2curves/src/msm.rs:60-145 | for distinct occupied buckets: each scheduled bucket becomes bucket plus or minus base (add, double or cancel), the others are unchanged, and the one inversion is of a non-zero product |
| AffineBatch.ProductNonZero | halo2curves/src/msm.rs:114-118 | the product of the denominators, cancelled entries left out, is never zero |
| MsmScheduled.Schedule.Contains | halo2curves/src/msm.rs:309-311 | a linear scan of all batch entries, stale ones included |
| MsmScheduled.Schedule.Execute | halo2curves/src/msm.rs:313-321 | the pending batch is added to the buckets, the schedule emptied, and the weighted total kept |
| MsmScheduled.Schedule.Add | halo2curves/src/msm.rs:323-332 | an empty bucket is assigned, an occupied one queued, a full batch flushed; the buckets in the batch stay distinct and the weighted total grows by the new term |
| MsmScheduled.BucketZeroLooksScheduled | halo2curves/src/msm.rs:295-311 | in every valid schedule some entry names bucket 0, so the scan for it succeeds |
| MsmScheduled.Place | halo2curves/src/msm.rs:599-612 | one scalar's digit goes to the schedule or to a Jacobian bucket, and the weighted total of both grows by digit times base; digits 1 and -1 leave the schedule untouched, and bucket 0 of the schedule stays empty |
| MsmScheduled.ScheduledWindow | halo2curves/src/msm.rs:589-627 | one window's sum is the sum of its digits times the bases, for every width up to 30 |
| MsmScheduled.MsmScheduledInner | halo2curves/src/msm.rs:579-634 | for every width up to 30 the windows, shifted by doublings, add up to the sum of recoded scalar times base |
| MsmScheduled.DropIdentityKeeps | halo2curves/src/msm.rs:566-574 | filtering identity bases with their scalars does not change that sum |
| MsmScheduled.MsmScheduledWithC | halo2curves/src/msm.rs:554-577 | identities included, the scheduled product is the sum of recoded scalar times base for 1 <= c <= 30, and the naive sum for c <= 24 |
| MsmScheduled.ProductWidths | halo2curves/src/msm.rs:550-577 | on every curve of odd order and for scalars of at least 225 bits: the product is the naive sum for all inputs if and only if c <= 24 |
| MsmScheduled.WideProduct | halo2curves/src/msm.rs:550-577 | for each width from 25 to 30 and every finite point P: with the one scalar v = 2^(wc-1) the product is 2 v P, which differs from v P |
| MsmScheduled.MsmBest | halo2curves/src/msm.rs:528-548 | whichever path the length selects, the result is the naive sum |
| UniPoly.FromEvalsRecovers | Spartan-t256/src/unipoly.rs:24-56 | the cubic built from four values takes those values at 0, 1, 2 and 3 |
| UniPoly.Evaluate | Spartan-t256/src/unipoly.rs:74-82 | the loop with running powers evaluates the polynomial |
| UniPoly.DecompressLoop | Spartan-t256/src/unipoly.rs:100-112 | the loop recovers the linear coefficient left out |
| UniPoly.DecompressCompress | Spartan-t256/src/unipoly.rs:84-112 | decompression with hint f(0) + f(1) undoes compression |
| UniPoly.DecompressMeetsHint | Spartan-t256/src/sumcheck.rs:43-52 | a decompressed polynomial satisfies f(0) + f(1) = hint whatever was sent, so that check of the verifier cannot fail |
| SumcheckSpec.AcceptedByShape | Spartan-t256/src/sumcheck.rs:29-63 | for any claim and any proof, the verifier's run ends with a value exactly when there is one polynomial for each round and each has the expected length |
| SumcheckTrace.RunTrace | Spartan-t256/src/sumcheck.rs:29-63 | an accepted run round by round: f(0) + f(1) is the claim, the challenge is drawn after all coefficients of this and all earlier polynomials, and f there is the next claim |
| SumcheckTrace.SumcheckBinds | Spartan-t256/src/sumcheck.rs:43-56 | accepted runs that start and end with the same transcript were given the same polynomials |
| SumcheckTrace.ProverBinds | Spartan-t256/src/sumcheck.rs:230-245 | the same for the prover: equal transcripts come from equal polynomials |
| SumcheckSound.SumcheckSoundness | Spartan-t256/src/sumcheck.rs:29-63 | soundness against any prover: if an accepted run ends with the bound tables' true value, the claim was the true sum or some challenge is a point where the polynomial sent and the true one, being different, meet |
| SumcheckSound.FewCoincide | Spartan-t256/src/sumcheck.rs:29-63 | different polynomials of n coefficients meet at fewer than n challenges |
| SumcheckSound.FewLuckyChallenges | Spartan-t256/src/sumcheck.rs:29-63 | so for given earlier challenges and a wrong cubic at most three challenges are meeting points |
| SumcheckRun.RoundError | Spartan-t256/src/sumcheck.rs:185-254 | one round turns an error d in the claim into d times a cubic in the challenge |
| SumcheckRun.RunVerdict | Spartan-t256/src/sumcheck.rs:29-63 | for any claim the verifier follows the prover's run through every check, and the final error is the initial one times a product of cubics in the challenges |
| SumcheckRun.ClaimCaught | Spartan-t256/src/sumcheck.rs:29-63 | a wrong claim survives to the final value exactly when some challenge is 0, 2 or 3 |
| SumcheckRun.BoundTables | Spartan-t256/src/sumcheck.rs:236-254 | each table bound to all challenges is its multilinear extension at the drawn point |
| SumcheckRun.CubicVerdict | Spartan-t256/src/sumcheck.rs:185-254 | completeness: from the true sum all checks pass, challenges agree, and the last claim is A(r) B(r) C(r) |
| SumcheckSpec.BatchIsBound | Spartan-t256/src/sumcheck.rs:382-399 | the weighted sum over the bound tables is the round polynomial's value at the challenge |
| Sumcheck.RoundEvals | Spartan-t256/src/sumcheck.rs:201-230 | the incremental values at 0, 2 and 3 are those of the round polynomial |
| Sumcheck.BatchEvals | Spartan-t256/src/sumcheck.rs:290-372 | the coefficient-weighted values over all instances |
| Sumcheck.ProveCubic | Spartan-t256/src/sumcheck.rs:185-254 | the prover that binds three polynomial objects in place sends the specified run |
| Sumcheck.ProveCubicBatched | Spartan-t256/src/sumcheck.rs:256-428 | the batched prover over polynomial objects, the shared one bound once a round, sends the specified run and leaves the bound tables |
| PolyPool.BindTops | Spartan-t256/src/sumcheck.rs:382-397 | binding a list of polynomials with buffers of their own, one after the other, binds each table |
| Sumcheck.VerifyRun | Spartan-t256/src/sumcheck.rs:29-63 | the verifier's loop, with its degree and sum checks, for any proof |
| Multilinear.Evals | Spartan-t256/src/dense_mlpoly.rs:70-86 | the in-place doubling loop builds the equality table |
| Multilinear.EqTableAt | Spartan-t256/src/dense_mlpoly.rs:70-86 | entry i is the product of r_j or 1 - r_j by the bits of i, most significant first |
| Multilinear.EqTablesDot | Spartan-t256/src/dense_mlpoly.rs:63-68 | the product formula for eq(r, x) is the inner product of the two equality tables |
| Multilinear.MleIsDot | Spartan-t256/src/dense_mlpoly.rs:218-243 | binding the top variable repeatedly is the inner product with the equality table |
| Multilinear.BindsCommute | Spartan-t256/src/dense_mlpoly.rs:218-235 | binding top and bottom variables commutes |
| Multilinear.MleBindBot | Spartan-t256/src/dense_mlpoly.rs:227-235 | binding the bottom variable fixes the last coordinate of the point |
| Multilinear.FactoredEvaluation | Spartan-t256/src/dense_mlpoly.rs:88-100 | with the tables of the first and of the last variables, <bound(L), R> is the evaluation, for every table and point |
| Multilinear.DensePolynomial.BoundPolyVarTop | Spartan-t256/src/dense_mlpoly.rs:218-226 | in place: half the entries, each on the line between the two halves at r |
| Multilinear.DensePolynomial.BoundPolyVarBot | Spartan-t256/src/dense_mlpoly.rs:227-235 | in place: half the entries, each on the line between neighbours at r |
| Multilinear.DensePolynomial.Evaluate | Spartan-t256/src/dense_mlpoly.rs:237-243 | the dot product with the equality table is the multilinear extension |
| ProductTree.RootIsProduct | Spartan-t256/src/product_tree.rs:36-64 | the root of the circuit over any table of 2^k entries is the product of all of them |
| ProductTree.LayersChained | Spartan-t256/src/product_tree.rs:36-57 | every layer's table is the entrywise product of the halves of the layer before, and the first is the input |
| ProductTree.MleTop | Spartan-t256/src/product_tree.rs:202-208 | the extension of a table is linear in its top variable, so the two half claims condense to one |
| ProductTree.LayerVerdict | Spartan-t256/src/product_tree.rs:181-200 | one layer's sum-check from a right claim passes and its last value is left times right times eq |
| ProductTree.LayersVerdict | Spartan-t256/src/product_tree.rs:169-255 | over all layers every assertion of the verifier passes and both sides end with the same claim and point |
| ProductTree.TreeVerdict | Spartan-t256/src/product_tree.rs:169-255 | for every table of 2^k entries, k >= 1, the verifier accepts the product and returns the table's extension at the returned point |
| ProductExact.TreeExact | Spartan-t256/src/product_tree.rs:169-255 | for any claimed product, right or wrong: the prover's run from it is accepted exactly when the claim is the product |
| ProductExact.LayerExact | Spartan-t256/src/product_tree.rs:177-251 | one layer from any claim: the verifier goes on, and then with a right claim, exactly when the claim was right or a sum-check challenge is 0, 2 or 3 |
| ProductTrace.AnyLayer | Spartan-t256/src/product_tree.rs:230-251 | one layer of the verifier on any proof: the lengths it needs, the equation it checks, and the challenge drawn after the sum-check and both claims |
| ProductTrace.TreeShape | Spartan-t256/src/product_tree.rs:219-255 | an accepted proof has one part for each layer, the i-th with i cubics and two claims, and the returned point starts with the challenge drawn after everything |
| ProductTrace.TreeBinds | Spartan-t256/src/product_tree.rs:230-251 | accepted runs over as many layers that end with the same transcript were given the same polynomials and claims |
| ProductSound.TreeSound | Spartan-t256/src/product_tree.rs:219-255 | soundness against any prover: if the returned claim is the extension of the input table at the returned point, the claimed product is the product of the entries, or some challenge was a meeting point of different cubics or lines |
| ProductCircuits.ComputeLayer | Spartan-t256/src/product_tree.rs:18-34 | the two halves of the next layer |
| ProductCircuits.BuildLayers | Spartan-t256/src/product_tree.rs:36-57 | the constructor's loop builds all layers as polynomial objects with buffers of their own |
| ProductCircuits.Prove | Spartan-t256/src/product_tree.rs:169-217 | the prover consumes the circuit's polynomials in place, root to input, and sends the specified proof |
| ProductCircuits.VerifyProof | Spartan-t256/src/product_tree.rs:219-255 | the verifier's loop for any proof |
| ProductBatch.LevelAccepted | Spartan-t256/src/product_tree.rs:388-455 | one level of the batched verifier accepts the prover's level from right claims, dot products included, and draws the same challenges |
| ProductBatch.LevelsAccepted | Spartan-t256/src/product_tree.rs:259-491 | over all levels, dot products joining at the input level: accepted, with right claims about every input table and dot-product table |
| ProductBatch.BatchVerdict | Spartan-t256/src/product_tree.rs:259-491 | for all circuits of one size and any dot products, the verifier accepts the true products and returns each input table's extension at the returned point |
| ProductExact.LevelExact | Spartan-t256/src/product_tree.rs:325-458 | one batched level from any claims: accepted exactly when their weighted error vanishes or a sum-check challenge is 0, 2 or 3 |
| ProductExact.LevelErrorIs | Spartan-t256/src/product_tree.rs:325-330 | that error is the circuits' own errors, each times the coefficient drawn for it |
| ProductExact.BatchExact | Spartan-t256/src/product_tree.rs:259-491 | for any claimed products the prover's run is accepted exactly when their errors, weighted by the first coefficients, cancel; the returned claims are then right |
| ProductBatchTrace.AnyLevel | Spartan-t256/src/product_tree.rs:403-458 | one batched level of the verifier on any proof: the lengths, the expected value over circuits and dot products, and every challenge with what is absorbed before it |
| ProductBatchTrace.BatchShape | Spartan-t256/src/product_tree.rs:388-491 | an accepted batch has one part for each level, level i with i cubics and two claims for each circuit |
| ProductBatchTrace.BatchBinds | Spartan-t256/src/product_tree.rs:403-458 | accepted batches over as many claims and levels that end with the same transcript were given the same layer proofs and dot-product claims |
| ProductBatchSound.LevelSound | Spartan-t256/src/product_tree.rs:403-466 | one level against any prover: if the claims it leaves and publishes are true, those it started from were, unless the coefficients, a round challenge or the joining challenge was lucky |
| ProductBatchSound.BatchSound | Spartan-t256/src/product_tree.rs:388-491 | soundness of the whole batch: true returned claims come from right products and dot products, or some challenge was lucky |
| ProductBatchSound.PairsSound | Spartan-t256/src/product_tree.rs:467-484 | true returned claims about whole dot products come from true published claims about their halves, unless two lines meet |
| ProductBatchSound.OneLuckyCoefficient | Spartan-t256/src/product_tree.rs:407-414 | where a claim is wrong, at most one value of its coefficient hides it, the others being given |
| ProductBatch.PairsAreWhole | Spartan-t256/src/product_tree.rs:464-483 | the three claims returned for each pair of split dot products are the extensions of the unsplit tables |
| ProductBatchRun.ProveBatched | Spartan-t256/src/product_tree.rs:259-384 | the prover consumes all circuits' and dot products' polynomials in place, root to input, with one equality table a layer, and sends the specified batched proof |
| ProductBatchRun.ProveLevelAt | Spartan-t256/src/product_tree.rs:274-377 | one layer's polynomials are bound and its proof sent; every layer not yet proved keeps its tables |
| ProductBatchRun.VerifyBatched | Spartan-t256/src/product_tree.rs:388-491 | the verifier's loop for any batched proof |
| ProductBatchRun.ChallengeVector | Spartan-t256/src/transcript.rs:34-38 | the challenges are drawn one by one, each absorbed before the next |
| MemoryCheck.AddrTimestamps | Spartan-t256/src/sparse_mlpoly.rs:224-257 | for a whole batch: each read timestamp is the number of earlier accesses to its address, and the audit timestamps are the access counts |
| MemoryCheck.CheckIsExact | Spartan-t256/src/sparse_mlpoly.rs:532-605 | init and writes equal reads and audit as multisets if and only if every value read is its memory cell's |
| MemoryCheck.SameElementsSameProduct | Spartan-t256/src/sparse_mlpoly.rs:637-649 | equal multisets of accesses hash to equal products |
| MemoryCheck.HonestProductsAgree | Spartan-t256/src/sparse_mlpoly.rs:1056-1061 | for honest values the hashed products of the two sides agree for every pair of hash challenges |
| MemoryCheck.BuildHashLayer | Spartan-t256/src/sparse_mlpoly.rs:532-605 | the hash of every read and write, entry by entry |
| MemoryCheck.TablesFlatten | Spartan-t256/src/sparse_mlpoly.rs:628-646 | hashing the instances one by one is hashing the whole batch |
| MemoryCheck.ProverCheckPasses | Spartan-t256/src/sparse_mlpoly.rs:1056-1061 | with the batch's timestamps and honest values the prover's assertion never fires |
| MemorySound.CheckCompares | Spartan-t256/src/sparse_mlpoly.rs:1056-1061 | the check on the circuits' roots compares the hashed products of everything written and everything read |
| MemorySound.AgreeingProducts | Spartan-t256/src/sparse_mlpoly.rs:532-605 | lists of n values whose products of differences to t agree for n values of t are permutations of each other |
| MemorySound.FewCollisions | Spartan-t256/src/sparse_mlpoly.rs:547-551 | two different accesses hash alike for at most two values of the hash challenge |
| MemorySound.FewBadKeys | Spartan-t256/src/sparse_mlpoly.rs:547-551 | hash challenges that make some access written collide with one read are at most twice as many as the pairs |
| MemorySound.CheckSound | Spartan-t256/src/sparse_mlpoly.rs:1056-1061 | soundness: if the check passes for as many multiset challenges as there are cells and accesses, and the hash challenge keeps the accesses apart, every value read is its cell's |
| SparseEval.FormIsMle | Spartan-t256/src/sparse_mlpoly.rs:426-438 | the sum over the entries with the two equality tables is the extension of the dense matrix, duplicates added |
| SparseEval.EvaluateWithTables | Spartan-t256/src/sparse_mlpoly.rs:426-438 | the loop over the entries computes that sum |
| SparseEval.SparseTableEvaluates | Spartan-t256/src/sparse_mlpoly.rs:469-484 | the column table for fixed rx, paired with eq(ry), gives the same evaluation |
| SparseEval.SparseToDenseVecs | Spartan-t256/src/sparse_mlpoly.rs:355-367 | row, column and value vectors, padded with zeros to N |
| SparseEval.EqualizedTables | Spartan-t256/src/sparse_mlpoly.rs:1438-1454 | zeros prepended to the shorter point leave the equality table's entries at the addresses used |
| SparseEval.SparseEvaluation | Spartan-t256/src/sparse_mlpoly.rs:1097-1118 | the padded dot product of row values, column values and entries over the equalised points is the matrix evaluation |
| SparseEval.HalvesAddUp | Spartan-t256/src/sparse_mlpoly.rs:1097-1118 | the left and right halves of that dot product add up to it, so the prover's assertion never fires |
| Fft.BitReverse | halo2curves/src/fft.rs:32-39 | the shifting loop reverses the low l bits |
| FftSpec.RevTwice | halo2curves/src/fft.rs:46-51 | reversal is its own inverse, which is why swapping when k < rk reorders everything once |
| Fft.Reorder | halo2curves/src/fft.rs:46-51 | the in-place swaps leave the bit-reversed order |
| Fft.Stage | halo2curves/src/fft.rs:66-87 | one block's butterflies, the unit twiddle apart, change that block alone |
| Fft.RecursiveButterfly | halo2curves/src/fft.rs:97-134 | the recursive branch computes all butterfly stages in place on its slice and nothing outside it |
| Fft.IterativeButterfly | halo2curves/src/fft.rs:62-91 | the iterative branch computes the same stages |
| Fft.BestFft | halo2curves/src/fft.rs:31-94 | both branches give the transform, for every number of threads |
| FftSpec.TransformEvaluates | halo2curves/src/fft.rs:20-94 | when omega^(n/2) = -1, entry j is the polynomial with coefficients a evaluated at omega^j |
| FftSpec.InverseRestores | halo2curves/src/fft.rs:20-94 | a transform by omega, then by its inverse, scaled by 1/n, restores every input |
| Gadgets.AllocNumEquals | nr-blind-sig/src/utils.rs:78-119 | the result is a bit, 1 exactly when the two values are equal; the prover's values satisfy the constraints |
| Gadgets.AllocZero | nr-blind-sig/src/utils.rs:49-60 | the variable is forced to zero |
| Gadgets.AllocOne | nr-blind-sig/src/utils.rs:63-75 | the variable is forced to one |
| Gadgets.ConditionallySelect | nr-blind-sig/src/utils.rs:135-159 | a when the condition is 1, b when it is 0; the prover's value satisfies the constraint for a bit |
| Gadgets.SelectZeroOrNum | nr-blind-sig/src/utils.rs:206-228 | 0 or the value, forced both ways |
| Gadgets.SelectNumOrZero | nr-blind-sig/src/utils.rs:231-252 | the value or 0, forced both ways |
| Gadgets.SelectOneOrNum | nr-blind-sig/src/utils.rs:279-299 | 1 or the value, forced both ways |
| Gadgets.SelectOneOrDiff | nr-blind-sig/src/utils.rs:302-323 | 1 or the difference, forced both ways |
| Gadgets.SelectNumOrOne | nr-blind-sig/src/utils.rs:326-347 | the value or 1, forced both ways |
| EccCircuit.AddIncomplete | nr-blind-sig/src/ecc.rs:733-789 | satisfied constraints on two points of different x force their sum; the prover's slope satisfies them whenever the x differ; from (0, 0) to another point of y^2 = x^3 the chord leads back to (0, 0) |
| EccCircuit.DoubleIncomplete | nr-blind-sig/src/ecc.rs:793-870 | satisfied constraints on a finite point force its double, and the prover's values satisfy them; with a = -3 the values (0, 0) cannot; with a = 0 the prover's do, and leave (0, 0) for another point of y^2 = x^3 |
| EccCircuit.Negate | nr-blind-sig/src/ecc.rs:104-119 | the negative point, infinity included |
| EccCircuit.EnforceChord | nr-blind-sig/src/ecc.rs:188-255 | the flag is 1 exactly when a point is infinite or the x are equal, x_diff is then 1, and the slope constraint is always satisfiable |
| EccCircuit.AddInternal | nr-blind-sig/src/ecc.rs:173-330 | the sum when the x differ or a point is infinite, and the prover's values satisfy the constraints in every case |
| EccCircuit.Double | nr-blind-sig/src/ecc.rs:333-451 | the double of any point is forced and satisfiable; a point flagged infinite doubles to (0, 0) with its flag, whatever its coordinates |
| EccCircuit.SelectPoint | nr-blind-sig/src/ecc.rs:593-611 | one of two points by a bit, coordinate by coordinate |
| EccCircuit.SelectPointOrInfinity | nr-blind-sig/src/ecc.rs:614-631 | the point or (0, 0) with its flag set, by a bit |
| EccCircuit.AddPoints | nr-blind-sig/src/ecc.rs:122-166 | the sum of any two points, equal, opposite, infinite or different, is forced, except that infinity with a point of x = 0 forces infinity; flagged infinities force an infinity; the prover's values satisfy the constraints |
| EccScalarMul.IncompleteSafe | nr-blind-sig/src/ecc.rs:519-533 | for 1 <= m < t and m + t below the prime order, m P and t P are finite and have different x, so incomplete addition never meets its exceptional case |
| EccScalarMul.AssumedRange | nr-blind-sig/src/ecc.rs:514-533 | after i rounds the accumulator is m P with 1 <= m < 2^i |
| EccScalarMul.IncompleteLoop | nr-blind-sig/src/ecc.rs:508-533 | the invariant of the double-and-add loop over the low bits, for every satisfying assignment; at infinity no assignment for a = -3, and for a = 0 the honest accumulator stays (0, 0) while p does not |
| EccScalarMul.RemoveSlack | nr-blind-sig/src/ecc.rs:535-573 | subtracting P when bit 0 is 0 leaves the low bits' value times P, for every curve; for P flagged infinite the result is the default point |
| EccScalarMul.CompleteRound | nr-blind-sig/src/ecc.rs:577-588 | one complete double-and-add round, for finite points with the exact result of the addition, and for infinities with what becomes of stray coordinates |
| EccScalarMul.ScalarMul | nr-blind-sig/src/ecc.rs:499-591 | for a finite point of odd prime order above 2^(NUM_BITS - 2), every satisfying assignment outputs the computed point, and the prover's values satisfy all constraints; infinity gives a flagged output, no assignment at all for a = -3, and for a = 0 honest values whose output is the default point exactly when the bits do not drift |
| EccClash.NoClashRight | nr-blind-sig/src/ecc.rs:575-588 | for any number of bits: without a clash among the complete rounds the computed point is the product |
| EccClash.RightWithoutClash | nr-blind-sig/src/ecc.rs:499-591 | for scalars of at most NUM_BITS bits and prime order above 3: the computed point is the bits' value times P if and only if no complete round with bit 1 adds infinity and a point of x = 0 |
| EccClash.ZeroXHasOrderThree | nr-blind-sig/src/ecc.rs:376-395 | with a = 0 the slope at a point of x = 0 is 0, so the point has order 3 |
| EccClash.RightWhenAIsZero | nr-blind-sig/src/ecc.rs:499-591 | with a = 0 and prime order above 3 the computed point is the product for every finite point and every scalar |
| EccClash.ClashInput | nr-blind-sig/src/ecc.rs:128-165 | on every curve with a finite point l of x = 0 there is a point whose product by 2^split is l, while the circuit computes infinity |
| EccClash.P256HasZeroX | halo2curves/src/secp256r1/curve.rs:55-60 | P-256's b is a square, so a group that holds all solutions of its equation has a finite point of x = 0 |
| EccClash.P256Fails | nr-blind-sig/src/types.rs:28-34 | on P-256 the product of some point by 2^split is that point of x = 0, and the circuit computes infinity |
| CircuitShape.ShapeCS.Alloc | Spartan-t256/src/bellpepper/shape_cs.rs:231-241 | witness variables are numbered in order of allocation |
| CircuitShape.ShapeCS.AllocInput | Spartan-t256/src/bellpepper/shape_cs.rs:243-253 | inputs are numbered after the constant one |
| CircuitShape.ShapeCS.Enforce | Spartan-t256/src/bellpepper/shape_cs.rs:255-272 | the constraint is appended, nothing else changes |
| CircuitShape.SatisfyingAssignment.Alloc | Spartan-t256/src/bellpepper/solver.rs:44-53 | the value is appended and the variable is its position |
| CircuitShape.SatisfyingAssignment.AllocInput | Spartan-t256/src/bellpepper/solver.rs:55-64 | the value is appended after the constant one and the variable is its position |
| CircuitShape.BuildShape | Spartan-t256/src/bellpepper/shape_cs.rs:231-272 | a circuit that chooses each call from the variables it was handed, run on the shape builder: the constraints and counts of its calls |
| CircuitShape.BuildWitness | Spartan-t256/src/bellpepper/solver.rs:161-205 | the same circuit run on the witness builder is handed the same variables, so it makes the same calls and its values agree with the shape in size and order |
| CircuitShape.R1csShapeUnpadded | Spartan-t256/src/bellpepper/r1cs.rs:97-137 | one matrix row per constraint, terms in order, witness columns before input columns |
| CircuitShape.EntriesRow | Spartan-t256/src/bellpepper/r1cs.rs:145-184 | row r of each matrix times the assignment is that side of constraint r |
| CircuitShape.RenumberRow | Spartan-t256/src/bellpepper/r1cs.rs:60-77 | moving input columns behind the zero padding does not change any row's value |
| CircuitInstance.PadIsPower | Spartan-t256/src/bellpepper/r1cs.rs:38-62 | the padded shape is square, of the least power of two that reaches both its variables and its constraints, and a shape that already is one is unchanged |
| CircuitInstance.PaddedSizes | Spartan-t256/src/lib.rs:133-164 | the constructor pads variables to the least power of two above the inputs and variables, and rows to the least one for their number, except that one row becomes two |
| CircuitInstance.FewestRows | Spartan-t256/src/lib.rs:147-160 | the padded row count is 1 exactly for a circuit without constraints, although the code's comment says it is at least 2 |
| CircuitInstance.CompiledMeans | Spartan-t256/src/bellpepper/r1cs.rs:38-91 | the padded shape is satisfied by the zero-padded witness exactly when every constraint of the circuit holds |
| CircuitInstance.NewInstance | Spartan-t256/src/lib.rs:128-242 | the conversion loops build the padded instance or report the first problem of A, else of B, else of C: an index out of range or a value that does not parse |
| CircuitInstance.BuiltWhen | Spartan-t256/src/lib.rs:176-228 | an instance is built exactly when every index is in range and every value parses |
| CircuitInstance.ProblemIsFirst | Spartan-t256/src/lib.rs:176-213 | an index error is reported exactly when the first offending entry is one that is out of range |
| CircuitInstance.NewInstanceMeans | Spartan-t256/src/lib.rs:128-242 | with indices in range the shape is rejected exactly for a value that does not parse, and otherwise the padding, dummy rows included, keeps the set of satisfying assignments |
| CircuitInstance.NewInstanceCompiles | Spartan-t256/src/lib.rs:128-242 | from any circuit: rejected exactly for a coefficient that does not parse, and otherwise the built instance is satisfied exactly when every constraint holds |
| CircuitInstance.IsSat | Spartan-t256/src/lib.rs:354-381 | the error for wrong lengths, and otherwise the answer on the zero-padded witness |
| CircuitInstance.CheckRows | Spartan-t256/src/r1csinstance.rs:243-272 | the three products compared row by row |
| CircuitInstance.CompileAndCheck | Spartan-t256/src/r1csinstance.rs:91-141 | from circuit to answer through the padded shape: a panic exactly when some power of two reaches the circuit's variables and constraints but not its inputs, and otherwise true exactly when the circuit holds |
| CircuitInstance.NewAndCheck | Spartan-t256/src/lib.rs:128-381 | from circuit to answer through the instance built from the shape: true exactly when the circuit holds, and no instance when a coefficient does not parse |

## Left out

- MsmSerial.MsmParallel: threads, scopes and parallel iterators run in sequence over their disjoint parts; the same holds for every use of rayon, including the parallel variant of the plain prover.
- MsmScheduled.MsmBest: the dispatch to the foreign Pasta library is not modelled.
- EccScalarMul.ScalarMul: the scalar arrives as its list of bits; the library's bit decomposition of the scalar is not part of this model.
- Gadgets.ConditionallySelect: one member stands for the variants that take a Boolean and those that take an allocated number.
- CircuitShape.BuildShape: the circuit is a function from the number of calls so far and the variables handed out to the next call; namespaces, annotations and synthesis errors are not modelled.
- CircuitInstance.NewInstance: which values survive the way through bytes is a parameter; those that do are unchanged.
- R1csProof.SatisfiedAccepted: the instance digest is absorbed as a list of numbers; its byte encoding and the hashing inside the transcript are not modelled.
- Bullet.VerifyBullet: which compressed points are valid is a parameter; a valid one goes by the name of its point.
- IpaVerifier.VerificationScalars: the shift that compares n with 2^rounds overflows for 64 rounds or more; the model's integers are unbounded.
- EccClash.P256HasZeroX: that the group of P-256 consists of all solutions of its equation is assumed.
- Multiplication by the field's own arithmetic, Montgomery form, constant-time selection and byte encodings: taken as given.
- The curve group law, pairings, extension fields and projective formulas: assumed through the chord-and-tangent law.
- Merlin, SHA-512, Poseidon, serde, bincode, zlib, timers and printing.
- The sum-check variants with commitments, and the equality, product and dot-product proofs around them: short linear identities over the parts proved here.
- The network and Merkle layers of the sparse-polynomial proof (`prove`, `verify` of the hash layer): repeated uses of the batched product proof and dense evaluations.
- `DensePolynomial::merge`, `extend` and `split`: concatenation and slicing of tables.
- Hash to curve, point compression, key generation, signatures and issuance proofs.
- IpaHiding.AnyWitnessExplains: zero knowledge is stated as equality of the sets of proofs; a simulator and its distribution are not modelled.
- SumcheckSound.SumcheckSoundness: soundness is stated by counting challenges, not as a probability over a random oracle.
- IpaAnyProof.VerifyExact: extraction of a witness from accepting proofs rests on the hardness of discrete logarithms, which the model of points as their logarithms cannot express.
- Running time and the tuning of thresholds.
