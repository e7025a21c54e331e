/** The R1CS proof hides its witness: all satisfying witnesses can send the same proofs, namely the accepted ones. */
module R1csHiding {
  import opened PowersOfTwo
  import opened PrimeField
  import opened Vectors
  import opened SparseMatrix
  import opened R1csToIpa
  import opened Transcript
  import opened IpaSpec
  import opened IpaVerify
  import opened IpaComplete
  import opened IpaRuns
  import opened IpaAnyProof
  import opened IpaHiding
  import opened R1csProof
  import opened R1csAnyProof

  /** Every point and scalar of the proof is canonical. */
  predicate CanonicalR1cs(pf: ProofR1cs, p: Modulus) {
    Canonical(pf.T, p) && Canonical(pf.S0, p) && CanonicalProof(pf.ipa, p)
  }

  /** The transcript before the inner-product argument, for a given proof. */
  function ArgumentLog(log: Log, r: R1CS, params: Params, pf: ProofR1cs, p: Modulus): Log
    requires |r.inputs| <= r.cols && |params.G| == r.rows + r.cols
  {
    DrawnLog(InstanceLog(log, r, pf.T, Mod(pf.S0 + CommitInputs(r, params, p), p)))
  }

  lemma AcceptedPoints(oracle: Oracle, log: Log, pf: Proof, Gf: seq<int>, Hf: seq<int>, P: int, gens: Gens,
                       G: seq<int>, H: seq<int>, p: Modulus)
    requires Prime(p) && |Gf| == |Hf| == |G| == |H|
    requires Verify(oracle, log, pf, Gf, Hf, P, gens, G, H, p) == Accept
    ensures |pf.Ls| == |pf.Rs| && NoIdentity(pf.Ls) && NoIdentity(pf.Rs) && pf.A != 0 && pf.B != 0
  {
    hide Verify, NoIdentity, LastDraw, Mod, RoundChallenges, RoundMessages, Pow2;
    VerifyExact(oracle, log, pf, Gf, Hf, P, gens, G, H, p);
    assert pf.Ls[..|pf.Ls|] == pf.Ls && pf.Rs[..|pf.Rs|] == pf.Rs;
  }

  /** Blindings that open the proof's commitments to the witness and to its values. */
  lemma OpenCommitments(r: R1CS, params: Params, wit: seq<int>, az: seq<int>, bz: seq<int>, T: int, S0: int,
                        p: Modulus) returns (eta: int, blind: int)
    requires Prime(p) && Mod(params.gens.V, p) != 0 && Canonical(T, p) && Canonical(S0, p) && |wit| <= |params.G|
    requires |az| == |bz| == r.rows && |params.G| == |params.H| == r.rows + r.cols
    ensures CommitWitness(params, wit, eta, p) == T && CommitValues(r, params, az, bz, blind, p) == S0
  {
    hide Mod, Dot, BlindFor;
    var n, V := r.cols, params.gens.V;
    var w, v := Dot(wit, params.G[..|wit|]), Dot(az, params.G[n..]) + Dot(bz, params.H[n..]);
    eta, blind := BlindFor(w, V, T, p), BlindFor(v, V, S0, p);
    BlindMoves(w, V, T, p);
    BlindMoves(v, V, S0, p);
    WitnessCommitment(wit, params.G, eta, V);
    ValuesCommitment(n, az, bz, blind, params.G, params.H, V);
  }

  /** For a satisfying witness the compiled statement is the one the prover holds. */
  lemma SatisfiedStatement(r: R1CS, params: Params, wit: seq<int>, s: Secrets, ch: Challenges, log: Log, p: Modulus)
    requires Prime(p) && WellFormed(r, wit) && Satisfied(r, wit, p)
    requires |params.G| == |params.H| == r.cols + r.rows && 0 < ch.delta < p && 0 < ch.gamma < p
    ensures var z := wit + r.inputs;
      var az, bz := MulVec(r.rows, r.A, z, p), MulVec(r.rows, r.B, z, p);
      var T := CommitWitness(params, wit, s.eta, p);
      var S := Mod(CommitValues(r, params, az, bz, s.r, p) + CommitInputs(r, params, p), p);
      Cong(Statement(r, params, T, S, ch, Inv(ch.delta, p), Inv(ch.gamma, p), p)
           - Committed(params.gens, ProverStart(r, params, wit, az, bz, s, ch, log, p)), 0, p)
  {
    hide Mod, Dot, Inv, MulVec, Satisfied, Statement, CommitWitness, CommitValues, CommitInputs, Committed,
         ProverStart, ErrorAt;
    StatementError(r, params, wit, s, ch, log, p);
    SatisfiedHasNoError(r, wit, ch.gamma, p);
    var err := ErrorAt(r, wit, ch.gamma, p);
    CongMul(err, 0, -params.gens.U, -params.gens.U, p);
    NegProduct(err, params.gens.U);
  }

  lemma NegProduct(x: int, y: int)
    ensures x * -y == -x * y
  {
  }

  /** What acceptance says about the inner-product argument. */
  lemma AcceptedArgument(oracle: Oracle, log: Log, r: R1CS, params: Params, pf: ProofR1cs, p: Modulus)
    requires Prime(p) && |r.inputs| <= r.cols && |params.G| == |params.H| == r.rows + r.cols
    requires InRange(r.A, r.rows, r.cols) && InRange(r.B, r.rows, r.cols) && InRange(r.C, r.rows, r.cols)
    requires VerifyR1cs(oracle, log, r, params, pf, p) == Accept
    ensures var S := Mod(pf.S0 + CommitInputs(r, params, p), p);
      var ch := DrawAll(oracle, InstanceLog(log, r, pf.T, S), p);
      ch.delta != 0 && ch.gamma != 0 &&
      Verify(oracle, ArgumentLog(log, r, params, pf, p), pf.ipa, GFactors(r, Inv(ch.gamma, p), p),
             Const(|params.H|, 1), Statement(r, params, pf.T, S, ch, Inv(ch.delta, p), Inv(ch.gamma, p), p),
             params.gens, params.G, params.H, p) == Accept
  {
    hide Mod, Inv, Statement, CommitInputs, Verify, GFactors, DrawAll, InstanceLog, DrawnLog, Const;
  }

  lemma StartIs(r: R1CS, params: Params, wit: seq<int>, az: seq<int>, bz: seq<int>, s: Secrets, ch: Challenges,
                log: Log, p: Modulus)
    requires Prime(p) && WellFormed(r, wit) && |az| == |bz| == r.rows
    requires |params.G| == |params.H| == r.cols + r.rows && 0 < ch.delta < p && 0 < ch.gamma < p
    ensures var deltaInv := Inv(ch.delta, p);
      ProverStart(r, params, wit, az, bz, s, ch, log, p)
        == Start(params.G, params.H, GFactors(r, Inv(ch.gamma, p), p), Const(|params.H|, 1),
                 VectorU(r, wit, az, ch, deltaInv, p), VectorV(r, CombinedRow(r, ch, p), bz, ch, p),
                 Mod(s.r + deltaInv * s.eta, p), log, p)
  {
    hide Mod, Inv, VectorU, VectorV, CombinedRow, GFactors, Start, Const;
  }

  /** A proof assembled from its parts is the one the prover sends. */
  lemma CreateIs(oracle: Oracle, log: Log, r: R1CS, params: Params, wit: seq<int>, s: Secrets, pf: ProofR1cs,
                 st: State, p: Modulus)
    requires Prime(p) && WellFormed(r, wit) && Fits(r, params, |s.blinds|)
    requires var z := wit + r.inputs; var az, bz := MulVec(r.rows, r.A, z, p), MulVec(r.rows, r.B, z, p);
      CommitWitness(params, wit, s.eta, p) == pf.T && CommitValues(r, params, az, bz, s.r, p) == pf.S0 &&
      var ch := DrawAll(oracle, InstanceLog(log, r, pf.T, Mod(pf.S0 + CommitInputs(r, params, p), p)), p);
      ch.delta != 0 && ch.gamma != 0 &&
      st == ProverStart(r, params, wit, az, bz, s, ch, ArgumentLog(log, r, params, pf, p), p)
    requires Sized(st, |s.blinds|) && Prove(oracle, params.gens, st, s.blinds, s.coins, p).Some?
    requires Prove(oracle, params.gens, st, s.blinds, s.coins, p).value.0 == pf.ipa
    ensures var made := CreateProof(oracle, log, r, params, wit, s, p); made.Some? && made.value.0 == pf
  {
    hide Mod, Dot, Inv, MulVec, CommitWitness, CommitValues, CommitInputs, ProverStart, Prove, Pow2, DrawAll,
         InstanceLog, DrawnLog;
  }

  /** Every accepted proof is one that any satisfying witness sends for some choice of its randomness. */
  lemma AnyWitnessSends(oracle: Oracle, log: Log, r: R1CS, params: Params, wit: seq<int>, pf: ProofR1cs, p: Modulus)
    returns (s: Secrets)
    requires Prime(p) && WellFormed(r, wit) && Fits(r, params, |pf.ipa.Ls|) && Satisfied(r, wit, p)
    requires Mod(params.gens.V, p) != 0 && CanonicalR1cs(pf, p) && |pf.ipa.Ls| == |pf.ipa.Rs|
    requires NonZeroRounds(oracle, ArgumentLog(log, r, params, pf, p), pf.ipa, p)
    requires VerifyR1cs(oracle, log, r, params, pf, p) == Accept
    ensures |s.blinds| == |pf.ipa.Ls|
    ensures var made := CreateProof(oracle, log, r, params, wit, s, p); made.Some? && made.value.0 == pf
  {
    hide Mod, Dot, Inv, MulVec, Satisfied, Statement, CommitWitness, CommitValues, CommitInputs, Committed, Verify,
         VectorU, VectorV, GFactors, CombinedRow, Serialize, Prove, Pow2, NonZeroRounds, NoIdentity, DrawAll, Start,
         InstanceLog, DrawnLog, Const, CreateProof, VerifyR1cs, ProverStart, ArgumentLog, CanonicalProof;
    var z := wit + r.inputs;
    var az, bz := MulVec(r.rows, r.A, z, p), MulVec(r.rows, r.B, z, p);
    var eta, blind := OpenCommitments(r, params, wit, az, bz, pf.T, pf.S0, p);
    AcceptedArgument(oracle, log, r, params, pf, p);
    var S := Mod(pf.S0 + CommitInputs(r, params, p), p);
    var ch := DrawAll(oracle, InstanceLog(log, r, pf.T, S), p);
    var log' := ArgumentLog(log, r, params, pf, p);
    var deltaInv, gammaInv := Inv(ch.delta, p), Inv(ch.gamma, p);
    var P := Statement(r, params, pf.T, S, ch, deltaInv, gammaInv, p);
    s := Secrets(eta, blind, [], Coins(0, 0, 0, 0));
    var st := ProverStart(r, params, wit, az, bz, s, ch, log', p);
    SatisfiedStatement(r, params, wit, s, ch, log', p);
    StartIs(r, params, wit, az, bz, s, ch, log', p);
    AcceptedPoints(oracle, log', pf.ipa, GFactors(r, gammaInv, p), Const(|params.H|, 1), P, params.gens, params.G,
                   params.H, p);
    var u, v := VectorU(r, wit, az, ch, deltaInv, p), VectorV(r, CombinedRow(r, ch, p), bz, ch, p);
    var blinds, coins := AnyWitnessExplains(oracle, log', pf.ipa, params.gens, params.G, params.H,
                                            GFactors(r, gammaInv, p), Const(|params.H|, 1), u, v,
                                            Mod(s.r + deltaInv * s.eta, p), P, p);
    s := Secrets(eta, blind, blinds, coins);
    StartIs(r, params, wit, az, bz, s, ch, log', p);
    CreateIs(oracle, log, r, params, wit, s, pf, st, p);
  }

  /** The witness sends this proof for some choice of its randomness. */
  ghost predicate Sends(oracle: Oracle, log: Log, r: R1CS, params: Params, wit: seq<int>, pf: ProofR1cs, p: Modulus)
    requires Prime(p) && WellFormed(r, wit) && Fits(r, params, |pf.ipa.Ls|)
  {
    exists s: Secrets :: |s.blinds| == |pf.ipa.Ls| && SendsWith(oracle, log, r, params, wit, s, pf, p)
  }

  ghost predicate SendsWith(oracle: Oracle, log: Log, r: R1CS, params: Params, wit: seq<int>, s: Secrets,
                            pf: ProofR1cs, p: Modulus)
    requires Prime(p) && WellFormed(r, wit) && Fits(r, params, |s.blinds|)
  {
    var made := CreateProof(oracle, log, r, params, wit, s, p);
    made.Some? && made.value.0 == pf
  }

  /**
   The proofs a satisfying witness can send are exactly the accepted ones: a proof carries no information on
   which satisfying witness was used.
   */
  lemma SentIsAccepted(oracle: Oracle, log: Log, r: R1CS, params: Params, wit: seq<int>, pf: ProofR1cs, p: Modulus)
    requires Prime(p) && WellFormed(r, wit) && Fits(r, params, |pf.ipa.Ls|) && Satisfied(r, wit, p)
    requires Mod(params.gens.V, p) != 0 && CanonicalR1cs(pf, p) && |pf.ipa.Ls| == |pf.ipa.Rs|
    requires NonZeroRounds(oracle, ArgumentLog(log, r, params, pf, p), pf.ipa, p)
    requires NoIdentity(pf.ipa.Ls) && NoIdentity(pf.ipa.Rs) && pf.ipa.A != 0 && pf.ipa.B != 0
    ensures Sends(oracle, log, r, params, wit, pf, p) <==> VerifyR1cs(oracle, log, r, params, pf, p) == Accept
  {
    hide Mod, CreateProof, VerifyR1cs, Satisfied, NonZeroRounds, CanonicalR1cs, Pow2, NoIdentity;
    if VerifyR1cs(oracle, log, r, params, pf, p) == Accept {
      var s := AnyWitnessSends(oracle, log, r, params, wit, pf, p);
      assert SendsWith(oracle, log, r, params, wit, s, pf, p);
    }
    if Sends(oracle, log, r, params, wit, pf, p) {
      var s: Secrets :| |s.blinds| == |pf.ipa.Ls| && SendsWith(oracle, log, r, params, wit, s, pf, p);
      SatisfiedAccepted(oracle, log, r, params, wit, s, p);
    }
  }
}
