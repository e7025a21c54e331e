/** The R1CS prover and verifier as they run over one transcript. */
module R1csRun {
  import opened PrimeField
  import opened Vectors
  import opened SparseMatrix
  import opened R1csToIpa
  import opened Transcript
  import opened IpaSpec
  import opened IpaVerify
  import opened R1csProof
  import IpaProver
  import IpaVerifier

  method DrawChallenges(tape: Tape, r: R1CS, T: int, S: int, p: Modulus) returns (ch: Challenges)
    modifies tape
    ensures var log := InstanceLog(old(tape.log), r, T, S);
      ch == DrawAll(tape.oracle, log, p) && tape.log == DrawnLog(log)
  {
    hide Mod, Serialize;
    ghost var log := InstanceLog(tape.log, r, T, S);
    tape.Append(Data("r1cs_instance_digest", Serialize(r)));
    tape.Append(Point("T", T));
    tape.Append(Point("S'", S));
    assert tape.log == log;
    var alpha := tape.ChallengeScalar("alpha", p);
    var beta := tape.ChallengeScalar("beta", p);
    assert tape.log == log + [Draw("alpha"), Draw("beta")];
    var gamma := tape.ChallengeScalar("gamma", p);
    assert tape.log == log + [Draw("alpha"), Draw("beta"), Draw("gamma")];
    var delta := tape.ChallengeScalar("delta", p);
    ch := Challenges(alpha, beta, gamma, delta);
  }

  method CombineRows(r: R1CS, ch: Challenges, p: Modulus) returns (c: seq<int>)
    requires InRange(r.A, r.rows, r.cols) && InRange(r.B, r.rows, r.cols) && InRange(r.C, r.rows, r.cols)
    ensures c == CombinedRow(r, ch, p)
  {
    hide Mod, Powers, VecMul;
    var mu := ExpIter(Mod(ch.alpha * ch.gamma, p), r.rows, p);
    var beta := ExpIter(ch.beta, r.rows, p);
    var gamma := ExpIter(ch.gamma, r.rows, p);
    var muA := VecMultiplyMat(r.cols, r.A, mu, p);
    var betaB := VecMultiplyMat(r.cols, r.B, beta, p);
    var gammaC := VecMultiplyMat(r.cols, r.C, gamma, p);
    c := ModV(Lin(1, Lin(1, muA, 1, betaB), -1, gammaC), p);
  }

  method ComputeValues(r: R1CS, params: Params, wit: seq<int>, blind: int, p: Modulus)
    returns (az: seq<int>, bz: seq<int>, S0: int)
    requires WellFormed(r, wit) && |params.G| == |params.H| == r.rows + r.cols
    ensures az == MulVec(r.rows, r.A, wit + r.inputs, p) && bz == MulVec(r.rows, r.B, wit + r.inputs, p)
    ensures S0 == CommitValues(r, params, az, bz, blind, p)
  {
    hide Mod, MulVec, Dot;
    az := MultiplyVec(r.rows, r.A, wit + r.inputs, p);
    bz := MultiplyVec(r.rows, r.B, wit + r.inputs, p);
    S0 := CommitValues(r, params, az, bz, blind, p);
  }

  method CreateR1cs(tape: Tape, r: R1CS, params: Params, wit: seq<int>, s: Secrets, p: Modulus)
    returns (proof: Option<ProofR1cs>)
    requires Prime(p) && WellFormed(r, wit) && Fits(r, params, |s.blinds|)
    modifies tape
    ensures match CreateProof(tape.oracle, old(tape.log), r, params, wit, s, p)
      case None => proof == None
      case Some((pf, log)) => proof == Some(pf) && tape.log == log
  {
    hide Mod, Dot, MulVec, Reduce, Powers, CombinedRow, CommitValues, CommitWitness, CommitInputs, DrawAll,
         InstanceLog, DrawnLog,
         VectorU, VectorV, GFactors, Prove, Inv;
    var T, I := CommitWitness(params, wit, s.eta, p), CommitInputs(r, params, p);
    var az, bz, S0 := ComputeValues(r, params, wit, s.r, p);
    var ch := DrawChallenges(tape, r, T, Mod(S0 + I, p), p);
    if ch.delta == 0 || ch.gamma == 0 {
      return None;
    }
    var deltaInv, gammaInv := Inv(ch.delta, p), Inv(ch.gamma, p);
    var c := CombineRows(r, ch, p);
    var us, vs := VectorU(r, wit, az, ch, deltaInv, p), VectorV(r, c, bz, ch, p);
    var u := FromSeq(us);
    var v := FromSeq(vs);
    var ipa := IpaProver.CreateZk(tape, params.gens, GFactors(r, gammaInv, p), Const(|params.H|, 1), params.G,
                                  params.H, u, v,
                                  Mod(s.r + deltaInv * s.eta, p), s.blinds, s.coins, p);
    match ipa
    case None => proof := None;
    case Some(pf) => proof := Some(ProofR1cs(T, S0, pf));
  }

  method FromSeq(s: seq<int>) returns (a: array<int>)
    ensures fresh(a) && a[..] == s
  {
    a := new int[|s|](i requires 0 <= i < |s| => s[i]);
  }

  method VerifyRun(tape: Tape, r: R1CS, params: Params, pf: ProofR1cs, p: Modulus) returns (v: Verdict)
    requires Prime(p) && |r.inputs| <= r.cols && |params.G| == |params.H| == r.rows + r.cols
    requires InRange(r.A, r.rows, r.cols) && InRange(r.B, r.rows, r.cols) && InRange(r.C, r.rows, r.cols)
    modifies tape
    ensures v == VerifyR1cs(tape.oracle, old(tape.log), r, params, pf, p)
  {
    hide Mod, Dot, Powers, CombinedRow, CommitInputs, DrawAll, InstanceLog, DrawnLog, GFactors, Inv, Verify, Statement;
    var S := Mod(pf.S0 + CommitInputs(r, params, p), p);
    var ch := DrawChallenges(tape, r, pf.T, S, p);
    if ch.delta == 0 || ch.gamma == 0 {
      return Panic;
    }
    var deltaInv, gammaInv := Inv(ch.delta, p), Inv(ch.gamma, p);
    var P := ComputeStatement(r, params, pf.T, S, ch, deltaInv, gammaInv, p);
    v := IpaVerifier.VerifyProof(tape, pf.ipa, GFactors(r, gammaInv, p), Const(|params.H|, 1), P, params.gens,
                                 params.G, params.H, p);
  }

  method ComputeStatement(r: R1CS, params: Params, T: int, S: int, ch: Challenges, deltaInv: int, gammaInv: int,
                          p: Modulus)
    returns (P: int)
    requires |r.inputs| <= r.cols && |params.G| == |params.H| == r.cols + r.rows
    requires InRange(r.A, r.rows, r.cols) && InRange(r.B, r.rows, r.cols) && InRange(r.C, r.rows, r.cols)
    ensures P == Statement(r, params, T, S, ch, deltaInv, gammaInv, p)
  {
    hide Mod, Dot, Powers, CombinedRow, Target, Had, Scale, ModV;
    var c := CombineRows(r, ch, p);
    var g := FromSeq(ModV(Scale(ch.delta * ch.delta, Powers(ch.alpha, r.cols, p)),
                          p) + ModV(Scale(-1, Powers(ch.beta, r.rows, p)), p));
    ScaleInPlace(g, GFactors(r, gammaInv, p), p);
    var scalars := g[..] + PublicH(r, ch, c, p) + [deltaInv];
    P := Mod(S + Mod(Dot(scalars, params.G + params.H + [T]), p) + params.gens.U * Target(r, ch, c, p), p);
  }

  method ScaleInPlace(g: array<int>, f: seq<int>, p: Modulus)
    requires g.Length == |f|
    modifies g
    ensures g[..] == ModV(Had(old(g[..]), f), p)
  {
    hide Mod;
    for i := 0 to g.Length
      invariant forall j :: 0 <= j < i ==> g[j] == Mod(old(g[j]) * f[j], p)
      invariant forall j :: i <= j < g.Length ==> g[j] == old(g[j])
    {
      g[i] := Mod(g[i] * f[i], p);
    }
  }
}
