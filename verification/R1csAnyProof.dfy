/** The R1CS verifier on any proof, and what the transcript of a proof fixes. */
module R1csAnyProof {
  import opened PowersOfTwo
  import opened PrimeField
  import opened Vectors
  import opened SparseMatrix
  import opened R1csToIpa
  import opened Transcript
  import opened IpaSpec
  import opened IpaVerify
  import opened IpaComplete
  import opened IpaRuns
  import opened IpaAnyProof
  import opened R1csProof

  // ---------- any proof ----------

  /** The instance, the witness commitment and the value commitment, as they are absorbed. */
  function Committing(log: Log, r: R1CS, T: int, S: int): Log {
    log + [Data("r1cs_instance_digest", Serialize(r)), Point("T", T), Point("S'", S)]
  }

  /**
   The verdict: a panic when gamma or delta is zero, else that of the inner-product argument on the compiled
   statement.  Each challenge is drawn after all messages and draws before it.
   */
  ghost function ExactR1csVerdict(oracle: Oracle, log: Log, r: R1CS, params: Params, pf: ProofR1cs,
                                  p: Modulus): Verdict
    requires Prime(p) && |r.inputs| <= r.cols && |params.G| == |params.H| == r.rows + r.cols
    requires InRange(r.A, r.rows, r.cols) && InRange(r.B, r.rows, r.cols) && InRange(r.C, r.rows, r.cols)
  {
    var S := Mod(pf.S0 + CommitInputs(r, params, p), p);
    var start := Committing(log, r, pf.T, S);
    var alpha := Mod(oracle(start + [Draw("alpha")]), p);
    var beta := Mod(oracle(start + [Draw("alpha"), Draw("beta")]), p);
    var gamma := Mod(oracle(start + [Draw("alpha"), Draw("beta"), Draw("gamma")]), p);
    var delta := Mod(oracle(start + [Draw("alpha"), Draw("beta"), Draw("gamma"), Draw("delta")]), p);
    if gamma == 0 || delta == 0 then Panic else
    ExactVerdict(oracle, start + [Draw("alpha"), Draw("beta"), Draw("gamma"), Draw("delta")], pf.ipa,
                 GFactors(r, Inv(gamma, p), p), Const(|params.H|, 1),
                 Statement(r, params, pf.T, S, Challenges(alpha, beta, gamma, delta), Inv(delta, p), Inv(gamma, p), p),
                 params.gens, params.G, params.H, p)
  }

  lemma DrawsAre(oracle: Oracle, log: Log, p: Modulus)
    ensures DrawAll(oracle, log, p) == Challenges(
      Mod(oracle(log + [Draw("alpha")]), p), Mod(oracle(log + [Draw("alpha"), Draw("beta")]), p),
      Mod(oracle(log + [Draw("alpha"), Draw("beta"), Draw("gamma")]), p),
      Mod(oracle(log + [Draw("alpha"), Draw("beta"), Draw("gamma"), Draw("delta")]), p))
    ensures DrawnLog(log) == log + [Draw("alpha"), Draw("beta"), Draw("gamma"), Draw("delta")]
  {
    hide Mod;
    var a, b, c, d := Draw("alpha"), Draw("beta"), Draw("gamma"), Draw("delta");
    assert log + [a] + [b] == log + [a, b] && log + [a, b] + [c] == log + [a, b, c];
    assert log + [a, b, c] + [d] == log + [a, b, c, d];
  }

  lemma CommittingIs(log: Log, r: R1CS, T: int, S: int)
    ensures Committing(log, r, T, S) == InstanceLog(log, r, T, S)
  {
  }

  /** The verifier answers this on every proof. */
  lemma VerifyR1csExact(oracle: Oracle, log: Log, r: R1CS, params: Params, pf: ProofR1cs, p: Modulus)
    requires Prime(p) && |r.inputs| <= r.cols && |params.G| == |params.H| == r.rows + r.cols
    requires InRange(r.A, r.rows, r.cols) && InRange(r.B, r.rows, r.cols) && InRange(r.C, r.rows, r.cols)
    ensures VerifyR1cs(oracle, log, r, params, pf, p) == ExactR1csVerdict(oracle, log, r, params, pf, p)
  {
    hide Mod, Dot, CommitInputs, DrawAll, InstanceLog, DrawnLog, GFactors, Inv, Verify, ExactVerdict, Statement,
         Serialize, Committing, Const, Challenge;
    var S := Mod(pf.S0 + CommitInputs(r, params, p), p);
    var start := Committing(log, r, pf.T, S);
    CommittingIs(log, r, pf.T, S);
    DrawsAre(oracle, start, p);
    var ch := DrawAll(oracle, start, p);
    if ch.gamma != 0 && ch.delta != 0 {
      VerifyExact(oracle, DrawnLog(start), pf.ipa, GFactors(r, Inv(ch.gamma, p), p), Const(|params.H|, 1),
                  Statement(r, params, pf.T, S, ch, Inv(ch.delta, p), Inv(ch.gamma, p), p), params.gens, params.G,
                  params.H, p);
    }
  }

  /** The statement depends on the proof through S + T / delta alone. */
  lemma StatementShift(r: R1CS, params: Params, T: int, S: int, ch: Challenges, deltaInv: int, gammaInv: int,
                       p: Modulus)
    requires |r.inputs| <= r.cols && |params.G| == |params.H| == r.cols + r.rows
    requires InRange(r.A, r.rows, r.cols) && InRange(r.B, r.rows, r.cols) && InRange(r.C, r.rows, r.cols)
    ensures Cong(Statement(r, params, T, S, ch, deltaInv, gammaInv, p),
                 Statement(r, params, 0, 0, ch, deltaInv, gammaInv, p) + (S + deltaInv * T), p)
  {
    hide Mod, Dot, PublicG, PublicH, CombinedRow, Target;
    var c := CombinedRow(r, ch, p);
    var f, G := PublicG(r, ch, gammaInv, p) + PublicH(r, ch, c, p), params.G + params.H;
    DotSnoc(f, G, deltaInv, T);
    DotSnoc(f, G, deltaInv, 0);
    var w, U, d, dT := Target(r, ch, c, p), params.gens.U, Dot(f, G), deltaInv * T;
    StatementSum(S, d + dT, w, U, p);
    StatementSum(0, d, w, U, p);
    var P0 := Statement(r, params, 0, 0, ch, deltaInv, gammaInv, p);
    CongSum(P0 + (S + dT), S + (d + dT) + U * w, P0, 0 + d + U * w, S + dT, S + dT, p);
  }

  // ---------- the digest fixes the instance ----------

  lemma {:induction false} WordsLength(M: Matrix)
    ensures |Words(M)| == 3 * |M|
  {
    if |M| == 0 {
    } else {
      WordsLength(M[..|M| - 1]);
    }
  }

  lemma {:induction false} WordsInjective(M: Matrix, N: Matrix)
    requires |M| == |N| && Words(M) == Words(N)
    ensures M == N
  {
    if |M| == 0 {
    } else {
      var n := |M| - 1;
      var M', N', e, f := M[..n], N[..n], M[n], N[n];
      WordsLength(M');
      WordsLength(N');
      var w := Words(M);
      assert w == Words(M') + [e.row, e.col, e.val] && w == Words(N') + [f.row, f.col, f.val];
      assert w[..3 * n] == Words(M') && w[..3 * n] == Words(N');
      assert w[3 * n] == e.row && w[3 * n] == f.row && w[3 * n + 1] == e.col && w[3 * n + 1] == f.col;
      assert w[3 * n + 2] == e.val && w[3 * n + 2] == f.val;
      WordsInjective(M', N');
      assert M == M' + [e] && N == N' + [f];
    }
  }

  /** The absorbed words of an instance determine it. */
  lemma SerializeInjective(r: R1CS, r': R1CS)
    requires Serialize(r) == Serialize(r')
    ensures r == r'
  {
    hide Words;
    var w := Serialize(r);
    var wA, wB, wC := Words(r.A), Words(r.B), Words(r.C);
    var wA', wB', wC' := Words(r'.A), Words(r'.B), Words(r'.C);
    WordsLength(r.A);
    WordsLength(r.B);
    WordsLength(r.C);
    WordsLength(r'.A);
    WordsLength(r'.B);
    WordsLength(r'.C);
    var restC, restC' := [|r.C|] + wC + r.inputs, [|r'.C|] + wC' + r'.inputs;
    var restB, restB' := [|r.B|] + wB + restC, [|r'.B|] + wB' + restC';
    var head, head' := [r.rows, r.cols, |r.inputs|, |r.A|], [r'.rows, r'.cols, |r'.inputs|, |r'.A|];
    assert w == head + (wA + restB) && w == head' + (wA' + restB');
    SplitEqual(head, wA + restB, head', wA' + restB');
    assert head[0] == head'[0] && head[1] == head'[1] && head[3] == head'[3];
    SplitEqual(wA, restB, wA', restB');
    assert restB == [|r.B|] + (wB + restC) && restB' == [|r'.B|] + (wB' + restC');
    SplitEqual([|r.B|], wB + restC, [|r'.B|], wB' + restC');
    assert [|r.B|][0] == [|r'.B|][0];
    SplitEqual(wB, restC, wB', restC');
    assert restC == [|r.C|] + (wC + r.inputs) && restC' == [|r'.C|] + (wC' + r'.inputs);
    SplitEqual([|r.C|], wC + r.inputs, [|r'.C|], wC' + r'.inputs);
    assert [|r.C|][0] == [|r'.C|][0];
    SplitEqual(wC, r.inputs, wC', r'.inputs);
    WordsInjective(r.A, r'.A);
    WordsInjective(r.B, r'.B);
    WordsInjective(r.C, r'.C);
  }

  // ---------- the transcript of a proof fixes all of it but the last responses ----------

  /** What a run of the prover absorbs, message by message. */
  function ProofMessages(r: R1CS, params: Params, pf: ProofR1cs, p: Modulus): (m: Log)
    requires |r.inputs| <= r.cols && |params.G| == r.rows + r.cols && |pf.ipa.Ls| == |pf.ipa.Rs|
    ensures |m| == 11 + 3 * |pf.ipa.Ls|
  {
    [Data("r1cs_instance_digest", Serialize(r)), Point("T", pf.T),
     Point("S'", Mod(pf.S0 + CommitInputs(r, params, p), p)),
     Draw("alpha"), Draw("beta"), Draw("gamma"), Draw("delta"), Number("IPA input length n", r.rows + r.cols)]
    + RoundMessages(pf.ipa.Ls, pf.ipa.Rs) + [Point("A", pf.ipa.A), Point("B", pf.ipa.B), Draw("e")]
  }

  lemma ProveTranscript(oracle: Oracle, gens: Gens, st: State, blinds: seq<(int, int)>, c: Coins, p: Modulus)
    requires Prime(p) && Sized(st, |blinds|) && Prove(oracle, gens, st, blinds, c, p).Some?
    ensures var (pf, end) := Prove(oracle, gens, st, blinds, c, p).value;
      |pf.Ls| == |pf.Rs| == |blinds| &&
      end == st.log + RoundMessages(pf.Ls, pf.Rs) + [Point("A", pf.A), Point("B", pf.B), Draw("e")]
  {
    hide Mod, Reduce, RoundMessages, RoundChallenges, PointA, PointB;
    ReduceTranscript(oracle, gens, st, blinds, p);
    var r := Reduce(oracle, gens, st, blinds, p).value;
    var pf := Finish(oracle, r, c, gens, p).0;
    assert LastLog(r.log, pf.A, pf.B) + [Draw("e")] == r.log + [Point("A", pf.A), Point("B", pf.B), Draw("e")];
  }

  /** What the prover leaves on the transcript. */
  lemma CreateTranscript(oracle: Oracle, log: Log, r: R1CS, params: Params, wit: seq<int>, s: Secrets, p: Modulus)
    requires Prime(p) && WellFormed(r, wit) && Fits(r, params, |s.blinds|)
    requires CreateProof(oracle, log, r, params, wit, s, p).Some?
    ensures var (pf, end) := CreateProof(oracle, log, r, params, wit, s, p).value;
      |pf.ipa.Ls| == |pf.ipa.Rs| && end == log + ProofMessages(r, params, pf, p)
  {
    hide Mod, Dot, Inv, Prove, MulVec, Serialize, CommitWitness, CommitInputs, CommitValues, DrawAll, RoundMessages,
         VectorU, VectorV, CombinedRow, GFactors, Pow2, Had, ModV;
    var z := wit + r.inputs;
    var az, bz := MulVec(r.rows, r.A, z, p), MulVec(r.rows, r.B, z, p);
    var log' := CommittedLog(log, r, params, wit, s, p);
    var ch := Drawn(oracle, log, r, params, wit, s, p);
    var st := ProverStart(r, params, wit, az, bz, s, ch, DrawnLog(log'), p);
    ProveTranscript(oracle, params.gens, st, s.blinds, s.coins, p);
    var (pf, end) := CreateProof(oracle, log, r, params, wit, s, p).value;
    JoinMessages(log, Data("r1cs_instance_digest", Serialize(r)), Point("T", pf.T),
                 Point("S'", Mod(pf.S0 + CommitInputs(r, params, p), p)), r.rows + r.cols,
                 RoundMessages(pf.ipa.Ls, pf.ipa.Rs), [Point("A", pf.ipa.A), Point("B", pf.ipa.B), Draw("e")]);
  }

  lemma JoinMessages(log: Log, a: Message, b: Message, c: Message, n: nat, rounds: Log, last: Log)
    ensures StartLog(DrawnLog(log + [a, b, c]), n) + rounds + last
         == log + ([a, b, c, Draw("alpha"), Draw("beta"), Draw("gamma"), Draw("delta"),
                    Number("IPA input length n", n)] + rounds + last)
  {
    var m := [a, b, c, Draw("alpha"), Draw("beta"), Draw("gamma"), Draw("delta"), Number("IPA input length n", n)];
    assert StartLog(DrawnLog(log + [a, b, c]), n) == log + m;
    assert (log + m) + rounds + last == log + (m + rounds + last);
  }

  /**
   The transcript binds: two runs of the prover over the same starting transcript that end with the same one
   proved the same instance and sent the same commitments and points, whatever their witnesses and coins.
   */
  lemma TranscriptBinds(oracle: Oracle, oracle': Oracle, log: Log, r: R1CS, r': R1CS, params: Params, params': Params,
                        wit: seq<int>, wit': seq<int>, s: Secrets, s': Secrets, p: Modulus)
    requires Prime(p) && WellFormed(r, wit) && Fits(r, params, |s.blinds|)
    requires WellFormed(r', wit') && Fits(r', params', |s'.blinds|)
    requires CreateProof(oracle, log, r, params, wit, s, p).Some? &&
             CreateProof(oracle', log, r', params', wit', s', p).Some?
    requires CreateProof(oracle, log, r, params, wit, s, p).value.1
          == CreateProof(oracle', log, r', params', wit', s', p).value.1
    ensures var pf := CreateProof(oracle, log, r, params, wit, s, p).value.0;
      var pf' := CreateProof(oracle', log, r', params', wit', s', p).value.0;
      r == r' && pf.T == pf'.T && Cong(pf.S0 + CommitInputs(r, params, p), pf'.S0 + CommitInputs(r', params', p), p) &&
      pf.ipa.Ls == pf'.ipa.Ls && pf.ipa.Rs == pf'.ipa.Rs && pf.ipa.A == pf'.ipa.A && pf.ipa.B == pf'.ipa.B
  {
    hide Mod, CreateProof, Serialize, CommitInputs, RoundMessages, Pow2;
    CreateTranscript(oracle, log, r, params, wit, s, p);
    CreateTranscript(oracle', log, r', params', wit', s', p);
    var pf := CreateProof(oracle, log, r, params, wit, s, p).value.0;
    var pf' := CreateProof(oracle', log, r', params', wit', s', p).value.0;
    var m, m' := ProofMessages(r, params, pf, p), ProofMessages(r', params', pf', p);
    SplitEqual(log, m, log, m');
    assert m[0] == Data("r1cs_instance_digest", Serialize(r)) && m'[0] == Data("r1cs_instance_digest", Serialize(r'));
    SerializeInjective(r, r');
    assert m[1] == Point("T", pf.T) && m'[1] == Point("T", pf'.T);
    assert m[2] == m'[2];
    var k := |pf.ipa.Ls|;
    assert k == |pf'.ipa.Ls|;
    assert m[8..8 + 3 * k] == RoundMessages(pf.ipa.Ls, pf.ipa.Rs) &&
           m'[8..8 + 3 * k] == RoundMessages(pf'.ipa.Ls, pf'.ipa.Rs);
    MessagesInjective(pf.ipa.Ls, pf.ipa.Rs, pf'.ipa.Ls, pf'.ipa.Rs);
    assert m[8 + 3 * k] == Point("A", pf.ipa.A) && m'[8 + 3 * k] == Point("A", pf'.ipa.A);
    assert m[8 + 3 * k + 1] == Point("B", pf.ipa.B) && m'[8 + 3 * k + 1] == Point("B", pf'.ipa.B);
  }
}
