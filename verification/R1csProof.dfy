/**
 The R1CS proof: commitments to the witness and to the constraint values, the compiled inner-product
 statement, and the end-to-end verdict of the verifier on an honest run.
 */
module R1csProof {
  import opened PowersOfTwo
  import opened PrimeField
  import opened Vectors
  import opened SparseMatrix
  import opened Roots
  import opened R1csToIpa
  import opened Transcript
  import opened IpaSpec
  import opened IpaVerify
  import opened IpaComplete
  import opened IpaRuns

  datatype Params = Params(G: seq<int>, H: seq<int>, gens: Gens)

  datatype ProofR1cs = ProofR1cs(T: int, S0: int, ipa: Proof)

  /** The prover's randomness. */
  datatype Secrets = Secrets(eta: int, r: int, blinds: seq<(int, int)>, coins: Coins)

  predicate Fits(r: R1CS, params: Params, k: nat) {
    |r.inputs| <= r.cols && |params.G| == |params.H| == r.rows + r.cols == Pow2(k) &&
    InRange(r.A, r.rows, r.cols) && InRange(r.B, r.rows, r.cols) && InRange(r.C, r.rows, r.cols)
  }

  // ---------- commitments ----------

  /** T = <witness || 0, G> + eta V */
  function CommitWitness(params: Params, wit: seq<int>, eta: int, p: Modulus): int
    requires |wit| <= |params.G|
  {
    Mod(Dot(wit + Const(|params.G| - |wit|, 0) + [eta], params.G + [params.gens.V]), p)
  }

  /** I = <0 || inputs || 0, G> */
  function CommitInputs(r: R1CS, params: Params, p: Modulus): int
    requires |r.inputs| <= r.cols && |params.G| == r.rows + r.cols
  {
    Mod(Dot(Const(r.cols - |r.inputs|, 0) + r.inputs + Const(r.rows, 0), params.G), p)
  }

  /** S0 = <0 || A z, G> + <0 || B z, H> + r V */
  function CommitValues(r: R1CS, params: Params, az: seq<int>, bz: seq<int>, blind: int, p: Modulus): int
    requires |az| == |bz| == r.rows && |params.G| == |params.H| == r.rows + r.cols
  {
    Mod(Dot((Const(r.cols, 0) + az) + (Const(r.cols, 0) + bz) + [blind], params.G + params.H + [params.gens.V]), p)
  }

  lemma WitnessCommitment(wit: seq<int>, G: seq<int>, eta: int, V: int)
    requires |wit| <= |G|
    ensures Dot(wit + Const(|G| - |wit|, 0) + [eta], G + [V]) == Dot(wit, G[..|wit|]) + eta * V
  {
    hide Dot;
    var n := |wit|;
    DotSnoc(wit + Const(|G| - n, 0), G, eta, V);
    assert G == G[..n] + G[n..];
    DotConcat(wit, G[..n], Const(|G| - n, 0), G[n..]);
    DotZero(|G| - n, G[n..]);
  }

  lemma InputsCommitment(inputs: seq<int>, before: nat, after: nat, G: seq<int>)
    requires |G| == before + |inputs| + after
    ensures Dot(Const(before, 0) + inputs + Const(after, 0), G) == Dot(inputs, G[before..before + |inputs|])
  {
    hide Dot;
    var n := before + |inputs|;
    assert G == G[..before] + G[before..n] + G[n..];
    DotConcat(Const(before, 0) + inputs, G[..before] + G[before..n], Const(after, 0), G[n..]);
    DotConcat(Const(before, 0), G[..before], inputs, G[before..n]);
    DotZero(before, G[..before]);
    DotZero(after, G[n..]);
  }

  lemma ValuesCommitment(n: nat, az: seq<int>, bz: seq<int>, blind: int, G: seq<int>, H: seq<int>, V: int)
    requires |az| == |bz| && |G| == |H| == n + |az|
    ensures Dot((Const(n, 0) + az) + (Const(n, 0) + bz) + [blind], G + H + [V])
         == Dot(az, G[n..]) + Dot(bz, H[n..]) + blind * V
  {
    hide Dot;
    var x, y := Const(n, 0) + az, Const(n, 0) + bz;
    DotSnoc(x + y, G + H, blind, V);
    DotConcat(x, G, y, H);
    assert G == G[..n] + G[n..] && H == H[..n] + H[n..];
    DotConcat(Const(n, 0), G[..n], az, G[n..]);
    DotConcat(Const(n, 0), H[..n], bz, H[n..]);
    DotZero(n, G[..n]);
    DotZero(n, H[..n]);
  }

  // ---------- the compiled statement ----------

  /** Powers of 1/gamma on the row positions. */
  function GFactors(r: R1CS, gammaInv: int, p: Modulus): (f: seq<int>)
    ensures |f| == r.cols + r.rows
  {
    Const(r.cols, 1) + Powers(gammaInv, r.rows, p)
  }

  /** The public part of u, scaled to the original generators. */
  function PublicG(r: R1CS, ch: Challenges, gammaInv: int, p: Modulus): (g: seq<int>)
    ensures |g| == r.cols + r.rows
  {
    ModV(Had(ModV(Scale(ch.delta * ch.delta, Powers(ch.alpha, r.cols, p)),
                  p) + ModV(Scale(-1, Powers(ch.beta, r.rows, p)), p),
             GFactors(r, gammaInv, p)), p)
  }

  /** The public part of v. */
  function PublicH(r: R1CS, ch: Challenges, c: seq<int>, p: Modulus): (h: seq<int>)
    requires |c| == r.cols && |r.inputs| <= r.cols
    ensures |h| == r.cols + r.rows
  {
    ModV(Had(c, DeltaVec(r, ch.delta)), p) + ModV(Scale(-1, Powers(ch.alpha, r.rows, p)), p)
  }

  /** The verifier's P, from the commitments and the challenges. */
  function Statement(r: R1CS, params: Params, T: int, S: int, ch: Challenges, deltaInv: int, gammaInv: int,
                     p: Modulus): int
    requires |r.inputs| <= r.cols && |params.G| == |params.H| == r.cols + r.rows
    requires InRange(r.A, r.rows, r.cols) && InRange(r.B, r.rows, r.cols) && InRange(r.C, r.rows, r.cols)
  {
    var c := CombinedRow(r, ch, p);
    Mod(S + Mod(Dot(PublicG(r, ch, gammaInv, p) + PublicH(r, ch, c, p) + [deltaInv], params.G + params.H + [T]), p)
        + params.gens.U * Target(r, ch, c, p), p)
  }

  function Serialize(r: R1CS): seq<int> {
    [r.rows, r.cols, |r.inputs|, |r.A|] + Words(r.A) + [|r.B|] + Words(r.B) + [|r.C|] + Words(r.C) + r.inputs
  }

  function Words(M: Matrix): seq<int> {
    if |M| == 0 then [] else Words(M[..|M| - 1]) + [M[|M| - 1].row, M[|M| - 1].col, M[|M| - 1].val]
  }

  function InstanceLog(log: Log, r: R1CS, T: int, S: int): Log {
    log + [Data("r1cs_instance_digest", Serialize(r)), Point("T", T), Point("S'", S)]
  }

  function DrawAll(oracle: Oracle, log: Log, p: Modulus): (ch: Challenges)
    ensures Canonical(ch.gamma, p) && Canonical(ch.delta, p)
  {
    Challenges(Challenge(oracle, log, "alpha", p),
               Challenge(oracle, log + [Draw("alpha")], "beta", p),
               Challenge(oracle, log + [Draw("alpha"), Draw("beta")], "gamma", p),
               Challenge(oracle, log + [Draw("alpha"), Draw("beta"), Draw("gamma")], "delta", p))
  }

  function DrawnLog(log: Log): Log {
    log + [Draw("alpha"), Draw("beta"), Draw("gamma"), Draw("delta")]
  }

  // ---------- prover and verifier ----------

  /** The inner-product state the prover starts from, once delta and gamma are known to be invertible. */
  function ProverStart(r: R1CS, params: Params, wit: seq<int>, az: seq<int>, bz: seq<int>, s: Secrets, ch: Challenges,
                       log: Log, p: Modulus): (st: State)
    requires Prime(p) && WellFormed(r, wit) && |az| == |bz| == r.rows
    requires |params.G| == |params.H| == r.cols + r.rows && 0 < ch.delta < p && 0 < ch.gamma < p
    ensures |st.g| == |st.h| == |st.a| == |st.b| == r.cols + r.rows
  {
    var deltaInv, gammaInv := Inv(ch.delta, p), Inv(ch.gamma, p);
    var c := CombinedRow(r, ch, p);
    Start(params.G, params.H, GFactors(r, gammaInv, p), Const(|params.H|, 1),
          VectorU(r, wit, az, ch, deltaInv, p), VectorV(r, c, bz, ch, p), Mod(s.r + deltaInv * s.eta, p), log, p)
  }

  function CreateProof(oracle: Oracle, log: Log, r: R1CS, params: Params, wit: seq<int>, s: Secrets,
                       p: Modulus): Option<(ProofR1cs, Log)>
    requires Prime(p) && WellFormed(r, wit) && Fits(r, params, |s.blinds|)
  {
    var z := wit + r.inputs;
    var az, bz := MulVec(r.rows, r.A, z, p), MulVec(r.rows, r.B, z, p);
    var T, I := CommitWitness(params, wit, s.eta, p), CommitInputs(r, params, p);
    var S0 := CommitValues(r, params, az, bz, s.r, p);
    var log' := InstanceLog(log, r, T, Mod(S0 + I, p));
    var ch := DrawAll(oracle, log', p);
    if ch.delta == 0 || ch.gamma == 0 then None else
    match Prove(oracle, params.gens, ProverStart(r, params, wit, az, bz, s, ch, DrawnLog(log'), p), s.blinds, s.coins,
                p)
    case None => None
    case Some((pf, end)) => Some((ProofR1cs(T, S0, pf), end))
  }

  function VerifyR1cs(oracle: Oracle, log: Log, r: R1CS, params: Params, pf: ProofR1cs, p: Modulus): Verdict
    requires Prime(p) && |r.inputs| <= r.cols && |params.G| == |params.H| == r.rows + r.cols
    requires InRange(r.A, r.rows, r.cols) && InRange(r.B, r.rows, r.cols) && InRange(r.C, r.rows, r.cols)
  {
    var S := Mod(pf.S0 + CommitInputs(r, params, p), p);
    var log' := InstanceLog(log, r, pf.T, S);
    var ch := DrawAll(oracle, log', p);
    if ch.delta == 0 || ch.gamma == 0 then Panic else
    var deltaInv, gammaInv := Inv(ch.delta, p), Inv(ch.gamma, p);
    Verify(oracle, DrawnLog(log'), pf.ipa, GFactors(r, gammaInv, p), Const(|params.H|, 1),
           Statement(r, params, pf.T, S, ch, deltaInv, gammaInv, p), params.gens, params.G, params.H, p)
  }

  // ---------- the statement is the committed one, up to the error times U ----------

  lemma GammaCancels(gamma: int, gammaInv: int, i: nat, x: int, y: int, p: Modulus)
    requires Cong(gamma * gammaInv, 1, p)
    ensures Cong(Mod(x * Mod(Pow(gamma, i), p) - y, p) * Mod(Pow(gammaInv, i), p), x - y * Mod(Pow(gammaInv, i), p), p)
  {
    hide Mod, Pow;
    var a, b := Mod(Pow(gamma, i), p), Mod(Pow(gammaInv, i), p);
    PowersCancel(gamma, gammaInv, i, p);
    ModCong(x * a - y, p);
    CongMul(Mod(x * a - y, p), x * a - y, b, b, p);
    CancelPoly(x, y, a, b);
    CongScale(x, a * b, 1, p);
    CongSub(x * (a * b), x * 1, y * b, y * b, p);
    CongSame(x * (a * b) - y * b, x * 1 - y * b, (x * a - y) * b, x - y * b, p);
  }

  lemma CancelPoly(x: int, y: int, a: int, b: int)
    ensures (x * a - y) * b == x * (a * b) - y * b
  {
  }

  lemma PowersCancel(gamma: int, gammaInv: int, i: nat, p: Modulus)
    requires Cong(gamma * gammaInv, 1, p)
    ensures Cong(Mod(Pow(gamma, i), p) * Mod(Pow(gammaInv, i), p), 1, p)
  {
    hide Mod, Pow;
    PowMul(gamma, gammaInv, i);
    PowCong(gamma * gammaInv, 1, i, p);
    PowOne(i);
    PowPair(Pow(gammaInv, i), Pow(gamma, i), Pow(gamma * gammaInv, i), p);
  }

  lemma RowsCancel(az: seq<int>, gamma: int, gammaInv: int, beta: seq<int>, p: Modulus)
    requires |az| == |beta| && Cong(gamma * gammaInv, 1, p)
    ensures var m := |az|;
      CongV(Had(ModV(Lin(1, Had(az, Powers(gamma, m, p)), -1, beta), p), Powers(gammaInv, m, p)),
            Lin(1, az, -1, Had(beta, Powers(gammaInv, m, p))), p)
  {
    hide Mod, Pow;
    var m := |az|;
    var gi := Powers(gammaInv, m, p);
    var x, t := Had(ModV(Lin(1, Had(az, Powers(gamma, m, p)), -1, beta), p), gi), Lin(1, az, -1, Had(beta, gi));
    forall i | 0 <= i < m ensures Cong(x[i], t[i], p) {
      GammaCancels(gamma, gammaInv, i, az[i], beta[i], p);
    }
  }

  /** The row part of u on the scaled generators. */
  lemma RowsOnG(az: seq<int>, gamma: int, gammaInv: int, beta: seq<int>, G: seq<int>, t: int, p: Modulus)
    requires |az| == |beta| == |G| && Cong(gamma * gammaInv, 1, p)
    requires t == Dot(az, G) - Dot(Had(beta, Powers(gammaInv, |az|, p)), G)
    ensures Cong(Dot(ModV(Lin(1, Had(az, Powers(gamma, |az|, p)), -1, beta), p),
                     ModV(Had(Powers(gammaInv, |az|, p), G), p)), t, p)
  {
    hide Mod, Dot, Powers, Lin, Had, ModV;
    var gi := Powers(gammaInv, |az|, p);
    var um := ModV(Lin(1, Had(az, Powers(gamma, |az|, p)), -1, beta), p);
    RowsCancel(az, gamma, gammaInv, beta, p);
    ScaledDot(um, gi, Lin(1, az, -1, Had(beta, gi)), G, p);
    DotMinus(az, Had(beta, gi), G);
    assert t == Dot(Lin(1, az, -1, Had(beta, gi)), G);
  }

  lemma ScaledDot(u: seq<int>, f: seq<int>, t: seq<int>, G: seq<int>, p: Modulus)
    requires |u| == |f| == |G| && CongV(Had(u, f), t, p)
    ensures Cong(Dot(u, ModV(Had(f, G), p)), Dot(t, G), p)
  {
    hide Mod, Dot, Had, ModV;
    DotModV(u, Had(f, G), p);
    DotHad(u, f, G);
    DotCong(Had(u, f), t, G, G, p);
  }

  /** The column part of u on the generators, whose factors are 1 there. */
  lemma ColumnsOnG(wit: seq<int>, inputs: seq<int>, deltaInv: int, d2: int, al: seq<int>, G: seq<int>, t: int,
                   p: Modulus)
    requires |wit| + |inputs| == |al| == |G|
    requires t == deltaInv * Dot(wit, G[..|wit|]) + Dot(inputs, G[|wit|..]) + d2 * Dot(al, G)
    ensures Cong(Dot(ModV(Lin(1, ScaledZ(wit, inputs, deltaInv), d2, al), p), ModV(Had(Const(|G|, 1), G), p)), t, p)
  {
    hide Mod, Dot, Lin, ModV;
    var zs := ScaledZ(wit, inputs, deltaInv);
    assert Had(Const(|G|, 1), G) == G;
    DotModV(ModV(Lin(1, zs, d2, al), p), G, p);
    DotModV(Lin(1, zs, d2, al), G, p);
    DotLin(1, zs, d2, al, G);
    assert G == G[..|wit|] + G[|wit|..];
    DotConcat(Scale(deltaInv, wit), G[..|wit|], inputs, G[|wit|..]);
    DotScale(deltaInv, wit, G[..|wit|]);
  }

  lemma PublicFactors(d2: int, al: seq<int>, be: seq<int>, gi: seq<int>, p: Modulus)
    requires |gi| == |be|
    ensures CongV(Had(ModV(Scale(d2, al), p) + ModV(Scale(-1, be), p), Const(|al|, 1) + gi),
                  Scale(d2, al) + Scale(-1, Had(be, gi)), p)
  {
    hide Mod;
    var n := |al|;
    var f := Had(ModV(Scale(d2, al), p) + ModV(Scale(-1, be), p), Const(|al|, 1) + gi);
    var t := Scale(d2, al) + Scale(-1, Had(be, gi));
    forall i | 0 <= i < |f| ensures Cong(f[i], t[i], p) {
      if i < n {
        ModCong(d2 * al[i], p);
      } else {
        NegFactor(be[i - n], gi[i - n], p);
      }
    }
  }

  /** The public scalars on G. */
  lemma PublicOnG(d2: int, al: seq<int>, be: seq<int>, gi: seq<int>, G: seq<int>, t: int, p: Modulus)
    requires |al| + |be| == |G| && |gi| == |be|
    requires t == d2 * Dot(al, G[..|al|]) - Dot(Had(be, gi), G[|al|..])
    ensures Cong(Dot(ModV(Had(ModV(Scale(d2, al), p) + ModV(Scale(-1, be), p), Const(|al|, 1) + gi), p), G), t, p)
  {
    hide Mod, Dot, Scale, Had, ModV, Const;
    var f := Had(ModV(Scale(d2, al), p) + ModV(Scale(-1, be), p), Const(|al|, 1) + gi);
    DotModV(f, G, p);
    PublicFactors(d2, al, be, gi, p);
    DotCong(f, Scale(d2, al) + Scale(-1, Had(be, gi)), G, G, p);
    ScaledConcat(d2, al, Had(be, gi), G);
  }

  lemma ScaledConcat(x: int, a: seq<int>, b: seq<int>, G: seq<int>)
    requires |a| + |b| == |G|
    ensures Dot(Scale(x, a) + Scale(-1, b), G) == x * Dot(a, G[..|a|]) - Dot(b, G[|a|..])
  {
    hide Dot, Scale;
    var n := |a|;
    assert G == G[..n] + G[n..];
    DotConcat(Scale(x, a), G[..n], Scale(-1, b), G[n..]);
    DotScale(x, a, G[..n]);
    DotNegate(b, G[n..]);
  }

  lemma NegFactor(b: int, g: int, p: Modulus)
    ensures Cong(Mod(-1 * b, p) * g, -1 * (b * g), p)
  {
    hide Mod;
    ModCong(-1 * b, p);
    CongMul(Mod(-1 * b, p), -1 * b, g, g, p);
    assert (-1 * b) * g == -1 * (b * g);
  }

  /** v on H. */
  lemma VectorOnH(vn: seq<int>, bz: seq<int>, al: seq<int>, H: seq<int>, t: int, p: Modulus)
    requires |bz| == |al| && |vn| + |bz| == |H|
    requires t == Dot(vn, H[..|vn|]) + (Dot(bz, H[|vn|..]) - Dot(al, H[|vn|..]))
    ensures Cong(Dot(vn + ModV(Lin(1, bz, -1, al), p), ModV(Had(Const(|H|, 1), H), p)), t, p)
  {
    hide Mod, Dot, Lin, ModV;
    assert Had(Const(|H|, 1), H) == H;
    DotModV(vn + ModV(Lin(1, bz, -1, al), p), H, p);
    DotMinus(bz, al, H[|vn|..]);
    TailModV(vn, Lin(1, bz, -1, al), H, t, p);
  }

  /** Reducing the second part of a vector. */
  lemma TailModV(a: seq<int>, b: seq<int>, H: seq<int>, t: int, p: Modulus)
    requires |a| + |b| == |H|
    requires t == Dot(a, H[..|a|]) + Dot(b, H[|a|..])
    ensures Cong(Dot(a + ModV(b, p), H), t, p)
  {
    hide Mod, Dot, ModV;
    var n := |a|;
    assert H == H[..n] + H[n..];
    DotConcat(a, H[..n], ModV(b, p), H[n..]);
    DotModV(b, H[n..], p);
    var x, y, y' := Dot(a, H[..n]), Dot(ModV(b, p), H[n..]), Dot(b, H[n..]);
    CongSum(Dot(a + ModV(b, p), H), t, x, x, y, y', p);
  }

  /** The public part of v on H. */
  lemma PublicOnH(vn: seq<int>, al: seq<int>, H: seq<int>, t: int, p: Modulus)
    requires |vn| + |al| == |H|
    requires t == Dot(vn, H[..|vn|]) - Dot(al, H[|vn|..])
    ensures Cong(Dot(vn + ModV(Scale(-1, al), p), H), t, p)
  {
    hide Mod, Dot, Scale, ModV;
    DotNegate(al, H[|vn|..]);
    TailModV(vn, Scale(-1, al), H, t, p);
  }

  /** The sums over generators that the commitments are made of. */
  datatype Parts = Parts(w: int, i: int, a: int, b: int, alN: int, beM: int, vn: int, alM: int)

  ghost function PartsOf(r: R1CS, params: Params, wit: seq<int>, az: seq<int>, bz: seq<int>, ch: Challenges,
                         gammaInv: int, p: Modulus): Parts
    requires WellFormed(r, wit) && |az| == |bz| == r.rows && |params.G| == |params.H| == r.cols + r.rows
  {
    var Gn, Gm, Hn, Hm := params.G[..r.cols], params.G[r.cols..], params.H[..r.cols], params.H[r.cols..];
    var c := CombinedRow(r, ch, p);
    Parts(Dot(wit, Gn[..|wit|]), Dot(r.inputs, Gn[|wit|..]), Dot(az, Gm), Dot(bz, Hm),
          Dot(Powers(ch.alpha, r.cols, p), Gn),
          Dot(Had(Powers(ch.beta, r.rows, p), Powers(gammaInv, r.rows, p)), Gm),
          Dot(ModV(Had(c, DeltaVec(r, ch.delta)), p), Hn), Dot(Powers(ch.alpha, r.rows, p), Hm))
  }

  lemma UOnG(r: R1CS, params: Params, wit: seq<int>, az: seq<int>, bz: seq<int>, ch: Challenges, deltaInv: int,
             gammaInv: int, t: int, p: Modulus)
    requires WellFormed(r, wit) && |az| == |bz| == r.rows && |params.G| == |params.H| == r.cols + r.rows
    requires Cong(ch.gamma * gammaInv, 1, p)
    requires var q := PartsOf(r, params, wit, az, bz, ch, gammaInv, p);
      t == (deltaInv * q.w + q.i + ch.delta * ch.delta * q.alN) + (q.a - q.beM)
    ensures Cong(Dot(VectorU(r, wit, az, ch, deltaInv, p), ModV(Had(GFactors(r, gammaInv, p), params.G), p)), t, p)
  {
    hide Mod, Dot, Powers, Lin, ModV, CombinedRow, ScaledZ;
    var n := r.cols;
    var Gn, Gm := params.G[..n], params.G[n..];
    var gi := Powers(gammaInv, r.rows, p);
    var al, be := Powers(ch.alpha, n, p), Powers(ch.beta, r.rows, p);
    var un := ModV(Lin(1, ScaledZ(wit, r.inputs, deltaInv), ch.delta * ch.delta, al), p);
    var um := ModV(Lin(1, Had(az, Powers(ch.gamma, r.rows, p)), -1, be), p);
    var q := PartsOf(r, params, wit, az, bz, ch, gammaInv, p);
    var t1 := deltaInv * q.w + q.i + ch.delta * ch.delta * q.alN;
    ColumnsOnG(wit, r.inputs, deltaInv, ch.delta * ch.delta, al, Gn, t1, p);
    RowsOnG(az, ch.gamma, gammaInv, be, Gm, q.a - q.beM, p);
    FactorHalves(Const(n, 1), gi, params.G, p);
    DotConcat(un, ModV(Had(Const(n, 1), Gn), p), um, ModV(Had(gi, Gm), p));
    CongSum(Dot(un + um, ModV(Had(GFactors(r, gammaInv, p), params.G), p)), t,
            Dot(un, ModV(Had(Const(n, 1), Gn), p)), t1, Dot(um, ModV(Had(gi, Gm), p)), q.a - q.beM, p);
  }

  lemma FactorHalves(f: seq<int>, g: seq<int>, G: seq<int>, p: Modulus)
    requires |f| + |g| == |G|
    ensures ModV(Had(f + g, G), p) == ModV(Had(f, G[..|f|]), p) + ModV(Had(g, G[|f|..]), p)
  {
    hide Mod;
  }

  lemma VOnH(r: R1CS, params: Params, wit: seq<int>, az: seq<int>, bz: seq<int>, ch: Challenges, gammaInv: int,
             t: int, p: Modulus)
    requires WellFormed(r, wit) && |az| == |bz| == r.rows && |params.G| == |params.H| == r.cols + r.rows
    requires var q := PartsOf(r, params, wit, az, bz, ch, gammaInv, p); t == q.vn + (q.b - q.alM)
    ensures Cong(Dot(VectorV(r, CombinedRow(r, ch, p), bz, ch, p), ModV(Had(Const(|params.H|, 1), params.H), p)), t, p)
  {
    hide Mod, Dot, Powers, Lin, ModV, Had, Const, CombinedRow, DeltaVec;
    VectorOnH(ModV(Had(CombinedRow(r, ch, p), DeltaVec(r, ch.delta)), p), bz, Powers(ch.alpha, r.rows, p), params.H,
              t, p);
  }

  lemma PublicSum(r: R1CS, params: Params, wit: seq<int>, az: seq<int>, bz: seq<int>, ch: Challenges, deltaInv: int,
                  gammaInv: int,
                  T: int, T': int, t: int, p: Modulus)
    requires WellFormed(r, wit) && |az| == |bz| == r.rows && |params.G| == |params.H| == r.cols + r.rows
    requires Cong(T, T', p)
    requires var q := PartsOf(r, params, wit, az, bz, ch, gammaInv, p);
      t == (ch.delta * ch.delta * q.alN - q.beM) + (q.vn - q.alM) + deltaInv * T'
    ensures Cong(Dot(PublicG(r, ch, gammaInv, p) + PublicH(r, ch, CombinedRow(r, ch, p), p) + [deltaInv],
                     params.G + params.H + [T]), t, p)
  {
    hide Mod, Dot, Powers, Scale, ModV, Had, Const, CombinedRow, DeltaVec;
    var q := PartsOf(r, params, wit, az, bz, ch, gammaInv, p);
    var G, H := params.G, params.H;
    var c := CombinedRow(r, ch, p);
    var g, h := PublicG(r, ch, gammaInv, p), PublicH(r, ch, c, p);
    DotSnoc(g + h, G + H, deltaInv, T);
    DotConcat(g, G, h, H);
    PublicOnG(ch.delta * ch.delta, Powers(ch.alpha, r.cols, p), Powers(ch.beta, r.rows, p),
              Powers(gammaInv, r.rows, p), G,
              ch.delta * ch.delta * q.alN - q.beM, p);
    PublicOnH(ModV(Had(c, DeltaVec(r, ch.delta)), p), Powers(ch.alpha, r.rows, p), H, q.vn - q.alM, p);
    CongScale(deltaInv, T, T', p);
    CongSum(Dot(g, G) + Dot(h, H), (ch.delta * ch.delta * q.alN - q.beM) + (q.vn - q.alM),
            Dot(g, G), ch.delta * ch.delta * q.alN - q.beM, Dot(h, H), q.vn - q.alM, p);
    CongSum(Dot(g + h + [deltaInv], G + H + [T]), t,
            Dot(g, G) + Dot(h, H), (ch.delta * ch.delta * q.alN - q.beM) + (q.vn - q.alM), deltaInv * T,
            deltaInv * T', p);
  }

  lemma MatchGlue(P: int, S: int, pub: int, w: int, U: int, V: int, cm: int, ug: int, vh: int, uv: int, alpha: int,
                  q: Parts, d2: int, dI: int, blind: int, eta: int, p: Modulus)
    requires Cong(P, S + pub + U * w, p) && Cong(S, (q.a + q.b + blind * V) + q.i, p)
    requires Cong(pub, (d2 * q.alN - q.beM) + (q.vn - q.alM) + dI * (q.w + eta * V), p)
    requires Cong(ug, (dI * q.w + q.i + d2 * q.alN) + (q.a - q.beM), p) && Cong(vh, q.vn + (q.b - q.alM), p)
    requires Cong(alpha, blind + dI * eta, p) && cm == ug + vh + uv * U + alpha * V
    ensures Cong(P - cm, (w - uv) * U, p)
  {
    hide Mod;
    var s1 := (q.a + q.b + blind * V) + q.i;
    var p1 := (d2 * q.alN - q.beM) + (q.vn - q.alM) + dI * (q.w + eta * V);
    var u1, v1 := (dI * q.w + q.i + d2 * q.alN) + (q.a - q.beM), q.vn + (q.b - q.alM);
    CongAdd(S, s1, pub, p1, p);
    CongAdd(S + pub, s1 + p1, U * w, U * w, p);
    CongAdd(ug, u1, vh, v1, p);
    CongAdd(ug + vh, u1 + v1, uv * U, uv * U, p);
    CongMul(alpha, blind + dI * eta, V, V, p);
    CongAdd(ug + vh + uv * U, u1 + v1 + uv * U, alpha * V, (blind + dI * eta) * V, p);
    CongSub(P, s1 + p1 + U * w, cm, u1 + v1 + uv * U + (blind + dI * eta) * V, p);
    MatchPoly(q, d2, dI, blind, eta, w, uv, U, V);
    CongTo(P - cm, (s1 + p1 + U * w) - (u1 + v1 + uv * U + (blind + dI * eta) * V), (w - uv) * U, p);
  }

  lemma MatchPoly(q: Parts, d2: int, dI: int, blind: int, eta: int, w: int, uv: int, U: int, V: int)
    ensures (((q.a + q.b + blind * V) + q.i) + ((d2 * q.alN - q.beM) + (q.vn - q.alM) + dI * (q.w + eta * V)) + U * w)
         - (((dI * q.w + q.i + d2 * q.alN) + (q.a - q.beM)) + (q.vn + (q.b - q.alM)) + uv * U + (blind + dI * eta) * V)
         == (w - uv) * U
  {
  }

  lemma WitnessParts(wit: seq<int>, params: Params, eta: int, n: nat, t: int, p: Modulus)
    requires |wit| <= n <= |params.G| && t == Dot(wit, params.G[..n][..|wit|]) + eta * params.gens.V
    ensures Cong(CommitWitness(params, wit, eta, p), t, p)
  {
    hide Mod, Dot;
    WitnessCommitment(wit, params.G, eta, params.gens.V);
    assert params.G[..n][..|wit|] == params.G[..|wit|];
    ModCong(t, p);
  }

  lemma ValuesParts(r: R1CS, params: Params, az: seq<int>, bz: seq<int>, blind: int, p: Modulus)
    requires |r.inputs| <= r.cols && |az| == |bz| == r.rows && |params.G| == |params.H| == r.cols + r.rows
    ensures Cong(Mod(CommitValues(r, params, az, bz, blind, p) + CommitInputs(r, params, p), p),
                 (Dot(az, params.G[r.cols..]) + Dot(bz, params.H[r.cols..]) + blind * params.gens.V)
                 + Dot(r.inputs, params.G[..r.cols][r.cols - |r.inputs|..]), p)
  {
    hide Mod, Dot;
    var n := r.cols;
    var s, i := CommitValues(r, params, az, bz, blind, p), CommitInputs(r, params, p);
    ValuesCommitment(n, az, bz, blind, params.G, params.H, params.gens.V);
    InputsCommitment(r.inputs, n - |r.inputs|, r.rows, params.G);
    assert params.G[..n][n - |r.inputs|..] == params.G[n - |r.inputs|..n];
    var s1, i1 := Dot(az, params.G[n..]) + Dot(bz, params.H[n..]) + blind * params.gens.V,
                  Dot(r.inputs, params.G[n - |r.inputs|..n]);
    ModCong(s1, p);
    ModCong(i1, p);
    CongSum(s + i, s1 + i1, s, s1, i, i1, p);
    ModCong(s + i, p);
  }

  /**
   The verifier's P, computed from the commitments and the challenges alone, is the commitment to
   the prover's u, v and their claimed product w, for every witness, satisfying or not.
   */
  lemma StatementMatches(r: R1CS, params: Params, wit: seq<int>, az: seq<int>, bz: seq<int>, s: Secrets,
                         ch: Challenges, log: Log, p: Modulus)
    requires Prime(p) && WellFormed(r, wit) && |az| == |bz| == r.rows
    requires |params.G| == |params.H| == r.cols + r.rows && 0 < ch.delta < p && 0 < ch.gamma < p
    ensures var T := CommitWitness(params, wit, s.eta, p);
      var S := Mod(CommitValues(r, params, az, bz, s.r, p) + CommitInputs(r, params, p), p);
      var P := Statement(r, params, T, S, ch, Inv(ch.delta, p), Inv(ch.gamma, p), p);
      var st := ProverStart(r, params, wit, az, bz, s, ch, log, p);
      Cong(P - Committed(params.gens, st),
           (Target(r, ch, CombinedRow(r, ch, p), p) - Dot(st.a, st.b)) * params.gens.U, p)
  {
    hide Mod, Dot, Inv, Powers, CombinedRow, Target, VectorU, VectorV, PublicG, PublicH, CommitWitness, CommitValues,
         CommitInputs, GFactors;
    var deltaInv, gammaInv := Inv(ch.delta, p), Inv(ch.gamma, p);
    var T := CommitWitness(params, wit, s.eta, p);
    var S := Mod(CommitValues(r, params, az, bz, s.r, p) + CommitInputs(r, params, p), p);
    var c := CombinedRow(r, ch, p);
    var st := ProverStart(r, params, wit, az, bz, s, ch, log, p);
    var q := PartsOf(r, params, wit, az, bz, ch, gammaInv, p);
    var d2, U, V := ch.delta * ch.delta, params.gens.U, params.gens.V;
    var pub := Dot(PublicG(r, ch, gammaInv, p) + PublicH(r, ch, c, p) + [deltaInv], params.G + params.H + [T]);
    UOnG(r, params, wit, az, bz, ch, deltaInv, gammaInv, (deltaInv * q.w + q.i + d2 * q.alN) + (q.a - q.beM), p);
    VOnH(r, params, wit, az, bz, ch, gammaInv, q.vn + (q.b - q.alM), p);
    WitnessParts(wit, params, s.eta, r.cols, q.w + s.eta * V, p);
    PublicSum(r, params, wit, az, bz, ch, deltaInv, gammaInv, T, q.w + s.eta * V,
              (d2 * q.alN - q.beM) + (q.vn - q.alM) + deltaInv * (q.w + s.eta * V), p);
    ValuesParts(r, params, az, bz, s.r, p);
    ModCong(s.r + deltaInv * s.eta, p);
    var w := Target(r, ch, c, p);
    StatementSum(S, pub, w, U, p);
    MatchGlue(Statement(r, params, T, S, ch, deltaInv, gammaInv, p), S, pub, w, U, V, Committed(params.gens, st),
              Dot(st.a, st.g), Dot(st.b, st.h), Dot(st.a, st.b), st.alpha, q, d2, deltaInv, s.r, s.eta, p);
  }

  lemma StatementSum(S: int, pub: int, w: int, U: int, p: Modulus)
    ensures Cong(Mod(S + Mod(pub, p) + U * w, p), S + pub + U * w, p)
  {
    hide Mod;
    ModCong(pub, p);
    ModCong(S + Mod(pub, p) + U * w, p);
    CongAdd(S, S, Mod(pub, p), pub, p);
    CongAdd(S + Mod(pub, p), S + pub, U * w, U * w, p);
  }

  /** P is the prover's statement up to the constraints' error times U. */
  lemma StatementError(r: R1CS, params: Params, wit: seq<int>, s: Secrets, ch: Challenges, log: Log, p: Modulus)
    requires Prime(p) && WellFormed(r, wit)
    requires |params.G| == |params.H| == r.cols + r.rows && 0 < ch.delta < p && 0 < ch.gamma < p
    ensures var z := wit + r.inputs;
      var az, bz := MulVec(r.rows, r.A, z, p), MulVec(r.rows, r.B, z, p);
      var T := CommitWitness(params, wit, s.eta, p);
      var S := Mod(CommitValues(r, params, az, bz, s.r, p) + CommitInputs(r, params, p), p);
      var P := Statement(r, params, T, S, ch, Inv(ch.delta, p), Inv(ch.gamma, p), p);
      var st := ProverStart(r, params, wit, az, bz, s, ch, log, p);
      Cong(P - Committed(params.gens, st), -ErrorAt(r, wit, ch.gamma, p) * params.gens.U, p)
  {
    hide Mod, Dot, Inv, Powers, CombinedRow, Target, VectorU, VectorV, Statement, CommitWitness, CommitValues,
         CommitInputs, GFactors,
         MulVec, Residual, Committed;
    var z := wit + r.inputs;
    var az, bz := MulVec(r.rows, r.A, z, p), MulVec(r.rows, r.B, z, p);
    var c := CombinedRow(r, ch, p);
    var st := ProverStart(r, params, wit, az, bz, s, ch, log, p);
    StatementMatches(r, params, wit, az, bz, s, ch, log, p);
    CompilerIdentity(r, wit, ch, Inv(ch.delta, p), p);
    var w, uv, err, U := Target(r, ch, c, p), Dot(st.a, st.b), ErrorAt(r, wit, ch.gamma, p), params.gens.U;
    CongSub(0, 0, uv - w, err, p);
    CongMul(0 - (uv - w), 0 - err, U, U, p);
    CongSame((0 - (uv - w)) * U, (0 - err) * U, (w - uv) * U, -err * U, p);
  }

  /**
   The verdict of `verify` on the output of `create`, for every instance, witness, randomness and
   challenge function: it never panics, and it accepts exactly when no point of the proof is the
   identity and the constraints' error, weighted by the powers of gamma, vanishes (or the last
   challenge e, or the generator U, happens to be zero).
   */
  lemma R1csVerdict(oracle: Oracle, log: Log, r: R1CS, params: Params, wit: seq<int>, s: Secrets, p: Modulus)
    requires Prime(p) && WellFormed(r, wit) && Fits(r, params, |s.blinds|)
    requires CreateProof(oracle, log, r, params, wit, s, p).Some?
    ensures var pf := CreateProof(oracle, log, r, params, wit, s, p).value.0;
      var verdict := VerifyR1cs(oracle, log, r, params, pf, p);
      verdict != Panic &&
      (verdict == Accept <==>
        NoIdentity(pf.ipa.Ls) && NoIdentity(pf.ipa.Rs) && pf.ipa.A != 0 && pf.ipa.B != 0 &&
        (LastChallenge(oracle, log, r, params, wit, s, p) == 0 || Cong(params.gens.U, 0, p) ||
         Cong(ErrorAt(r, wit, Drawn(oracle, log, r, params, wit, s, p).gamma, p), 0, p)))
  {
    hide Mod, Dot, Inv, Powers, CombinedRow, Target, VectorU, VectorV, Statement, CommitWitness, CommitValues,
         CommitInputs, GFactors,
         MulVec, Residual, Committed, ErrorAt, Verify, Reduce, Finish, Serialize;
    var ch := Drawn(oracle, log, r, params, wit, s, p);
    var log' := DrawnLog(CommittedLog(log, r, params, wit, s, p));
    var az, bz := MulVec(r.rows, r.A, wit + r.inputs, p), MulVec(r.rows, r.B, wit + r.inputs, p);
    var T := CommitWitness(params, wit, s.eta, p);
    var S := Mod(CommitValues(r, params, az, bz, s.r, p) + CommitInputs(r, params, p), p);
    var deltaInv, gammaInv := Inv(ch.delta, p), Inv(ch.gamma, p);
    var P := Statement(r, params, T, S, ch, deltaInv, gammaInv, p);
    var st := ProverStart(r, params, wit, az, bz, s, ch, log', p);
    HonestVerdict(oracle, log', params.gens, params.G, params.H, GFactors(r, gammaInv, p), Const(|params.H|, 1),
                  st.a, st.b, st.alpha, s.blinds, s.coins, P, p);
    StatementError(r, params, wit, s, ch, log', p);
    ErrorTimesU(P - Committed(params.gens, st), ErrorAt(r, wit, ch.gamma, p), params.gens.U, p);
  }

  /** The transcript when the challenges of the compiler are drawn. */
  function CommittedLog(log: Log, r: R1CS, params: Params, wit: seq<int>, s: Secrets, p: Modulus): Log
    requires WellFormed(r, wit) && |params.G| == |params.H| == r.rows + r.cols
  {
    var z := wit + r.inputs;
    var S0 := CommitValues(r, params, MulVec(r.rows, r.A, z, p), MulVec(r.rows, r.B, z, p), s.r, p);
    InstanceLog(log, r, CommitWitness(params, wit, s.eta, p), Mod(S0 + CommitInputs(r, params, p), p))
  }

  function Drawn(oracle: Oracle, log: Log, r: R1CS, params: Params, wit: seq<int>, s: Secrets,
                 p: Modulus): (ch: Challenges)
    requires WellFormed(r, wit) && |params.G| == |params.H| == r.rows + r.cols
    ensures Canonical(ch.gamma, p) && Canonical(ch.delta, p)
  {
    DrawAll(oracle, CommittedLog(log, r, params, wit, s, p), p)
  }

  /** The challenge e that closes the inner-product argument. */
  function LastChallenge(oracle: Oracle, log: Log, r: R1CS, params: Params, wit: seq<int>, s: Secrets, p: Modulus): int
    requires Prime(p) && WellFormed(r, wit) && Fits(r, params, |s.blinds|)
    requires CreateProof(oracle, log, r, params, wit, s, p).Some?
  {
    var z := wit + r.inputs;
    var az, bz := MulVec(r.rows, r.A, z, p), MulVec(r.rows, r.B, z, p);
    var log' := DrawnLog(CommittedLog(log, r, params, wit, s, p));
    var st := ProverStart(r, params, wit, az, bz, s, Drawn(oracle, log, r, params, wit, s, p), log', p);
    var pf := CreateProof(oracle, log, r, params, wit, s, p).value.0.ipa;
    Challenge(oracle, LastLog(Reduce(oracle, params.gens, st, s.blinds, p).value.log, pf.A, pf.B), "e", p)
  }

  lemma ErrorTimesU(d: int, err: int, U: int, p: Modulus)
    requires Prime(p) && Cong(d, -err * U, p)
    ensures Cong(d, 0, p) <==> Cong(err, 0, p) || Cong(U, 0, p)
  {
    hide Mod;
    if Cong(d, 0, p) {
      NegZero(err * U, p);
      NoZeroDivisors(err, U, p);
    } else if Cong(err, 0, p) {
      CongMul(err, 0, -U, -U, p);
    } else if Cong(U, 0, p) {
      CongMul(-err, -err, U, 0, p);
    }
  }

  /**
   The prover sends a proof exactly when delta, gamma and every round challenge of the inner-product
   argument are non-zero.
   */
  lemma CreateRuns(oracle: Oracle, log: Log, r: R1CS, params: Params, wit: seq<int>, s: Secrets, p: Modulus)
    requires Prime(p) && WellFormed(r, wit) && Fits(r, params, |s.blinds|)
    ensures var z := wit + r.inputs; var ch := Drawn(oracle, log, r, params, wit, s, p);
      var log' := DrawnLog(CommittedLog(log, r, params, wit, s, p));
      CreateProof(oracle, log, r, params, wit, s, p).Some? <==>
        ch.delta != 0 && ch.gamma != 0 &&
        Runs(oracle, params.gens, ProverStart(r, params, wit, MulVec(r.rows, r.A, z, p), MulVec(r.rows, r.B, z, p), s,
                                              ch, log', p), s.blinds, p)
  {
    hide Mod, Dot, Inv, Runs, Reduce, Finish, ProverStart, MulVec, DrawAll, InstanceLog, CommitWitness, CommitInputs,
         CommitValues, Serialize, Prove, Pow2;
    var z, ch := wit + r.inputs, Drawn(oracle, log, r, params, wit, s, p);
    if ch.delta != 0 && ch.gamma != 0 {
      var st := ProverStart(r, params, wit, MulVec(r.rows, r.A, z, p), MulVec(r.rows, r.B, z, p), s, ch,
                            DrawnLog(CommittedLog(log, r, params, wit, s, p)), p);
      ProveRuns(oracle, params.gens, st, s.blinds, s.coins, p);
    }
  }

  /** A challenge function that never draws zero lets the prover finish, for satisfied and broken instances alike. */
  lemma NeverZeroCreates(oracle: Oracle, log: Log, r: R1CS, params: Params, wit: seq<int>, s: Secrets, p: Modulus)
    requires Prime(p) && WellFormed(r, wit) && Fits(r, params, |s.blinds|) && NeverZero(oracle, p)
    ensures CreateProof(oracle, log, r, params, wit, s, p).Some?
  {
    hide Mod, Dot, Inv, Runs, Reduce, Finish, ProverStart, MulVec, InstanceLog, CommitWitness, CommitInputs,
         CommitValues, Serialize, CreateProof, CommittedLog, Pow2, DrawnLog;
    var z, ch := wit + r.inputs, Drawn(oracle, log, r, params, wit, s, p);
    CreateRuns(oracle, log, r, params, wit, s, p);
    var st := ProverStart(r, params, wit, MulVec(r.rows, r.A, z, p), MulVec(r.rows, r.B, z, p), s, ch,
                          DrawnLog(CommittedLog(log, r, params, wit, s, p)), p);
    NeverZeroRuns(oracle, params.gens, st, s.blinds, p);
    ReduceRuns(oracle, params.gens, st, s.blinds, p);
  }

  /**
   End-to-end completeness.  For a satisfied instance the prover sends a proof whenever no drawn challenge
   is zero, and every proof it sends is accepted unless some point of it is the identity.
   */
  lemma SatisfiedAccepted(oracle: Oracle, log: Log, r: R1CS, params: Params, wit: seq<int>, s: Secrets, p: Modulus)
    requires Prime(p) && WellFormed(r, wit) && Fits(r, params, |s.blinds|) && Satisfied(r, wit, p)
    ensures NeverZero(oracle, p) ==> CreateProof(oracle, log, r, params, wit, s, p).Some?
    ensures match CreateProof(oracle, log, r, params, wit, s, p)
      case None => true
      case Some((pf, end)) =>
        NoIdentity(pf.ipa.Ls) && NoIdentity(pf.ipa.Rs) && pf.ipa.A != 0 && pf.ipa.B != 0
        ==> VerifyR1cs(oracle, log, r, params, pf, p) == Accept
  {
    hide Mod, CreateProof, VerifyR1cs, Drawn, LastChallenge, MulVec, Residual, Satisfied, Dot, NeverZero;
    if NeverZero(oracle, p) {
      NeverZeroCreates(oracle, log, r, params, wit, s, p);
    }
    if CreateProof(oracle, log, r, params, wit, s, p).Some? {
      R1csVerdict(oracle, log, r, params, wit, s, p);
      SatisfiedHasNoError(r, wit, Drawn(oracle, log, r, params, wit, s, p).gamma, p);
    }
  }

  /**
   A witness that breaks a constraint makes the compiled claim <u, v> = w true for fewer values of
   gamma than there are constraints, whatever the other challenges are.
   */
  lemma FewGammasPass(r: R1CS, wit: seq<int>, chs: seq<Challenges>, deltaInvs: seq<int>, p: Modulus)
    requires Prime(p) && WellFormed(r, wit) && !Satisfied(r, wit, p) && |deltaInvs| == |chs|
    requires Distinct(Gammas(chs)) && CanonicalV(Gammas(chs), p)
    requires forall i :: 0 <= i < |chs| ==>
      Cong(chs[i].delta * deltaInvs[i], 1, p) && ClaimHolds(r, wit, chs[i], deltaInvs[i], p)
    ensures |chs| < r.rows
  {
    hide Mod, ErrorAt, ClaimHolds, Satisfied, Distinct;
    var gammas := Gammas(chs);
    forall i | 0 <= i < |gammas| ensures Cong(ErrorAt(r, wit, gammas[i], p), 0, p) {
      ClaimIsError(r, wit, chs[i], deltaInvs[i], p);
    }
    FewErrorRoots(r, wit, gammas, p);
  }

  function Gammas(chs: seq<Challenges>): (g: seq<int>)
    ensures |g| == |chs|
  {
    seq(|chs|, i requires 0 <= i < |chs| => chs[i].gamma)
  }

  lemma FewErrorRoots(r: R1CS, wit: seq<int>, gammas: seq<int>, p: Modulus)
    requires Prime(p) && WellFormed(r, wit) && !Satisfied(r, wit, p)
    requires Distinct(gammas) && CanonicalV(gammas, p)
    requires forall i :: 0 <= i < |gammas| ==> Cong(ErrorAt(r, wit, gammas[i], p), 0, p)
    ensures |gammas| < r.rows
  {
    hide Mod, Dot, Powers, MulVec, Eval;
    var z := wit + r.inputs;
    var az, bz, cz := MulVec(r.rows, r.A, z, p), MulVec(r.rows, r.B, z, p), MulVec(r.rows, r.C, z, p);
    var d := Residual(az, bz, cz);
    forall i | 0 <= i < |gammas| ensures Root(d, gammas[i], p) {
      PowersDot(d, gammas[i], p);
    }
    if AllZero(d, p) {
      forall i | 0 <= i < r.rows ensures EntryOk(az, bz, cz, i, p) {
        assert Cong(d[i], 0, p);
        CongAdd(az[i] * bz[i] - cz[i], 0, cz[i], cz[i], p);
        ModCanonical(cz[i], p);
      }
    }
    RootBound(d, gammas, p);
  }

  lemma ModCanonical(x: int, p: Modulus)
    requires Canonical(x, p)
    ensures Mod(x, p) == x
  {
  }
}
