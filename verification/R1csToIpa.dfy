/** The compiler from constraint satisfaction to one inner-product claim, and its exact identity. */
module R1csToIpa {
  import opened PrimeField
  import opened Vectors
  import opened SparseMatrix

  /** z is the witness followed by the inputs; the constraints are (A z) o (B z) = C z. */
  datatype R1CS = R1CS(rows: nat, cols: nat, A: Matrix, B: Matrix, C: Matrix, inputs: seq<int>)

  datatype Challenges = Challenges(alpha: int, beta: int, gamma: int, delta: int)

  predicate WellFormed(r: R1CS, wit: seq<int>) {
    InRange(r.A, r.rows, r.cols) && InRange(r.B, r.rows, r.cols) && InRange(r.C, r.rows, r.cols) &&
    |wit| + |r.inputs| == r.cols
  }

  predicate EntryOk(az: seq<int>, bz: seq<int>, cz: seq<int>, i: nat, p: Modulus)
    requires |az| == |bz| == |cz| && i < |az|
  {
    Mod(az[i] * bz[i], p) == cz[i]
  }

  /** Entry by entry, az o bz = cz. */
  predicate VectorsMatch(az: seq<int>, bz: seq<int>, cz: seq<int>, p: Modulus)
    requires |az| == |bz| == |cz|
  {
    forall i :: 0 <= i < |az| ==> EntryOk(az, bz, cz, i, p)
  }

  /** Every constraint holds. */
  predicate Satisfied(r: R1CS, wit: seq<int>, p: Modulus)
    requires WellFormed(r, wit)
  {
    var z := wit + r.inputs;
    VectorsMatch(MulVec(r.rows, r.A, z, p), MulVec(r.rows, r.B, z, p), MulVec(r.rows, r.C, z, p), p)
  }

  method Check(r: R1CS, wit: seq<int>, p: Modulus) returns (ok: bool)
    requires WellFormed(r, wit)
    ensures ok == Satisfied(r, wit, p)
  {
    hide Mod;
    var z := wit + r.inputs;
    var a := MultiplyVec(r.rows, r.A, z, p);
    var b := MultiplyVec(r.rows, r.B, z, p);
    var c := MultiplyVec(r.rows, r.C, z, p);
    var ab := ModV(Had(a, b), p);
    for i := 0 to r.rows
      invariant forall j :: 0 <= j < i ==> EntryOk(a, b, c, j, p)
    {
      assert EntryOk(a, b, c, i, p) <==> ab[i] == c[i];
      if ab[i] != c[i] {
        return false;
      }
    }
    ok := true;
  }

  // ---------- the two vectors ----------

  /** delta on the witness positions, 1 on the inputs. */
  function DeltaVec(r: R1CS, delta: int): (d: seq<int>)
    requires |r.inputs| <= r.cols
    ensures |d| == r.cols
  {
    Const(r.cols - |r.inputs|, delta) + Const(|r.inputs|, 1)
  }

  /** c = mu^m A + beta^m B - gamma^m C, with mu = alpha * gamma. */
  function CombinedRow(r: R1CS, ch: Challenges, p: Modulus): (c: seq<int>)
    requires InRange(r.A, r.rows, r.cols) && InRange(r.B, r.rows, r.cols) && InRange(r.C, r.rows, r.cols)
    ensures |c| == r.cols
  {
    var mu := Mod(ch.alpha * ch.gamma, p);
    var muA := VecMul(r.cols, Powers(mu, r.rows, p), r.A, p);
    var betaB := VecMul(r.cols, Powers(ch.beta, r.rows, p), r.B, p);
    var gammaC := VecMul(r.cols, Powers(ch.gamma, r.rows, p), r.C, p);
    ModV(Lin(1, Lin(1, muA, 1, betaB), -1, gammaC), p)
  }

  /** The public value w of the inner product. */
  function Target(r: R1CS, ch: Challenges, c: seq<int>, p: Modulus): int
    requires |c| == r.cols && |r.inputs| <= r.cols
  {
    Mod(Dot(Powers(ch.alpha, r.rows, p), Powers(ch.beta, r.rows, p))
        + ch.delta * ch.delta * Dot(Powers(ch.alpha, r.cols, p), ModV(Had(c, DeltaVec(r, ch.delta)), p)), p)
  }

  /** Witness scaled by 1/delta, followed by the inputs. */
  function ScaledZ(wit: seq<int>, inputs: seq<int>, deltaInv: int): (z: seq<int>)
    ensures |z| == |wit| + |inputs|
  {
    Scale(deltaInv, wit) + inputs
  }

  function VectorU(r: R1CS, wit: seq<int>, az: seq<int>, ch: Challenges, deltaInv: int, p: Modulus): (u: seq<int>)
    requires |wit| + |r.inputs| == r.cols && |az| == r.rows
    ensures |u| == r.cols + r.rows
  {
    ModV(Lin(1, ScaledZ(wit, r.inputs, deltaInv), ch.delta * ch.delta, Powers(ch.alpha, r.cols, p)), p)
    + ModV(Lin(1, Had(az, Powers(ch.gamma, r.rows, p)), -1, Powers(ch.beta, r.rows, p)), p)
  }

  function VectorV(r: R1CS, c: seq<int>, bz: seq<int>, ch: Challenges, p: Modulus): (v: seq<int>)
    requires |c| == r.cols && |r.inputs| <= r.cols && |bz| == r.rows
    ensures |v| == r.cols + r.rows
  {
    ModV(Had(c, DeltaVec(r, ch.delta)), p)
    + ModV(Lin(1, bz, -1, Powers(ch.alpha, r.rows, p)), p)
  }

  /** The constraints' error: entry i is (A z)_i (B z)_i - (C z)_i. */
  function Residual(az: seq<int>, bz: seq<int>, cz: seq<int>): seq<int>
    requires |az| == |bz| == |cz|
  {
    Lin(1, Had(az, bz), -1, cz)
  }

  // ---------- the identity ----------

  /** Powers of alpha times powers of gamma are powers of mu. */
  lemma MuPowers(alpha: int, gamma: int, m: nat, p: Modulus)
    ensures CongV(Had(Powers(gamma, m, p), Powers(alpha, m, p)), Powers(Mod(alpha * gamma, p), m, p), p)
  {
    hide Mod, Pow;
    forall i | 0 <= i < m
      ensures Cong(Had(Powers(gamma, m, p), Powers(alpha, m, p))[i], Powers(Mod(alpha * gamma, p), m, p)[i], p)
    {
      MuPower(alpha, gamma, i, p);
    }
  }

  lemma MuPower(alpha: int, gamma: int, i: nat, p: Modulus)
    ensures Cong(Mod(Pow(gamma, i), p) * Mod(Pow(alpha, i), p), Mod(Pow(Mod(alpha * gamma, p), i), p), p)
  {
    hide Mod, Pow;
    var mu := Mod(alpha * gamma, p);
    ModCong(alpha * gamma, p);
    PowMul(alpha, gamma, i);
    PowCong(mu, alpha * gamma, i, p);
    ModCong(Pow(mu, i), p);
    PowPair(Pow(alpha, i), Pow(gamma, i), Pow(alpha * gamma, i), p);
  }

  lemma PowPair(x: int, y: int, z: int, p: Modulus)
    requires z == x * y
    ensures Cong(Mod(y, p) * Mod(x, p), z, p)
  {
    hide Mod;
    ModCong(x, p);
    ModCong(y, p);
    CongMul(Mod(y, p), y, Mod(x, p), x, p);
    CongSame(Mod(y, p) * Mod(x, p), y * x, Mod(y, p) * Mod(x, p), z, p);
  }

  /** <scaled z, c o delta_vec> = <z, c>. */
  lemma ScaledDotZ(r: R1CS, wit: seq<int>, c: seq<int>, delta: int, deltaInv: int, p: Modulus)
    requires |wit| + |r.inputs| == r.cols == |c| && Cong(delta * deltaInv, 1, p)
    ensures Cong(Dot(ScaledZ(wit, r.inputs, deltaInv), ModV(Had(c, DeltaVec(r, delta)), p)), Dot(wit + r.inputs, c), p)
  {
    hide Dot, Mod;
    var zs, d, z := ScaledZ(wit, r.inputs, deltaInv), DeltaVec(r, delta), wit + r.inputs;
    DotModV(zs, Had(c, d), p);
    HadComm(c, d);
    DotHad(zs, d, c);
    forall i | 0 <= i < |z| ensures Cong(Had(zs, d)[i], z[i], p) {
      if i < |wit| {
        Unscale(z[i], delta, deltaInv, p);
      }
    }
    DotCong(Had(zs, d), z, c, c, p);
  }

  lemma Unscale(x: int, delta: int, deltaInv: int, p: Modulus)
    requires Cong(delta * deltaInv, 1, p)
    ensures Cong((deltaInv * x) * delta, x, p)
  {
    hide Mod;
    CongMul(delta * deltaInv, 1, x, x, p);
    assert (deltaInv * x) * delta == (delta * deltaInv) * x;
  }

  lemma HadComm(a: seq<int>, b: seq<int>)
    requires |a| == |b|
    ensures Had(a, b) == Had(b, a)
  {
  }

  /** <c, z> splits into the three products with A z, B z and C z. */
  lemma CombinedRowDot(r: R1CS, wit: seq<int>, ch: Challenges, p: Modulus)
    requires WellFormed(r, wit)
    ensures var z := wit + r.inputs;
      var az, bz, cz := MulVec(r.rows, r.A, z, p), MulVec(r.rows, r.B, z, p), MulVec(r.rows, r.C, z, p);
      Cong(Dot(z, CombinedRow(r, ch, p)),
           Dot(Powers(Mod(ch.alpha * ch.gamma, p), r.rows, p), az) + Dot(Powers(ch.beta, r.rows, p), bz)
           - Dot(Powers(ch.gamma, r.rows, p), cz), p)
  {
    hide Dot, Mod, Powers, VecMul, MulVec;
    var z := wit + r.inputs;
    var mu, beta, gamma := Powers(Mod(ch.alpha * ch.gamma, p), r.rows, p), Powers(ch.beta, r.rows, p),
                           Powers(ch.gamma, r.rows, p);
    var muA, betaB, gammaC := VecMul(r.cols, mu, r.A, p), VecMul(r.cols, beta, r.B, p), VecMul(r.cols, gamma, r.C, p);
    DotModV(z, Lin(1, Lin(1, muA, 1, betaB), -1, gammaC), p);
    DotLin(1, Lin(1, muA, 1, betaB), -1, gammaC, z);
    DotLin(1, muA, 1, betaB, z);
    Adjoint(mu, r.A, z, p);
    Adjoint(beta, r.B, z, p);
    Adjoint(gamma, r.C, z, p);
    DotComm(z, muA);
    DotComm(z, betaB);
    DotComm(z, gammaC);
    CongAdd(Dot(z, muA), Dot(mu, MulVec(r.rows, r.A, z, p)), Dot(z, betaB), Dot(beta, MulVec(r.rows, r.B, z, p)), p);
    CongSub(Dot(z, muA) + Dot(z, betaB), Dot(mu, MulVec(r.rows, r.A, z, p)) + Dot(beta, MulVec(r.rows, r.B, z, p)),
            Dot(z, gammaC), Dot(gamma, MulVec(r.rows, r.C, z, p)), p);
  }

  /** The first n entries: <u, v> restricted to the columns. */
  lemma ColumnPart(r: R1CS, wit: seq<int>, ch: Challenges, deltaInv: int, p: Modulus)
    requires WellFormed(r, wit) && Cong(ch.delta * deltaInv, 1, p)
    ensures var c := CombinedRow(r, ch, p);
      var vn := ModV(Had(c, DeltaVec(r, ch.delta)), p);
      Cong(Dot(ModV(Lin(1, ScaledZ(wit, r.inputs, deltaInv), ch.delta * ch.delta, Powers(ch.alpha, r.cols, p)), p), vn),
           Dot(wit + r.inputs, c) + ch.delta * ch.delta * Dot(Powers(ch.alpha, r.cols, p), vn), p)
  {
    hide Dot, Mod, Powers, CombinedRow;
    var c := CombinedRow(r, ch, p);
    var vn := ModV(Had(c, DeltaVec(r, ch.delta)), p);
    var zs, al := ScaledZ(wit, r.inputs, deltaInv), Powers(ch.alpha, r.cols, p);
    var d2 := ch.delta * ch.delta;
    DotModV(Lin(1, zs, d2, al), vn, p);
    DotLin(1, zs, d2, al, vn);
    ScaledDotZ(r, wit, c, ch.delta, deltaInv, p);
    CongAdd(Dot(zs, vn), Dot(wit + r.inputs, c), d2 * Dot(al, vn), d2 * Dot(al, vn), p);
  }

  /** The last m entries: <u, v> restricted to the rows. */
  lemma RowPart(az: seq<int>, bz: seq<int>, ch: Challenges, m: nat, p: Modulus)
    requires |az| == |bz| == m
    ensures var al, be, ga := Powers(ch.alpha, m, p), Powers(ch.beta, m, p), Powers(ch.gamma, m, p);
      Cong(Dot(ModV(Lin(1, Had(az, ga), -1, be), p), ModV(Lin(1, bz, -1, al), p)),
           Dot(ga, Had(az, bz)) - Dot(Powers(Mod(ch.alpha * ch.gamma, p), m, p), az) - Dot(be, bz) + Dot(al, be), p)
  {
    hide Dot, Mod, Powers, Had, Lin, ModV;
    var al, be, ga := Powers(ch.alpha, m, p), Powers(ch.beta, m, p), Powers(ch.gamma, m, p);
    var mu := Powers(Mod(ch.alpha * ch.gamma, p), m, p);
    DotModV(Lin(1, Had(az, ga), -1, be), Lin(1, bz, -1, al), p);
    DotDifferences(Had(az, ga), be, bz, al);
    HadComm(az, ga);
    DotHad(ga, az, bz);
    DotHad(az, ga, al);
    MuPowers(ch.alpha, ch.gamma, m, p);
    DotCong(az, az, Had(ga, al), mu, p);
    DotComm(az, mu);
    DotComm(be, al);
    RowGlue(Dot(ga, Had(az, bz)), Dot(az, Had(ga, al)), Dot(mu, az), Dot(be, bz), Dot(al, be), p);
  }

  lemma DotDifferences(a: seq<int>, b: seq<int>, c: seq<int>, d: seq<int>)
    requires |a| == |b| == |c| == |d|
    ensures Dot(Lin(1, a, -1, b), Lin(1, c, -1, d)) == Dot(a, c) - Dot(a, d) - Dot(b, c) + Dot(b, d)
  {
    hide Dot, Lin;
    DotMinus(a, b, Lin(1, c, -1, d));
    DotMinus(c, d, a);
    DotMinus(c, d, b);
  }

  lemma RowGlue(x: int, m: int, m': int, y: int, z: int, p: Modulus)
    requires Cong(m, m', p)
    ensures Cong(x - m - y + z, x - m' - y + z, p)
  {
    hide Mod;
    CongSub(x - y + z, x - y + z, m, m', p);
  }

  /**
   The compiler's identity, for every z, satisfying or not: <u, v> - w is the constraints' error
   weighted by the powers of gamma.
   */
  lemma CompilerIdentity(r: R1CS, wit: seq<int>, ch: Challenges, deltaInv: int, p: Modulus)
    requires WellFormed(r, wit) && Cong(ch.delta * deltaInv, 1, p)
    ensures var z := wit + r.inputs;
      var az, bz, cz := MulVec(r.rows, r.A, z, p), MulVec(r.rows, r.B, z, p), MulVec(r.rows, r.C, z, p);
      var c := CombinedRow(r, ch, p);
      Cong(Dot(VectorU(r, wit, az, ch, deltaInv, p), VectorV(r, c, bz, ch, p)) - Target(r, ch, c, p),
           Dot(Powers(ch.gamma, r.rows, p), Residual(az, bz, cz)), p)
  {
    hide Dot, Mod, Powers, MulVec, CombinedRow;
    var z := wit + r.inputs;
    var az, bz, cz := MulVec(r.rows, r.A, z, p), MulVec(r.rows, r.B, z, p), MulVec(r.rows, r.C, z, p);
    var c := CombinedRow(r, ch, p);
    var al, be, ga := Powers(ch.alpha, r.rows, p), Powers(ch.beta, r.rows, p), Powers(ch.gamma, r.rows, p);
    var mu := Powers(Mod(ch.alpha * ch.gamma, p), r.rows, p);
    var vn := ModV(Had(c, DeltaVec(r, ch.delta)), p);
    var un := ModV(Lin(1, ScaledZ(wit, r.inputs, deltaInv), ch.delta * ch.delta, Powers(ch.alpha, r.cols, p)), p);
    var um, vm := ModV(Lin(1, Had(az, ga), -1, be), p), ModV(Lin(1, bz, -1, al), p);
    DotConcat(un, vn, um, vm);
    ColumnPart(r, wit, ch, deltaInv, p);
    RowPart(az, bz, ch, r.rows, p);
    CombinedRowDot(r, wit, ch, p);
    DotLin(1, Had(az, bz), -1, cz, ga);
    var d2 := ch.delta * ch.delta * Dot(Powers(ch.alpha, r.cols, p), vn);
    ModCong(Dot(al, be) + d2, p);
    IdentityGlue(Dot(un, vn), Dot(um, vm), Dot(z, c), d2, Dot(ga, Had(az, bz)), Dot(mu, az), Dot(be, bz), Dot(al, be),
                 Dot(ga, cz), Target(r, ch, c, p), p);
  }

  lemma IdentityGlue(cols: int, rows: int, zc: int, d2: int, gab: int, ma: int, bb: int, ab: int, gc: int, w: int,
                     p: Modulus)
    requires Cong(cols, zc + d2, p) && Cong(rows, gab - ma - bb + ab, p) && Cong(zc, ma + bb - gc, p) &&
             Cong(w, ab + d2, p)
    ensures Cong(cols + rows - w, gab - gc, p)
  {
    hide Mod;
    CongAdd(zc, ma + bb - gc, d2, d2, p);
    CongAdd(cols, ma + bb - gc + d2, rows, gab - ma - bb + ab, p);
    CongSub(cols + rows, (ma + bb - gc + d2) + (gab - ma - bb + ab), w, ab + d2, p);
  }

  /** What the inner-product argument is asked to prove: <u, v> = w. */
  ghost predicate ClaimHolds(r: R1CS, wit: seq<int>, ch: Challenges, deltaInv: int, p: Modulus)
    requires WellFormed(r, wit)
  {
    var z, c := wit + r.inputs, CombinedRow(r, ch, p);
    var az, bz := MulVec(r.rows, r.A, z, p), MulVec(r.rows, r.B, z, p);
    Cong(Dot(VectorU(r, wit, az, ch, deltaInv, p), VectorV(r, c, bz, ch, p)), Target(r, ch, c, p), p)
  }

  /** The constraints' error weighted by the powers of gamma. */
  function ErrorAt(r: R1CS, wit: seq<int>, gamma: int, p: Modulus): int
    requires WellFormed(r, wit)
  {
    var z := wit + r.inputs;
    Dot(Powers(gamma, r.rows, p),
        Residual(MulVec(r.rows, r.A, z, p), MulVec(r.rows, r.B, z, p), MulVec(r.rows, r.C, z, p)))
  }

  /** The claim is true exactly when the error vanishes. */
  lemma ClaimIsError(r: R1CS, wit: seq<int>, ch: Challenges, deltaInv: int, p: Modulus)
    requires WellFormed(r, wit) && Cong(ch.delta * deltaInv, 1, p)
    ensures ClaimHolds(r, wit, ch, deltaInv, p) <==> Cong(ErrorAt(r, wit, ch.gamma, p), 0, p)
  {
    hide Dot, Mod, Powers, MulVec, CombinedRow, VectorU, VectorV, Target, Residual;
    CompilerIdentity(r, wit, ch, deltaInv, p);
    var z, c := wit + r.inputs, CombinedRow(r, ch, p);
    var az, bz := MulVec(r.rows, r.A, z, p), MulVec(r.rows, r.B, z, p);
    var uv, w := Dot(VectorU(r, wit, az, ch, deltaInv, p), VectorV(r, c, bz, ch, p)), Target(r, ch, c, p);
    ZeroDifference(uv, w, ErrorAt(r, wit, ch.gamma, p), p);
  }

  lemma ZeroDifference(x: int, y: int, d: int, p: Modulus)
    requires Cong(x - y, d, p)
    ensures Cong(x, y, p) <==> Cong(d, 0, p)
  {
    hide Mod;
    if Cong(x, y, p) {
      CongSub(x, y, y, y, p);
    }
    if Cong(d, 0, p) {
      CongAdd(x - y, 0, y, y, p);
    }
  }

  /** For a satisfied instance the claim is true, whatever the challenges. */
  lemma SatisfiedClaimHolds(r: R1CS, wit: seq<int>, ch: Challenges, deltaInv: int, p: Modulus)
    requires WellFormed(r, wit) && Satisfied(r, wit, p) && Cong(ch.delta * deltaInv, 1, p)
    ensures ClaimHolds(r, wit, ch, deltaInv, p)
  {
    hide Mod, ErrorAt, ClaimHolds, Satisfied;
    SatisfiedHasNoError(r, wit, ch.gamma, p);
    ClaimIsError(r, wit, ch, deltaInv, p);
  }

  lemma SatisfiedHasNoError(r: R1CS, wit: seq<int>, gamma: int, p: Modulus)
    requires WellFormed(r, wit) && Satisfied(r, wit, p)
    ensures Cong(ErrorAt(r, wit, gamma, p), 0, p)
  {
    hide Dot, Mod, Powers, MulVec;
    var z := wit + r.inputs;
    var az, bz, cz := MulVec(r.rows, r.A, z, p), MulVec(r.rows, r.B, z, p), MulVec(r.rows, r.C, z, p);
    var ga, d := Powers(gamma, r.rows, p), Residual(az, bz, cz);
    forall i | 0 <= i < r.rows ensures Cong(d[i], 0, p) {
      assert EntryOk(az, bz, cz, i, p);
      ModCong(az[i] * bz[i], p);
      CongSub(az[i] * bz[i], cz[i], cz[i], cz[i], p);
    }
    DotCong(ga, ga, d, Const(r.rows, 0), p);
    DotZero(r.rows, ga);
  }
}
