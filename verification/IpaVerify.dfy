/**
 The verifier of the zero-knowledge inner-product argument, and the theorem that it accepts what
 an honest prover produces exactly when the statement is the one the prover folded.
 */
module IpaVerify {
  import opened PowersOfTwo
  import opened PrimeField
  import opened Vectors
  import opened Transcript
  import opened IpaSpec

  datatype Proof = Proof(Ls: seq<int>, Rs: seq<int>, A: int, B: int, r: int, s: int, delta: int)

  /** Panic stands for a failed assertion or an index out of range. */
  datatype Verdict = Accept | Reject | Panic

  /** The prover's coins for the last step. */
  datatype Coins = Coins(r: int, s: int, delta: int, eta: int)

  function StartLog(log: Log, n: nat): Log {
    log + [Number("IPA input length n", n)]
  }

  function Start(G: seq<int>, H: seq<int>, Gf: seq<int>, Hf: seq<int>, a: seq<int>, b: seq<int>, alpha: int, log: Log,
                 p: Modulus): State
    requires |G| == |Gf| && |H| == |Hf|
  {
    State(ModV(Had(Gf, G), p), ModV(Had(Hf, H), p), a, b, alpha, StartLog(log, |G|))
  }

  // ---------- prover, last step ----------

  function PointA(r: Reduction, c: Coins, gens: Gens, p: Modulus): int {
    Mod(Combine(gens, c.r * r.g, c.s * r.h, c.r * r.b + c.s * r.a, c.delta), p)
  }

  function PointB(c: Coins, gens: Gens, p: Modulus): int {
    Mod(c.r * c.s * gens.U + c.eta * gens.V, p)
  }

  function LastLog(log: Log, A: int, B: int): Log {
    log + [Point("A", A), Point("B", B)]
  }

  /** Proof of knowledge of the two remaining scalars. */
  function Finish(oracle: Oracle, r: Reduction, c: Coins, gens: Gens, p: Modulus): (Proof, Log) {
    var A, B := PointA(r, c, gens, p), PointB(c, gens, p);
    var e := Challenge(oracle, LastLog(r.log, A, B), "e", p);
    (Proof(r.Ls, r.Rs, A, B, Mod(c.r + r.a * e, p), Mod(c.s + r.b * e, p),
           Mod(c.eta + c.delta * e + r.alpha * e * e, p)),
     LastLog(r.log, A, B) + [Draw("e")])
  }

  function Prove(oracle: Oracle, gens: Gens, st: State, blinds: seq<(int, int)>, c: Coins, p: Modulus)
    : Option<(Proof, Log)>
    requires Prime(p) && Sized(st, |blinds|)
  {
    match Reduce(oracle, gens, st, blinds, p)
    case None => None
    case Some(r) => Some(Finish(oracle, r, c, gens, p))
  }

  // ---------- verifier ----------

  /** Challenges recomputed from the proof; None when some L or R is the identity. */
  function ReadRounds(oracle: Oracle, log: Log, Ls: seq<int>, Rs: seq<int>, p: Modulus): (r: Option<(seq<int>, Log)>)
    ensures r.Some? ==> |r.value.0| == (if |Ls| <= |Rs| then |Ls| else |Rs|) && CanonicalV(r.value.0, p)
    decreases |Ls|
  {
    if |Ls| == 0 || |Rs| == 0 then
      Some(([], log))
    else if Ls[0] == 0 || Rs[0] == 0 then
      None
    else
      var u := Challenge(oracle, RoundLog(log, Ls[0], Rs[0]), "u", p);
      match ReadRounds(oracle, RoundLog(log, Ls[0], Rs[0]) + [Draw("u")], Ls[1..], Rs[1..], p)
      case None => None
      case Some(rest) => Some(([u] + rest.0, rest.1))
  }

  function InvOrZero(u: int, p: Modulus): (w: int)
    requires Prime(p) && 0 <= u < p
    ensures 0 <= w < p
  {
    if u == 0 then 0 else Inv(u, p)
  }

  function InversesOrZero(us: seq<int>, p: Modulus): (ws: seq<int>)
    requires Prime(p) && CanonicalV(us, p)
    ensures |ws| == |us| && CanonicalV(ws, p)
  {
    seq(|us|, i requires 0 <= i < |us| => InvOrZero(us[i], p))
  }

  lemma InversesNonZero(us: seq<int>, p: Modulus)
    requires Prime(p) && NonZero(us, p)
    ensures InversesOrZero(us, p) == Inverses(us, p)
  {
  }

  /** What a challenge's inverse stands for in the product of all inverses, from which zeros are left out. */
  function InvOrOne(u: int, p: Modulus): (w: int)
    requires Prime(p) && 0 <= u < p
    ensures 0 < w < p && Cong(u * w * u, u, p)
  {
    if u == 0 then 1 else
    CongMul(u * Inv(u, p), 1, u, u, p);
    Inv(u, p)
  }

  function InversesOrOne(us: seq<int>, p: Modulus): (ws: seq<int>)
    requires Prime(p) && CanonicalV(us, p)
    ensures |ws| == |us| && CanonicalV(ws, p)
  {
    seq(|us|, i requires 0 <= i < |us| => InvOrOne(us[i], p))
  }

  lemma OnlyForZeros(us: seq<int>, p: Modulus)
    requires Prime(p) && NonZero(us, p)
    ensures InversesOrOne(us, p) == Inverses(us, p)
  {
  }

  /** Product of the non-zero entries. */
  function NonZeroProduct(us: seq<int>, p: Modulus): (r: int)
    requires Prime(p) && CanonicalV(us, p)
    ensures 0 < r < p
  {
    if |us| == 0 then 1 else
    var q := NonZeroProduct(us[..|us| - 1], p);
    var u := us[|us| - 1];
    if u == 0 then q else ProductNonZero(q, u, p); Mod(q * u, p)
  }

  lemma ProductNonZero(x: int, y: int, p: Modulus)
    requires Prime(p) && 0 < x < p && 0 < y < p
    ensures Mod(x * y, p) != 0
  {
    if Mod(x * y, p) == 0 {
      NoZeroDivisors(x, y, p);
    }
  }

  /** The scalars grown from s[0] by s[i] = s[i - 2^j] * u_j^2, where 2^j is the top bit of i. */
  function Grow(squares: seq<int>, s0: int, p: Modulus): (s: seq<int>)
    ensures |s| == Pow2(|squares|)
  {
    if |squares| == 0 then [s0] else
    var t := Grow(squares[1..], s0, p);
    t + ModV(Scale(squares[0], t), p)
  }

  /** c * s[i] * f[i], as long as both sequences last. */
  function ZipScale(c: int, f: seq<int>, s: seq<int>, p: Modulus): (z: seq<int>)
    ensures |z| == if |f| <= |s| then |f| else |s|
  {
    seq(if |f| <= |s| then |f| else |s|, i requires 0 <= i < |f| && i < |s| => Mod(c * s[i] * f[i], p))
  }

  function Take(s: seq<int>, n: nat): seq<int> {
    if n <= |s| then s[..n] else s
  }

  function EqScalars(pf: Proof, e: int, usq: seq<int>, wsq: seq<int>, s: seq<int>,
                     Gf: seq<int>, Hf: seq<int>, n: nat, p: Modulus): seq<int> {
    [Mod(pf.r * pf.s, p), Mod(-e, p), pf.delta, Mod(-(e * e), p)]
    + Take(ZipScale(Mod(pf.r * e, p), Gf, s, p), n)
    + ZipScale(Mod(pf.s * e, p), Hf, Reverse(s), p)
    + ModV(Scale(-Mod(e * e, p), usq), p)
    + ModV(Scale(-Mod(e * e, p), wsq), p)
  }

  function EqBases(pf: Proof, P: int, gens: Gens, G: seq<int>, H: seq<int>): seq<int> {
    [gens.U, pf.A, gens.V, P] + G + H + pf.Ls + pf.Rs
  }

  function Verify(oracle: Oracle, log: Log, pf: Proof, Gf: seq<int>, Hf: seq<int>, P: int, gens: Gens,
                  G: seq<int>, H: seq<int>, p: Modulus): Verdict
    requires Prime(p)
  {
    match ReadRounds(oracle, StartLog(log, Pow2(|pf.Ls|)), pf.Ls, pf.Rs, p)
    case None => Reject
    case Some((us, log')) =>
      if |us| < |pf.Ls| then Panic
      else if pf.A == 0 || pf.B == 0 then Reject
      else
        var e := Challenge(oracle, LastLog(log', pf.A, pf.B), "e", p);
        var s := Grow(Squares(us, p), Inv(NonZeroProduct(us, p), p), p);
        var scalars := EqScalars(pf, e, Squares(us, p), Squares(InversesOrZero(us, p), p), s, Gf, Hf, |G|, p);
        var bases := EqBases(pf, P, gens, G, H);
        if |scalars| != |bases| then Panic
        else if Mod(Dot(scalars, bases), p) == pf.B then Accept
        else Reject
  }
}
