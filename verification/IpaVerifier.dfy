/** The verifier as it runs: challenges read back, one batch inversion, the scalars grown in place. */
module IpaVerifier {
  import opened PowersOfTwo
  import opened PrimeField
  import opened Vectors
  import opened Transcript
  import opened IpaSpec
  import opened IpaVerify

  datatype ScalarsResult =
    | Identity
    | OutOfRange
    | Scalars(squares: seq<int>, inverseSquares: seq<int>, s: seq<int>)

  /** Position of the highest set bit. */
  function FloorLog(i: nat): (j: nat)
    requires i > 0
    ensures Pow2(j) <= i < Pow2(j + 1)
  {
    if i == 1 then 0 else 1 + FloorLog(i / 2)
  }

  lemma FloorLogUnique(i: nat, j: nat)
    requires i > 0 && Pow2(j) <= i < Pow2(j + 1)
    ensures FloorLog(i) == j
  {
    if FloorLog(i) < j {
      Pow2Monotone(FloorLog(i) + 1, j);
    } else if FloorLog(i) > j {
      Pow2Monotone(j + 1, FloorLog(i));
    }
  }

  /** The doubling recurrence: entry i is entry i - 2^j times the square of the challenge for bit j. */
  lemma {:induction false} GrowAt(squares: seq<int>, s0: int, i: nat, p: Modulus)
    requires 0 < i < Pow2(|squares|)
    ensures var j := FloorLog(i);
      j < |squares| &&
      Grow(squares, s0, p)[i] == Mod(squares[|squares| - 1 - j] * Grow(squares, s0, p)[i - Pow2(j)], p)
  {
    hide Mod;
    var k := |squares| - 1;
    var t := Grow(squares[1..], s0, p);
    if i < Pow2(k) {
      GrowAt(squares[1..], s0, i, p);
      assert squares[1..][k - 1 - FloorLog(i)] == squares[k - FloorLog(i)];
    } else {
      FloorLogUnique(i, k);
    }
  }

  /**
   Inverts every non-zero entry with a single field inversion, and returns the inverse of the
   product of the non-zero entries.
   */
  method BatchInvert(v: array<int>, p: Modulus) returns (allinv: int)
    requires Prime(p) && CanonicalV(v[..], p)
    modifies v
    ensures v[..] == InversesOrZero(old(v[..]), p)
    ensures allinv == Inv(NonZeroProduct(old(v[..]), p), p)
  {
    hide Mod, Inv, NonZeroProduct;
    ghost var v0 := v[..];
    var acc := 1;
    var tmp: seq<int> := [];
    ProductEmpty(p);
    for i := 0 to v.Length
      invariant v[..] == v0 && |tmp| == i
      invariant acc == NonZeroProduct(v0[..i], p)
      invariant forall j :: 0 <= j < i ==> tmp[j] == NonZeroProduct(v0[..j], p)
    {
      tmp := tmp + [acc];
      ProductNext(v0, i, p);
      acc := if v[i] == 0 then acc else Mod(acc * v[i], p);
    }
    assert v0[..v.Length] == v0;
    acc := Inv(acc, p);
    allinv := acc;
    var i := v.Length;
    while i > 0
      invariant 0 <= i <= v.Length
      invariant 0 < acc < p && Cong(NonZeroProduct(v0[..i], p) * acc, 1, p)
      invariant forall j :: 0 <= j < i ==> v[j] == v0[j]
      invariant forall j :: i <= j < v.Length ==> v[j] == InvOrZero(v0[j], p)
    {
      i := i - 1;
      ProductNext(v0, i, p);
      var skip := v[i] == 0;
      var t := Mod(tmp[i] * acc, p);
      if !skip {
        InvertStep(tmp[i], v[i], acc, p);
        acc := Mod(acc * v[i], p);
        v[i] := t;
      }
    }
    assert v[..] == InversesOrZero(v0, p);
  }

  lemma ProductEmpty(p: Modulus)
    requires Prime(p)
    ensures NonZeroProduct([], p) == 1
  {
  }

  lemma ProductNext(v: seq<int>, i: nat, p: Modulus)
    requires Prime(p) && CanonicalV(v, p) && i < |v|
    ensures NonZeroProduct(v[..i + 1], p) ==
      if v[i] == 0 then NonZeroProduct(v[..i], p) else Mod(NonZeroProduct(v[..i], p) * v[i], p)
  {
    hide Mod;
    assert v[..i + 1][..i] == v[..i];
  }

  /** One backward step: q is the product before x, acc the inverse of q * x. */
  lemma InvertStep(q: int, x: int, acc: int, p: Modulus)
    requires Prime(p) && 0 < q < p && 0 < x < p && 0 < acc < p && Cong(Mod(q * x, p) * acc, 1, p)
    ensures Mod(q * acc, p) == Inv(x, p)
    ensures Cong(q * Mod(acc * x, p), 1, p) && 0 < Mod(acc * x, p) < p
  {
    hide Mod, Inv;
    ModCong(q * x, p);
    CongMul(Mod(q * x, p), q * x, acc, acc, p);
    InvertPoly(q, x, acc);
    ModCong(acc * x, p);
    CongScale(q, Mod(acc * x, p), acc * x, p);
    ProductNonZero(acc, x, p);
    ModCong(q * acc, p);
    CongScale(x, Mod(q * acc, p), q * acc, p);
    Inverse(x, Mod(q * acc, p), p);
  }

  lemma InvertPoly(q: int, x: int, acc: int)
    ensures (q * x) * acc == q * (acc * x) == x * (q * acc)
  {
  }

  lemma Inverse(x: int, y: int, p: Modulus)
    requires Prime(p) && 0 < x < p && Canonical(y, p) && Cong(x * y, 1, p)
    ensures y == Inv(x, p)
  {
    hide Mod, Inv;
    var z := Inv(x, p);
    CongMul(x * y, 1, z, z, p);
    CongMul(x * z, 1, y, y, p);
    InvertPoly(x, y, z);
    assert (x * y) * z == (x * z) * y;
    CongCanonicalEqual(y, z, p);
  }

  lemma ReadPrefix(us: seq<int>, u: int, r: Option<(seq<int>, Log)>)
    ensures PrependUs(us, PrependUs([u], r)) == PrependUs(us + [u], r)
  {
    if r.Some? {
      assert us + ([u] + r.value.0) == us + [u] + r.value.0;
    }
  }

  function PrependUs(us: seq<int>, r: Option<(seq<int>, Log)>): Option<(seq<int>, Log)> {
    match r
    case None => None
    case Some((rest, log)) => Some((us + rest, log))
  }

  /** Reads the challenges back, stopping at the first identity point. */
  method ReadChallenges(tape: Tape, Ls: seq<int>, Rs: seq<int>, p: Modulus) returns (r: Option<seq<int>>)
    modifies tape
    ensures match ReadRounds(tape.oracle, old(tape.log), Ls, Rs, p)
      case None => r == None
      case Some((us, log)) => r == Some(us) && tape.log == log
  {
    var us: seq<int> := [];
    var i := 0;
    ghost var all := ReadRounds(tape.oracle, tape.log, Ls, Rs, p);
    assert Ls[0..] == Ls && Rs[0..] == Rs;
    if all.Some? {
      assert [] + all.value.0 == all.value.0;
    }
    while i < |Ls| && i < |Rs|
      invariant 0 <= i <= |Ls| && i <= |Rs|
      invariant all == PrependUs(us, ReadRounds(tape.oracle, tape.log, Ls[i..], Rs[i..], p))
    {
      ghost var log := tape.log;
      if Ls[i] == 0 {
        return None;
      }
      tape.Append(Point("L", Ls[i]));
      if Rs[i] == 0 {
        return None;
      }
      tape.Append(Point("R", Rs[i]));
      assert tape.log == RoundLog(log, Ls[i], Rs[i]);
      var u := tape.ChallengeScalar("u", p);
      assert Ls[i..][1..] == Ls[i + 1..] && Rs[i..][1..] == Rs[i + 1..];
      ReadPrefix(us, u, ReadRounds(tape.oracle, tape.log, Ls[i + 1..], Rs[i + 1..], p));
      us := us + [u];
      i := i + 1;
    }
    assert us + [] == us;
    r := Some(us);
  }

  /** The squares of the challenges, of their inverses, and the scalars of the original generators. */
  method VerificationScalars(tape: Tape, Ls: seq<int>, Rs: seq<int>, p: Modulus) returns (r: ScalarsResult)
    requires Prime(p)
    modifies tape
    ensures match ReadRounds(tape.oracle, StartLog(old(tape.log), Pow2(|Ls|)), Ls, Rs, p)
      case None => r == Identity
      case Some((us, log)) =>
        if |us| < |Ls| then r == OutOfRange
        else tape.log == log && r == Scalars(Squares(us, p), Squares(InversesOrZero(us, p), p),
                                             Grow(Squares(us, p), Inv(NonZeroProduct(us, p), p), p))
  {
    hide Mod, Inv, NonZeroProduct, ReadRounds;
    tape.Append(Number("IPA input length n", Pow2(|Ls|)));
    var read := ReadChallenges(tape, Ls, Rs, p);
    if read == None {
      return Identity;
    }
    var us := read.value;
    var inv := new int[|us|](i requires 0 <= i < |us| => us[i]);
    assert inv[..] == us;
    var allinv := BatchInvert(inv, p);
    if |us| < |Ls| {
      return OutOfRange;
    }
    var squares, inverseSquares := us, inv[..];
    for i := 0 to |us|
      invariant |squares| == |inverseSquares| == |us|
      invariant forall j :: 0 <= j < i
                  ==> squares[j] == Squares(us, p)[j] && inverseSquares[j] == Squares(inv[..], p)[j]
      invariant forall j :: i <= j < |us| ==> squares[j] == us[j] && inverseSquares[j] == inv[j]
    {
      squares := squares[i := Mod(squares[i] * squares[i], p)];
      inverseSquares := inverseSquares[i := Mod(inverseSquares[i] * inverseSquares[i], p)];
    }
    assert squares == Squares(us, p) && inverseSquares == Squares(inv[..], p);
    var s := GrowScalars(squares, allinv, p);
    r := Scalars(squares, inverseSquares, s);
  }

  /** Grows the scalars one by one from the product of the inverses. */
  method GrowScalars(squares: seq<int>, allinv: int, p: Modulus) returns (s: seq<int>)
    ensures s == Grow(squares, allinv, p)
  {
    hide Mod, Grow, FloorLog, Pow2;
    var n := Pow2(|squares|);
    s := [allinv];
    GrowFirst(squares, allinv, p);
    for i := 1 to n
      invariant s == Grow(squares, allinv, p)[..i]
    {
      var j := FloorLog(i);
      GrowAt(squares, allinv, i, p);
      s := s + [Mod(squares[|squares| - 1 - j] * s[i - Pow2(j)], p)];
    }
  }

  lemma {:induction false} GrowFirst(squares: seq<int>, s0: int, p: Modulus)
    ensures Grow(squares, s0, p)[0] == s0
  {
    if |squares| == 0 {
    } else {
      GrowFirst(squares[1..], s0, p);
    }
  }

  /** The verifier: one multi-scalar product compared with the proof's B. */
  method VerifyProof(tape: Tape, pf: Proof, Gf: seq<int>, Hf: seq<int>, P: int, gens: Gens, G: seq<int>, H: seq<int>,
                     p: Modulus)
    returns (v: Verdict)
    requires Prime(p)
    modifies tape
    ensures v == Verify(tape.oracle, old(tape.log), pf, Gf, Hf, P, gens, G, H, p)
  {
    hide Mod, Inv, NonZeroProduct, ReadRounds, Dot, Grow, EqScalars, EqBases;
    var sc := VerificationScalars(tape, pf.Ls, pf.Rs, p);
    match sc
    case Identity => v := Reject;
    case OutOfRange => v := Panic;
    case Scalars(squares, inverseSquares, s) =>
      ghost var log := tape.log;
      if pf.A == 0 {
        return Reject;
      }
      tape.Append(Point("A", pf.A));
      if pf.B == 0 {
        return Reject;
      }
      tape.Append(Point("B", pf.B));
      assert log + [Point("A", pf.A)] + [Point("B", pf.B)] == LastLog(log, pf.A, pf.B);
      var e := tape.ChallengeScalar("e", p);
      var scalars := EqScalars(pf, e, squares, inverseSquares, s, Gf, Hf, |G|, p);
      var bases := EqBases(pf, P, gens, G, H);
      if |scalars| != |bases| {
        return Panic;
      }
      v := if Mod(Dot(scalars, bases), p) == pf.B then Accept else Reject;
  }
}
