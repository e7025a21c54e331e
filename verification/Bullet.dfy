/**
 The folding argument for a dot product with a public vector.  It is the halving loop with one
 family of generators and a plain second vector: the other family is all zero.
 */
module Bullet {
  import opened PowersOfTwo
  import opened PrimeField
  import opened Vectors
  import opened Tensor
  import opened Transcript
  import opened IpaBases
  import opened IpaSpec
  import opened IpaVerify
  import opened IpaComplete
  import opened IpaProver
  import opened IpaVerifier

  /** Bases Q for the inner product and H for the blinding. */
  function BulletState(G: seq<int>, a: seq<int>, b: seq<int>, blind: int, log: Log): State {
    State(G, Const(|G|, 0), a, b, blind, log)
  }

  /** <a, G> + <a, b> Q + blind H */
  function BulletCommit(Q: int, H: int, a: seq<int>, b: seq<int>, G: seq<int>, blind: int, p: Modulus): int
    requires |a| == |b| == |G|
  {
    Mod(Dot(a, G) + Dot(a, b) * Q + blind * H, p)
  }

  // ---------- verifier ----------

  /** Abort stands for a failed assertion or inversion. */
  datatype Hats = InternalError | Abort | Hats(G: int, Gamma: int, a: int)

  /** Challenges recomputed from the proof; points are absorbed as they are. */
  function ReadAll(oracle: Oracle, log: Log, Ls: seq<int>, Rs: seq<int>, p: Modulus): (r: (seq<int>, Log))
    ensures |r.0| == (if |Ls| <= |Rs| then |Ls| else |Rs|) && CanonicalV(r.0, p)
    decreases |Ls|
  {
    if |Ls| == 0 || |Rs| == 0 then ([], log) else
    var u := Challenge(oracle, RoundLog(log, Ls[0], Rs[0]), "u", p);
    var rest := ReadAll(oracle, RoundLog(log, Ls[0], Rs[0]) + [Draw("u")], Ls[1..], Rs[1..], p);
    ([u] + rest.0, rest.1)
  }

  /** `valid` says which compressed points are encodings; an encoding goes by the name of its point. */
  predicate AllValid(valid: int -> bool, points: seq<int>) {
    forall i :: 0 <= i < |points| ==> valid(points[i])
  }

  function VerifyHats(oracle: Oracle, log: Log, n: nat, a: seq<int>, Gamma: int, Ls: seq<int>, Rs: seq<int>,
                      G: seq<int>,
                      valid: int -> bool, p: Modulus): Hats
    requires Prime(p)
  {
    if |Ls| >= 32 || n != Pow2(|Ls|) then InternalError else
    var us := ReadAll(oracle, log, Ls, Rs, p).0;
    if |us| < |Ls| || 0 in us then Abort else
    var s := Grow(Squares(us, p), Inv(NonZeroProduct(us, p), p), p);
    if !AllValid(valid, Ls) || !AllValid(valid, Rs) then InternalError else
    if |G| != n || |a| != n || |Rs| != |Ls| then Abort else
    Hats(Mod(Dot(s, G), p),
         Mod(Dot(Squares(us, p) + Squares(InversesOrZero(us, p), p) + [1], Ls + Rs + [Gamma]), p),
         Mod(Dot(a, s), p))
  }

  lemma {:induction false} ReadBullet(oracle: Oracle, gens: Gens, st: State, blinds: seq<(int, int)>, p: Modulus)
    requires Prime(p) && Sized(st, |blinds|) && Reduce(oracle, gens, st, blinds, p).Some?
    ensures var r := Reduce(oracle, gens, st, blinds, p).value;
      ReadAll(oracle, st.log, r.Ls, r.Rs, p) == (r.us, r.log)
    decreases |blinds|
  {
    hide Reduce, Next, Left, Right;
    if |blinds| == 0 {
      ReduceBase(oracle, gens, st, p);
    } else {
      var L, R, u, w, st', r := Unroll(oracle, gens, st, blinds, p);
      ReadBullet(oracle, gens, st', blinds[1..], p);
      NextLog(st, L, R, u, w, blinds[0], p);
      assert ([L] + r.Ls)[1..] == r.Ls && ([R] + r.Rs)[1..] == r.Rs;
    }
  }

  /** The scalars applied to the second vector give its folded entry, as they do for the generators. */
  lemma {:induction false} SpreadFoldsPlain(oracle: Oracle, gens: Gens, st: State, blinds: seq<(int, int)>, p: Modulus)
    requires Prime(p) && Sized(st, |blinds|) && Reduce(oracle, gens, st, blinds, p).Some?
    ensures var r := Reduce(oracle, gens, st, blinds, p).value;
      NonZero(r.us, p) && Cong(Dot(Spread(r.us, Inverses(r.us, p), p), st.b), r.b, p)
    decreases |blinds|
  {
    hide Dot, Fold, Mod, Inv, Left, Right, Reduce, Inverses;
    if |blinds| == 0 {
      ReduceBase(oracle, gens, st, p);
      assert st.b == [st.b[0]];
      DotSingle(1, st.b[0]);
    } else {
      var L, R, u, w, st', r := Unroll(oracle, gens, st, blinds, p);
      SpreadFoldsPlain(oracle, gens, st', blinds[1..], p);
      var us, ws := r.us, Inverses(r.us, p);
      SpreadCons(u, us, p);
      SpreadStep(Spread(us, ws, p), st.b, u, w, p);
    }
  }

  /** The unused generators stay zero. */
  lemma {:induction false} ZeroStaysZero(oracle: Oracle, gens: Gens, st: State, blinds: seq<(int, int)>, p: Modulus)
    requires Prime(p) && Sized(st, |blinds|) && Reduce(oracle, gens, st, blinds, p).Some? && st.h == Const(|st.g|, 0)
    ensures Reduce(oracle, gens, st, blinds, p).value.h == 0
    decreases |blinds|
  {
    hide Dot, Mod, Inv, Left, Right, Reduce, Fold;
    if |blinds| == 0 {
      ReduceBase(oracle, gens, st, p);
    } else {
      var L, R, u, w, st', r := Unroll(oracle, gens, st, blinds, p);
      FoldZero(|st.g|, u, w, p);
      ZeroStaysZero(oracle, gens, st', blinds[1..], p);
    }
  }

  lemma FoldZero(n: nat, x: int, y: int, p: Modulus)
    requires n % 2 == 0
    ensures Fold(Const(n, 0), x, y, p) == Const(n / 2, 0)
  {
    hide Mod;
    assert Mod(0, p) == 0 by { CanonicalIs(0, p); }
  }

  /**
   For an honest run the verifier returns exactly what the prover holds at the end: the folded generator,
   the folded commitment and the folded entry of the public vector.
   */
  lemma BulletVerdict(oracle: Oracle, log: Log, Q: int, H: int, G: seq<int>, a: seq<int>, b: seq<int>, blind: int,
                      blinds: seq<(int, int)>, valid: int -> bool, p: Modulus)
    requires Prime(p) && |G| == |a| == |b| == Pow2(|blinds|) && |blinds| < 32
    requires Reduce(oracle, Gens(Q, H), BulletState(G, a, b, blind, log), blinds, p).Some?
    ensures var r := Reduce(oracle, Gens(Q, H), BulletState(G, a, b, blind, log), blinds, p).value;
      AllValid(valid, r.Ls) && AllValid(valid, r.Rs) ==>
      VerifyHats(oracle, log, |G|, b, BulletCommit(Q, H, a, b, G, blind, p), r.Ls, r.Rs, G, valid, p)
        == Hats(Mod(r.g, p), Mod(r.a * r.g + r.a * r.b * Q + r.alpha * H, p), Mod(r.b, p))
  {
    hide *;
    var gens, st := Gens(Q, H), BulletState(G, a, b, blind, log);
    StateParts(G, a, b, blind, log, |blinds|);
    var r := Reduce(oracle, gens, st, blinds, p).value;
    ReadBullet(oracle, gens, st, blinds, p);
    SpreadFolds(oracle, gens, st, blinds, p);
    SpreadFoldsPlain(oracle, gens, st, blinds, p);
    ReduceKeeps(oracle, gens, st, blinds, p);
    ZeroStaysZero(oracle, gens, st, blinds, p);
    GammaHat(r, Q, H, a, b, G, blind, log, p);
    if AllValid(valid, r.Ls) && AllValid(valid, r.Rs) {
      HatsOf(oracle, log, r, b, BulletCommit(Q, H, a, b, G, blind, p), G, valid, p);
    }
  }

  lemma StateParts(G: seq<int>, a: seq<int>, b: seq<int>, blind: int, log: Log, k: nat)
    requires |G| == |a| == |b| == Pow2(k)
    ensures BulletState(G, a, b, blind, log) == State(G, Const(|G|, 0), a, b, blind, log) &&
            Sized(BulletState(G, a, b, blind, log), k)
  {
  }

  /** What the verifier returns on the challenges of a run. */
  lemma HatsOf(oracle: Oracle, log: Log, r: Reduction, b: seq<int>, Gamma: int, G: seq<int>, valid: int -> bool,
               p: Modulus)
    requires AllValid(valid, r.Ls) && AllValid(valid, r.Rs)
    requires Prime(p) && NonZero(r.us, p) && |r.Ls| == |r.Rs| == |r.us| < 32 && |G| == |b| == Pow2(|r.us|)
    requires ReadAll(oracle, log, r.Ls, r.Rs, p) == (r.us, r.log)
    requires Cong(Dot(Spread(r.us, Inverses(r.us, p), p), G), r.g, p) &&
             Cong(Dot(Spread(r.us, Inverses(r.us, p), p), b), r.b, p)
    ensures VerifyHats(oracle, log, |G|, b, Gamma, r.Ls, r.Rs, G, valid, p)
         == Hats(Mod(r.g, p), Mod(Dot(Squares(r.us, p) + Squares(Inverses(r.us, p), p) + [1], r.Ls + r.Rs + [Gamma]),
                                  p), Mod(r.b, p))
  {
    hide Dot, Mod, Inv, Grow, Spread, ReadAll, Squares, Inverses, Pow2, NonZeroProduct, InversesOrZero;
    GrowIsSpread(r.us, p);
    OnlyForZeros(r.us, p);
    InversesNonZero(r.us, p);
    DotComm(b, Spread(r.us, Inverses(r.us, p), p));
  }

  lemma GammaHat(r: Reduction, Q: int, H: int, a: seq<int>, b: seq<int>, G: seq<int>, blind: int, log: Log, p: Modulus)
    requires Prime(p) && NonZero(r.us, p) && |r.Ls| == |r.Rs| == |r.us| && |a| == |b| == |G| && r.h == 0
    requires Cong(Committed(Gens(Q, H), BulletState(G, a, b, blind, log)) + PairSum(r, p), FinalCommit(r, Gens(Q, H)),
                  p)
    ensures Mod(Dot(Squares(r.us, p) + Squares(Inverses(r.us, p), p) + [1],
                    r.Ls + r.Rs + [BulletCommit(Q, H, a, b, G, blind, p)]), p)
         == Mod(r.a * r.g + r.a * r.b * Q + r.alpha * H, p)
  {
    hide Mod, Dot, Inv, Squares, Inverses;
    var x, y, g := Squares(r.us, p), Squares(Inverses(r.us, p), p), BulletCommit(Q, H, a, b, G, blind, p);
    DotConcat(x, r.Ls, y, r.Rs);
    DotSnoc(x + y, r.Ls + r.Rs, 1, g);
    DotZero(|b|, b);
    var c := Dot(a, G) + Dot(a, b) * Q + blind * H;
    ModCong(c, p);
    CongSum(Dot(x + y + [1], r.Ls + r.Rs + [g]), c + PairSum(r, p), g, c, PairSum(r, p), PairSum(r, p), p);
  }

  // ---------- prover ----------

  /** A cross term over deferred generators. */
  method BulletCross(a: seq<int>, b: seq<int>, g: IPABases, Q: int, H: int, d: int, p: Modulus) returns (L: int)
    requires g.Valid() && |a| == |b| == |g.bases|
    ensures L == Cross(Gens(Q, H), a, b, g.Value(p), Const(|a|, 0), d, p)
  {
    hide Mod, Dot, Cross, Denote, Flat, FlatScaled;
    var c := InnerProduct(a, b, p);
    var s1, b1 := g.Get(a, p);
    GetDenotes(a, g.scalars, g.bases, p);
    L := Msm(s1 + [c] + [d], b1 + [Q] + [H], p);
    DotNone();
    DotZero(|b|, b);
    MsmIsCross(Gens(Q, H), s1, b1, [], [], a, b, g.Value(p), Const(|a|, 0), d, p);
    assert s1 + [] == s1 && b1 + [] == b1;
  }

  method BulletCrosses(a: seq<int>, b: seq<int>, gL: IPABases, gR: IPABases, Q: int, H: int, d: (int, int),
                       ghost st: State, p: Modulus)
    returns (L: int, R: int)
    requires gL.Valid() && gR.Valid() && |a| == |b| == 2 * |gL.bases| && |gL.bases| == |gR.bases|
    requires st.a == a && st.b == b && st.g == gL.Value(p) + gR.Value(p) && st.h == Const(|a|, 0)
    ensures L == Left(Gens(Q, H), st, d.0, p) && R == Right(Gens(Q, H), st, d.1, p)
  {
    hide Mod, Dot, Denote, Cross;
    var n := |a| / 2;
    L := BulletCross(a[..n], b[n..], gR, Q, H, d.0, p);
    R := BulletCross(a[n..], b[..n], gL, Q, H, d.1, p);
    ConstHalves(2 * n);
    assert st.g[..n] == gL.Value(p) && st.g[n..] == gR.Value(p);
  }

  ghost predicate BulletHolds(st: State, gB: IPABases, a: array<int>, b: array<int>, n: nat, blind: int, log: Log,
                              p: Modulus)
    reads gB, a, b
  {
    gB.Valid() && |gB.bases| == n && n <= a.Length && n <= b.Length &&
    st == State(gB.Value(p), Const(n, 0), a[..n], b[..n], blind, log)
  }

  method BulletRound(tape: Tape, Q: int, H: int, gB: IPABases, a: array<int>, b: array<int>, n: nat, blind: int,
                     d: (int, int),
                     ghost terms: nat, ghost st: State, p: Modulus)
    returns (ok: bool, L: int, R: int, blind': int, gL: IPABases, ghost u: int)
    requires Prime(p) && a != b && n % 2 == 0 && BulletHolds(st, gB, a, b, n, blind, tape.log, p) &&
             Width(gB.scalars, terms)
    modifies tape, a, b
    ensures L == Left(Gens(Q, H), st, d.0, p) && R == Right(Gens(Q, H), st, d.1, p)
    ensures u == Challenge(tape.oracle, RoundLog(st.log, L, R), "u", p) && (ok <==> u != 0)
    ensures fresh(gL)
    ensures ok ==> BulletHolds(Next(st, L, R, u, Inv(u, p), d, p), gL, a, b, n / 2, blind', tape.log, p) &&
                   Width(gL.scalars, 2 * terms)
  {
    hide Mod, Dot, Fold, Denote, Left, Right;
    var gR: IPABases;
    gL, gR := Halve(gB, n, terms, p);
    L, R := BulletCrosses(a[..n], b[..n], gL, gR, Q, H, d, st, p);
    tape.Append(Point("L", L));
    tape.Append(Point("R", R));
    assert tape.log == RoundLog(st.log, L, R);
    var c := tape.ChallengeScalar("u", p);
    ok, u, blind' := c != 0, c, blind;
    if ok {
      var w := Inv(c, p);
      FoldInPlace(a, n / 2, c, w, p);
      FoldInPlace(b, n / 2, w, c, p);
      DeferAll(gL, gR, n / 2, w, c, terms, p);
      blind' := Mod(blind + c * c * d.0 + w * w * d.1, p);
      FoldZero(n, c, w, p);
    }
  }

  lemma ConstHalves(n: nat)
    requires n % 2 == 0
    ensures Const(n, 0)[..n / 2] == Const(n / 2, 0) && Const(n, 0)[n / 2..] == Const(n / 2, 0)
  {
  }

  /** What the prover returns for a run of the halving loop. */
  ghost predicate Sent(r: Reduction, Q: int, H: int, Ls: seq<int>, Rs: seq<int>, GammaHat: int, aHat: int, bHat: int,
                       G0: int,
                       blindFin: int, p: Modulus) {
    Ls == r.Ls && Rs == r.Rs && aHat == r.a && bHat == r.b && G0 == Mod(r.g, p) && blindFin == r.alpha &&
    GammaHat == Mod(r.a * r.g + r.a * r.b * Q + r.alpha * H, p)
  }

  /** The exponent of a power of two. */
  function ExactLog(n: nat): (k: Option<nat>)
    ensures k.Some? ==> n == Pow2(k.value)
  {
    if n == 1 then Some(0)
    else if n == 0 || n % 2 == 1 then None
    else match ExactLog(n / 2) case None => None case Some(k) => Some(k + 1)
  }

  lemma {:induction false} ExactLogOf(k: nat)
    ensures ExactLog(Pow2(k)) == Some(k)
  {
    if k == 0 {
    } else {
      ExactLogOf(k - 1);
      assert Pow2(k) / 2 == Pow2(k - 1);
    }
  }

  /**
   The halving loop behind its assertions: n is a power of two, all lengths agree, and there are
   2 lg n pairs of blinds, of which the loop takes the first half.
   */
  function AssertedReduce(oracle: Oracle, log: Log, Q: int, H: int, G: seq<int>, a: seq<int>, b: seq<int>, blind: int,
                          blinds: seq<(int, int)>, p: Modulus): Option<Reduction>
    requires Prime(p)
  {
    match ExactLog(|G|)
    case None => None
    case Some(k) =>
      if |a| != |G| || |b| != |G| || |blinds| != 2 * k then None
      else Reduce(oracle, Gens(Q, H), BulletState(G, a, b, blind, log), blinds[..k], p)
  }

  /** With proper lengths the assertions pass, and only the first half of the blinds is used. */
  lemma AssertionsPass(oracle: Oracle, log: Log, Q: int, H: int, G: seq<int>, a: seq<int>, b: seq<int>, blind: int,
                       blinds: seq<(int, int)>, k: nat, p: Modulus)
    requires Prime(p) && |G| == |a| == |b| == Pow2(k) && |blinds| == 2 * k
    ensures AssertedReduce(oracle, log, Q, H, G, a, b, blind, blinds, p)
         == Reduce(oracle, Gens(Q, H), BulletState(G, a, b, blind, log), blinds[..k], p)
  {
    hide Reduce, Pow2, ExactLog;
    ExactLogOf(k);
  }

  /** The halving loop: deferred generators, never collapsed; one pair of blinds for each round. */
  method ProveHalving(tape: Tape, Q: int, G: seq<int>, H: int, a: array<int>, b: array<int>, blind: int,
                      blinds: seq<(int, int)>, p: Modulus)
    returns (ok: bool, Ls: seq<int>, Rs: seq<int>, GammaHat: int, aHat: int, bHat: int, G0: int, blindFin: int)
    requires Prime(p) && a != b && |G| == a.Length == b.Length == Pow2(|blinds|) && CanonicalV(G, p)
    modifies tape, a, b
    ensures match Reduce(tape.oracle, Gens(Q, H), BulletState(G, old(a[..]), old(b[..]), blind, old(tape.log)),
                         blinds, p)
      case None => !ok
      case Some(r) => ok && tape.log == r.log && Sent(r, Q, H, Ls, Rs, GammaHat, aHat, bHat, G0, blindFin, p)
  {
    hide Mod, Dot, Fold, Left, Right, Denote, Reduce, Pow2, Next;
    var gB := InitBases(Const(|G|, 1), G, p);
    UnitFactors(G, p);
    var n, k := a.Length, 0;
    ok, blindFin, Ls, Rs := true, blind, [], [];
    ghost var us: seq<int>, terms: nat := [], 1;
    ghost var gens, st := Gens(Q, H), BulletState(G, a[..], b[..], blind, tape.log);
    ghost var all := Reduce(tape.oracle, gens, st, blinds, p);
    assert a[..n] == a[..] && b[..n] == b[..] && blinds[0..] == blinds;
    PrependNothing(all);
    GammaHat, aHat, bHat, G0 := 0, 0, 0, 0;
    while k < |blinds|
      invariant 0 <= k <= |blinds| && n == Pow2(|blinds| - k) && fresh(gB)
      invariant BulletHolds(st, gB, a, b, n, blindFin, tape.log, p) && Sized(st, |blinds| - k) &&
                Width(gB.scalars, terms)
      invariant all == PrependAll(Ls, Rs, us, Reduce(tape.oracle, gens, st, blinds[k..], p))
    {
      HalfPow2(|blinds| - k);
      var L, R;
      ghost var u;
      ok, L, R, blindFin, gB, u := BulletRound(tape, Q, H, gB, a, b, n, blindFin, blinds[k], terms, st, p);
      ReduceStep(tape.oracle, gens, st, blinds[k..], L, R, u, p);
      if !ok {
        return;
      }
      assert blinds[k..][1..] == blinds[k + 1..];
      st := Next(st, L, R, u, Inv(u, p), blinds[k], p);
      PrependAllStep(Ls, Rs, us, L, R, u, Reduce(tape.oracle, gens, st, blinds[k + 1..], p));
      Ls, Rs, us := Ls + [L], Rs + [R], us + [u];
      n, terms, k := n / 2, terms * 2, k + 1;
    }
    assert blinds[k..] == [];
    ReduceBase(tape.oracle, gens, st, p);
    aHat, bHat := a[0], b[0];
    G0 := OneBase(gB, p);
    GammaHat := Msm([aHat, Mod(aHat * bHat, p), blindFin], [G0, Q, H], p);
    LastGamma(aHat, bHat, st.g[0], blindFin, Q, H, p);
  }

  /** The prover. */
  method ProveBullet(tape: Tape, Q: int, G: seq<int>, H: int, a: array<int>, b: array<int>, blind: int,
                     blinds: seq<(int, int)>, p: Modulus)
    returns (ok: bool, Ls: seq<int>, Rs: seq<int>, GammaHat: int, aHat: int, bHat: int, G0: int, blindFin: int)
    requires Prime(p) && a != b && CanonicalV(G, p)
    modifies tape, a, b
    ensures match AssertedReduce(tape.oracle, old(tape.log), Q, H, G, old(a[..]), old(b[..]), blind, blinds, p)
      case None => !ok
      case Some(r) => ok && tape.log == r.log && Sent(r, Q, H, Ls, Rs, GammaHat, aHat, bHat, G0, blindFin, p)
  {
    hide Mod, Reduce, Sent, Pow2;
    ok, Ls, Rs, GammaHat, aHat, bHat, G0, blindFin := false, [], [], 0, 0, 0, 0, 0;
    match ExactLog(|G|) {
      case None =>
      case Some(k) =>
        if a.Length == |G| && b.Length == |G| && |blinds| == 2 * k {
          ok, Ls, Rs, GammaHat, aHat, bHat, G0, blindFin := ProveHalving(tape, Q, G, H, a, b, blind, blinds[..k], p);
        }
    }
  }

  /** The remaining base, made explicit. */
  method OneBase(gB: IPABases, p: Modulus) returns (G0: int)
    requires gB.Valid() && |gB.bases| == 1
    ensures G0 == Mod(gB.Value(p)[0], p)
  {
    hide Mod, Dot, Denote, Flat, FlatScaled;
    var s, b := gB.Get([1], p);
    GetDenotes([1], gB.scalars, gB.bases, p);
    G0 := Msm(s, b, p);
    assert gB.Value(p) == [gB.Value(p)[0]];
    DotSingle(1, gB.Value(p)[0]);
  }

  lemma LastGamma(a: int, b: int, g: int, blind: int, Q: int, H: int, p: Modulus)
    ensures Msm([a, Mod(a * b, p), blind], [Mod(g, p), Q, H], p) == Mod(a * g + a * b * Q + blind * H, p)
  {
    hide Mod, Dot;
    var ab, ag, z := a * b, a * g, blind * H;
    ThreeTerms(a, Mod(ab, p), blind, Mod(g, p), Q, H, z);
    ModCong(g, p);
    ModCong(ab, p);
    CongScale(a, Mod(g, p), g, p);
    CongMul(Mod(ab, p), ab, Q, Q, p);
    CongSum(a * Mod(g, p) + Mod(ab, p) * Q, ag + ab * Q, a * Mod(g, p), ag, Mod(ab, p) * Q, ab * Q, p);
    CongSum(Dot([a, Mod(ab, p), blind], [Mod(g, p), Q, H]), ag + ab * Q + z, a * Mod(g, p) + Mod(ab, p) * Q,
            ag + ab * Q, z, z, p);
  }

  lemma ThreeTerms(x: int, y: int, z: int, x': int, y': int, z': int, last: int)
    requires last == z * z'
    ensures Dot([x, y, z], [x', y', z']) == x * x' + y * y' + last
  {
    hide Dot;
    DotSingle(x, x');
    DotSnoc([x], [x'], y, y');
    DotSnoc([x, y], [x', y'], z, z');
    assert [x] + [y] == [x, y] && [x'] + [y'] == [x', y'] && [x, y] + [z] == [x, y, z] &&
           [x', y'] + [z'] == [x', y', z'];
  }

  // ---------- the verifier's scalars ----------

  /** Inverts every entry with one field inversion; fails when some entry is zero. */
  method BatchInvertAll(inputs: array<int>, p: Modulus) returns (ok: bool, allinv: int)
    requires Prime(p) && CanonicalV(inputs[..], p)
    modifies inputs
    ensures ok <==> 0 !in old(inputs[..])
    ensures ok ==> inputs[..] == InversesOrZero(old(inputs[..]), p) &&
                   allinv == Inv(NonZeroProduct(old(inputs[..]), p), p)
  {
    hide Mod, Inv, NonZeroProduct, InversesOrZero;
    var scratch := new int[inputs.Length](_ => 1);
    var acc := ForwardProducts(inputs, scratch, p);
    ok, allinv := acc != 0, 0;
    if ok {
      allinv := Inv(acc, p);
      BackwardInverses(inputs, scratch, allinv, p);
    }
  }

  /** scratch[i] becomes the product of the entries before i. */
  method ForwardProducts(inputs: array<int>, scratch: array<int>, p: Modulus) returns (acc: int)
    requires Prime(p) && CanonicalV(inputs[..], p) && scratch.Length == inputs.Length && scratch != inputs
    modifies scratch
    ensures Canonical(acc, p) && (acc == 0 <==> 0 in inputs[..])
    ensures acc != 0 ==> acc == NonZeroProduct(inputs[..], p)
    ensures acc != 0 ==> forall j :: 0 <= j < inputs.Length ==> scratch[j] == NonZeroProduct(inputs[..j], p)
  {
    hide Mod, Inv, NonZeroProduct;
    acc := 1;
    ProductEmpty(p);
    for i := 0 to inputs.Length
      invariant Canonical(acc, p) && (acc == 0 <==> 0 in inputs[..i])
      invariant acc != 0 ==> acc == NonZeroProduct(inputs[..i], p)
      invariant acc != 0 ==> forall j :: 0 <= j < i ==> scratch[j] == NonZeroProduct(inputs[..j], p)
    {
      NextProduct(inputs[..], i, acc, p);
      assert inputs[..][..i] == inputs[..i] && inputs[..][..i + 1] == inputs[..i + 1];
      scratch[i] := acc;
      acc := Mod(acc * inputs[i], p);
    }
    assert inputs[..inputs.Length] == inputs[..];
  }

  /** Turns every entry into its inverse, from the last to the first. */
  method BackwardInverses(inputs: array<int>, scratch: array<int>, allinv: int, p: Modulus)
    requires Prime(p) && CanonicalV(inputs[..], p) && scratch.Length == inputs.Length && scratch != inputs &&
             0 !in inputs[..]
    requires allinv == Inv(NonZeroProduct(inputs[..], p), p)
    requires forall j :: 0 <= j < inputs.Length ==> scratch[j] == NonZeroProduct(inputs[..j], p)
    modifies inputs
    ensures inputs[..] == InversesOrZero(old(inputs[..]), p)
  {
    hide Mod, Inv, NonZeroProduct;
    ghost var v0 := inputs[..];
    var acc := allinv;
    var i := inputs.Length;
    assert v0[..i] == v0 && forall j :: 0 <= j < i ==> v0[..j] == inputs[..j];
    while i > 0
      invariant 0 <= i <= inputs.Length
      invariant 0 < acc < p && Cong(NonZeroProduct(v0[..i], p) * acc, 1, p)
      invariant forall j :: 0 <= j < i ==> inputs[j] == v0[j]
      invariant forall j :: i <= j < inputs.Length ==> inputs[j] == InvOrZero(v0[j], p)
    {
      i := i - 1;
      ProductNext(v0, i, p);
      assert v0[i] in v0;
      InvertStep(scratch[i], v0[i], acc, p);
      var tmp := Mod(acc * inputs[i], p);
      inputs[i] := Mod(scratch[i] * acc, p);
      acc := tmp;
    }
  }

  lemma NextProduct(v: seq<int>, i: nat, acc: int, p: Modulus)
    requires Prime(p) && CanonicalV(v, p) && i < |v| && Canonical(acc, p)
    requires acc == 0 <==> 0 in v[..i]
    requires acc != 0 ==> acc == NonZeroProduct(v[..i], p)
    ensures var acc' := Mod(acc * v[i], p);
      (acc' == 0 <==> 0 in v[..i + 1]) && (acc' != 0 ==> acc != 0 && acc' == NonZeroProduct(v[..i + 1], p))
  {
    hide Mod, NonZeroProduct;
    assert v[..i + 1] == v[..i] + [v[i]];
    if acc == 0 || v[i] == 0 {
      assert Mod(0, p) == 0 by { CanonicalIs(0, p); }
    } else {
      ProductNext(v, i, p);
      ProductNonZero(acc, v[i], p);
    }
  }

  /** The verifier: one pass over the points, one batch inversion, three multi-scalar products. */
  method VerifyBullet(tape: Tape, n: nat, a: seq<int>, Gamma: int, Ls: seq<int>, Rs: seq<int>, G: seq<int>,
                      valid: int -> bool,
                      p: Modulus)
    returns (v: Hats)
    requires Prime(p)
    modifies tape
    ensures v == VerifyHats(tape.oracle, old(tape.log), n, a, Gamma, Ls, Rs, G, valid, p)
  {
    hide Mod, Inv, NonZeroProduct, Dot, Grow;
    if |Ls| >= 32 || n != Pow2(|Ls|) {
      return InternalError;
    }
    var us := ReadPoints(tape, Ls, Rs, p);
    var inv := new int[|us|](i requires 0 <= i < |us| => us[i]);
    assert inv[..] == us;
    var ok, allinv := BatchInvertAll(inv, p);
    if !ok || |us| < |Ls| {
      return Abort;
    }
    var squares, inverseSquares := Squares(us, p), Squares(inv[..], p);
    var s := GrowScalars(squares, allinv, p);
    if exists i :: 0 <= i < |Ls| && !valid(Ls[i]) {
      return InternalError;
    }
    if exists i :: 0 <= i < |Rs| && !valid(Rs[i]) {
      return InternalError;
    }
    if |G| != n || |a| != n || |Rs| != |Ls| {
      return Abort;
    }
    var aHat := InnerProduct(a, s, p);
    v := Hats(Msm(s, G, p), Msm(squares + inverseSquares + [1], Ls + Rs + [Gamma], p), aHat);
  }

  method ReadPoints(tape: Tape, Ls: seq<int>, Rs: seq<int>, p: Modulus) returns (us: seq<int>)
    modifies tape
    ensures (us, tape.log) == ReadAll(tape.oracle, old(tape.log), Ls, Rs, p)
  {
    hide Mod, ReadAll;
    us := [];
    var i := 0;
    ghost var all := ReadAll(tape.oracle, tape.log, Ls, Rs, p);
    assert Ls[0..] == Ls && Rs[0..] == Rs && [] + all.0 == all.0;
    while i < |Ls| && i < |Rs|
      invariant 0 <= i <= |Ls| && i <= |Rs|
      invariant var rest := ReadAll(tape.oracle, tape.log, Ls[i..], Rs[i..], p); all == (us + rest.0, rest.1)
    {
      ghost var log := tape.log;
      tape.Append(Point("L", Ls[i]));
      tape.Append(Point("R", Rs[i]));
      assert tape.log == RoundLog(log, Ls[i], Rs[i]);
      var u := tape.ChallengeScalar("u", p);
      assert Ls[i..][1..] == Ls[i + 1..] && Rs[i..][1..] == Rs[i + 1..];
      ReadStep(tape.oracle, log, Ls[i..], Rs[i..], p);
      ghost var rest := ReadAll(tape.oracle, tape.log, Ls[i + 1..], Rs[i + 1..], p);
      assert us + ([u] + rest.0) == us + [u] + rest.0;
      us := us + [u];
      i := i + 1;
    }
    ReadNone(tape.oracle, tape.log, Ls[i..], Rs[i..], p);
    assert us + [] == us;
  }

  lemma ReadStep(oracle: Oracle, log: Log, Ls: seq<int>, Rs: seq<int>, p: Modulus)
    requires |Ls| > 0 && |Rs| > 0
    ensures var u := Challenge(oracle, RoundLog(log, Ls[0], Rs[0]), "u", p);
      var rest := ReadAll(oracle, RoundLog(log, Ls[0], Rs[0]) + [Draw("u")], Ls[1..], Rs[1..], p);
      ReadAll(oracle, log, Ls, Rs, p) == ([u] + rest.0, rest.1)
  {
    hide Mod;
  }

  lemma ReadNone(oracle: Oracle, log: Log, Ls: seq<int>, Rs: seq<int>, p: Modulus)
    requires |Ls| == 0 || |Rs| == 0
    ensures ReadAll(oracle, log, Ls, Rs, p) == ([], log)
  {
  }
}
