/**
 The inner-product argument without hiding: the plain prover that materialises its generators in
 every round, the deferred prover, and the verifier that serves both.
 */
module IpaNoZk {
  import opened PowersOfTwo
  import opened PrimeField
  import opened Vectors
  import opened Tensor
  import opened Transcript
  import opened IpaBases
  import opened IpaSpec
  import opened IpaVerify
  import opened IpaComplete
  import opened IpaProver
  import opened IpaVerifier

  datatype PlainProof = PlainProof(Ls: seq<int>, Rs: seq<int>, a: int, b: int)

  function NoBlinds(k: nat): seq<(int, int)> {
    seq(k, i => (0, 0))
  }

  /** What both provers send: the halving loop without blinding. */
  function ProvePlain(oracle: Oracle, U: int, st: State, k: nat, p: Modulus): Option<(PlainProof, Log)>
    requires Prime(p) && Sized(st, k)
  {
    match Reduce(oracle, Gens(U, 0), st, NoBlinds(k), p)
    case None => None
    case Some(r) => Some((PlainProof(r.Ls, r.Rs, r.a, r.b), r.log))
  }

  // ---------- the plain prover ----------

  /** A cross term over materialised generators, with the first round's factors folded into the scalars. */
  lemma FactoredCross(a: seq<int>, gf: seq<int>, g: seq<int>, b: seq<int>, hf: seq<int>, h: seq<int>, U: int,
                      p: Modulus)
    requires |a| == |gf| == |g| == |b| == |hf| == |h|
    ensures Mod(Dot(ModV(Had(a, gf), p) + ModV(Had(b, hf), p) + [Mod(Dot(a, b), p)], g + h + [U]), p)
         == Cross(Gens(U, 0), a, b, ModV(Had(gf, g), p), ModV(Had(hf, h), p), 0, p)
  {
    hide Dot, Mod;
    var c := Mod(Dot(a, b), p);
    var x, y := ModV(Had(a, gf), p), ModV(Had(b, hf), p);
    DotConcat(x, g, y, h);
    DotSnoc(x + y, g + h, c, U);
    FactorMoves(a, gf, g, p);
    FactorMoves(b, hf, h, p);
    ModCong(Dot(a, b), p);
    TailCong(Dot(x + y + [c], g + h + [U]), Dot(x, g), Dot(a, ModV(Had(gf, g), p)), Dot(y, h),
             Dot(b, ModV(Had(hf, h), p)),
             c, Dot(a, b), 0, Gens(U, 0), p);
  }

  lemma FactorMoves(a: seq<int>, f: seq<int>, g: seq<int>, p: Modulus)
    requires |a| == |f| == |g|
    ensures Cong(Dot(ModV(Had(a, f), p), g), Dot(a, ModV(Had(f, g), p)), p)
  {
    hide Dot, Mod;
    DotModV(Had(a, f), g, p);
    DotHad(a, f, g);
    DotModV(a, Had(f, g), p);
  }

  lemma FactoredFoldEntry(x: int, f: int, g: int, y: int, f': int, g': int, p: Modulus)
    ensures Mod(Dot([Mod(x * f, p), Mod(y * f', p)], [g, g']), p) == Mod(x * Mod(f * g, p) + y * Mod(f' * g', p), p)
  {
    hide Mod, Dot;
    TwoTerms(Mod(x * f, p), Mod(y * f', p), g, g');
    FactoredTerm(x, f, g, p);
    FactoredTerm(y, f', g', p);
    CongSum(Dot([Mod(x * f, p), Mod(y * f', p)], [g, g']), x * Mod(f * g, p) + y * Mod(f' * g', p),
            Mod(x * f, p) * g, x * Mod(f * g, p), Mod(y * f', p) * g', y * Mod(f' * g', p), p);
  }

  lemma TwoTerms(x: int, y: int, g: int, g': int)
    ensures Dot([x, y], [g, g']) == x * g + y * g'
  {
    DotSingle(x, g);
    DotSnoc([x], [g], y, g');
    assert [x] + [y] == [x, y] && [g] + [g'] == [g, g'];
  }

  lemma FactoredTerm(x: int, f: int, g: int, p: Modulus)
    ensures Cong(Mod(x * f, p) * g, x * Mod(f * g, p), p)
  {
    hide Mod;
    ModCong(x * f, p);
    CongMul(Mod(x * f, p), x * f, g, g, p);
    ModCong(f * g, p);
    CongScale(x, Mod(f * g, p), f * g, p);
    InvertPoly(x, f, g);
    assert (x * f) * g == x * (f * g);
  }

  lemma FactoredFoldAt(f: seq<int>, g: seq<int>, x: int, y: int, i: nat, p: Modulus)
    requires |f| == |g| && |f| % 2 == 0 && i < |f| / 2
    ensures var n := |f| / 2;
      Fold(ModV(Had(f, g), p), x, y, p)[i] == Mod(Dot([Mod(x * f[i], p), Mod(y * f[n + i], p)], [g[i], g[n + i]]), p)
  {
    hide Mod, Dot, Fold;
    var n := |f| / 2;
    FoldAt(ModV(Had(f, g), p), x, y, i, p);
    FactoredFoldEntry(x, f[i], g[i], y, f[n + i], g[n + i], p);
  }

  /** Materialises the folded generators, each by a multi-scalar product of two terms. */
  method FoldGenerators(g: array<int>, n: nat, f: seq<int>, x: int, y: int, p: Modulus)
    requires 2 * n <= g.Length && |f| == 2 * n
    modifies g
    ensures g[..n] == Fold(ModV(Had(f, old(g[..2 * n])), p), x, y, p)
  {
    hide Mod, Dot, Fold, ModV, Had;
    ghost var g0 := g[..2 * n];
    ghost var v := ModV(Had(f, g0), p);
    HadLength(f, g0, p);
    for i := 0 to n
      invariant forall j :: 0 <= j < i ==> g[j] == Fold(v, x, y, p)[j]
      invariant forall j :: i <= j < 2 * n ==> g[j] == old(g[j])
    {
      FactoredFoldAt(f, g0, x, y, i, p);
      assert g[i] == g0[i] && g[n + i] == g0[n + i];
      g[i] := Msm([Mod(x * f[i], p), Mod(y * f[n + i], p)], [g[i], g[n + i]], p);
    }
    assert g[..n] == Fold(v, x, y, p);
  }

  lemma HadLength(f: seq<int>, g: seq<int>, p: Modulus)
    requires |f| == |g|
    ensures |ModV(Had(f, g), p)| == |f|
  {
  }

  /** Both cross terms over materialised generators g and h with pending factors gf and hf. */
  method PlainCross(a: seq<int>, b: seq<int>, gf: seq<int>, hf: seq<int>, g: seq<int>, h: seq<int>, U: int,
                    ghost st: State, p: Modulus) returns (L: int, R: int)
    requires |a| == |b| == |gf| == |hf| == |g| == |h| && |a| % 2 == 0
    requires st.a == a && st.b == b && st.g == ModV(Had(gf, g), p) && st.h == ModV(Had(hf, h), p)
    ensures L == Left(Gens(U, 0), st, 0, p) && R == Right(Gens(U, 0), st, 0, p)
  {
    hide Mod, Dot, Cross;
    var n := |a| / 2;
    var cL := InnerProduct(a[..n], b[n..], p);
    var cR := InnerProduct(a[n..], b[..n], p);
    L := Msm(ModV(Had(a[..n], gf[n..]), p) + ModV(Had(b[n..], hf[..n]), p) + [cL], g[n..] + h[..n] + [U], p);
    R := Msm(ModV(Had(a[n..], gf[..n]), p) + ModV(Had(b[..n], hf[n..]), p) + [cR], g[..n] + h[n..] + [U], p);
    FactoredCross(a[..n], gf[n..], g[n..], b[n..], hf[..n], h[..n], U, p);
    FactoredCross(a[n..], gf[..n], g[..n], b[..n], hf[n..], h[n..], U, p);
    FactoredHalves(gf, g, n, p);
    FactoredHalves(hf, h, n, p);
  }

  lemma FactoredHalves(f: seq<int>, g: seq<int>, n: nat, p: Modulus)
    requires n <= |f| == |g|
    ensures ModV(Had(f, g), p)[..n] == ModV(Had(f[..n], g[..n]), p)
    ensures ModV(Had(f, g), p)[n..] == ModV(Had(f[n..], g[n..]), p)
  {
    hide Mod;
  }

  /** One round on materialised generators. */
  method PlainRound(tape: Tape, U: int, gf: seq<int>, hf: seq<int>, g: array<int>, h: array<int>, a: array<int>,
                    b: array<int>,
                    n: nat, ghost st: State, p: Modulus)
    returns (ok: bool, L: int, R: int, ghost u: int)
    requires Prime(p) && n % 2 == 0 && |gf| == |hf| == n
    requires a != b && a != g && a != h && b != g && b != h && g != h
    requires n <= a.Length && n <= b.Length && n <= g.Length && n <= h.Length
    requires st == State(ModV(Had(gf, g[..n]), p), ModV(Had(hf, h[..n]), p), a[..n], b[..n], 0, tape.log)
    modifies tape, g, h, a, b
    ensures L == Left(Gens(U, 0), st, 0, p) && R == Right(Gens(U, 0), st, 0, p)
    ensures u == Challenge(tape.oracle, RoundLog(st.log, L, R), "u", p) && (ok <==> u != 0)
    ensures ok ==> Next(st, L, R, u, Inv(u, p), (0, 0), p) == State(g[..n / 2], h[..n / 2], a[..n / 2], b[..n / 2], 0,
                                                                    tape.log)
  {
    hide Mod, Dot, Fold, Left, Right, NextAlpha;
    L, R := PlainCross(a[..n], b[..n], gf, hf, g[..n], h[..n], U, st, p);
    tape.Append(Point("L", L));
    tape.Append(Point("R", R));
    assert tape.log == RoundLog(st.log, L, R);
    var c := tape.ChallengeScalar("u", p);
    ok, u := c != 0, c;
    if ok {
      var w := Inv(c, p);
      FoldInPlace(a, n / 2, c, w, p);
      FoldInPlace(b, n / 2, w, c, p);
      FoldGenerators(g, n / 2, gf, w, c, p);
      FoldGenerators(h, n / 2, hf, c, w, p);
      NoAlpha(c, w, p);
    }
  }

  lemma NoAlpha(u: int, w: int, p: Modulus)
    ensures NextAlpha(0, u, w, (0, 0), p) == 0
  {
    assert 0 + u * u * 0 + w * w * 0 == 0;
  }

  /**
   The plain prover.  Its first round absorbs the factors into the scalars; every later round
   works on the materialised generators alone.
   */
  method CreateOrig(tape: Tape, U: int, Gf: seq<int>, Hf: seq<int>, G: seq<int>, H: seq<int>, a: array<int>,
                    b: array<int>,
                    k: nat, p: Modulus)
    returns (proof: Option<PlainProof>)
    requires Prime(p) && a != b
    requires |G| == |H| == |Gf| == |Hf| == a.Length == b.Length == Pow2(k)
    modifies tape, a, b
    ensures match ProvePlain(tape.oracle, U, Start(G, H, Gf, Hf, old(a[..]), old(b[..]), 0, old(tape.log), p), k, p)
      case None => proof == None
      case Some((pf, log)) => proof == Some(pf) && tape.log == log
  {
    hide Mod, Dot, Fold, Left, Right, Reduce, Pow2, Next;
    var g := new int[|G|](i requires 0 <= i < |G| => G[i]);
    var h := new int[|H|](i requires 0 <= i < |H| => H[i]);
    assert g[..] == G && h[..] == H;
    tape.Append(Number("IPA input length n", |G|));
    var n, j := |G|, 0;
    var gf, hf := Gf, Hf;
    var Ls: seq<int>, Rs: seq<int> := [], [];
    ghost var us: seq<int> := [];
    ghost var st := Start(G, H, Gf, Hf, a[..], b[..], 0, old(tape.log), p);
    ghost var all := Reduce(tape.oracle, Gens(U, 0), st, NoBlinds(k), p);
    assert a[..n] == a[..] && b[..n] == b[..] && g[..n] == G && h[..n] == H && NoBlinds(k)[0..] == NoBlinds(k);
    PrependNothing(all);
    while j < k
      invariant 0 <= j <= k && n == Pow2(k - j) && n <= a.Length && |gf| == |hf| == n
      invariant st == State(ModV(Had(gf, g[..n]), p), ModV(Had(hf, h[..n]), p), a[..n], b[..n], 0, tape.log)
      invariant all == PrependAll(Ls, Rs, us, Reduce(tape.oracle, Gens(U, 0), st, NoBlinds(k)[j..], p))
    {
      HalfPow2(k - j);
      var ok, L, R;
      ghost var u;
      ok, L, R, u := PlainRound(tape, U, gf, hf, g, h, a, b, n, st, p);
      ReduceStep(tape.oracle, Gens(U, 0), st, NoBlinds(k)[j..], L, R, u, p);
      if !ok {
        return None;
      }
      assert NoBlinds(k)[j..][1..] == NoBlinds(k)[j + 1..];
      NextCanonical(st, L, R, u, Inv(u, p), (0, 0), p);
      st := Next(st, L, R, u, Inv(u, p), (0, 0), p);
      PrependAllStep(Ls, Rs, us, L, R, u, Reduce(tape.oracle, Gens(U, 0), st, NoBlinds(k)[j + 1..], p));
      Ls, Rs, us := Ls + [L], Rs + [R], us + [u];
      n, j := n / 2, j + 1;
      gf, hf := Const(n, 1), Const(n, 1);
      UnitFactors(g[..n], p);
      UnitFactors(h[..n], p);
    }
    assert NoBlinds(k)[j..] == [] && Ls + [] == Ls && Rs + [] == Rs;
    ReduceBase(tape.oracle, Gens(U, 0), st, p);
    proof := Some(PlainProof(Ls, Rs, a[0], b[0]));
  }

  lemma NextCanonical(st: State, L: int, R: int, u: int, w: int, d: (int, int), p: Modulus)
    requires |st.g| == |st.h| == |st.a| == |st.b| && |st.a| % 2 == 0
    ensures CanonicalV(Next(st, L, R, u, w, d, p).g, p) && CanonicalV(Next(st, L, R, u, w, d, p).h, p)
  {
  }

  /** The deferred prover, for any collapse threshold: the same proof as the plain prover. */
  method CreateDeferred(tape: Tape, U: int, Gf: seq<int>, Hf: seq<int>, G: seq<int>, H: seq<int>, a: array<int>,
                        b: array<int>,
                        k: nat, forced: nat, p: Modulus)
    returns (proof: Option<PlainProof>)
    requires Prime(p) && a != b
    requires |G| == |H| == |Gf| == |Hf| == a.Length == b.Length == Pow2(k)
    modifies tape, a, b
    ensures match ProvePlain(tape.oracle, U, Start(G, H, Gf, Hf, old(a[..]), old(b[..]), 0, old(tape.log), p), k, p)
      case None => proof == None
      case Some((pf, log)) => proof == Some(pf) && tape.log == log
  {
    hide Mod, Dot, Denote, Reduce;
    tape.Append(Number("IPA input length n", |G|));
    var gB := InitBases(Gf, G, p);
    var hB := InitBases(Hf, H, p);
    var threshold := if forced == 0 then Clamp(|G| / 256, 8, 32) else forced;
    var ok, Ls, Rs, alpha, gE, hE;
    ghost var red, heads;
    ok, Ls, Rs, alpha, gE, hE, red, heads := DeferredRounds(tape, Gens(U, 0), gB, hB, a, b, 0, NoBlinds(k), threshold,
                                                            p);
    proof := if ok then Some(PlainProof(Ls, Rs, a[0], b[0])) else None;
  }

  // ---------- the verifier ----------

  function PlainScalars(pf: PlainProof, usq: seq<int>, wsq: seq<int>, s: seq<int>, Gf: seq<int>, Hf: seq<int>, n: nat,
                        p: Modulus): seq<int> {
    [Mod(pf.a * pf.b, p)] + Take(ZipScale(Mod(pf.a, p), Gf, s, p), n) + ZipScale(Mod(pf.b, p), Hf, Reverse(s), p)
    + ModV(Scale(-1, usq), p) + ModV(Scale(-1, wsq), p)
  }

  function PlainBases(pf: PlainProof, U: int, G: seq<int>, H: seq<int>): seq<int> {
    [U] + G + H + pf.Ls + pf.Rs
  }

  function VerifyPlain(oracle: Oracle, log: Log, pf: PlainProof, Gf: seq<int>, Hf: seq<int>, P: int, U: int,
                       G: seq<int>, H: seq<int>, p: Modulus): Verdict
    requires Prime(p)
  {
    match ReadRounds(oracle, StartLog(log, Pow2(|pf.Ls|)), pf.Ls, pf.Rs, p)
    case None => Reject
    case Some((us, log')) =>
      if |us| < |pf.Ls| then Panic else
      var s := Grow(Squares(us, p), Inv(NonZeroProduct(us, p), p), p);
      var scalars := PlainScalars(pf, Squares(us, p), Squares(InversesOrZero(us, p), p), s, Gf, Hf, |G|, p);
      var bases := PlainBases(pf, U, G, H);
      if |scalars| != |bases| then Panic
      else if Mod(Dot(scalars, bases), p) == P then Accept
      else Reject
  }

  method VerifyPlainProof(tape: Tape, pf: PlainProof, Gf: seq<int>, Hf: seq<int>, P: int, U: int, G: seq<int>,
                          H: seq<int>, p: Modulus)
    returns (v: Verdict)
    requires Prime(p)
    modifies tape
    ensures v == VerifyPlain(tape.oracle, old(tape.log), pf, Gf, Hf, P, U, G, H, p)
  {
    hide Mod, Inv, NonZeroProduct, ReadRounds, Dot, Grow, PlainScalars, PlainBases;
    var sc := VerificationScalars(tape, pf.Ls, pf.Rs, p);
    match sc
    case Identity => v := Reject;
    case OutOfRange => v := Panic;
    case Scalars(squares, inverseSquares, s) =>
      var scalars := PlainScalars(pf, squares, inverseSquares, s, Gf, Hf, |G|, p);
      var bases := PlainBases(pf, U, G, H);
      if |scalars| != |bases| {
        return Panic;
      }
      v := if Mod(Dot(scalars, bases), p) == P then Accept else Reject;
  }

  lemma NegDot(squares: seq<int>, pts: seq<int>, p: Modulus)
    requires |squares| == |pts|
    ensures Cong(Dot(ModV(Scale(-1, squares), p), pts), -1 * Dot(squares, pts), p)
  {
    hide Dot, Mod;
    DotModV(Scale(-1, squares), pts, p);
    DotScale(-1, squares, pts);
  }

  /** The verifier's expected statement, term by term. */
  function PlainSide(a: int, b: int, sg: int, sh: int, pairs: int, U: int): int {
    a * b * U + a * sg + b * sh - pairs
  }

  lemma PlainValue(pf: PlainProof, usq: seq<int>, wsq: seq<int>, s: seq<int>, Gf: seq<int>, Hf: seq<int>, U: int,
                   G: seq<int>, H: seq<int>, p: Modulus)
    requires |s| >= |Gf| == |Hf| == |G| == |H| && |usq| == |wsq| == |pf.Ls| == |pf.Rs|
    ensures var sc := PlainScalars(pf, usq, wsq, s, Gf, Hf, |G|, p);
      var ba := PlainBases(pf, U, G, H);
      |sc| == |ba| &&
      Cong(Dot(sc, ba), PlainSide(pf.a, pf.b, Dot(s[..|G|], ModV(Had(Gf, G), p)),
                                  Dot(Reverse(s)[..|G|], ModV(Had(Hf, H), p)),
                                  Dot(usq, pf.Ls) + Dot(wsq, pf.Rs), U), p)
  {
    hide Dot, Mod;
    var s1, s2 := s[..|G|], Reverse(s)[..|G|];
    var h, hb := [Mod(pf.a * pf.b, p)], [U];
    var x1 := ZipScale(Mod(pf.a, p), Gf, s1, p);
    var x2 := ZipScale(Mod(pf.b, p), Hf, s2, p);
    assert ZipScale(Mod(pf.a, p), Gf, s, p) == x1 && ZipScale(Mod(pf.b, p), Hf, Reverse(s), p) == x2;
    var x3, x4 := ModV(Scale(-1, usq), p), ModV(Scale(-1, wsq), p);
    assert Take(x1, |G|) == x1;
    DotConcat(h, hb, x1, G);
    DotConcat(h + x1, hb + G, x2, H);
    DotConcat(h + x1 + x2, hb + G + H, x3, pf.Ls);
    DotConcat(h + x1 + x2 + x3, hb + G + H + pf.Ls, x4, pf.Rs);
    DotSingle(Mod(pf.a * pf.b, p), U);
    ModCong(pf.a * pf.b, p);
    CongMul(Mod(pf.a * pf.b, p), pf.a * pf.b, U, U, p);
    ScaledDot(pf.a, Gf, s1, G, p);
    ScaledDot(pf.b, Hf, s2, H, p);
    NegDot(usq, pf.Ls, p);
    NegDot(wsq, pf.Rs, p);
    var y1, y2 := pf.a * Dot(s1, ModV(Had(Gf, G), p)), pf.b * Dot(s2, ModV(Had(Hf, H), p));
    Sum4(Dot(h, hb), pf.a * pf.b * U, Dot(x1, G), y1, Dot(x2, H), y2, Dot(x3, pf.Ls), -1 * Dot(usq, pf.Ls), p);
    CongSum(Dot(h + x1 + x2 + x3 + x4, hb + G + H + pf.Ls + pf.Rs),
            pf.a * pf.b * U + y1 + y2 - (Dot(usq, pf.Ls) + Dot(wsq, pf.Rs)),
            Dot(h, hb) + Dot(x1, G) + Dot(x2, H) + Dot(x3, pf.Ls), pf.a * pf.b * U + y1 + y2 + -1 * Dot(usq, pf.Ls),
            Dot(x4, pf.Rs), -1 * Dot(wsq, pf.Rs), p);
  }

  /**
   The verifier accepts an honest run, by either prover, exactly when no L or R is the identity
   and P is the statement that was folded.
   */
  lemma HonestPlainVerdict(oracle: Oracle, log: Log, U: int, G: seq<int>, H: seq<int>, Gf: seq<int>, Hf: seq<int>,
                           a: seq<int>, b: seq<int>, k: nat, P: int, p: Modulus)
    requires Prime(p) && Canonical(P, p)
    requires |G| == |H| == |Gf| == |Hf| == |a| == |b| == Pow2(k)
    requires ProvePlain(oracle, U, Start(G, H, Gf, Hf, a, b, 0, log, p), k, p).Some?
    ensures var st := Start(G, H, Gf, Hf, a, b, 0, log, p);
      var pf := ProvePlain(oracle, U, st, k, p).value.0;
      var verdict := VerifyPlain(oracle, log, pf, Gf, Hf, P, U, G, H, p);
      verdict != Panic &&
      (verdict == Accept <==>
        NoIdentity(pf.Ls) && NoIdentity(pf.Rs) && Cong(P, Committed(Gens(U, 0), st), p))
  {
    hide PlainSide, Committed, Reduce, Dot, Mod, Inv, Grow, Spread, PlainScalars, PlainBases, ReadRounds, Squares,
         Inverses, PairSum, FinalCommit;
    var gens, blinds := Gens(U, 0), NoBlinds(k);
    var st := Start(G, H, Gf, Hf, a, b, 0, log, p);
    var r := Reduce(oracle, gens, st, blinds, p).value;
    var pf := PlainProof(r.Ls, r.Rs, r.a, r.b);
    ReadHonest(oracle, gens, st, blinds, p);
    if NoIdentity(pf.Ls) && NoIdentity(pf.Rs) {
      SpreadFolds(oracle, gens, st, blinds, p);
      ReduceKeeps(oracle, gens, st, blinds, p);
      PairSumUnfold(r, p);
      var ws := Inverses(r.us, p);
      var s := Spread(r.us, ws, p);
      GrowIsSpread(r.us, p);
      OnlyForZeros(r.us, p);
      assert InversesOrZero(r.us, p) == ws by { InversesNonZero(r.us, p); }
      assert s[..|G|] == s && Reverse(s)[..|G|] == Reverse(s);
      SpreadReverse(r.us, ws, p);
      PlainValue(pf, Squares(r.us, p), Squares(ws, p), s, Gf, Hf, U, G, H, p);
      PlainGlue(r, U, Dot(s, st.g), Dot(Reverse(s), st.h), PairSum(r, p), Committed(gens, st), P, p);
    }
  }

  lemma PlainGlue(r: Reduction, U: int, sg: int, sh: int, pairs: int, stmt: int, P: int, p: Modulus)
    requires Cong(sg, r.g, p) && Cong(sh, r.h, p) && Canonical(P, p)
    requires Cong(stmt + pairs, FinalCommit(r, Gens(U, 0)), p)
    ensures Cong(PlainSide(r.a, r.b, sg, sh, pairs, U), stmt, p)
    ensures Mod(P, p) == P
  {
    CongScale(r.a, sg, r.g, p);
    CongScale(r.b, sh, r.h, p);
    PlainSum(r.a * sg, r.a * r.g, r.b * sh, r.b * r.h, r.a * r.b * U, pairs, stmt, p);
  }

  lemma PlainSum(x: int, x': int, y: int, y': int, z: int, pairs: int, s: int, p: Modulus)
    requires Cong(x, x', p) && Cong(y, y', p) && Cong(s + pairs, x' + y' + z, p)
    ensures Cong(z + x + y - pairs, s, p)
  {
    hide Mod;
    CongAdd(x, x', y, y', p);
    CongAdd(x + y, x' + y', z, z, p);
    CongSub(x + y + z, s + pairs, pairs, pairs, p);
  }
}
