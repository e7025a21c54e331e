/**
 What a proof says about its witness: nothing.  Every proof the verifier accepts is one that any witness of
 the statement would have sent for some choice of its coins.
 */
module IpaHiding {
  import opened PowersOfTwo
  import opened PrimeField
  import opened Vectors
  import opened Tensor
  import opened Transcript
  import opened IpaSpec
  import opened IpaVerify
  import opened IpaComplete
  import opened IpaRuns

  /** The blinding that moves a point to a given one. */
  function BlindFor(x: int, V: int, target: int, p: Modulus): (d: int)
    requires Prime(p) && Mod(V, p) != 0
  {
    Mod((target - x) * Inv(Mod(V, p), p), p)
  }

  lemma BlindMoves(x: int, V: int, target: int, p: Modulus)
    requires Prime(p) && Mod(V, p) != 0 && Canonical(target, p)
    ensures Mod(x + BlindFor(x, V, target, p) * V, p) == target
  {
    hide Mod, Inv;
    var w := Inv(Mod(V, p), p);
    var t, d := target - x, BlindFor(x, V, target, p);
    ModCong(t * w, p);
    CongMul(d, t * w, V, V, p);
    ModCong(V, p);
    CongMul(Mod(V, p), V, w, w, p);
    InverseCancels(t, w, V, Mod(V, p), p);
    CongSum(x + d * V, target, x, x, d * V, t, p);
    CanonicalMod(target, x + d * V, p);
  }

  lemma InverseCancels(t: int, w: int, V: int, V': int, p: Modulus)
    requires Cong(V' * w, V * w, p) && Cong(V' * w, 1, p)
    ensures Cong((t * w) * V, t, p)
  {
    hide Mod;
    CongScale(t, V * w, 1, p);
    assert (t * w) * V == t * (V * w);
  }

  /** The coin that makes a response come out as given. */
  lemma ResponseFor(x: int, target: int, p: Modulus) returns (c: int)
    requires Canonical(target, p)
    ensures Mod(c + x, p) == target
  {
    c := target - x;
    assert c + x == target;
    CanonicalIs(target, p);
  }

  // ---------- the rounds ----------

  function LeftPart(gens: Gens, st: State): int
    requires |st.g| == |st.h| == |st.a| == |st.b| && |st.a| % 2 == 0
  {
    var n := |st.a| / 2;
    Commit(gens, st.a[..n], st.b[n..], st.g[n..], st.h[..n], 0)
  }

  function RightPart(gens: Gens, st: State): int
    requires |st.g| == |st.h| == |st.a| == |st.b| && |st.a| % 2 == 0
  {
    var n := |st.a| / 2;
    Commit(gens, st.a[n..], st.b[..n], st.g[..n], st.h[n..], 0)
  }

  lemma PartsAre(gens: Gens, st: State, d: int, p: Modulus)
    requires |st.g| == |st.h| == |st.a| == |st.b| && |st.a| % 2 == 0
    ensures Left(gens, st, d, p) == Mod(LeftPart(gens, st) + d * gens.V, p)
    ensures Right(gens, st, d, p) == Mod(RightPart(gens, st) + d * gens.V, p)
  {
    hide Mod, Dot;
  }

  lemma BlindPair(gens: Gens, st: State, L: int, R: int, p: Modulus) returns (d: (int, int))
    requires Prime(p) && Mod(gens.V, p) != 0 && Canonical(L, p) && Canonical(R, p)
    requires |st.g| == |st.h| == |st.a| == |st.b| && |st.a| % 2 == 0
    ensures Left(gens, st, d.0, p) == L && Right(gens, st, d.1, p) == R
  {
    hide Mod, Inv, Left, Right, LeftPart, RightPart, BlindFor;
    d := (BlindFor(LeftPart(gens, st), gens.V, L, p), BlindFor(RightPart(gens, st), gens.V, R, p));
    PartsAre(gens, st, d.0, p);
    PartsAre(gens, st, d.1, p);
    BlindMoves(LeftPart(gens, st), gens.V, L, p);
    BlindMoves(RightPart(gens, st), gens.V, R, p);
  }

  lemma NonZeroSplit(u: int, us: seq<int>, p: Modulus)
    requires NonZero([u] + us, p)
    ensures 0 < u < p && NonZero(us, p)
  {
    assert ([u] + us)[0] == u && forall i :: 0 <= i < |us| ==> us[i] == ([u] + us)[i + 1];
  }

  /** One round in front of a run. */
  lemma RoundInFront(oracle: Oracle, gens: Gens, st: State, d: (int, int), rest: seq<(int, int)>, u: int, p: Modulus)
    requires Prime(p) && Sized(st, |rest| + 1)
    requires var L, R := Left(gens, st, d.0, p), Right(gens, st, d.1, p);
      u == Challenge(oracle, RoundLog(st.log, L, R), "u", p) && 0 < u < p &&
      Reduce(oracle, gens, Next(st, L, R, u, Inv(u, p), d, p), rest, p).Some?
    ensures var L, R := Left(gens, st, d.0, p), Right(gens, st, d.1, p);
      var r := Reduce(oracle, gens, Next(st, L, R, u, Inv(u, p), d, p), rest, p).value;
      Reduce(oracle, gens, st, [d] + rest, p) == Some(r.(Ls := [L] + r.Ls, Rs := [R] + r.Rs, us := [u] + r.us))
  {
    hide Mod, Inv, Left, Right, Next, RoundLog, Challenge;
    assert ([d] + rest)[1..] == rest;
  }

  lemma SizedNext(st: State, L: int, R: int, u: int, w: int, d: (int, int), n: nat, p: Modulus)
    requires Sized(st, n + 1)
    ensures Sized(Next(st, L, R, u, w, d, p), n)
  {
    hide Fold, NextAlpha;
  }

  /** Whatever the vectors, some blinds make the rounds send given points. */
  lemma {:induction false} BlindsFor(oracle: Oracle, gens: Gens, st: State, Ls: seq<int>, Rs: seq<int>, p: Modulus)
    returns (blinds: seq<(int, int)>)
    requires Prime(p) && Mod(gens.V, p) != 0 && |Ls| == |Rs| && CanonicalV(Ls, p) && CanonicalV(Rs, p)
    requires Sized(st, |Ls|) && NonZero(RoundChallenges(oracle, st.log, Ls, Rs, p), p)
    ensures |blinds| == |Ls| && Reduce(oracle, gens, st, blinds, p).Some?
    ensures var r := Reduce(oracle, gens, st, blinds, p).value; r.Ls == Ls && r.Rs == Rs
    decreases |Ls|
  {
    if |Ls| == 0 {
      blinds := [];
    } else {
      hide Mod, Inv, Left, Right, RoundChallenges, RoundMessages, Reduce, Next, Challenge, RoundLog, NonZero;
      var L, R, Ls', Rs' := Ls[0], Rs[0], Ls[1..], Rs[1..];
      assert Ls == [L] + Ls' && Rs == [R] + Rs';
      var d := BlindPair(gens, st, L, R, p);
      var u, log' := Challenge(oracle, RoundLog(st.log, L, R), "u", p), RoundLog(st.log, L, R) + [Draw("u")];
      RoundFirst(oracle, st.log, L, R, Ls', Rs', p);
      NonZeroSplit(u, RoundChallenges(oracle, log', Ls', Rs', p), p);
      var st' := Next(st, L, R, u, Inv(u, p), d, p);
      SizedNext(st, L, R, u, Inv(u, p), d, |Ls'|, p);
      NextLog(st, L, R, u, Inv(u, p), d, p);
      var rest := BlindsFor(oracle, gens, st', Ls', Rs', p);
      RoundInFront(oracle, gens, st, d, rest, u, p);
      blinds := [d] + rest;
    }
  }

  // ---------- the last step ----------

  /** The coins that make the last step send given values, all but B. */
  lemma CoinsFor(r: Reduction, pf: Proof, e: int, gens: Gens, p: Modulus) returns (c: Coins)
    requires Prime(p) && Mod(gens.V, p) != 0
    requires Canonical(pf.A, p) && Canonical(pf.r, p) && Canonical(pf.s, p) && Canonical(pf.delta, p)
    ensures pf.A == PointA(r, c, gens, p) && pf.r == Mod(c.r + r.a * e, p) && pf.s == Mod(c.s + r.b * e, p)
    ensures pf.delta == Mod(c.eta + c.delta * e + r.alpha * e * e, p)
  {
    hide Mod, BlindFor;
    var cr := ResponseFor(r.a * e, pf.r, p);
    var cs := ResponseFor(r.b * e, pf.s, p);
    var x := cr * r.g + cs * r.h + (cr * r.b + cs * r.a) * gens.U;
    var d := BlindFor(x, gens.V, pf.A, p);
    BlindMoves(x, gens.V, pf.A, p);
    var eta := ResponseFor(d * e + r.alpha * e * e, pf.delta, p);
    c := Coins(cr, cs, d, eta);
    assert c.eta + c.delta * e + r.alpha * e * e == eta + (d * e + r.alpha * e * e);
  }

  /** The verifier's equation leaves no choice for B. */
  lemma PointBFollows(r: Reduction, c: Coins, pf: Proof, e: int, sg: int, sh: int, pairs: int, P: int, stmt: int,
                      value: int, gens: Gens, p: Modulus)
    requires pf.A == PointA(r, c, gens, p) && pf.r == Mod(c.r + r.a * e, p) && pf.s == Mod(c.s + r.b * e, p)
    requires pf.delta == Mod(c.eta + c.delta * e + r.alpha * e * e, p) && Canonical(pf.B, p)
    requires Cong(sg, r.g, p) && Cong(sh, r.h, p) && Cong(stmt + pairs, FinalCommit(r, gens), p)
    requires Cong(P - stmt, 0, p) && Mod(value, p) == pf.B
    requires Cong(value, EqValue(pf, e, sg, sh, pairs, P, gens), p)
    ensures pf.B == PointB(c, gens, p)
  {
    hide Mod, EqValue, FinalCommit, PointA;
    var B := PointB(c, gens, p);
    var pf' := pf.(B := B);
    ExpectedPoint(r, c, pf', e, sg, sh, pairs, P, stmt, gens, p);
    SameValue(pf, B, e, sg, sh, pairs, P, gens);
    CongScale(e * e, P - stmt, 0, p);
    CongSub(B, B, e * e * (P - stmt), e * e * 0, p);
    CongSame(B - e * e * (P - stmt), B - e * e * 0, B - e * e * (P - stmt), B, p);
    CanonicalIs(B, p);
  }

  lemma SameValue(pf: Proof, B: int, e: int, sg: int, sh: int, pairs: int, P: int, gens: Gens)
    ensures EqValue(pf.(B := B), e, sg, sh, pairs, P, gens) == EqValue(pf, e, sg, sh, pairs, P, gens)
  {
  }

  // ---------- the argument ----------

  predicate CanonicalProof(pf: Proof, p: Modulus) {
    CanonicalV(pf.Ls, p) && CanonicalV(pf.Rs, p) && Canonical(pf.A, p) && Canonical(pf.B, p) &&
    Canonical(pf.r, p) && Canonical(pf.s, p) && Canonical(pf.delta, p)
  }

  /** No round of the proof draws a zero challenge. */
  predicate NonZeroRounds(oracle: Oracle, log: Log, pf: Proof, p: Modulus)
    requires |pf.Ls| == |pf.Rs|
  {
    NonZero(RoundChallenges(oracle, StartLog(log, Pow2(|pf.Ls|)), pf.Ls, pf.Rs, p), p)
  }

  /** What acceptance says once the challenges are those of a run. */
  lemma AcceptedValue(oracle: Oracle, log: Log, pf: Proof, Gf: seq<int>, Hf: seq<int>, P: int, gens: Gens,
                      G: seq<int>, H: seq<int>, us: seq<int>, log': Log, p: Modulus) returns (value: int)
    requires Prime(p) && NonZero(us, p) && |us| == |pf.Ls| == |pf.Rs| && |Gf| == |Hf| == |G| == |H| == Pow2(|us|)
    requires NoIdentity(pf.Ls) && NoIdentity(pf.Rs) ==>
      ReadRounds(oracle, StartLog(log, Pow2(|pf.Ls|)), pf.Ls, pf.Rs, p) == Some((us, log'))
    requires NoIdentity(pf.Ls) && NoIdentity(pf.Rs) && Verify(oracle, log, pf, Gf, Hf, P, gens, G, H, p) == Accept
    ensures var s := Spread(us, Inverses(us, p), p); var e := Challenge(oracle, LastLog(log', pf.A, pf.B), "e", p);
      Mod(value, p) == pf.B &&
      Cong(value, EqValue(pf, e, Dot(s, ModV(Had(Gf, G), p)), Dot(Reverse(s), ModV(Had(Hf, H), p)),
                          Dot(Squares(us, p), pf.Ls) + Dot(Squares(Inverses(us, p), p), pf.Rs), P, gens), p)
  {
    hide Dot, Mod, EqScalars, EqBases, ReadRounds, Spread, Inv, Verify, EqValue, Squares, InversesOrOne, Inverses,
         InversesOrZero, Challenge, LastLog, ModV, Had, Reverse, NoIdentity, Pow2, StartLog;
    var ws := Inverses(us, p);
    var s := Spread(us, ws, p);
    var e := Challenge(oracle, LastLog(log', pf.A, pf.B), "e", p);
    OnlyForZeros(us, p);
    InversesNonZero(us, p);
    VerifyFromRounds(oracle, log, pf, Gf, Hf, P, gens, G, H, us, log', p);
    EquationValue(pf, e, Squares(us, p), Squares(ws, p), s, Gf, Hf, P, gens, G, H, p);
    WholeSlice(s);
    WholeSlice(Reverse(s));
    value := Dot(EqScalars(pf, e, Squares(us, p), Squares(ws, p), s, Gf, Hf, |G|, p), EqBases(pf, P, gens, G, H));
  }

  /**
   Every accepted proof is explained by every witness: for vectors a, b and alpha that open the statement,
   some blinds and coins make the prover send exactly this proof.
   */
  lemma AnyWitnessExplains(oracle: Oracle, log: Log, pf: Proof, gens: Gens, G: seq<int>, H: seq<int>, Gf: seq<int>,
                           Hf: seq<int>, a: seq<int>, b: seq<int>, alpha: int, P: int, p: Modulus)
    returns (blinds: seq<(int, int)>, c: Coins)
    requires Prime(p) && Mod(gens.V, p) != 0 && CanonicalProof(pf, p) && |pf.Ls| == |pf.Rs|
    requires |G| == |H| == |Gf| == |Hf| == |a| == |b| == Pow2(|pf.Ls|)
    requires NonZeroRounds(oracle, log, pf, p) && NoIdentity(pf.Ls) && NoIdentity(pf.Rs)
    requires Verify(oracle, log, pf, Gf, Hf, P, gens, G, H, p) == Accept
    requires Cong(P - Committed(gens, Start(G, H, Gf, Hf, a, b, alpha, log, p)), 0, p)
    ensures |blinds| == |pf.Ls|
    ensures var proof := Prove(oracle, gens, Start(G, H, Gf, Hf, a, b, alpha, log, p), blinds, c, p);
      proof.Some? && proof.value.0 == pf
  {
    hide Reduce, Dot, Mod, Committed, Inv, Verify, Squares, Inverses, Spread, RoundChallenges, RoundMessages,
         Start, NoIdentity, Had, ModV, Pow2, PairSum, FinalCommit, EqValue, PointA, PointB, Challenge, Reverse;
    var st := Start(G, H, Gf, Hf, a, b, alpha, log, p);
    StartParts(G, H, Gf, Hf, a, b, alpha, log, |pf.Ls|, p);
    blinds := BlindsFor(oracle, gens, st, pf.Ls, pf.Rs, p);
    var r := Reduce(oracle, gens, st, blinds, p).value;
    ReduceTranscript(oracle, gens, st, blinds, p);
    ReadHonest(oracle, gens, st, blinds, p);
    SpreadFolds(oracle, gens, st, blinds, p);
    ReduceKeeps(oracle, gens, st, blinds, p);
    PairSumUnfold(r, p);
    var ws := Inverses(r.us, p);
    var s := Spread(r.us, ws, p);
    SpreadReverse(r.us, ws, p);
    var e := Challenge(oracle, LastLog(r.log, pf.A, pf.B), "e", p);
    c := CoinsFor(r, pf, e, gens, p);
    var value := AcceptedValue(oracle, log, pf, Gf, Hf, P, gens, G, H, r.us, r.log, p);
    PointBFollows(r, c, pf, e, Dot(s, st.g), Dot(Reverse(s), st.h), PairSum(r, p), P, Committed(gens, st), value,
                  gens, p);
    FinishIs(oracle, gens, st, blinds, c, pf, e, p);
  }

  lemma FinishIs(oracle: Oracle, gens: Gens, st: State, blinds: seq<(int, int)>, c: Coins, pf: Proof, e: int,
                 p: Modulus)
    requires Prime(p) && Sized(st, |blinds|) && Reduce(oracle, gens, st, blinds, p).Some?
    requires var r := Reduce(oracle, gens, st, blinds, p).value;
      r.Ls == pf.Ls && r.Rs == pf.Rs && e == Challenge(oracle, LastLog(r.log, pf.A, pf.B), "e", p) &&
      pf.A == PointA(r, c, gens, p) && pf.B == PointB(c, gens, p) && pf.r == Mod(c.r + r.a * e, p) &&
      pf.s == Mod(c.s + r.b * e, p) && pf.delta == Mod(c.eta + c.delta * e + r.alpha * e * e, p)
    ensures var proof := Prove(oracle, gens, st, blinds, c, p); proof.Some? && proof.value.0 == pf
  {
    hide Mod, PointA, PointB, Reduce, Challenge;
  }
}
