/**
 The verdict of both inner-product verifiers on any proof at all: wrong lengths, identity points and zero
 challenges included, with the transcript written out message by message.
 */
module IpaAnyProof {
  import opened PowersOfTwo
  import opened PrimeField
  import opened Vectors
  import opened Tensor
  import opened Transcript
  import opened IpaSpec
  import opened IpaVerify
  import opened IpaComplete
  import opened IpaScalars
  import opened IpaRuns
  import opened IpaNoZk

  function Least(a: nat, b: nat): nat {
    if a <= b then a else b
  }

  // ---------- reading the rounds ----------

  lemma {:induction false} ReadShorter(oracle: Oracle, log: Log, Ls: seq<int>, Rs: seq<int>, p: Modulus)
    ensures var m := Least(|Ls|, |Rs|); ReadRounds(oracle, log, Ls, Rs, p) == ReadRounds(oracle, log, Ls[..m], Rs[..m],
                                                                                         p)
    decreases |Ls|
  {
    hide Mod;
    var m := Least(|Ls|, |Rs|);
    if m == 0 {
    } else {
      ReadShorter(oracle, RoundLog(log, Ls[0], Rs[0]) + [Draw("u")], Ls[1..], Rs[1..], p);
      assert Ls[..m][1..] == Ls[1..][..m - 1] && Rs[..m][1..] == Rs[1..][..m - 1];
    }
  }

  /** The verifier reads back the challenges drawn after each round, unless some point is the identity. */
  lemma {:induction false} ReadRoundsMeans(oracle: Oracle, log: Log, Ls: seq<int>, Rs: seq<int>, p: Modulus)
    requires |Ls| == |Rs|
    ensures ReadRounds(oracle, log, Ls, Rs, p) ==
      if NoIdentity(Ls) && NoIdentity(Rs) then Some((RoundChallenges(oracle, log, Ls, Rs, p), log + RoundMessages(Ls,
                                                                                                                  Rs)))
      else None
    decreases |Ls|
  {
    hide Mod, RoundMessages, RoundChallenges, ReadRounds, NoIdentity;
    if |Ls| == 0 {
      NoRoundsRead(oracle, log, p);
      NoRounds(oracle, log, p);
      assert Ls == [] && Rs == [];
    } else {
      var L, R, Ls', Rs' := Ls[0], Rs[0], Ls[1..], Rs[1..];
      assert Ls == [L] + Ls' && Rs == [R] + Rs';
      ReadRoundsMeans(oracle, RoundLog(log, L, R) + [Draw("u")], Ls', Rs', p);
      ReadCons(oracle, log, L, Ls', R, Rs', Challenge(oracle, RoundLog(log, L, R), "u", p), p);
      RoundFirst(oracle, log, L, R, Ls', Rs', p);
      NoIdentityCons(L, Ls');
      NoIdentityCons(R, Rs');
    }
  }

  lemma NoRoundsRead(oracle: Oracle, log: Log, p: Modulus)
    ensures ReadRounds(oracle, log, [], [], p) == Some(([], log)) && NoIdentity([])
  {
  }

  // ---------- the zero-knowledge argument ----------

  /** The challenge e, drawn after everything the proof sends before it. */
  function LastDraw(oracle: Oracle, log: Log, pf: Proof, p: Modulus): (e: int)
    requires |pf.Ls| == |pf.Rs|
    ensures Canonical(e, p)
  {
    Mod(oracle(log + [Number("IPA input length n", Pow2(|pf.Ls|))] + RoundMessages(pf.Ls, pf.Rs) +
               [Point("A", pf.A), Point("B", pf.B), Draw("e")]), p)
  }

  /** The verdict of the verifier that folds the statement and the generators round by round. */
  ghost function ExactVerdict(oracle: Oracle, log: Log, pf: Proof, Gf: seq<int>, Hf: seq<int>, P: int, gens: Gens,
                              G: seq<int>, H: seq<int>, p: Modulus): Verdict
    requires Prime(p) && |Gf| == |Hf| == |G| == |H|
  {
    var m, n := Least(|pf.Ls|, |pf.Rs|), Pow2(|pf.Ls|);
    if !NoIdentity(pf.Ls[..m]) || !NoIdentity(pf.Rs[..m]) then Reject
    else if |pf.Rs| < |pf.Ls| then Panic
    else if pf.A == 0 || pf.B == 0 then Reject
    else if |pf.Rs| != |pf.Ls| || |G| > n then Panic
    else
      var us := RoundChallenges(oracle, log + [Number("IPA input length n", n)], pf.Ls, pf.Rs, p);
      var ws, e := InversesOrOne(us, p), LastDraw(oracle, log, pf, p);
      if Canonical(pf.B, p) &&
         LastCheck(pf, e, FoldStatement(P, pf.Ls, pf.Rs, us, InversesOrZero(us, p), p),
                   FoldAll(Filled(Gf, G, n, p), us, ws, p), FoldAll(Filled(Hf, H, n, p), ws, us, p), gens, p)
      then Accept else Reject
  }

  lemma LastDrawIs(oracle: Oracle, log: Log, pf: Proof, p: Modulus)
    requires |pf.Ls| == |pf.Rs|
    ensures Challenge(oracle, LastLog(StartLog(log, Pow2(|pf.Ls|)) + RoundMessages(pf.Ls, pf.Rs), pf.A, pf.B), "e", p)
         == LastDraw(oracle, log, pf, p)
  {
    hide Mod, RoundMessages, Pow2;
    var before := StartLog(log, Pow2(|pf.Ls|)) + RoundMessages(pf.Ls, pf.Rs);
    assert LastLog(before, pf.A, pf.B) + [Draw("e")] == before + [Point("A", pf.A), Point("B", pf.B), Draw("e")];
  }

  lemma SizesMatch(pf: Proof, e: int, us: seq<int>, ws: seq<int>, s: seq<int>, Gf: seq<int>, Hf: seq<int>, P: int,
                   gens: Gens, G: seq<int>, H: seq<int>, p: Modulus)
    requires |Gf| == |Hf| == |G| == |H| && |us| == |ws| == |pf.Ls| <= |pf.Rs|
    ensures |EqScalars(pf, e, us, ws, s, Gf, Hf, |G|, p)| == |EqBases(pf, P, gens, G, H)|
      <==> |pf.Ls| == |pf.Rs| && |G| <= |s|
  {
    hide Mod;
  }

  /** For every proof: the verdict, with everything the source rejects, panics on or accepts. */
  lemma VerifyExact(oracle: Oracle, log: Log, pf: Proof, Gf: seq<int>, Hf: seq<int>, P: int, gens: Gens,
                    G: seq<int>, H: seq<int>, p: Modulus)
    requires Prime(p) && |Gf| == |Hf| == |G| == |H|
    ensures Verify(oracle, log, pf, Gf, Hf, P, gens, G, H, p)
         == ExactVerdict(oracle, log, pf, Gf, Hf, P, gens, G, H, p)
  {
    hide Mod, Dot, Pow2, ReadRounds, RoundMessages, RoundChallenges, EqScalars, EqBases, NoIdentity, FoldAll, Spread,
         FoldStatement, Filled, LastCheck, LastDraw, InversesOrZero, InversesOrOne, Inv, Grow, NonZeroProduct, LastLog,
         StartLog, Squares, Challenge;
    var m, n := Least(|pf.Ls|, |pf.Rs|), Pow2(|pf.Ls|);
    var log0 := StartLog(log, n);
    assert log0 == log + [Number("IPA input length n", n)] by { StartIs(log, n); }
    ReadShorter(oracle, log0, pf.Ls, pf.Rs, p);
    ReadRoundsMeans(oracle, log0, pf.Ls[..m], pf.Rs[..m], p);
    if NoIdentity(pf.Ls[..m]) && NoIdentity(pf.Rs[..m]) && |pf.Ls| <= |pf.Rs| {
      var us := RoundChallenges(oracle, log0, pf.Ls[..m], pf.Rs[..m], p);
      var log' := log0 + RoundMessages(pf.Ls[..m], pf.Rs[..m]);
      VerifyFromRounds(oracle, log, pf, Gf, Hf, P, gens, G, H, us, log', p);
      SizesMatch(pf, Challenge(oracle, LastLog(log', pf.A, pf.B), "e", p), Squares(us, p),
                 Squares(InversesOrZero(us, p), p), Spread(us, InversesOrOne(us, p), p), Gf, Hf, P, gens, G, H, p);
      if |pf.Ls| == |pf.Rs| && |G| <= n && pf.A != 0 && pf.B != 0 && Canonical(pf.B, p) {
        assert pf.Ls[..m] == pf.Ls && pf.Rs[..m] == pf.Rs;
        LastDrawIs(oracle, log, pf, p);
        SingleEquationIsRecursive(oracle, log, pf, Gf, Hf, P, gens, G, H, us, log', p);
      }
    }
  }

  lemma StartIs(log: Log, n: nat)
    ensures StartLog(log, n) == log + [Number("IPA input length n", n)]
  {
  }

  // ---------- the argument without hiding ----------

  /** The last check of the round-by-round verifier: the folded statement is a g + b h + a b U. */
  ghost predicate PlainCheck(pf: PlainProof, P: int, g: int, h: int, U: int, p: Modulus) {
    Cong(P, pf.a * g + pf.b * h + pf.a * pf.b * U, p)
  }

  /** The same verdict without the last step: P is compared with the folded values directly. */
  ghost function ExactPlainVerdict(oracle: Oracle, log: Log, pf: PlainProof, Gf: seq<int>, Hf: seq<int>, P: int,
                                   U: int, G: seq<int>, H: seq<int>, p: Modulus): Verdict
    requires Prime(p) && |Gf| == |Hf| == |G| == |H|
  {
    var m, n := Least(|pf.Ls|, |pf.Rs|), Pow2(|pf.Ls|);
    if !NoIdentity(pf.Ls[..m]) || !NoIdentity(pf.Rs[..m]) then Reject
    else if |pf.Rs| != |pf.Ls| || |G| > n then Panic
    else
      var us := RoundChallenges(oracle, log + [Number("IPA input length n", n)], pf.Ls, pf.Rs, p);
      var ws := InversesOrOne(us, p);
      if Canonical(P, p) &&
         PlainCheck(pf, FoldStatement(P, pf.Ls, pf.Rs, us, InversesOrZero(us, p), p),
                    FoldAll(Filled(Gf, G, n, p), us, ws, p), FoldAll(Filled(Hf, H, n, p), ws, us, p), U, p)
      then Accept else Reject
  }

  lemma PlainSizesMatch(pf: PlainProof, us: seq<int>, ws: seq<int>, s: seq<int>, Gf: seq<int>, Hf: seq<int>, U: int,
                        G: seq<int>, H: seq<int>, p: Modulus)
    requires |Gf| == |Hf| == |G| == |H| && |us| == |ws| == |pf.Ls| <= |pf.Rs|
    ensures |PlainScalars(pf, us, ws, s, Gf, Hf, |G|, p)| == |PlainBases(pf, U, G, H)|
      <==> |pf.Ls| == |pf.Rs| && |G| <= |s|
  {
    hide Mod;
  }

  /** Both plain provers have a proof to send exactly when no round draws a zero challenge. */
  lemma PlainRuns(oracle: Oracle, U: int, st: State, k: nat, p: Modulus)
    requires Prime(p) && Sized(st, k)
    ensures ProvePlain(oracle, U, st, k, p).Some? <==> Runs(oracle, Gens(U, 0), st, NoBlinds(k), p)
  {
    hide Runs, Reduce;
    ReduceRuns(oracle, Gens(U, 0), st, NoBlinds(k), p);
  }

  /** The plain verifier once as many challenges as left points are read back. */
  lemma PlainFromRounds(oracle: Oracle, log: Log, pf: PlainProof, Gf: seq<int>, Hf: seq<int>, P: int, U: int,
                        G: seq<int>, H: seq<int>, us: seq<int>, log': Log, p: Modulus)
    requires Prime(p) && CanonicalV(us, p) && |us| == |pf.Ls|
    requires ReadRounds(oracle, StartLog(log, Pow2(|pf.Ls|)), pf.Ls, pf.Rs, p) == Some((us, log'))
    ensures var sc := PlainScalars(pf, Squares(us, p), Squares(InversesOrZero(us, p), p),
                                   Spread(us, InversesOrOne(us, p), p), Gf, Hf, |G|, p);
      var ba := PlainBases(pf, U, G, H);
      VerifyPlain(oracle, log, pf, Gf, Hf, P, U, G, H, p) ==
        if |sc| != |ba| then Panic else if Mod(Dot(sc, ba), p) == P then Accept else Reject
  {
    hide Dot, Mod, PlainScalars, PlainBases, ReadRounds, Grow, Spread, Inv, InversesOrOne;
    GrowIsSpread(us, p);
  }

  /** The plain verifier's equation is the round-by-round one. */
  lemma PlainEquation(pf: PlainProof, us: seq<int>, Gf: seq<int>, Hf: seq<int>, P: int, U: int, G: seq<int>,
                      H: seq<int>, p: Modulus)
    requires Prime(p) && CanonicalV(us, p) && |us| == |pf.Ls| == |pf.Rs| && Canonical(P, p)
    requires |Gf| == |Hf| == |G| == |H| <= Pow2(|us|)
    ensures var n, ws := Pow2(|us|), InversesOrOne(us, p);
      var sc := PlainScalars(pf, Squares(us, p), Squares(InversesOrZero(us, p), p), Spread(us, ws, p), Gf, Hf, |G|, p);
      var ba := PlainBases(pf, U, G, H);
      |sc| == |ba| &&
      (Mod(Dot(sc, ba), p) == P <==>
        PlainCheck(pf, FoldStatement(P, pf.Ls, pf.Rs, us, InversesOrZero(us, p), p),
                   FoldAll(Filled(Gf, G, n, p), us, ws, p), FoldAll(Filled(Hf, H, n, p), ws, us, p), U, p))
  {
    hide Dot, Mod, PlainScalars, PlainBases, Spread, Inv, FoldAll, FoldStatement, Squares, InversesOrOne,
         InversesOrZero, Filled, PlainSide, PlainCheck, Pow2;
    var ws, ws0 := InversesOrOne(us, p), InversesOrZero(us, p);
    var s := Spread(us, ws, p);
    SpreadReverse(us, ws, p);
    PlainValue(pf, Squares(us, p), Squares(ws0, p), s, Gf, Hf, U, G, H, p);
    var g', h' := Filled(Gf, G, |s|, p), Filled(Hf, H, |s|, p);
    FilledDot(s, Gf, G, p);
    FilledDot(Reverse(s), Hf, H, p);
    SpreadIsFoldAll(g', us, ws, p);
    SpreadIsFoldAll(h', ws, us, p);
    FoldStatementIsSum(P, pf.Ls, pf.Rs, us, ws0, p);
    var pairs := Dot(Squares(us, p), pf.Ls) + Dot(Squares(ws0, p), pf.Rs);
    var sc := PlainScalars(pf, Squares(us, p), Squares(ws0, p), s, Gf, Hf, |G|, p);
    PlainSideCheck(pf, Dot(sc, PlainBases(pf, U, G, H)), Dot(s, g'), FoldAll(g', us, ws, p), Dot(Reverse(s), h'),
                   FoldAll(h', ws, us, p), pairs, P, P + pairs, U, p);
  }

  lemma PlainSideCheck(pf: PlainProof, d: int, sg: int, g: int, sh: int, h: int, pairs: int, P: int, folded: int,
                       U: int, p: Modulus)
    requires Cong(d, PlainSide(pf.a, pf.b, sg, sh, pairs, U), p) && Cong(sg, g, p) && Cong(sh, h, p)
    requires Canonical(P, p) && folded == P + pairs
    ensures Mod(d, p) == P <==> PlainCheck(pf, folded, g, h, U, p)
  {
    CanonicalIs(P, p);
    hide Mod;
    var x, y, z := pf.a * g, pf.b * h, pf.a * pf.b * U;
    CongScale(pf.a, sg, g, p);
    CongScale(pf.b, sh, h, p);
    CongSum(pf.a * sg + pf.b * sh, x + y, pf.a * sg, x, pf.b * sh, y, p);
    CongSum(PlainSide(pf.a, pf.b, sg, sh, pairs, U), x + y + z - pairs, pf.a * sg + pf.b * sh, x + y, z - pairs,
            z - pairs, p);
    if Cong(d, P, p) {
      CongSum(folded, x + y + z, P, x + y + z - pairs, pairs, pairs, p);
    }
    if Cong(folded, x + y + z, p) {
      CongSub(folded, x + y + z, pairs, pairs, p);
      assert Cong(P, x + y + z - pairs, p);
    }
  }

  /** For every proof: the verdict of the verifier without hiding. */
  lemma VerifyPlainExact(oracle: Oracle, log: Log, pf: PlainProof, Gf: seq<int>, Hf: seq<int>, P: int, U: int,
                         G: seq<int>, H: seq<int>, p: Modulus)
    requires Prime(p) && |Gf| == |Hf| == |G| == |H|
    ensures VerifyPlain(oracle, log, pf, Gf, Hf, P, U, G, H, p)
         == ExactPlainVerdict(oracle, log, pf, Gf, Hf, P, U, G, H, p)
  {
    hide Mod, Dot, Pow2, ReadRounds, RoundMessages, RoundChallenges, PlainScalars, PlainBases, NoIdentity, FoldAll,
         Spread, FoldStatement, Filled, PlainCheck, InversesOrZero, InversesOrOne, Inv, Grow, NonZeroProduct, StartLog,
         Squares;
    var m, n := Least(|pf.Ls|, |pf.Rs|), Pow2(|pf.Ls|);
    var log0 := StartLog(log, n);
    assert log0 == log + [Number("IPA input length n", n)] by { StartIs(log, n); }
    ReadShorter(oracle, log0, pf.Ls, pf.Rs, p);
    ReadRoundsMeans(oracle, log0, pf.Ls[..m], pf.Rs[..m], p);
    if NoIdentity(pf.Ls[..m]) && NoIdentity(pf.Rs[..m]) && |pf.Ls| <= |pf.Rs| {
      var us := RoundChallenges(oracle, log0, pf.Ls[..m], pf.Rs[..m], p);
      PlainFromRounds(oracle, log, pf, Gf, Hf, P, U, G, H, us, log0 + RoundMessages(pf.Ls[..m], pf.Rs[..m]), p);
      PlainSizesMatch(pf, Squares(us, p), Squares(InversesOrZero(us, p), p), Spread(us, InversesOrOne(us, p), p), Gf,
                      Hf, U, G, H, p);
      if |pf.Ls| == |pf.Rs| && |G| <= n && Canonical(P, p) {
        assert pf.Ls[..m] == pf.Ls && pf.Rs[..m] == pf.Rs;
        PlainEquation(pf, us, Gf, Hf, P, U, G, H, p);
      }
    }
  }
}
