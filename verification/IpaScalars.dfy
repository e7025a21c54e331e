/** Closed form of the verifier's scalars, and what the single equation means for any proof. */
module IpaScalars {
  import opened PowersOfTwo
  import opened PrimeField
  import opened Vectors
  import opened Tensor
  import opened Transcript
  import opened IpaSpec
  import opened IpaVerify
  import opened IpaComplete

  /** Reversing the scalars inverts them, so the reversed iterator serves for 1/s[i]. */
  lemma {:induction false} SpreadInverse(us: seq<int>, ws: seq<int>, i: nat, p: Modulus)
    requires |us| == |ws| && i < Pow2(|us|)
    requires forall j :: 0 <= j < |us| ==> Cong(us[j] * ws[j], 1, p)
    ensures Cong(Spread(us, ws, p)[i] * Spread(us, ws, p)[Pow2(|us|) - 1 - i], 1, p)
  {
    SpreadReverse(us, ws, p);
    assert Reverse(Spread(us, ws, p))[i] == Spread(us, ws, p)[Pow2(|us|) - 1 - i];
    SpreadProduct(us, ws, i, p);
  }

  lemma {:induction false} SpreadProduct(us: seq<int>, ws: seq<int>, i: nat, p: Modulus)
    requires |us| == |ws| && i < Pow2(|us|)
    requires forall j :: 0 <= j < |us| ==> Cong(us[j] * ws[j], 1, p)
    ensures Cong(Spread(us, ws, p)[i] * Spread(ws, us, p)[i], 1, p)
  {
    hide Mod;
    if |us| == 0 {
    } else {
      var half := Pow2(|us| - 1);
      var j := if i < half then i else i - half;
      SpreadProduct(us[1..], ws[1..], j, p);
      var t, t' := Spread(us[1..], ws[1..], p), Spread(ws[1..], us[1..], p);
      if i < half {
        InverseEntry(ws[0], us[0], t[j], t'[j], p);
      } else {
        InverseEntry(us[0], ws[0], t[j], t'[j], p);
      }
    }
  }

  lemma InverseEntry(x: int, y: int, t: int, t': int, p: Modulus)
    requires (Cong(x * y, 1, p) || Cong(y * x, 1, p)) && Cong(t * t', 1, p)
    ensures Cong(Mod(x * t, p) * Mod(y * t', p), 1, p)
  {
    hide Mod;
    ModCong(x * t, p);
    ModCong(y * t', p);
    CongMul(Mod(x * t, p), x * t, Mod(y * t', p), y * t', p);
    CongMul(x * y, 1, t * t', 1, p);
    InverseEntryPoly(x, y, t, t');
  }

  lemma InverseEntryPoly(x: int, y: int, t: int, t': int)
    ensures (x * t) * (y * t') == (x * y) * (t * t')
    ensures x * y == y * x
  {
  }

  // ---------- the single equation unrolls the recursive verifier ----------

  /** The generator left after folding by every challenge in turn. */
  function FoldAll(g: seq<int>, us: seq<int>, ws: seq<int>, p: Modulus): int
    requires |us| == |ws| && |g| == Pow2(|us|)
    decreases |us|
  {
    if |us| == 0 then g[0] else FoldAll(Fold(g, ws[0], us[0], p), us[1..], ws[1..], p)
  }

  lemma {:induction false} SpreadIsFoldAll(g: seq<int>, us: seq<int>, ws: seq<int>, p: Modulus)
    requires |us| == |ws| && |g| == Pow2(|us|)
    ensures Cong(Dot(Spread(us, ws, p), g), FoldAll(g, us, ws, p), p)
    decreases |us|
  {
    if |us| == 0 {
      assert g == [g[0]];
      DotSingle(1, g[0]);
    } else {
      SpreadIsFoldAll(Fold(g, ws[0], us[0], p), us[1..], ws[1..], p);
      SpreadStep(Spread(us[1..], ws[1..], p), g, us[0], ws[0], p);
    }
  }

  /** P + sum of u_i^2 L_i + u_i^-2 R_i, accumulated round by round. */
  function FoldStatement(P: int, Ls: seq<int>, Rs: seq<int>, us: seq<int>, ws: seq<int>, p: Modulus): int
    requires |Ls| == |Rs| == |us| == |ws|
    decreases |us|
  {
    if |us| == 0 then P
    else FoldStatement(P + Mod(us[0] * us[0], p) * Ls[0] + Mod(ws[0] * ws[0], p) * Rs[0], Ls[1..], Rs[1..], us[1..],
                       ws[1..], p)
  }

  lemma {:induction false} FoldStatementIsSum(P: int, Ls: seq<int>, Rs: seq<int>, us: seq<int>, ws: seq<int>,
                                              p: Modulus)
    requires |Ls| == |Rs| == |us| == |ws|
    ensures FoldStatement(P, Ls, Rs, us, ws, p) == P + Dot(Squares(us, p), Ls) + Dot(Squares(ws, p), Rs)
    decreases |us|
  {
    hide Mod, Dot;
    if |us| == 0 {
      DotZero(0, []);
      assert Squares(us, p) == Const(0, 0) && Squares(ws, p) == Const(0, 0) && Ls == [] && Rs == [];
    } else {
      FoldStatementIsSum(P + Mod(us[0] * us[0], p) * Ls[0] + Mod(ws[0] * ws[0], p) * Rs[0], Ls[1..], Rs[1..], us[1..],
                         ws[1..], p);
      assert Squares(us, p) == [Mod(us[0] * us[0], p)] + Squares(us[1..], p) && Ls == [Ls[0]] + Ls[1..];
      assert Squares(ws, p) == [Mod(ws[0] * ws[0], p)] + Squares(ws[1..], p) && Rs == [Rs[0]] + Rs[1..];
      DotCons(Mod(us[0] * us[0], p), Squares(us[1..], p), Ls[0], Ls[1..]);
      DotCons(Mod(ws[0] * ws[0], p), Squares(ws[1..], p), Rs[0], Rs[1..]);
    }
  }

  /** The last check of a verifier that folds the statement and the generators round by round. */
  ghost predicate LastCheck(pf: Proof, e: int, P: int, g: int, h: int, gens: Gens, p: Modulus) {
    Cong(pf.r * pf.s * gens.U - e * pf.A + pf.delta * gens.V + pf.r * e * g + pf.s * e * h - e * e * P, pf.B, p)
  }

  /** A generator list shorter than the scalars counts as if filled up with zeros. */
  function Filled(f: seq<int>, g: seq<int>, n: nat, p: Modulus): (v: seq<int>)
    requires |f| == |g| <= n
    ensures |v| == n
  {
    ModV(Had(f, g), p) + Const(n - |g|, 0)
  }

  lemma FilledDot(s: seq<int>, f: seq<int>, g: seq<int>, p: Modulus)
    requires |f| == |g| <= |s|
    ensures Dot(s[..|g|], ModV(Had(f, g), p)) == Dot(s, Filled(f, g, |s|, p))
  {
    hide Dot, Mod;
    var m := |g|;
    DotHalves(s, Filled(f, g, |s|, p), m);
    DotZero(|s| - m, s[m..]);
    assert Filled(f, g, |s|, p)[..m] == ModV(Had(f, g), p) && Filled(f, g, |s|, p)[m..] == Const(|s| - m, 0);
  }

  /**
   For every proof, honest or not, with as many right as left points and no more generators than its
   rounds allow: the single equation holds exactly when the round-by-round verifier's last check does.
   A zero challenge counts as its own inverse for the statement, and as having the inverse one for the
   generators.
   */
  lemma SingleEquationIsRecursive(oracle: Oracle, log: Log, pf: Proof, Gf: seq<int>, Hf: seq<int>, P: int, gens: Gens,
                                  G: seq<int>, H: seq<int>, us: seq<int>, log': Log, p: Modulus)
    requires Prime(p) && CanonicalV(us, p) && |us| == |pf.Ls| == |pf.Rs| && Canonical(pf.B, p)
    requires |Gf| == |Hf| == |G| == |H| <= Pow2(|us|)
    requires ReadRounds(oracle, StartLog(log, Pow2(|pf.Ls|)), pf.Ls, pf.Rs, p) == Some((us, log'))
    ensures var n, ws := Pow2(|us|), InversesOrOne(us, p);
      var e := Challenge(oracle, LastLog(log', pf.A, pf.B), "e", p);
      Verify(oracle, log, pf, Gf, Hf, P, gens, G, H, p) ==
        if pf.A != 0 && pf.B != 0 &&
           LastCheck(pf, e, FoldStatement(P, pf.Ls, pf.Rs, us, InversesOrZero(us, p), p),
                     FoldAll(Filled(Gf, G, n, p), us, ws, p), FoldAll(Filled(Hf, H, n, p), ws, us, p), gens, p)
        then Accept else Reject
  {
    hide Dot, Mod, EqScalars, EqBases, ReadRounds, Spread, Inv, Verify, EqValue, FoldAll, FoldStatement, Squares,
         InversesOrOne, InversesOrZero, Filled, LastCheck, Challenge, LastLog;
    var ws, ws0 := InversesOrOne(us, p), InversesOrZero(us, p);
    var e := Challenge(oracle, LastLog(log', pf.A, pf.B), "e", p);
    var s := Spread(us, ws, p);
    VerifyFromRounds(oracle, log, pf, Gf, Hf, P, gens, G, H, us, log', p);
    SpreadReverse(us, ws, p);
    EquationValue(pf, e, Squares(us, p), Squares(ws0, p), s, Gf, Hf, P, gens, G, H, p);
    var g', h' := Filled(Gf, G, |s|, p), Filled(Hf, H, |s|, p);
    FilledDot(s, Gf, G, p);
    FilledDot(Reverse(s), Hf, H, p);
    SpreadIsFoldAll(g', us, ws, p);
    SpreadIsFoldAll(h', ws, us, p);
    FoldStatementIsSum(P, pf.Ls, pf.Rs, us, ws0, p);
    var g, h := FoldAll(g', us, ws, p), FoldAll(h', ws, us, p);
    var pairs := Dot(Squares(us, p), pf.Ls) + Dot(Squares(ws0, p), pf.Rs);
    EqValueCong(pf, pf, e, Dot(s, g'), g, Dot(Reverse(s), h'), h, pairs, P, gens, p);
    LastCheckIsEquation(pf, e, P, pairs, g, h, gens, p);
    CanonicalB(pf.B, p);
  }

  lemma CanonicalB(b: int, p: Modulus)
    requires Canonical(b, p)
    ensures Mod(b, p) == b
  {
  }

  lemma LastCheckIsEquation(pf: Proof, e: int, P: int, pairs: int, g: int, h: int, gens: Gens, p: Modulus)
    ensures LastCheck(pf, e, P + pairs, g, h, gens, p) <==> Cong(EqValue(pf, e, g, h, pairs, P, gens), pf.B, p)
  {
    hide Mod;
    LastCheckPoly(e, P, pairs);
  }

  lemma LastCheckPoly(e: int, P: int, pairs: int)
    ensures e * e * (P + pairs) == e * e * P + e * e * pairs
  {
  }
}
