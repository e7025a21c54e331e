/** The dot-product argument's verifier on any proof, and when its prover has a proof to send. */
module BulletAnyProof {
  import opened PowersOfTwo
  import opened PrimeField
  import opened Vectors
  import opened Tensor
  import opened Transcript
  import opened IpaSpec
  import opened IpaVerify
  import opened IpaComplete
  import opened IpaScalars
  import opened IpaRuns
  import opened Bullet

  lemma {:induction false} ReadAllMeans(oracle: Oracle, log: Log, Ls: seq<int>, Rs: seq<int>, p: Modulus)
    requires |Ls| <= |Rs|
    ensures ReadAll(oracle, log, Ls, Rs, p).0 == RoundChallenges(oracle, log, Ls, Rs[..|Ls|], p)
    decreases |Ls|
  {
    hide Mod, RoundMessages, RoundChallenges, ReadAll;
    if |Ls| == 0 {
      ReadNone(oracle, log, Ls, Rs, p);
      NoRounds(oracle, log, p);
      assert Ls == [] && Rs[..0] == [];
    } else {
      var n := |Ls| - 1;
      ReadStep(oracle, log, Ls, Rs, p);
      ReadAllMeans(oracle, RoundLog(log, Ls[0], Rs[0]) + [Draw("u")], Ls[1..], Rs[1..], p);
      RoundFirst(oracle, log, Ls[0], Rs[0], Ls[1..], Rs[1..][..n], p);
      assert Ls == [Ls[0]] + Ls[1..] && Rs[..n + 1] == [Rs[0]] + Rs[1..][..n];
    }
  }

  lemma NoneIsZero(us: seq<int>, p: Modulus)
    requires CanonicalV(us, p) && 0 !in us
    ensures NonZero(us, p)
  {
    assert forall i :: 0 <= i < |us| ==> us[i] in us;
  }

  /** The verdict of the verifier that folds the generators, the commitment and the public vector round by round. */
  ghost function ExactHats(oracle: Oracle, log: Log, n: nat, a: seq<int>, Gamma: int, Ls: seq<int>, Rs: seq<int>,
                           G: seq<int>, valid: int -> bool, p: Modulus): Hats
    requires Prime(p)
  {
    if |Ls| >= 32 || n != Pow2(|Ls|) then InternalError
    else if |Rs| < |Ls| then Abort
    else
      var us := RoundChallenges(oracle, log, Ls, Rs[..|Ls|], p);
      if 0 in us then Abort
      else if !AllValid(valid, Ls) || !AllValid(valid, Rs) then InternalError
      else if |G| != n || |a| != n || |Rs| != |Ls| then Abort
      else
        NoneIsZero(us, p);
        var ws := Inverses(us, p);
        Hats(Mod(FoldAll(G, us, ws, p), p), Mod(FoldStatement(Gamma, Ls, Rs, us, ws, p), p),
             Mod(FoldAll(a, us, ws, p), p))
  }

  /** For every proof: the folded values, or the first of the errors, in the order the source finds them. */
  lemma HatsExact(oracle: Oracle, log: Log, n: nat, a: seq<int>, Gamma: int, Ls: seq<int>, Rs: seq<int>, G: seq<int>,
                  valid: int -> bool, p: Modulus)
    requires Prime(p)
    ensures VerifyHats(oracle, log, n, a, Gamma, Ls, Rs, G, valid, p)
         == ExactHats(oracle, log, n, a, Gamma, Ls, Rs, G, valid, p)
  {
    hide Mod, Dot, Pow2, ReadAll, RoundMessages, RoundChallenges, AllValid, FoldAll, Spread, FoldStatement, Inv, Grow,
         NonZeroProduct, Squares, NonZero;
    if |Ls| <= |Rs| {
      ReadAllMeans(oracle, log, Ls, Rs, p);
      var us := RoundChallenges(oracle, log, Ls, Rs[..|Ls|], p);
      if 0 !in us && |G| == n && |a| == n && n == Pow2(|Ls|) && |Rs| == |Ls| {
        NoneIsZero(us, p);
        FoldedHats(us, a, Gamma, Ls, Rs, G, p);
      }
    }
  }

  lemma FoldedHats(us: seq<int>, a: seq<int>, Gamma: int, Ls: seq<int>, Rs: seq<int>, G: seq<int>, p: Modulus)
    requires Prime(p) && NonZero(us, p) && CanonicalV(us, p) && |Ls| == |Rs| == |us| && |G| == |a| == Pow2(|us|)
    ensures var s, ws := Grow(Squares(us, p), Inv(NonZeroProduct(us, p), p), p), Inverses(us, p);
      Mod(Dot(s, G), p) == Mod(FoldAll(G, us, ws, p), p) &&
      Mod(Dot(Squares(us, p) + Squares(InversesOrZero(us, p), p) + [1], Ls + Rs + [Gamma]), p)
        == Mod(FoldStatement(Gamma, Ls, Rs, us, ws, p), p) &&
      Mod(Dot(a, s), p) == Mod(FoldAll(a, us, ws, p), p)
  {
    hide Mod, Dot, FoldAll, Spread, FoldStatement, Inv, Grow, NonZeroProduct, Squares, Inverses, InversesOrZero,
         InversesOrOne;
    var ws := Inverses(us, p);
    GrowIsSpread(us, p);
    OnlyForZeros(us, p);
    InversesNonZero(us, p);
    var s := Spread(us, ws, p);
    SpreadIsFoldAll(G, us, ws, p);
    SpreadIsFoldAll(a, us, ws, p);
    DotComm(a, s);
    FoldStatementIsSum(Gamma, Ls, Rs, us, ws, p);
    var x, y := Squares(us, p), Squares(ws, p);
    DotConcat(x, Ls, y, Rs);
    DotSnoc(x + y, Ls + Rs, 1, Gamma);
  }

  // ---------- liveness ----------

  lemma {:induction false} ExactLogNone(n: nat, k: nat)
    requires ExactLog(n).None?
    ensures n != Pow2(k)
  {
    if k == 0 {
    } else {
      assert n == Pow2(k) ==> n / 2 == Pow2(k - 1) && n % 2 == 0;
      if n > 1 && n % 2 == 0 {
        ExactLogNone(n / 2, k - 1);
      }
    }
  }

  /**
   The prover has a proof exactly when the lengths pass the assertions (n a power of two, three vectors of
   that length, two blinds for each round and as many spare) and no round draws a zero challenge.
   */
  lemma BulletRuns(oracle: Oracle, log: Log, Q: int, H: int, G: seq<int>, a: seq<int>, b: seq<int>, blind: int,
                   blinds: seq<(int, int)>, p: Modulus)
    requires Prime(p)
    ensures AssertedReduce(oracle, log, Q, H, G, a, b, blind, blinds, p).Some? <==>
      exists k: nat :: |G| == Pow2(k) && |a| == |G| && |b| == |G| && |blinds| == 2 * k &&
        Runs(oracle, Gens(Q, H), BulletState(G, a, b, blind, log), blinds[..k], p)
  {
    hide Reduce, Pow2, ExactLog, Runs, Mod;
    match ExactLog(|G|)
    case None =>
      forall k: nat ensures |G| != Pow2(k) {
        ExactLogNone(|G|, k);
      }
    case Some(k) =>
      forall j: nat | |G| == Pow2(j) ensures j == k {
        ExactLogOf(j);
      }
      if |a| == |G| && |b| == |G| && |blinds| == 2 * k {
        StateParts(G, a, b, blind, log, k);
        ReduceRuns(oracle, Gens(Q, H), BulletState(G, a, b, blind, log), blinds[..k], p);
      }
  }
}
