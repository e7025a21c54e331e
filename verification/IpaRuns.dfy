/** When the halving loop runs to its end, and what its transcript holds. */
module IpaRuns {
  import opened PowersOfTwo
  import opened PrimeField
  import opened Vectors
  import opened Tensor
  import opened Transcript
  import opened IpaSpec
  import opened IpaVerify

  // ---------- liveness ----------

  /** The challenge of a round that starts in st. */
  function RoundChallenge(oracle: Oracle, gens: Gens, st: State, d: (int, int), p: Modulus): (u: int)
    requires |st.g| == |st.h| == |st.a| == |st.b| && |st.a| % 2 == 0
    ensures Canonical(u, p)
  {
    Mod(oracle(st.log + [Point("L", Left(gens, st, d.0, p)), Point("R", Right(gens, st, d.1, p)), Draw("u")]), p)
  }

  function AfterRound(oracle: Oracle, gens: Gens, st: State, d: (int, int), p: Modulus): (st': State)
    requires Prime(p) && |st.g| == |st.h| == |st.a| == |st.b| && |st.a| % 2 == 0
    ensures |st'.g| == |st'.h| == |st'.a| == |st'.b| == |st.a| / 2
  {
    var u := RoundChallenge(oracle, gens, st, d, p);
    Next(st, Left(gens, st, d.0, p), Right(gens, st, d.1, p), u, InvOrZero(u, p), d, p)
  }

  lemma SizedRound(oracle: Oracle, gens: Gens, st: State, d: (int, int), n: nat, p: Modulus)
    requires Prime(p) && Sized(st, n + 1)
    ensures |st.a| % 2 == 0 && Sized(AfterRound(oracle, gens, st, d, p), n)
  {
    hide Next, Left, Right, RoundChallenge, Inv, Mod;
  }

  /** The state before round j. */
  function StateAt(oracle: Oracle, gens: Gens, st: State, blinds: seq<(int, int)>, j: nat, p: Modulus): (r: State)
    requires Prime(p) && Sized(st, |blinds|) && j <= |blinds|
    ensures Sized(r, |blinds| - j)
    decreases j
  {
    hide AfterRound, Pow2;
    if j == 0 then st else
    SizedRound(oracle, gens, st, blinds[0], |blinds| - 1, p);
    StateAt(oracle, gens, AfterRound(oracle, gens, st, blinds[0], p), blinds[1..], j - 1, p)
  }

  /** No round draws a zero challenge. */
  ghost predicate Runs(oracle: Oracle, gens: Gens, st: State, blinds: seq<(int, int)>, p: Modulus)
    requires Prime(p) && Sized(st, |blinds|)
  {
    forall j :: 0 <= j < |blinds| ==>
      RoundChallenge(oracle, gens, StateAt(oracle, gens, st, blinds, j, p), blinds[j], p) != 0
  }

  lemma FlatChallenge(oracle: Oracle, log: Log, L: int, R: int, p: Modulus)
    ensures Challenge(oracle, RoundLog(log, L, R), "u", p)
         == Mod(oracle(log + [Point("L", L), Point("R", R), Draw("u")]), p)
    ensures RoundLog(log, L, R) + [Draw("u")] == log + [Point("L", L), Point("R", R), Draw("u")]
  {
    assert log + [Point("L", L), Point("R", R)] + [Draw("u")] == log + [Point("L", L), Point("R", R), Draw("u")];
  }

  lemma RunsCons(oracle: Oracle, gens: Gens, st: State, blinds: seq<(int, int)>, p: Modulus)
    requires Prime(p) && Sized(st, |blinds|) && |blinds| > 0
    ensures Sized(AfterRound(oracle, gens, st, blinds[0], p), |blinds| - 1)
    ensures Runs(oracle, gens, st, blinds, p) <==>
      RoundChallenge(oracle, gens, st, blinds[0], p) != 0 &&
      Runs(oracle, gens, AfterRound(oracle, gens, st, blinds[0], p), blinds[1..], p)
  {
    hide Mod, Inv, RoundChallenge, AfterRound;
    var st' := AfterRound(oracle, gens, st, blinds[0], p);
    assert StateAt(oracle, gens, st, blinds, 0, p) == st;
    forall j | 0 <= j < |blinds| - 1
      ensures StateAt(oracle, gens, st, blinds, j + 1, p) == StateAt(oracle, gens, st', blinds[1..], j, p)
      ensures blinds[1..][j] == blinds[j + 1]
    {
    }
    if Runs(oracle, gens, st, blinds, p) {
      forall j | 0 <= j < |blinds| - 1
        ensures RoundChallenge(oracle, gens, StateAt(oracle, gens, st', blinds[1..], j, p), blinds[1..][j], p) != 0
      {
        assert RoundChallenge(oracle, gens, StateAt(oracle, gens, st, blinds, j + 1, p), blinds[j + 1], p) != 0;
      }
    }
    if RoundChallenge(oracle, gens, st, blinds[0], p) != 0 && Runs(oracle, gens, st', blinds[1..], p) {
      forall j | 0 <= j < |blinds|
        ensures RoundChallenge(oracle, gens, StateAt(oracle, gens, st, blinds, j, p), blinds[j], p) != 0
      {
        if j > 0 {
          assert RoundChallenge(oracle, gens, StateAt(oracle, gens, st', blinds[1..], j - 1, p), blinds[1..][j - 1], p)
              != 0;
        }
      }
    }
  }

  /** The halving loop ends with a result exactly when no round draws a zero challenge. */
  lemma {:induction false} ReduceRuns(oracle: Oracle, gens: Gens, st: State, blinds: seq<(int, int)>, p: Modulus)
    requires Prime(p) && Sized(st, |blinds|)
    ensures Reduce(oracle, gens, st, blinds, p).Some? <==> Runs(oracle, gens, st, blinds, p)
    decreases |blinds|
  {
    if |blinds| == 0 {
    } else {
      hide Left, Right, Next, Mod, Inv, Runs;
      RunsCons(oracle, gens, st, blinds, p);
      FlatChallenge(oracle, st.log, Left(gens, st, blinds[0].0, p), Right(gens, st, blinds[0].1, p), p);
      ReduceRuns(oracle, gens, AfterRound(oracle, gens, st, blinds[0], p), blinds[1..], p);
    }
  }

  /** No transcript draws a zero challenge. */
  ghost predicate NeverZero(oracle: Oracle, p: Modulus) {
    forall log :: Mod(oracle(log), p) != 0
  }

  lemma NeverZeroRuns(oracle: Oracle, gens: Gens, st: State, blinds: seq<(int, int)>, p: Modulus)
    requires Prime(p) && Sized(st, |blinds|) && NeverZero(oracle, p)
    ensures Reduce(oracle, gens, st, blinds, p).Some?
  {
    hide Mod, Left, Right, StateAt, Reduce;
    ReduceRuns(oracle, gens, st, blinds, p);
  }

  /** The prover sends a proof exactly when no round draws a zero challenge. */
  lemma ProveRuns(oracle: Oracle, gens: Gens, st: State, blinds: seq<(int, int)>, c: Coins, p: Modulus)
    requires Prime(p) && Sized(st, |blinds|)
    ensures Prove(oracle, gens, st, blinds, c, p).Some? <==> Runs(oracle, gens, st, blinds, p)
  {
    hide Runs, Reduce, Finish;
    ReduceRuns(oracle, gens, st, blinds, p);
  }

  // ---------- the transcript of the rounds ----------

  /** What the rounds absorb: both points of each, then the challenge drawn. */
  function RoundMessages(Ls: seq<int>, Rs: seq<int>): (m: Log)
    requires |Ls| == |Rs|
    ensures |m| == 3 * |Ls|
  {
    if |Ls| == 0 then []
    else [Point("L", Ls[0]), Point("R", Rs[0]), Draw("u")] + RoundMessages(Ls[1..], Rs[1..])
  }

  /** The challenge that follows round j, drawn after the points of that round and of all rounds before it. */
  function RoundDraw(oracle: Oracle, log: Log, Ls: seq<int>, Rs: seq<int>, j: nat, p: Modulus): (u: int)
    requires |Ls| == |Rs| && j < |Ls|
    ensures Canonical(u, p)
  {
    Mod(oracle(log + RoundMessages(Ls[..j + 1], Rs[..j + 1])), p)
  }

  function RoundChallenges(oracle: Oracle, log: Log, Ls: seq<int>, Rs: seq<int>, p: Modulus): (us: seq<int>)
    requires |Ls| == |Rs|
    ensures |us| == |Ls| && CanonicalV(us, p)
  {
    seq(|Ls|, j requires 0 <= j < |Ls| => RoundDraw(oracle, log, Ls, Rs, j, p))
  }

  /** The messages of the rounds fix the points. */
  lemma {:induction false} MessagesInjective(Ls: seq<int>, Rs: seq<int>, Ls': seq<int>, Rs': seq<int>)
    requires |Ls| == |Rs| && |Ls'| == |Rs'| && RoundMessages(Ls, Rs) == RoundMessages(Ls', Rs')
    ensures Ls == Ls' && Rs == Rs'
  {
    var m := RoundMessages(Ls, Rs);
    if |Ls| == 0 {
    } else {
      assert m[..3] == [Point("L", Ls[0]), Point("R", Rs[0]), Draw("u")] && m[3..] == RoundMessages(Ls[1..], Rs[1..]);
      assert m[..3] == [Point("L", Ls'[0]), Point("R", Rs'[0]), Draw("u")] &&
             m[3..] == RoundMessages(Ls'[1..], Rs'[1..]);
      assert m[0] == m[..3][0] && m[1] == m[..3][1];
      MessagesInjective(Ls[1..], Rs[1..], Ls'[1..], Rs'[1..]);
      assert Ls == [Ls[0]] + Ls[1..] && Ls' == [Ls'[0]] + Ls'[1..];
      assert Rs == [Rs[0]] + Rs[1..] && Rs' == [Rs'[0]] + Rs'[1..];
    }
  }

  lemma MessagesFirst(log: Log, L: int, R: int, Ls: seq<int>, Rs: seq<int>)
    requires |Ls| == |Rs|
    ensures log + RoundMessages([L] + Ls, [R] + Rs) == RoundLog(log, L, R) + [Draw("u")] + RoundMessages(Ls, Rs)
  {
    var first := [Point("L", L), Point("R", R), Draw("u")];
    assert ([L] + Ls)[1..] == Ls && ([R] + Rs)[1..] == Rs;
    assert RoundMessages([L] + Ls, [R] + Rs) == first + RoundMessages(Ls, Rs);
    hide RoundMessages;
    assert RoundLog(log, L, R) + [Draw("u")] == log + first;
    assert log + (first + RoundMessages(Ls, Rs)) == (log + first) + RoundMessages(Ls, Rs);
  }

  lemma PrefixFirst(L: int, Ls: seq<int>, j: nat)
    requires j <= |Ls|
    ensures ([L] + Ls)[..j + 1] == [L] + Ls[..j]
  {
  }

  lemma DrawFirst(oracle: Oracle, log: Log, L: int, R: int, Ls: seq<int>, Rs: seq<int>, j: nat, p: Modulus)
    requires |Ls| == |Rs| && j <= |Ls|
    ensures RoundDraw(oracle, log, [L] + Ls, [R] + Rs, j, p) ==
      if j == 0 then Challenge(oracle, RoundLog(log, L, R), "u", p)
      else RoundDraw(oracle, RoundLog(log, L, R) + [Draw("u")], Ls, Rs, j - 1, p)
  {
    hide Mod, RoundLog;
    PrefixFirst(L, Ls, j);
    PrefixFirst(R, Rs, j);
    MessagesFirst(log, L, R, Ls[..j], Rs[..j]);
    if j == 0 {
      assert RoundLog(log, L, R) + [Draw("u")] + [] == RoundLog(log, L, R) + [Draw("u")];
    } else {
      hide RoundMessages;
    }
  }

  /** One round in front of the others. */
  lemma RoundFirst(oracle: Oracle, log: Log, L: int, R: int, Ls: seq<int>, Rs: seq<int>, p: Modulus)
    requires |Ls| == |Rs|
    ensures var log' := RoundLog(log, L, R) + [Draw("u")]; var u := Challenge(oracle, RoundLog(log, L, R), "u", p);
      log + RoundMessages([L] + Ls, [R] + Rs) == log' + RoundMessages(Ls, Rs) &&
      RoundChallenges(oracle, log, [L] + Ls, [R] + Rs, p) == [u] + RoundChallenges(oracle, log', Ls, Rs, p)
  {
    hide RoundLog, RoundMessages, Challenge, RoundDraw;
    var log', u := RoundLog(log, L, R) + [Draw("u")], Challenge(oracle, RoundLog(log, L, R), "u", p);
    MessagesFirst(log, L, R, Ls, Rs);
    var us, us' := RoundChallenges(oracle, log, [L] + Ls, [R] + Rs, p), RoundChallenges(oracle, log', Ls, Rs, p);
    forall j | 0 <= j < |us| ensures us[j] == ([u] + us')[j] {
      DrawFirst(oracle, log, L, R, Ls, Rs, j, p);
    }
  }

  /** A run of the halving loop leaves the messages of its rounds, and its challenges are those drawn on the way. */
  lemma {:induction false} ReduceTranscript(oracle: Oracle, gens: Gens, st: State, blinds: seq<(int, int)>, p: Modulus)
    requires Prime(p) && Sized(st, |blinds|) && Reduce(oracle, gens, st, blinds, p).Some?
    ensures var r := Reduce(oracle, gens, st, blinds, p).value;
      r.log == st.log + RoundMessages(r.Ls, r.Rs) && r.us == RoundChallenges(oracle, st.log, r.Ls, r.Rs, p)
    decreases |blinds|
  {
    hide Reduce, Left, Right, Mod, Inv, Fold, RoundMessages, RoundChallenges, RoundLog, Challenge;
    if |blinds| == 0 {
      ReduceBase(oracle, gens, st, p);
      NoRounds(oracle, st.log, p);
    } else {
      var L, R, u, w, st', r := Unroll(oracle, gens, st, blinds, p);
      ReduceTranscript(oracle, gens, st', blinds[1..], p);
      RoundFirst(oracle, st.log, L, R, r.Ls, r.Rs, p);
    }
  }

  lemma NoRounds(oracle: Oracle, log: Log, p: Modulus)
    ensures log + RoundMessages([], []) == log && RoundChallenges(oracle, log, [], [], p) == []
  {
  }

  /** Runs that start from the same transcript and end with the same one sent the same points. */
  lemma RunsBind(oracle: Oracle, gens: Gens, st: State, blinds: seq<(int, int)>,
                 oracle': Oracle, gens': Gens, st': State, blinds': seq<(int, int)>, p: Modulus)
    requires Prime(p) && Sized(st, |blinds|) && Sized(st', |blinds'|) && st.log == st'.log
    requires Reduce(oracle, gens, st, blinds, p).Some? && Reduce(oracle', gens', st', blinds', p).Some?
    requires Reduce(oracle, gens, st, blinds, p).value.log == Reduce(oracle', gens', st', blinds', p).value.log
    ensures var r, r' := Reduce(oracle, gens, st, blinds, p).value, Reduce(oracle', gens', st', blinds', p).value;
      r.Ls == r'.Ls && r.Rs == r'.Rs
  {
    hide Reduce, RoundMessages, RoundChallenges;
    ReduceTranscript(oracle, gens, st, blinds, p);
    ReduceTranscript(oracle', gens', st', blinds', p);
    var r, r' := Reduce(oracle, gens, st, blinds, p).value, Reduce(oracle', gens', st', blinds', p).value;
    SplitEqual(st.log, RoundMessages(r.Ls, r.Rs), st.log, RoundMessages(r'.Ls, r'.Rs));
    MessagesInjective(r.Ls, r.Rs, r'.Ls, r'.Rs);
  }
}
