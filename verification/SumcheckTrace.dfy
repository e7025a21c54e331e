/** What a sum-check run leaves on the transcript: every coefficient of every round, before the round's challenge. */
module SumcheckTrace {
  import opened PowersOfTwo
  import opened PrimeField
  import opened Vectors
  import opened Roots
  import opened Transcript
  import opened Multilinear
  import opened UniPoly
  import opened SumcheckSpec
  import opened SumcheckRun

  /** A round's messages: the polynomial between its markers, then the draw. */
  function PolyMessages(f: Poly): (m: Log)
    ensures |m| == |f| + 3
  {
    [Data("UniPoly_begin", [])] + seq(|f|, i requires 0 <= i < |f| => Scalar("coeff", f[i]))
    + [Data("UniPoly_end", []), Draw("challenge_nextround")]
  }

  function RunMessages(fs: seq<Poly>): Log {
    if |fs| == 0 then [] else PolyMessages(fs[0]) + RunMessages(fs[1..])
  }

  lemma PolyMessagesAre(log: Log, f: Poly)
    ensures PolyLog(log, f) + [Draw("challenge_nextround")] == log + PolyMessages(f)
  {
  }

  lemma PolyMessagesInjective(f: Poly, g: Poly)
    requires PolyMessages(f) == PolyMessages(g)
    ensures f == g
  {
    var m := PolyMessages(f);
    assert |f| == |m| - 3 && |g| == |m| - 3;
    forall i | 0 <= i < |f| ensures f[i] == g[i] {
      assert m[i + 1] == Scalar("coeff", f[i]) && m[i + 1] == Scalar("coeff", g[i]);
    }
  }

  /** Every round's polynomial has degree + 1 coefficients. */
  predicate EvenlySized(fs: seq<Poly>, degree: nat) {
    forall i :: 0 <= i < |fs| ==> |fs[i]| == degree + 1
  }

  lemma {:induction false} RunLength(fs: seq<Poly>, degree: nat)
    requires EvenlySized(fs, degree)
    ensures |RunMessages(fs)| == |fs| * (degree + 4)
  {
    if |fs| == 0 {
    } else {
      RunLength(fs[1..], degree);
      assert |fs| * (degree + 4) == (|fs| - 1) * (degree + 4) + (degree + 4);
    }
  }

  /** The messages of a run fix all of its coefficients, whatever follows them. */
  lemma {:induction false} RunInjective(fs: seq<Poly>, gs: seq<Poly>, rest: Log, rest': Log, degree: nat)
    requires EvenlySized(fs, degree) && EvenlySized(gs, degree) && |fs| == |gs|
    requires RunMessages(fs) + rest == RunMessages(gs) + rest'
    ensures fs == gs && rest == rest'
  {
    hide PolyMessages;
    if |fs| == 0 {
      assert fs == [] && gs == [] && [] + rest == rest && [] + rest' == rest';
    } else {
      var f, g, fs', gs' := fs[0], gs[0], fs[1..], gs[1..];
      assert RunMessages(fs) + rest == PolyMessages(f) + (RunMessages(fs') + rest);
      assert RunMessages(gs) + rest' == PolyMessages(g) + (RunMessages(gs') + rest');
      SplitEqual(PolyMessages(f), RunMessages(fs') + rest, PolyMessages(g), RunMessages(gs') + rest');
      PolyMessagesInjective(f, g);
      RunInjective(fs', gs', rest, rest', degree);
      assert fs == [f] + fs' && gs == [g] + gs';
    }
  }

  // ---------- the trace of an accepted run ----------

  lemma {:induction false} EvalOne(f: Poly)
    ensures Eval(f, 1) == Sum(f)
  {
    if |f| == 0 {
    } else {
      EvalOne(f[1..]);
      assert f == [f[0]] + f[1..];
      SumConcat([f[0]], f[1..]);
      SumSingle(f[0]);
    }
  }

  lemma EvalZero(f: Poly)
    requires |f| >= 1
    ensures Eval(f, 0) == f[0]
  {
  }

  datatype Rounds = Rounds(polys: seq<seq<int>>, fs: seq<Poly>, es: seq<int>, rs: seq<int>)

  predicate Counted(t: Rounds) {
    |t.polys| == |t.fs| == |t.rs| && |t.es| == |t.fs| + 1
  }

  /**
   Round j of a run: the polynomial that was sent without its linear term takes values at 0 and 1 that add up
   to the claim, the challenge is drawn after it and all polynomials before it, and its value there is the
   next claim.
   */
  ghost predicate RoundHolds(oracle: Oracle, log: Log, t: Rounds, degree: nat, j: nat, p: Modulus)
    requires Counted(t) && j < |t.fs|
  {
    |t.fs[j]| == degree + 1 && degree > 0 && t.polys[j] == t.fs[j][..1] + t.fs[j][2..] &&
    Cong(Eval(t.fs[j], 0) + Eval(t.fs[j], 1), t.es[j], p) &&
    t.rs[j] == Mod(oracle(log + RunMessages(t.fs[..j + 1])), p) && t.es[j + 1] == Mod(Eval(t.fs[j], t.rs[j]), p)
  }

  ghost predicate RoundsHold(oracle: Oracle, log: Log, t: Rounds, degree: nat, p: Modulus) {
    Counted(t) && forall j :: 0 <= j < |t.fs| ==> RoundHolds(oracle, log, t, degree, j, p)
  }

  function Before(poly: seq<int>, f: Poly, e: int, r: int, t: Rounds): Rounds {
    Rounds([poly] + t.polys, [f] + t.fs, [e] + t.es, [r] + t.rs)
  }

  lemma MessagesBefore(log: Log, f: Poly, fs: seq<Poly>)
    ensures log + RunMessages([f] + fs) == log + PolyMessages(f) + RunMessages(fs)
  {
    hide PolyMessages;
    assert ([f] + fs)[1..] == fs;
    assert log + (PolyMessages(f) + RunMessages(fs)) == log + PolyMessages(f) + RunMessages(fs);
  }

  lemma RoundLater(oracle: Oracle, log: Log, poly: seq<int>, f: Poly, e: int, r: int, t: Rounds, degree: nat, j: nat,
                   p: Modulus)
    requires Counted(t) && j < |t.fs| && RoundHolds(oracle, log + PolyMessages(f), t, degree, j, p)
    ensures RoundHolds(oracle, log, Before(poly, f, e, r, t), degree, j + 1, p)
  {
    hide Mod, Eval, PolyMessages, RunMessages;
    MessagesBefore(log, f, t.fs[..j + 1]);
    assert ([f] + t.fs)[..j + 2] == [f] + t.fs[..j + 1];
  }

  lemma RoundFirst(oracle: Oracle, log: Log, poly: seq<int>, f: Poly, e: int, r: int, t: Rounds, degree: nat,
                   p: Modulus)
    requires Counted(t) && |f| == degree + 1 && degree > 0 && poly == f[..1] + f[2..] && Canonical(e, p)
    requires Mod(f[0] + AtOne(f), p) == e && r == Mod(oracle(log + PolyMessages(f)), p)
    requires t.es[0] == Mod(Eval(f, r), p)
    ensures RoundHolds(oracle, log, Before(poly, f, e, r, t), degree, 0, p)
  {
    hide Mod, Eval, PolyMessages, RunMessages;
    EvalOne(f);
    EvalZero(f);
    CanonicalIs(e, p);
    MessagesBefore(log, f, []);
    assert RunMessages([]) == [] by { NoMessages(); }
    assert log + PolyMessages(f) + [] == log + PolyMessages(f);
    assert ([f] + t.fs)[..1] == [f] + [];
  }

  lemma NoMessages()
    ensures RunMessages([]) == []
  {
  }

  lemma RoundsBefore(oracle: Oracle, log: Log, poly: seq<int>, f: Poly, e: int, r: int, t: Rounds, degree: nat,
                     p: Modulus)
    requires RoundsHold(oracle, log + PolyMessages(f), t, degree, p)
    requires RoundHolds(oracle, log, Before(poly, f, e, r, t), degree, 0, p)
    ensures RoundsHold(oracle, log, Before(poly, f, e, r, t), degree, p)
  {
    hide RoundHolds, PolyMessages;
    var all := Before(poly, f, e, r, t);
    forall j | 0 <= j < |all.fs| ensures RoundHolds(oracle, log, all, degree, j, p) {
      if j > 0 {
        RoundLater(oracle, log, poly, f, e, r, t, degree, j - 1, p);
      }
    }
  }

  /** The rounds of the verifier on given polynomials. */
  function TraceOf(oracle: Oracle, log: Log, e: int, polys: seq<seq<int>>, p: Modulus): (t: Rounds)
    ensures Counted(t)
    decreases |polys|
  {
    if |polys| == 0 || |polys[0]| == 0 then Rounds([], [], [e], []) else
    var f := Decompress(polys[0], e, p);
    var r := Mod(oracle(log + PolyMessages(f)), p);
    Before(polys[0], f, e, r, TraceOf(oracle, log + PolyMessages(f), Mod(Eval(f, r), p), polys[1..], p))
  }

  lemma TraceFirst(oracle: Oracle, log: Log, e: int, polys: seq<seq<int>>, p: Modulus)
    ensures |polys| == 0 ==> TraceOf(oracle, log, e, polys, p) == Rounds([], [], [e], [])
    ensures |polys| > 0 && |polys[0]| > 0 ==>
      var f := Decompress(polys[0], e, p);
      var r := Mod(oracle(log + PolyMessages(f)), p);
      TraceOf(oracle, log, e, polys, p)
        == Before(polys[0], f, e, r, TraceOf(oracle, log + PolyMessages(f), Mod(Eval(f, r), p), polys[1..], p))
  {
    hide Mod, Eval, PolyMessages, Decompress;
  }

  /** An accepted run round by round: what was sent, what was claimed and what was drawn. */
  lemma {:induction false} RunTrace(oracle: Oracle, log: Log, e: int, polys: seq<seq<int>>, degree: nat, p: Modulus)
    returns (t: Rounds)
    requires Canonical(e, p) && VerifyRounds(oracle, log, e, polys, degree, p).Some?
    ensures t == TraceOf(oracle, log, e, polys, p)
    ensures t.polys == polys && RoundsHold(oracle, log, t, degree, p) && t.es[0] == e
    ensures VerifyRounds(oracle, log, e, polys, degree, p)
         == Some((t.es[|polys|], t.rs, log + RunMessages(t.fs)))
    decreases |polys|
  {
    hide TraceOf;
    TraceFirst(oracle, log, e, polys, p);
    if |polys| == 0 {
      t := Rounds([], [], [e], []);
      assert log + RunMessages(t.fs) == log && polys == [];
    } else {
      hide Mod, Eval, PolyMessages, RunMessages, PolyLog, RoundsHold, RoundHolds, Sum;
      var f := Decompress(polys[0], e, p);
      var log' := PolyLog(log, f) + [Draw("challenge_nextround")];
      PolyMessagesAre(log, f);
      var r := Challenge(oracle, PolyLog(log, f), "challenge_nextround", p);
      var rest := RunTrace(oracle, log', Mod(Eval(f, r), p), polys[1..], degree, p);
      RoundsCounted(oracle, log', rest, degree, p);
      t := Before(polys[0], f, e, r, rest);
      assert polys[0] == f[..1] + f[2..];
      RoundFirst(oracle, log, polys[0], f, e, r, rest, degree, p);
      RoundsBefore(oracle, log, polys[0], f, e, r, rest, degree, p);
      MessagesBefore(log, f, rest.fs);
      assert polys == [polys[0]] + polys[1..];
      assert t.es[|polys|] == rest.es[|polys| - 1];
    }
  }

  lemma RoundsCounted(oracle: Oracle, log: Log, t: Rounds, degree: nat, p: Modulus)
    requires RoundsHold(oracle, log, t, degree, p)
    ensures Counted(t) && EvenlySized(t.fs, degree)
    ensures forall j :: 0 <= j < |t.fs| ==> |t.fs[j]| >= 2 && t.polys[j] == t.fs[j][..1] + t.fs[j][2..]
  {
    hide RunMessages, Eval, Mod;
    forall j | 0 <= j < |t.fs|
      ensures |t.fs[j]| == degree + 1 && degree > 0 && t.polys[j] == t.fs[j][..1] + t.fs[j][2..]
    {
      assert RoundHolds(oracle, log, t, degree, j, p);
    }
  }

  // ---------- binding ----------

  /** Accepted runs over as many rounds that leave the same transcript, whatever follows, sent the same polynomials. */
  lemma RunBinds(oracle: Oracle, oracle': Oracle, log: Log, log': Log, e: int, e': int, polys: seq<seq<int>>,
                 polys': seq<seq<int>>, degree: nat, rest: Log, rest': Log, p: Modulus)
    requires Canonical(e, p) && Canonical(e', p) && |polys| == |polys'| && |log| == |log'|
    requires VerifyRounds(oracle, log, e, polys, degree, p).Some? &&
             VerifyRounds(oracle', log', e', polys', degree, p).Some?
    requires VerifyRounds(oracle, log, e, polys, degree, p).value.2 + rest
          == VerifyRounds(oracle', log', e', polys', degree, p).value.2 + rest'
    ensures polys == polys' && log == log' && rest == rest'
  {
    hide Mod, RunMessages, VerifyRounds, RoundsHold, TraceOf;
    var t := RunTrace(oracle, log, e, polys, degree, p);
    var t' := RunTrace(oracle', log', e', polys', degree, p);
    RoundsCounted(oracle, log, t, degree, p);
    RoundsCounted(oracle', log', t', degree, p);
    SplitThree(log, RunMessages(t.fs), rest, log', RunMessages(t'.fs), rest');
    RunInjective(t.fs, t'.fs, rest, rest', degree);
    SamePolys(t, t');
  }

  lemma SplitThree(a: Log, b: Log, c: Log, a': Log, b': Log, c': Log)
    requires |a| == |a'| && a + b + c == a' + b' + c'
    ensures a == a' && b + c == b' + c'
  {
    assert a + b + c == a + (b + c) && a' + b' + c' == a' + (b' + c');
    SplitEqual(a, b + c, a', b' + c');
  }

  /** What was sent follows from the polynomials. */
  lemma SamePolys(t: Rounds, t': Rounds)
    requires Counted(t) && Counted(t') && t.fs == t'.fs
    requires forall j :: 0 <= j < |t.fs| ==> |t.fs[j]| >= 2 && t.polys[j] == t.fs[j][..1] + t.fs[j][2..]
    requires forall j :: 0 <= j < |t'.fs| ==> |t'.fs[j]| >= 2 && t'.polys[j] == t'.fs[j][..1] + t'.fs[j][2..]
    ensures t.polys == t'.polys
  {
    forall j | 0 <= j < |t.polys| ensures t.polys[j] == t'.polys[j] {
      assert t.fs[j] == t'.fs[j];
    }
  }

  /**
   The transcript binds the verifier: two accepted runs of any degree bound that start and end with the same
   transcript took the same polynomials.
   */
  lemma SumcheckBinds(oracle: Oracle, oracle': Oracle, log: Log, claim: int, claim': int, polys: seq<seq<int>>,
                      polys': seq<seq<int>>, rounds: nat, rounds': nat, degree: nat, p: Modulus)
    requires Canonical(claim, p) && Canonical(claim', p)
    requires VerifySumcheck(oracle, log, claim, polys, rounds, degree, p).Some? &&
             VerifySumcheck(oracle', log, claim', polys', rounds', degree, p).Some?
    requires VerifySumcheck(oracle, log, claim, polys, rounds, degree, p).value.2
          == VerifySumcheck(oracle', log, claim', polys', rounds', degree, p).value.2
    ensures polys == polys' && rounds == rounds'
  {
    hide Mod, RunMessages, VerifyRounds, RoundsHold, TraceOf;
    var t := RunTrace(oracle, log, claim, polys, degree, p);
    var t' := RunTrace(oracle', log, claim', polys', degree, p);
    RoundsCounted(oracle, log, t, degree, p);
    RoundsCounted(oracle', log, t', degree, p);
    RunLength(t.fs, degree);
    RunLength(t'.fs, degree);
    assert |log + RunMessages(t.fs)| == |log + RunMessages(t'.fs)|;
    SameCount(|t.fs|, |t'.fs|, degree + 4);
    var log1 := log + RunMessages(t.fs);
    assert log1 + [] == log1;
    RunBinds(oracle, oracle', log, log, claim, claim', polys, polys', degree, [], [], p);
  }

  lemma SameCount(m: nat, n: nat, d: nat)
    requires m * d == n * d && d > 0
    ensures m == n
  {
    if m < n {
      MoreTimes(m, n, d);
    } else if n < m {
      MoreTimes(n, m, d);
    }
  }

  lemma MoreTimes(m: nat, n: nat, d: nat)
    requires m < n && d > 0
    ensures m * d < n * d
  {
    assert n * d == m * d + (n - m) * d;
  }

  /** The transcript binds the prover: runs that start and end with the same transcript sent the same polynomials. */
  lemma ProverBinds(oracle: Oracle, oracle': Oracle, log: Log, e: int, e': int, k: nat, k': nat, ts: seq<Tables>,
                    ts': seq<Tables>, coeffs: seq<int>, coeffs': seq<int>, p: Modulus)
    requires Prime(p) && p > 3 && AllSized(ts, Pow2(k)) && |coeffs| == |ts| && Canonical(e, p)
    requires AllSized(ts', Pow2(k')) && |coeffs'| == |ts'| && Canonical(e', p)
    requires ProveRounds(oracle, log, e, k, ts, coeffs, p).log == ProveRounds(oracle', log, e', k', ts', coeffs', p).log
    ensures ProveRounds(oracle, log, e, k, ts, coeffs, p).polys
         == ProveRounds(oracle', log, e', k', ts', coeffs', p).polys
  {
    hide Mod, ProveRounds, VerifySumcheck, BatchTriple, ErrorFactor, Pow2;
    RunVerdict(oracle, log, e, k, ts, coeffs, p);
    RunVerdict(oracle', log, e', k', ts', coeffs', p);
    SumcheckBinds(oracle, oracle', log, e, e', ProveRounds(oracle, log, e, k, ts, coeffs, p).polys,
                  ProveRounds(oracle', log, e', k', ts', coeffs', p).polys, k, k', 3, p);
  }
}
