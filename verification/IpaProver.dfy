/** The provers: deferred symbolic bases with periodic collapse, and the plain folding prover. */
module IpaProver {
  import opened PowersOfTwo
  import opened PrimeField
  import opened Vectors
  import opened Tensor
  import opened Transcript
  import opened IpaBases
  import opened IpaSpec
  import opened IpaVerify

  /** The multi-scalar multiplication service. */
  function Msm(scalars: seq<int>, bases: seq<int>, p: Modulus): int
    requires |scalars| == |bases|
  {
    Mod(Dot(scalars, bases), p)
  }

  lemma MsmTail(gens: Gens, s1: seq<int>, b1: seq<int>, s2: seq<int>, b2: seq<int>, c: int, d: int)
    requires |s1| == |b1| && |s2| == |b2|
    ensures Dot(s1 + s2 + [c] + [d], b1 + b2 + [gens.U] + [gens.V])
         == Dot(s1, b1) + Dot(s2, b2) + c * gens.U + d * gens.V
  {
    hide Dot;
    DotConcat(s1, b1, s2, b2);
    DotSnoc(s1 + s2, b1 + b2, c, gens.U);
    DotSnoc(s1 + s2 + [c], b1 + b2 + [gens.U], d, gens.V);
  }

  lemma TailCong(z: int, x0: int, y0: int, x1: int, y1: int, x2: int, y2: int, d: int, gens: Gens, p: Modulus)
    requires z == x0 + x1 + x2 * gens.U + d * gens.V
    requires Cong(x0, y0, p) && Cong(x1, y1, p) && Cong(x2, y2, p)
    ensures Cong(z, Combine(gens, y0, y1, y2, d), p)
  {
    CommitCong((x0, x1, x2, d), (y0, y1, y2, d), gens, p);
  }

  /** Deferred terms, an inner product and a blinding make one cross term. */
  lemma MsmIsCross(gens: Gens, s1: seq<int>, b1: seq<int>, s2: seq<int>, b2: seq<int>,
                   a: seq<int>, b: seq<int>, g: seq<int>, h: seq<int>, d: int, p: Modulus)
    requires |s1| == |b1| && |s2| == |b2| && |a| == |b| == |g| == |h|
    requires Cong(Dot(s1, b1), Dot(a, g), p) && Cong(Dot(s2, b2), Dot(b, h), p)
    ensures Msm(s1 + s2 + [Mod(Dot(a, b), p)] + [d], b1 + b2 + [gens.U] + [gens.V], p) == Cross(gens, a, b, g, h, d, p)
  {
    hide Dot, Mod;
    var c := Mod(Dot(a, b), p);
    MsmTail(gens, s1, b1, s2, b2, c, d);
    ModCong(Dot(a, b), p);
    TailCong(Dot(s1 + s2 + [c] + [d], b1 + b2 + [gens.U] + [gens.V]),
             Dot(s1, b1), Dot(a, g), Dot(s2, b2), Dot(b, h), c, Dot(a, b), d, gens, p);
  }

  lemma FoldAt(v: seq<int>, x: int, y: int, i: nat, p: Modulus)
    requires |v| % 2 == 0 && i < |v| / 2
    ensures Fold(v, x, y, p)[i] == Mod(x * v[i] + y * v[|v| / 2 + i], p)
  {
    hide Mod;
  }

  /** After deferring every pair, the left bases stand for the folded generators. */
  lemma DeferredValue(sL: seq<seq<int>>, bL: seq<seq<int>>, sR: seq<seq<int>>, bR: seq<seq<int>>,
                      s: seq<seq<int>>, b: seq<seq<int>>, x: int, y: int, p: Modulus)
    requires |sL| == |bL| == |sR| == |bR| == |s| == |b|
    requires forall i :: 0 <= i < |s| ==> |sL[i]| == |bL[i]| && |sR[i]| == |bR[i]| && |s[i]| == |b[i]|
    requires forall i :: 0 <= i < |s| ==> s[i] == ModV(Scale(x, sL[i]), p) + ModV(Scale(y, sR[i]), p)
    requires forall i :: 0 <= i < |s| ==> b[i] == bL[i] + bR[i]
    ensures Denote(s, b, p) == Fold(Denote(sL, bL, p) + Denote(sR, bR, p), x, y, p)
  {
    hide Mod, Dot, Fold, Scale, ModV;
    var d := Denote(sL, bL, p) + Denote(sR, bR, p);
    forall i | 0 <= i < |s| ensures Denote(s, b, p)[i] == Fold(d, x, y, p)[i] {
      DeferDenotes(x, sL[i], bL[i], y, sR[i], bR[i], p);
      FoldAt(d, x, y, i, p);
    }
  }

  /** Folds the first 2n entries of v into the first n. */
  method FoldInPlace(v: array<int>, n: nat, x: int, y: int, p: Modulus)
    requires 2 * n <= v.Length
    modifies v
    ensures v[..n] == Fold(old(v[..2 * n]), x, y, p)
  {
    hide Mod, Fold;
    for i := 0 to n
      invariant forall j :: 0 <= j < i ==> v[j] == Mod(x * old(v[j]) + y * old(v[n + j]), p)
      invariant forall j :: i <= j < 2 * n ==> v[j] == old(v[j])
    {
      v[i] := Mod(x * v[i] + y * v[n + i], p);
    }
    assert v[..n] == Fold(old(v[..2 * n]), x, y, p) by {
      forall j | 0 <= j < n ensures v[..n][j] == Fold(old(v[..2 * n]), x, y, p)[j] {
        FoldAt(old(v[..2 * n]), x, y, j, p);
      }
    }
  }

  /** Defers every right base onto its left base. */
  method DeferAll(left: IPABases, right: IPABases, n: nat, x: int, y: int, ghost t: nat, p: Modulus)
    requires left != right && left.Valid() && right.Valid() && |left.bases| == |right.bases| == n
    requires Width(left.scalars, t) && Width(right.scalars, t)
    modifies left
    ensures left.Valid() && |left.bases| == n && Width(left.scalars, 2 * t)
    ensures left.Value(p) == Fold(old(left.Value(p)) + right.Value(p), x, y, p)
  {
    hide Mod, Dot, Fold;
    ghost var s0, b0 := left.scalars, left.bases;
    for i := 0 to n
      invariant left.Valid() && |left.bases| == n
      invariant forall j :: 0 <= j < i
                  ==> left.scalars[j] == ModV(Scale(x, s0[j]), p) + ModV(Scale(y, right.scalars[j]), p)
      invariant forall j :: 0 <= j < i ==> left.bases[j] == b0[j] + right.bases[j]
      invariant forall j :: i <= j < n ==> left.scalars[j] == s0[j] && left.bases[j] == b0[j]
    {
      left.Defer(i, right, x, y, p);
    }
    DeferredValue(s0, b0, right.scalars, right.bases, left.scalars, left.bases, x, y, p);
  }

  lemma DenoteConcat(s: seq<seq<int>>, b: seq<seq<int>>, s': seq<seq<int>>, b': seq<seq<int>>, p: Modulus)
    requires |s| == |b| && |s'| == |b'|
    requires forall i :: 0 <= i < |s| ==> |s[i]| == |b[i]|
    requires forall i :: 0 <= i < |s'| ==> |s'[i]| == |b'[i]|
    ensures Denote(s + s', b + b', p) == Denote(s, b, p) + Denote(s', b', p)
  {
    hide Mod, Dot;
  }

  /** Both cross terms of a round, as multi-scalar products over the deferred terms. */
  method CrossTerms(a: seq<int>, b: seq<int>, gL: IPABases, gR: IPABases, hL: IPABases, hR: IPABases,
                    gens: Gens, d: (int, int), ghost st: State, p: Modulus) returns (L: int, R: int)
    requires gL.Valid() && gR.Valid() && hL.Valid() && hR.Valid()
    requires |a| == |b| == 2 * |gL.bases| && |gL.bases| == |gR.bases| == |hL.bases| == |hR.bases|
    requires st.a == a && st.b == b && st.g == gL.Value(p) + gR.Value(p) && st.h == hL.Value(p) + hR.Value(p)
    ensures L == Left(gens, st, d.0, p) && R == Right(gens, st, d.1, p)
  {
    hide Mod, Dot, Cross, Denote, Flat, FlatScaled;
    var n := |a| / 2;
    var aL, aR, bL, bR := a[..n], a[n..], b[..n], b[n..];
    var cL := InnerProduct(aL, bR, p);
    var cR := InnerProduct(aR, bL, p);
    var s1, b1 := gR.Get(aL, p);
    var s2, b2 := hL.Get(bR, p);
    GetDenotes(aL, gR.scalars, gR.bases, p);
    GetDenotes(bR, hL.scalars, hL.bases, p);
    L := Msm(s1 + s2 + [cL] + [d.0], b1 + b2 + [gens.U] + [gens.V], p);
    MsmIsCross(gens, s1, b1, s2, b2, aL, bR, gR.Value(p), hL.Value(p), d.0, p);
    s1, b1 := gL.Get(aR, p);
    s2, b2 := hR.Get(bL, p);
    GetDenotes(aR, gL.scalars, gL.bases, p);
    GetDenotes(bL, hR.scalars, hR.bases, p);
    R := Msm(s1 + s2 + [cR] + [d.1], b1 + b2 + [gens.U] + [gens.V], p);
    MsmIsCross(gens, s1, b1, s2, b2, aR, bL, gL.Value(p), hR.Value(p), d.1, p);
    assert st.g[..n] == gL.Value(p) && st.g[n..] == gR.Value(p);
    assert st.h[..n] == hL.Value(p) && st.h[n..] == hR.Value(p);
  }

  function PrependAll(Ls: seq<int>, Rs: seq<int>, us: seq<int>, r: Option<Reduction>): Option<Reduction> {
    match r
    case None => None
    case Some(v) => Some(v.(Ls := Ls + v.Ls, Rs := Rs + v.Rs, us := us + v.us))
  }

  lemma PrependAllStep(Ls: seq<int>, Rs: seq<int>, us: seq<int>, L: int, R: int, u: int, r: Option<Reduction>)
    ensures PrependAll(Ls, Rs, us, Prepend(L, R, u, r)) == PrependAll(Ls + [L], Rs + [R], us + [u], r)
  {
    if r.Some? {
      assert Ls + ([L] + r.value.Ls) == (Ls + [L]) + r.value.Ls;
      assert Rs + ([R] + r.value.Rs) == (Rs + [R]) + r.value.Rs;
      assert us + ([u] + r.value.us) == (us + [u]) + r.value.us;
    }
  }

  ghost predicate Holds(st: State, gB: IPABases, hB: IPABases, a: array<int>, b: array<int>, n: nat, alpha: int,
                        log: Log, p: Modulus)
    reads gB, hB, a, b
  {
    gB.Valid() && hB.Valid() && |gB.bases| == |hB.bases| == n && n <= a.Length && n <= b.Length &&
    st == State(gB.Value(p), hB.Value(p), a[..n], b[..n], alpha, log)
  }

  /** Folds the vectors in place and defers the bases, under the challenge u and its inverse w. */
  method FoldAndDefer(a: array<int>, b: array<int>, n: nat, u: int, w: int,
                      gL: IPABases, gR: IPABases, hL: IPABases, hR: IPABases, ghost t: nat, p: Modulus)
    requires a != b && a.Length >= 2 * n && b.Length >= 2 * n
    requires gL != gR && gL != hL && gL != hR && hL != gR && hL != hR
    requires gL.Valid() && gR.Valid() && hL.Valid() && hR.Valid()
    requires |gL.bases| == |gR.bases| == |hL.bases| == |hR.bases| == n
    requires Width(gL.scalars, t) && Width(gR.scalars, t) && Width(hL.scalars, t) && Width(hR.scalars, t)
    modifies a, b, gL, hL
    ensures a[..n] == Fold(old(a[..2 * n]), u, w, p) && b[..n] == Fold(old(b[..2 * n]), w, u, p)
    ensures gL.Valid() && |gL.bases| == n && Width(gL.scalars, 2 * t)
    ensures hL.Valid() && |hL.bases| == n && Width(hL.scalars, 2 * t)
    ensures gL.Value(p) == Fold(old(gL.Value(p) + gR.Value(p)), w, u, p)
    ensures hL.Value(p) == Fold(old(hL.Value(p) + hR.Value(p)), u, w, p)
  {
    hide Mod, Dot, Fold, Denote;
    FoldInPlace(a, n, u, w, p);
    FoldInPlace(b, n, w, u, p);
    DeferAll(gL, gR, n, w, u, t, p);
    DeferAll(hL, hR, n, u, w, t, p);
  }

  /** The two halves of the bases. */
  method Halve(bases: IPABases, n: nat, ghost terms: nat, p: Modulus) returns (left: IPABases, right: IPABases)
    requires bases.Valid() && |bases.bases| == n && n % 2 == 0 && Width(bases.scalars, terms)
    ensures fresh(left) && fresh(right) && left != right && left.Valid() && right.Valid()
    ensures |left.bases| == |right.bases| == n / 2 && Width(left.scalars, terms) && Width(right.scalars, terms)
    ensures left.Value(p) + right.Value(p) == bases.Value(p)
  {
    hide Mod, Dot, Denote;
    left, right := bases.SplitAt(n / 2);
    DenoteConcat(left.scalars, left.bases, right.scalars, right.bases, p);
    assert left.scalars + right.scalars == bases.scalars && left.bases + right.bases == bases.bases;
  }

  /** One round, before any collapse. */
  method DeferredRound(tape: Tape, gens: Gens, gB: IPABases, hB: IPABases, a: array<int>, b: array<int>, n: nat,
                       alpha0: int, d: (int, int), ghost terms: nat, ghost st: State, p: Modulus)
    returns (ok: bool, L: int, R: int, alpha: int, gL: IPABases, hL: IPABases, ghost u: int)
    requires Prime(p) && a != b && n % 2 == 0
    requires Holds(st, gB, hB, a, b, n, alpha0, tape.log, p)
    requires Width(gB.scalars, terms) && Width(hB.scalars, terms)
    modifies tape, a, b
    ensures L == Left(gens, st, d.0, p) && R == Right(gens, st, d.1, p)
    ensures u == Challenge(tape.oracle, RoundLog(st.log, L, R), "u", p) && (ok <==> u != 0)
    ensures fresh(gL) && fresh(hL) && gL != hL
    ensures ok ==> Holds(Next(st, L, R, u, Inv(u, p), d, p), gL, hL, a, b, n / 2, alpha, tape.log, p)
    ensures ok ==> Width(gL.scalars, 2 * terms) && Width(hL.scalars, 2 * terms)
  {
    hide Mod, Dot, Fold, Left, Right, Denote;
    var gR: IPABases, hR: IPABases;
    gL, gR := Halve(gB, n, terms, p);
    hL, hR := Halve(hB, n, terms, p);
    L, R := CrossTerms(a[..n], b[..n], gL, gR, hL, hR, gens, d, st, p);
    tape.Append(Point("L", L));
    tape.Append(Point("R", R));
    assert tape.log == RoundLog(st.log, L, R);
    var c := tape.ChallengeScalar("u", p);
    ok, u, alpha := c != 0, c, alpha0;
    if ok {
      var w := Inv(c, p);
      FoldAndDefer(a, b, n / 2, c, w, gL, gR, hL, hR, terms, p);
      alpha := Mod(alpha0 + c * c * d.0 + w * w * d.1, p);
    }
  }

  /**
   The halving loop on deferred bases, collapsed whenever a base has reached `threshold` terms.
   For every threshold it computes what the loop on materialised generators computes, `red`; the
   one generator left on each side stays symbolic.  `heads` lists the terms per base at the head
   of every round.
   */
  method DeferredRounds(tape: Tape, gens: Gens, gB0: IPABases, hB0: IPABases, a: array<int>, b: array<int>,
                        alpha0: int, blinds: seq<(int, int)>, threshold: nat, p: Modulus)
    returns (ok: bool, Ls: seq<int>, Rs: seq<int>, alpha: int, gB: IPABases, hB: IPABases,
             ghost red: Reduction, ghost heads: seq<nat>)
    requires Prime(p) && a != b && a.Length == b.Length == Pow2(|blinds|)
    requires gB0.Valid() && hB0.Valid() && |gB0.bases| == |hB0.bases| == a.Length
    requires Width(gB0.scalars, 1) && Width(hB0.scalars, 1)
    modifies tape, a, b
    ensures Reduce(tape.oracle, gens, State(old(gB0.Value(p)), old(hB0.Value(p)), old(a[..]), old(b[..]), alpha0,
                                            old(tape.log)), blinds, p)
         == if ok then Some(red) else None
    ensures ok ==> Ls == red.Ls && Rs == red.Rs && alpha == red.alpha && tape.log == red.log
    ensures ok ==> a[0] == red.a && b[0] == red.b
    ensures ok ==> gB.Valid() && hB.Valid() && gB.Value(p) == [red.g] && hB.Value(p) == [red.h]
    ensures |heads| <= |blinds| && (ok ==> |heads| == |blinds|)
    ensures forall i :: 0 <= i < |heads| ==> heads[i] == 1 || heads[i] < threshold
  {
    hide Mod, Dot, Fold, Left, Right, Denote, Reduce, Pow2, Next;
    var n, k := a.Length, 0;
    ok, gB, hB, alpha, Ls, Rs := true, gB0, hB0, alpha0, [], [];
    ghost var us: seq<int> := [];
    red := Reduction([], [], [], 0, 0, 0, 0, 0, []);
    var terms: nat := 1;
    heads := [];
    ghost var st := State(gB.Value(p), hB.Value(p), a[..], b[..], alpha, tape.log);
    ghost var all := Reduce(tape.oracle, gens, st, blinds, p);
    assert a[..n] == a[..] && b[..n] == b[..] && blinds[0..] == blinds;
    PrependNothing(all);
    while k < |blinds|
      invariant 0 <= k <= |blinds| && n == Pow2(|blinds| - k)
      invariant k > 0 ==> fresh(gB) && fresh(hB) && gB != hB
      invariant Holds(st, gB, hB, a, b, n, alpha, tape.log, p) && Sized(st, |blinds| - k)
      invariant Width(gB.scalars, terms) && Width(hB.scalars, terms) && terms >= 1
      invariant k < |blinds| ==> terms == 1 || terms < threshold
      invariant all == PrependAll(Ls, Rs, us, Reduce(tape.oracle, gens, st, blinds[k..], p))
      invariant |heads| == k && forall i :: 0 <= i < k ==> heads[i] == 1 || heads[i] < threshold
    {
      heads := heads + [terms];
      HalfPow2(|blinds| - k);
      var L, R;
      ghost var u;
      ok, L, R, alpha, gB, hB, u := DeferredRound(tape, gens, gB, hB, a, b, n, alpha, blinds[k], terms, st, p);
      ReduceStep(tape.oracle, gens, st, blinds[k..], L, R, u, p);
      if !ok {
        return;
      }
      assert blinds[k..][1..] == blinds[k + 1..];
      st := Next(st, L, R, u, Inv(u, p), blinds[k], p);
      PrependAllStep(Ls, Rs, us, L, R, u, Reduce(tape.oracle, gens, st, blinds[k + 1..], p));
      Ls, Rs, us := Ls + [L], Rs + [R], us + [u];
      n, terms, k := n / 2, terms * 2, k + 1;
      if terms >= threshold && k < |blinds| {
        gB.Collapse(p);
        hB.Collapse(p);
        terms := 1;
      }
    }
    assert blinds[k..] == [];
    ReduceBase(tape.oracle, gens, st, p);
    red := all.value;
    assert gB.Value(p) == [st.g[0]] && hB.Value(p) == [st.h[0]];
  }

  lemma PrependNothing(r: Option<Reduction>)
    ensures PrependAll([], [], [], r) == r
  {
    if r.Some? {
      assert [] + r.value.Ls == r.value.Ls && [] + r.value.Rs == r.value.Rs && [] + r.value.us == r.value.us;
    }
  }

  lemma HalfPow2(k: nat)
    requires k > 0
    ensures Pow2(k) % 2 == 0 && Pow2(k) / 2 == Pow2(k - 1)
  {
  }

  lemma ReduceStep(oracle: Oracle, gens: Gens, st: State, blinds: seq<(int, int)>, L: int, R: int, u: int, p: Modulus)
    requires Prime(p) && |blinds| > 0 && Sized(st, |blinds|)
    requires L == Left(gens, st, blinds[0].0, p) && R == Right(gens, st, blinds[0].1, p)
    requires u == Challenge(oracle, RoundLog(st.log, L, R), "u", p)
    ensures Reduce(oracle, gens, st, blinds, p) ==
      if u == 0 then None
      else Prepend(L, R, u, Reduce(oracle, gens, Next(st, L, R, u, Inv(u, p), blinds[0], p), blinds[1..], p))
  {
  }

  /** Generators without pending factors. */
  lemma UnitFactors(g: seq<int>, p: Modulus)
    requires CanonicalV(g, p)
    ensures ModV(Had(Const(|g|, 1), g), p) == g
  {
  }

  /** One symbolic base per generator, scaled by its factor. */
  method InitBases(factors: seq<int>, gs: seq<int>, p: Modulus) returns (bases: IPABases)
    requires |factors| == |gs|
    ensures fresh(bases) && bases.Valid() && |bases.bases| == |gs| && Width(bases.scalars, 1)
    ensures bases.Value(p) == ModV(Had(factors, gs), p)
  {
    hide Mod, Dot;
    bases := new IPABases();
    for i := 0 to |gs|
      invariant fresh(bases) && bases.Valid() && |bases.bases| == i
      invariant forall j :: 0 <= j < i ==> bases.scalars[j] == [factors[j]] && bases.bases[j] == [gs[j]]
    {
      bases.DeferInit([factors[i]], [gs[i]]);
    }
    forall j | 0 <= j < |gs| ensures Dot(bases.scalars[j], bases.bases[j]) == factors[j] * gs[j] {
      DotSingle(factors[j], gs[j]);
    }
    assert bases.Value(p) == ModV(Had(factors, gs), p);
  }

  function Clamp(x: nat, lo: nat, hi: nat): nat {
    if x < lo then lo else if x > hi then hi else x
  }

  /** The zero-knowledge prover; fails exactly when a challenge to be inverted is zero. */
  method CreateZk(tape: Tape, gens: Gens, Gf: seq<int>, Hf: seq<int>, G: seq<int>, H: seq<int>, a: array<int>,
                  b: array<int>,
                  alpha: int, blinds: seq<(int, int)>, coins: Coins, p: Modulus)
    returns (proof: Option<Proof>)
    requires Prime(p) && a != b
    requires |G| == |H| == |Gf| == |Hf| == a.Length == b.Length == Pow2(|blinds|)
    modifies tape, a, b
    ensures var spec := Prove(tape.oracle, gens, Start(G, H, Gf, Hf, old(a[..]), old(b[..]), alpha, old(tape.log), p),
                              blinds, coins, p);
      match spec
      case None => proof == None
      case Some((pf, log)) => proof == Some(pf) && tape.log == log
  {
    hide Mod, Dot, Denote, Reduce;
    tape.Append(Number("IPA input length n", |G|));
    var gB := InitBases(Gf, G, p);
    var hB := InitBases(Hf, H, p);
    var threshold := Clamp(|G| / 256, 8, 32);
    var ok, Ls, Rs, alpha', gE, hE;
    ghost var red, heads;
    ok, Ls, Rs, alpha', gE, hE, red, heads := DeferredRounds(tape, gens, gB, hB, a, b, alpha, blinds, threshold, p);
    assert forall i :: 0 <= i < |heads| ==> heads[i] < 32;
    if !ok {
      return None;
    }
    proof := ProveLast(tape, gens, gE, hE, a[0], b[0], alpha', Ls, Rs, red, coins, p);
  }

  /** The two points of the last step. */
  method LastPoints(gens: Gens, gB: IPABases, hB: IPABases, a: int, b: int, ghost red: Reduction, coins: Coins,
                    p: Modulus)
    returns (A: int, B: int)
    requires gB.Valid() && hB.Valid() && gB.Value(p) == [red.g] && hB.Value(p) == [red.h]
    requires red.a == a && red.b == b
    ensures A == PointA(red, coins, gens, p) && B == PointB(coins, gens, p)
  {
    hide Mod, Dot, Denote, Flat, FlatScaled, Combine, PointA, PointB;
    var s1, b1 := gB.Get([coins.r], p);
    var s2, b2 := hB.Get([coins.s], p);
    GetDenotes([coins.r], gB.scalars, gB.bases, p);
    GetDenotes([coins.s], hB.scalars, hB.bases, p);
    A := Msm(s1 + s2 + [Mod(coins.r * b + coins.s * a, p)] + [coins.delta], b1 + b2 + [gens.U] + [gens.V], p);
    LastTail(gens, s1, b1, s2, b2, red, coins, p);
    B := Msm([Mod(coins.r * coins.s, p), coins.eta], [gens.U, gens.V], p);
    BlindPoint(gens, coins, p);
  }

  /** The last step: a proof of knowledge of the two remaining scalars. */
  method ProveLast(tape: Tape, gens: Gens, gB: IPABases, hB: IPABases, a: int, b: int, alpha: int,
                   Ls: seq<int>, Rs: seq<int>, ghost red: Reduction, coins: Coins, p: Modulus)
    returns (proof: Option<Proof>)
    requires gB.Valid() && hB.Valid() && gB.Value(p) == [red.g] && hB.Value(p) == [red.h]
    requires red.Ls == Ls && red.Rs == Rs && red.a == a && red.b == b && red.alpha == alpha && red.log == tape.log
    modifies tape
    ensures var spec := Finish(tape.oracle, red, coins, gens, p);
      proof == Some(spec.0) && tape.log == spec.1
  {
    hide Mod, Dot, Denote, PointA, PointB;
    var A, B := LastPoints(gens, gB, hB, a, b, red, coins, p);
    tape.Append(Point("A", A));
    tape.Append(Point("B", B));
    assert tape.log == LastLog(red.log, A, B);
    var e := tape.ChallengeScalar("e", p);
    proof := Some(Proof(Ls, Rs, A, B, Mod(coins.r + a * e, p), Mod(coins.s + b * e, p),
                        Mod(coins.eta + coins.delta * e + alpha * e * e, p)));
  }

  /** The point A as a multi-scalar product over the remaining terms. */
  lemma LastTail(gens: Gens, s1: seq<int>, b1: seq<int>, s2: seq<int>, b2: seq<int>, r: Reduction, c: Coins, p: Modulus)
    requires |s1| == |b1| && |s2| == |b2|
    requires Cong(Dot(s1, b1), Dot([c.r], [r.g]), p) && Cong(Dot(s2, b2), Dot([c.s], [r.h]), p)
    ensures Msm(s1 + s2 + [Mod(c.r * r.b + c.s * r.a, p)] + [c.delta], b1 + b2 + [gens.U] + [gens.V], p)
         == PointA(r, c, gens, p)
  {
    hide Dot, Mod, Combine, PointA;
    var y := c.r * r.b + c.s * r.a;
    PointAFromDots(gens, r, c, y, p);
    MsmTail(gens, s1, b1, s2, b2, Mod(y, p), c.delta);
    ModCong(y, p);
    TailCong(Dot(s1 + s2 + [Mod(y, p)] + [c.delta], b1 + b2 + [gens.U] + [gens.V]),
             Dot(s1, b1), Dot([c.r], [r.g]), Dot(s2, b2), Dot([c.s], [r.h]), Mod(y, p), y, c.delta, gens, p);
  }

  lemma PointAFromDots(gens: Gens, r: Reduction, c: Coins, y: int, p: Modulus)
    requires y == c.r * r.b + c.s * r.a
    ensures PointA(r, c, gens, p) == Mod(Combine(gens, Dot([c.r], [r.g]), Dot([c.s], [r.h]), y, c.delta), p)
  {
    hide Dot, Mod, Combine;
    DotSingle(c.r, r.g);
    DotSingle(c.s, r.h);
  }

  lemma BlindPoint(gens: Gens, c: Coins, p: Modulus)
    ensures Msm([Mod(c.r * c.s, p), c.eta], [gens.U, gens.V], p) == PointB(c, gens, p)
  {
    hide Dot, Mod;
    var x := Mod(c.r * c.s, p);
    DotSingle(x, gens.U);
    DotSnoc([x], [gens.U], c.eta, gens.V);
    assert [x] + [c.eta] == [x, c.eta] && [gens.U] + [gens.V] == [gens.U, gens.V];
    ModCong(c.r * c.s, p);
    CongMul(x, c.r * c.s, gens.U, gens.U, p);
    CongAdd(x * gens.U, c.r * c.s * gens.U, c.eta * gens.V, c.eta * gens.V, p);
  }
}
