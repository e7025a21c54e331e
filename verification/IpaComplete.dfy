/** The verifier's single equation, applied to what an honest prover sends. */
module IpaComplete {
  import opened PowersOfTwo
  import opened PrimeField
  import opened Vectors
  import opened Tensor
  import opened Transcript
  import opened IpaSpec
  import opened IpaVerify

  predicate NoIdentity(points: seq<int>) {
    forall i :: 0 <= i < |points| ==> points[i] != 0
  }

  // ---------- the verifier recomputes the prover's challenges ----------

  lemma NoIdentityCons(x: int, a: seq<int>)
    ensures NoIdentity([x] + a) <==> x != 0 && NoIdentity(a)
  {
    assert ([x] + a)[0] == x;
    assert forall i :: 0 <= i < |a| ==> a[i] == ([x] + a)[i + 1];
  }

  lemma ReadCons(oracle: Oracle, log: Log, L: int, Ls: seq<int>, R: int, Rs: seq<int>, u: int, p: Modulus)
    requires u == Challenge(oracle, RoundLog(log, L, R), "u", p)
    ensures ReadRounds(oracle, log, [L] + Ls, [R] + Rs, p) ==
      if L == 0 || R == 0 then None else
      match ReadRounds(oracle, RoundLog(log, L, R) + [Draw("u")], Ls, Rs, p)
      case None => None
      case Some(rest) => Some(([u] + rest.0, rest.1))
  {
    assert ([L] + Ls)[1..] == Ls && ([R] + Rs)[1..] == Rs;
  }

  lemma {:induction false} ReadHonest(oracle: Oracle, gens: Gens, st: State, blinds: seq<(int, int)>, p: Modulus)
    requires Prime(p) && Sized(st, |blinds|) && Reduce(oracle, gens, st, blinds, p).Some?
    ensures var r := Reduce(oracle, gens, st, blinds, p).value;
      ReadRounds(oracle, st.log, r.Ls, r.Rs, p) ==
        if NoIdentity(r.Ls) && NoIdentity(r.Rs) then Some((r.us, r.log)) else None
    decreases |blinds|
  {
    hide Reduce, Next, Left, Right;
    if |blinds| == 0 {
      ReduceBase(oracle, gens, st, p);
    } else {
      var L, R, u, w, st', r := Unroll(oracle, gens, st, blinds, p);
      ReadHonest(oracle, gens, st', blinds[1..], p);
      ReadCons(oracle, st.log, L, r.Ls, R, r.Rs, u, p);
      NoIdentityCons(L, r.Ls);
      NoIdentityCons(R, r.Rs);
      NextLog(st, L, R, u, w, blinds[0], p);
    }
  }

  lemma NextLog(st: State, L: int, R: int, u: int, w: int, d: (int, int), p: Modulus)
    requires |st.g| == |st.h| == |st.a| == |st.b| && |st.a| % 2 == 0
    ensures Next(st, L, R, u, w, d, p).log == RoundLog(st.log, L, R) + [Draw("u")]
  {
  }

  // ---------- the grown scalars are the spread scalars ----------

  lemma {:induction false} ProdCons(x: int, a: seq<int>)
    ensures Prod([x] + a) == x * Prod(a)
  {
    if |a| == 0 {
      assert [x] + a == [x] && [x][..0] == [];
      assert Prod([x]) == Prod([]) * x;
    } else {
      var n := |a| - 1;
      ProdCons(x, a[..n]);
      assert ([x] + a)[..|a|] == [x] + a[..n];
      MulSwap(x, a[n], Prod(a[..n]));
    }
  }

  /** The batch inversion's return value is the product of the inverses of the non-zero challenges. */
  lemma {:induction false} ProductOfInverses(us: seq<int>, p: Modulus)
    requires Prime(p) && CanonicalV(us, p)
    ensures Cong(Inv(NonZeroProduct(us, p), p), Prod(InversesOrOne(us, p)), p)
  {
    InverseProduct(us, p);
    InverseUnique(NonZeroProduct(us, p), Inv(NonZeroProduct(us, p), p), Prod(InversesOrOne(us, p)), p);
  }

  lemma InverseUnique(x: int, y: int, z: int, p: Modulus)
    requires Cong(x * y, 1, p) && Cong(x * z, 1, p)
    ensures Cong(y, z, p)
  {
    hide Mod;
    CongMul(x * y, 1, z, z, p);
    CongMul(x * z, 1, y, y, p);
    assert (x * y) * z == (x * z) * y;
  }

  lemma {:induction false} InverseProduct(us: seq<int>, p: Modulus)
    requires Prime(p) && CanonicalV(us, p)
    ensures Cong(NonZeroProduct(us, p) * Prod(InversesOrOne(us, p)), 1, p)
  {
    if |us| == 0 {
    } else {
      var n := |us| - 1;
      var ws := InversesOrOne(us, p);
      InverseProduct(us[..n], p);
      assert InversesOrOne(us[..n], p) == ws[..n];
      var q := NonZeroProduct(us[..n], p);
      if us[n] != 0 {
        InverseProductStep(q, Prod(ws[..n]), us[n], ws[n], p);
      }
    }
  }

  lemma InverseProductStep(q: int, r: int, u: int, w: int, p: Modulus)
    requires Cong(q * r, 1, p) && Cong(u * w, 1, p)
    ensures Cong(Mod(q * u, p) * (r * w), 1, p)
  {
    hide Mod;
    ModCong(q * u, p);
    CongMul(Mod(q * u, p), q * u, r * w, r * w, p);
    CongMul(q * r, 1, u * w, 1, p);
    Regroup(q, u, r, w);
  }

  lemma Regroup(q: int, u: int, r: int, w: int)
    ensures (q * u) * (r * w) == (q * r) * (u * w)
  {
  }

  lemma {:induction false} GrowSpread(us: seq<int>, s0: int, c: int, p: Modulus)
    requires Prime(p) && CanonicalV(us, p) && Cong(s0, c * Prod(InversesOrOne(us, p)), p)
    ensures CongV(Grow(Squares(us, p), s0, p), Scale(c, Spread(us, InversesOrOne(us, p), p)), p)
    decreases |us|
  {
    hide Mod, Inv, Prod;
    var ws := InversesOrOne(us, p);
    if |us| == 0 {
      GrowBase(s0, c, p);
    } else {
      assert InversesOrOne(us[1..], p) == ws[1..] && Squares(us, p)[1..] == Squares(us[1..], p);
      assert ws == [ws[0]] + ws[1..];
      ProdCons(ws[0], ws[1..]);
      MulSwap(c, Prod(ws[1..]), ws[0]);
      assert c * (ws[0] * Prod(ws[1..])) == (c * ws[0]) * Prod(ws[1..]);
      GrowSpread(us[1..], s0, c * ws[0], p);
      var t := Grow(Squares(us[1..], p), s0, p);
      var v := Spread(us[1..], ws[1..], p);
      GrowStep(t, v, c, us[0], ws[0], p);
    }
  }

  lemma GrowBase(s0: int, c: int, p: Modulus)
    requires Prime(p) && Cong(s0, c * Prod(InversesOrOne([], p)), p)
    ensures CongV(Grow(Squares([], p), s0, p), Scale(c, Spread([], InversesOrOne([], p), p)), p)
  {
  }

  lemma GrowStep(t: seq<int>, v: seq<int>, c: int, u: int, w: int, p: Modulus)
    requires CongV(t, Scale(c * w, v), p) && Cong(u * w * u, u, p)
    ensures CongV(t + ModV(Scale(Mod(u * u, p), t), p), Scale(c, ModV(Scale(w, v), p) + ModV(Scale(u, v), p)), p)
  {
    hide Mod;
    var x := t + ModV(Scale(Mod(u * u, p), t), p);
    var y := Scale(c, ModV(Scale(w, v), p) + ModV(Scale(u, v), p));
    forall i | 0 <= i < |x| ensures Cong(x[i], y[i], p) {
      var j := if i < |t| then i else i - |t|;
      GrowEntry(t[j], v[j], c, u, w, p);
      assert Scale(c * w, v)[j] == (c * w) * v[j];
    }
  }

  lemma GrowEntry(t: int, v: int, c: int, u: int, w: int, p: Modulus)
    requires Cong(t, (c * w) * v, p) && Cong(u * w * u, u, p)
    ensures Cong(t, c * Mod(w * v, p), p)
    ensures Cong(Mod(Mod(u * u, p) * t, p), c * Mod(u * v, p), p)
  {
    hide Mod;
    ModCong(w * v, p);
    CongScale(c, Mod(w * v, p), w * v, p);
    ModCong(u * v, p);
    CongScale(c, Mod(u * v, p), u * v, p);
    ModCong(u * u, p);
    ModCong(Mod(u * u, p) * t, p);
    CongMul(Mod(u * u, p), u * u, t, (c * w) * v, p);
    CongMul(u * w * u, u, c * v, c * v, p);
    GrowPoly(v, c, u, w);
  }

  lemma GrowPoly(v: int, c: int, u: int, w: int)
    ensures c * (w * v) == (c * w) * v
    ensures (u * u) * ((c * w) * v) == (u * w * u) * (c * v)
    ensures c * (u * v) == u * (c * v)
  {
  }

  lemma {:induction false} GrowCanonical(squares: seq<int>, s0: int, p: Modulus)
    requires Canonical(s0, p)
    ensures CanonicalV(Grow(squares, s0, p), p)
  {
    if |squares| == 0 {
    } else {
      GrowCanonical(squares[1..], s0, p);
    }
  }

  /** Whatever the challenges, zeros included, the verifier's recurrence yields spread scalars. */
  lemma GrowIsSpread(us: seq<int>, p: Modulus)
    requires Prime(p) && CanonicalV(us, p)
    ensures Grow(Squares(us, p), Inv(NonZeroProduct(us, p), p), p) == Spread(us, InversesOrOne(us, p), p)
  {
    var s0 := Inv(NonZeroProduct(us, p), p);
    var ws := InversesOrOne(us, p);
    ProductOfInverses(us, p);
    GrowSpread(us, s0, 1, p);
    GrowCanonical(Squares(us, p), s0, p);
    SpreadCanonical(us, ws, p);
    var x, y := Grow(Squares(us, p), s0, p), Spread(us, ws, p);
    assert Scale(1, y) == y;
    forall i | 0 <= i < |x| ensures x[i] == y[i] {
      CongCanonicalEqual(x[i], y[i], p);
    }
  }

  lemma {:induction false} SpreadCanonical(us: seq<int>, ws: seq<int>, p: Modulus)
    requires |us| == |ws|
    ensures CanonicalV(Spread(us, ws, p), p)
  {
  }

  // ---------- the single equation ----------

  lemma ScaledDot(c: int, f: seq<int>, s: seq<int>, g: seq<int>, p: Modulus)
    requires |f| == |s| == |g|
    ensures Cong(Dot(ZipScale(Mod(c, p), f, s, p), g), c * Dot(s, ModV(Had(f, g), p)), p)
  {
    hide Dot, Mod;
    var x := Mod(c, p);
    var z := Scale(x, Had(s, f));
    assert ZipScale(x, f, s, p) == ModV(z, p) by {
      forall i | 0 <= i < |s| ensures x * s[i] * f[i] == z[i] {
        MulSwap(s[i], f[i], x);
        assert x * s[i] * f[i] == x * (s[i] * f[i]);
      }
    }
    DotModV(z, g, p);
    DotScale(x, Had(s, f), g);
    DotHad(s, f, g);
    DotModV(s, Had(f, g), p);
    ModCong(c, p);
    CongMul(x, c, Dot(s, Had(f, g)), Dot(s, ModV(Had(f, g), p)), p);
  }

  lemma NegSquares(e: int, squares: seq<int>, pts: seq<int>, p: Modulus)
    requires |squares| == |pts|
    ensures Cong(Dot(ModV(Scale(-Mod(e * e, p), squares), p), pts), -(e * e) * Dot(squares, pts), p)
  {
    hide Dot, Mod;
    var x := -Mod(e * e, p);
    DotModV(Scale(x, squares), pts, p);
    DotScale(x, squares, pts);
    ModCong(e * e, p);
    CongScale(-1, Mod(e * e, p), e * e, p);
    assert -1 * Mod(e * e, p) == x && -1 * (e * e) == -(e * e);
    CongMul(x, -(e * e), Dot(squares, pts), Dot(squares, pts), p);
  }

  lemma FourDot(a: (int, int, int, int), b: (int, int, int, int))
    ensures Dot([a.0, a.1, a.2, a.3], [b.0, b.1, b.2, b.3]) == a.0 * b.0 + a.1 * b.1 + a.2 * b.2 + a.3 * b.3
  {
    DotSingle(a.0, b.0);
    DotSnoc([a.0], [b.0], a.1, b.1);
    DotSnoc([a.0, a.1], [b.0, b.1], a.2, b.2);
    DotSnoc([a.0, a.1, a.2], [b.0, b.1, b.2], a.3, b.3);
    assert [a.0, a.1, a.2, a.3] == [a.0, a.1, a.2] + [a.3] && [b.0, b.1, b.2, b.3] == [b.0, b.1, b.2] + [b.3];
    assert [a.0, a.1, a.2] == [a.0, a.1] + [a.2] && [b.0, b.1, b.2] == [b.0, b.1] + [b.2];
    assert [a.0, a.1] == [a.0] + [a.1] && [b.0, b.1] == [b.0] + [b.1];
  }

  /** The equation's right-hand side, term by term. */
  function EqValue(pf: Proof, e: int, sg: int, sh: int, pairs: int, P: int, gens: Gens): int {
    (pf.r * pf.s * gens.U - e * pf.A + pf.delta * gens.V - e * e * P) + pf.r * e * sg + pf.s * e * sh - e * e * pairs
  }

  lemma HeadCong(pf: Proof, e: int, P: int, gens: Gens, p: Modulus)
    ensures Cong(Mod(pf.r * pf.s, p) * gens.U + Mod(-e, p) * pf.A + pf.delta * gens.V + Mod(-(e * e), p) * P,
                 pf.r * pf.s * gens.U - e * pf.A + pf.delta * gens.V - e * e * P, p)
  {
    hide Mod;
    ModCong(pf.r * pf.s, p);
    ModCong(-e, p);
    ModCong(-(e * e), p);
    CongMul(Mod(pf.r * pf.s, p), pf.r * pf.s, gens.U, gens.U, p);
    CongMul(Mod(-e, p), -e, pf.A, pf.A, p);
    CongMul(Mod(-(e * e), p), -(e * e), P, P, p);
    var x0, x1, x3 := Mod(pf.r * pf.s, p) * gens.U, Mod(-e, p) * pf.A, Mod(-(e * e), p) * P;
    var y0, y1, y3 := pf.r * pf.s * gens.U, -e * pf.A, -(e * e) * P;
    Sum4(x0, y0, x1, y1, pf.delta * gens.V, pf.delta * gens.V, x3, y3, p);
    HeadPoly(e, pf.A, P);
    CongSame(x0 + x1 + pf.delta * gens.V + x3, y0 + y1 + pf.delta * gens.V + y3,
             Mod(pf.r * pf.s, p) * gens.U + Mod(-e, p) * pf.A + pf.delta * gens.V + Mod(-(e * e), p) * P,
             pf.r * pf.s * gens.U - e * pf.A + pf.delta * gens.V - e * e * P, p);
  }

  lemma HeadPoly(e: int, a: int, x: int)
    ensures -e * a == -(e * a) && -(e * e) * x == -(e * e * x)
  {
  }

  lemma Sum4(x0: int, y0: int, x1: int, y1: int, x2: int, y2: int, x3: int, y3: int, p: Modulus)
    requires Cong(x0, y0, p) && Cong(x1, y1, p) && Cong(x2, y2, p) && Cong(x3, y3, p)
    ensures Cong(x0 + x1 + x2 + x3, y0 + y1 + y2 + y3, p)
  {
    hide Mod;
    CongAdd(x0, y0, x1, y1, p);
    CongAdd(x0 + x1, y0 + y1, x2, y2, p);
    CongAdd(x0 + x1 + x2, y0 + y1 + y2, x3, y3, p);
  }

  /** The verifier's multi-scalar product is `EqValue` of the folded generators. */
  lemma EquationValue(pf: Proof, e: int, usq: seq<int>, wsq: seq<int>, s: seq<int>, Gf: seq<int>, Hf: seq<int>,
                      P: int, gens: Gens, G: seq<int>, H: seq<int>, p: Modulus)
    requires |s| >= |Gf| == |Hf| == |G| == |H| && |usq| == |wsq| == |pf.Ls| == |pf.Rs|
    ensures var sc := EqScalars(pf, e, usq, wsq, s, Gf, Hf, |G|, p);
      var ba := EqBases(pf, P, gens, G, H);
      |sc| == |ba| &&
      Cong(Dot(sc, ba), EqValue(pf, e, Dot(s[..|G|], ModV(Had(Gf, G), p)),
                                Dot(Reverse(s)[..|G|], ModV(Had(Hf, H), p)),
                                Dot(usq, pf.Ls) + Dot(wsq, pf.Rs), P, gens), p)
  {
    hide Dot, Mod;
    var s1, s2 := s[..|G|], Reverse(s)[..|G|];
    var h, hb := [Mod(pf.r * pf.s, p), Mod(-e, p), pf.delta, Mod(-(e * e), p)], [gens.U, pf.A, gens.V, P];
    var x1 := ZipScale(Mod(pf.r * e, p), Gf, s1, p);
    var x2 := ZipScale(Mod(pf.s * e, p), Hf, s2, p);
    assert ZipScale(Mod(pf.r * e, p), Gf, s, p) == x1 && ZipScale(Mod(pf.s * e, p), Hf, Reverse(s), p) == x2;
    var x3, x4 := ModV(Scale(-Mod(e * e, p), usq), p), ModV(Scale(-Mod(e * e, p), wsq), p);
    assert Take(x1, |G|) == x1;
    DotConcat(h, hb, x1, G);
    DotConcat(h + x1, hb + G, x2, H);
    DotConcat(h + x1 + x2, hb + G + H, x3, pf.Ls);
    DotConcat(h + x1 + x2 + x3, hb + G + H + pf.Ls, x4, pf.Rs);
    FourDot((h[0], h[1], h[2], h[3]), (hb[0], hb[1], hb[2], hb[3]));
    HeadCong(pf, e, P, gens, p);
    ScaledDot(pf.r * e, Gf, s1, G, p);
    ScaledDot(pf.s * e, Hf, s2, H, p);
    NegSquares(e, usq, pf.Ls, p);
    NegSquares(e, wsq, pf.Rs, p);
    EquationGlue(Dot(h, hb), Dot(x1, G), Dot(x2, H), Dot(x3, pf.Ls), Dot(x4, pf.Rs),
                 pf, e, Dot(s1, ModV(Had(Gf, G), p)), Dot(s2, ModV(Had(Hf, H), p)), Dot(usq, pf.Ls),
                 Dot(wsq, pf.Rs), P, gens, p);
  }

  lemma WholeSlice(s: seq<int>)
    ensures s[..|s|] == s
  {
  }

  lemma EquationGlue(d0: int, d1: int, d2: int, d3: int, d4: int, pf: Proof, e: int, sg: int, sh: int, l: int, r: int,
                     P: int, gens: Gens, p: Modulus)
    requires Cong(d0, pf.r * pf.s * gens.U - e * pf.A + pf.delta * gens.V - e * e * P, p)
    requires Cong(d1, (pf.r * e) * sg, p) && Cong(d2, (pf.s * e) * sh, p)
    requires Cong(d3, -(e * e) * l, p) && Cong(d4, -(e * e) * r, p)
    ensures Cong(d0 + d1 + d2 + d3 + d4, EqValue(pf, e, sg, sh, l + r, P, gens), p)
  {
    hide Mod;
    var y0 := pf.r * pf.s * gens.U - e * pf.A + pf.delta * gens.V - e * e * P;
    Sum4(d0, y0, d1, (pf.r * e) * sg, d2, (pf.s * e) * sh, d3, -(e * e) * l, p);
    EquationPoly(y0, (pf.r * e) * sg, (pf.s * e) * sh, e, l, r);
    CongSum(d0 + d1 + d2 + d3 + d4, EqValue(pf, e, sg, sh, l + r, P, gens),
            d0 + d1 + d2 + d3, y0 + (pf.r * e) * sg + (pf.s * e) * sh + -(e * e) * l, d4, -(e * e) * r, p);
  }

  lemma EquationPoly(y: int, a: int, b: int, e: int, l: int, r: int)
    ensures y + a + b + -(e * e) * l + -(e * e) * r == y + a + b - e * e * (l + r)
  {
  }

  // ---------- completeness, with the exact condition ----------

  lemma EqValueCong(x: Proof, y: Proof, e: int, sg: int, sg': int, sh: int, sh': int, pairs: int, P: int, gens: Gens,
                    p: Modulus)
    requires Cong(x.r, y.r, p) && Cong(x.s, y.s, p) && Cong(x.delta, y.delta, p) && Cong(x.A, y.A, p)
    requires Cong(sg, sg', p) && Cong(sh, sh', p)
    ensures Cong(EqValue(x, e, sg, sh, pairs, P, gens), EqValue(y, e, sg', sh', pairs, P, gens), p)
  {
    hide Mod;
    CongMul(x.r, y.r, x.s, y.s, p);
    CongMul(x.r * x.s, y.r * y.s, gens.U, gens.U, p);
    CongScale(e, x.A, y.A, p);
    CongSub(x.r * x.s * gens.U, y.r * y.s * gens.U, e * x.A, e * y.A, p);
    CongMul(x.delta, y.delta, gens.V, gens.V, p);
    CongAdd(x.r * x.s * gens.U - e * x.A, y.r * y.s * gens.U - e * y.A, x.delta * gens.V, y.delta * gens.V, p);
    var x0, y0 := x.r * x.s * gens.U - e * x.A + x.delta * gens.V, y.r * y.s * gens.U - e * y.A + y.delta * gens.V;
    CongSub(x0, y0, e * e * P, e * e * P, p);
    CongMul(x.r, y.r, e, e, p);
    CongMul(x.r * e, y.r * e, sg, sg', p);
    CongMul(x.s, y.s, e, e, p);
    CongMul(x.s * e, y.s * e, sh, sh', p);
    CongAdd(x0 - e * e * P, y0 - e * e * P, x.r * e * sg, y.r * e * sg', p);
    CongAdd(x0 - e * e * P + x.r * e * sg, y0 - e * e * P + y.r * e * sg', x.s * e * sh, y.s * e * sh', p);
    CongSub(x0 - e * e * P + x.r * e * sg + x.s * e * sh, y0 - e * e * P + y.r * e * sg' + y.s * e * sh',
            e * e * pairs, e * e * pairs, p);
  }

  /** Without reduction, the equation's right-hand side is B plus -e^2 times the statement's error. */
  lemma FinalPoly(r: Reduction, c: Coins, e: int, pf: Proof, pairs: int, P: int, gens: Gens)
    requires pf.r == c.r + r.a * e && pf.s == c.s + r.b * e && pf.delta == c.eta + c.delta * e + r.alpha * e * e
    requires pf.A == c.r * r.g + c.s * r.h + (c.r * r.b + c.s * r.a) * gens.U + c.delta * gens.V
    ensures EqValue(pf, e, r.g, r.h, pairs, P, gens)
         == (c.r * c.s * gens.U + c.eta * gens.V) - e * e * (P + pairs - FinalCommit(r, gens))
  {
    var U, V := gens.U, gens.V;
    FinalPolyUV(c.r, c.s, r.a, r.b, c.delta, c.eta, r.alpha, e, U, V);
    FinalPolyGH(c.r, r.a, e, r.g);
    FinalPolyGH(c.s, r.b, e, r.h);
    FinalPolyA(e, c.r * r.g, c.s * r.h, (c.r * r.b + c.s * r.a) * U, c.delta * V);
    FinalPolyC(e, P, pairs, r.a * r.g, r.b * r.h, r.a * r.b * U, r.alpha * V);
  }

  lemma FinalPolyUV(cr: int, cs: int, a: int, b: int, d: int, eta: int, al: int, e: int, U: int, V: int)
    ensures (cr + a * e) * (cs + b * e) * U - e * ((cr * b + cs * a) * U) == cr * cs * U + e * e * (a * b * U)
    ensures (eta + d * e + al * e * e) * V - e * (d * V) == eta * V + e * e * (al * V)
  {
    FinalPolyU(cr, cs, a, b, e, U);
    FinalPolyV(d, eta, al, e, V);
  }

  lemma FinalPolyU(cr: int, cs: int, a: int, b: int, e: int, U: int)
    ensures (cr + a * e) * (cs + b * e) * U - e * ((cr * b + cs * a) * U) == cr * cs * U + e * e * (a * b * U)
  {
    assert (cr + a * e) * (cs + b * e) == cr * cs + e * (cr * b + cs * a) + e * e * (a * b);
  }

  lemma FinalPolyV(d: int, eta: int, al: int, e: int, V: int)
    ensures (eta + d * e + al * e * e) * V - e * (d * V) == eta * V + e * e * (al * V)
  {
  }

  lemma FinalPolyGH(cr: int, a: int, e: int, g: int)
    ensures (cr + a * e) * e * g - e * (cr * g) == e * e * (a * g)
  {
  }

  lemma FinalPolyA(e: int, a: int, b: int, c: int, d: int)
    ensures e * (a + b + c + d) == e * a + e * b + e * c + e * d
  {
  }

  lemma FinalPolyC(e: int, P: int, pairs: int, a: int, b: int, c: int, d: int)
    ensures e * e * (P + pairs - (a + b + c + d))
         == e * e * P + e * e * pairs - e * e * a - e * e * b - e * e * c - e * e * d
  {
  }

  /** The verifier's expected point differs from B by e^2 times the difference of the statements. */
  lemma ExpectedPoint(r: Reduction, c: Coins, pf: Proof, e: int, sg: int, sh: int, pairs: int, P: int, stmt: int,
                      gens: Gens, p: Modulus)
    requires pf.r == Mod(c.r + r.a * e, p) && pf.s == Mod(c.s + r.b * e, p)
    requires pf.delta == Mod(c.eta + c.delta * e + r.alpha * e * e, p)
    requires pf.A == PointA(r, c, gens, p) && pf.B == PointB(c, gens, p)
    requires Cong(sg, r.g, p) && Cong(sh, r.h, p) && Cong(stmt + pairs, FinalCommit(r, gens), p)
    ensures Cong(EqValue(pf, e, sg, sh, pairs, P, gens), pf.B - e * e * (P - stmt), p)
  {
    hide Mod, EqValue, FinalCommit;
    var A := c.r * r.g + c.s * r.h + (c.r * r.b + c.s * r.a) * gens.U + c.delta * gens.V;
    var B := c.r * c.s * gens.U + c.eta * gens.V;
    var pf' := pf.(r := c.r + r.a * e, s := c.s + r.b * e, delta := c.eta + c.delta * e + r.alpha * e * e, A := A);
    ModCong(pf'.r, p);
    ModCong(pf'.s, p);
    ModCong(pf'.delta, p);
    ModCong(A, p);
    ModCong(B, p);
    FinalPoly(r, c, e, pf', pairs, P, gens);
    StatementGlue(B, pf.B, e, P, pairs, FinalCommit(r, gens), stmt, p);
    EqValueCong(pf, pf', e, sg, r.g, sh, r.h, pairs, P, gens, p);
  }

  lemma StatementGlue(B: int, B': int, e: int, P: int, pairs: int, f: int, s: int, p: Modulus)
    requires Cong(B', B, p) && Cong(s + pairs, f, p)
    ensures Cong(B - e * e * (P + pairs - f), B' - e * e * (P - s), p)
  {
    hide Mod;
    CongSub(P + pairs, P + pairs, f, s + pairs, p);
    CongScale(e * e, P + pairs - f, P + pairs - (s + pairs), p);
    CongSub(B, B', e * e * (P + pairs - f), e * e * (P - s), p);
  }

  lemma ErrorVanishes(B: int, x: int, e: int, d: int, p: Modulus)
    requires Prime(p) && Cong(x, B - e * e * d, p) && Canonical(e, p) && Canonical(B, p)
    ensures Mod(x, p) == B <==> e == 0 || Cong(d, 0, p)
  {
    assert Mod(e, p) == e && Mod(0, p) == 0;
    if e == 0 {
    } else if Cong(d, 0, p) {
      CongScale(e * e, d, 0, p);
      CongSub(B, B, e * e * d, 0, p);
    } else if Mod(x, p) == B {
      CongSub(B, B - e * e * d, B, B, p);
      NegZero(e * e * d, p);
      NoZeroDivisors(e * e, d, p);
      NoZeroDivisors(e, e, p);
    }
  }

  lemma NegZero(x: int, p: Modulus)
    requires Cong(0, -x, p)
    ensures Cong(x, 0, p)
  {
    hide Mod;
    CongAdd(0, -x, x, x, p);
  }

  /**
   The verifier's verdict on an honest run, for every statement P, randomness and challenge function:
   it accepts exactly when no point of the proof is the identity and P is the folded statement
   (or the last challenge happens to be zero).
   */
  lemma HonestVerdict(oracle: Oracle, log: Log, gens: Gens, G: seq<int>, H: seq<int>, Gf: seq<int>, Hf: seq<int>,
                      a: seq<int>, b: seq<int>, alpha: int, blinds: seq<(int, int)>, c: Coins, P: int, p: Modulus)
    requires Prime(p)
    requires |G| == |H| == |Gf| == |Hf| == |a| == |b| == Pow2(|blinds|)
    requires Reduce(oracle, gens, Start(G, H, Gf, Hf, a, b, alpha, log, p), blinds, p).Some?
    ensures var st := Start(G, H, Gf, Hf, a, b, alpha, log, p);
      var r := Reduce(oracle, gens, st, blinds, p).value;
      var pf := Finish(oracle, r, c, gens, p).0;
      var e := Challenge(oracle, LastLog(r.log, pf.A, pf.B), "e", p);
      var verdict := Verify(oracle, log, pf, Gf, Hf, P, gens, G, H, p);
      verdict != Panic &&
      (verdict == Accept <==>
        NoIdentity(pf.Ls) && NoIdentity(pf.Rs) && pf.A != 0 && pf.B != 0 &&
        (e == 0 || Cong(P - Committed(gens, st), 0, p)))
  {
    hide Reduce, Dot, Mod, Committed, Inv, EqScalars, EqBases, Verify, Finish, ReadRounds, Squares, Inverses, Spread,
         Start, NoIdentity, Had, ModV, Pow2;
    var st := Start(G, H, Gf, Hf, a, b, alpha, log, p);
    StartParts(G, H, Gf, Hf, a, b, alpha, log, |blinds|, p);
    var r := Reduce(oracle, gens, st, blinds, p).value;
    var pf := Finish(oracle, r, c, gens, p).0;
    FinishPoints(oracle, r, c, gens, p);
    ReadHonest(oracle, gens, st, blinds, p);
    if NoIdentity(pf.Ls) && NoIdentity(pf.Rs) {
      var e := Challenge(oracle, LastLog(r.log, pf.A, pf.B), "e", p);
      HonestEquation(oracle, gens, st, blinds, c, P, Gf, Hf, G, H, p);
      var ws := Inverses(r.us, p);
      var sc := EqScalars(pf, e, Squares(r.us, p), Squares(ws, p), Spread(r.us, ws, p), Gf, Hf, |G|, p);
      InversesNonZero(r.us, p);
      OnlyForZeros(r.us, p);
      VerifyFromRounds(oracle, log, pf, Gf, Hf, P, gens, G, H, r.us, r.log, p);
      ErrorVanishes(pf.B, Dot(sc, EqBases(pf, P, gens, G, H)), e, P - Committed(gens, st), p);
    } else {
      VerifyStops(oracle, log, pf, Gf, Hf, P, gens, G, H, p);
    }
  }

  lemma StartParts(G: seq<int>, H: seq<int>, Gf: seq<int>, Hf: seq<int>, a: seq<int>, b: seq<int>, alpha: int,
                   log: Log, k: nat, p: Modulus)
    requires |G| == |H| == |Gf| == |Hf| == |a| == |b| == Pow2(k)
    ensures var st := Start(G, H, Gf, Hf, a, b, alpha, log, p);
      Sized(st, k) && st.g == ModV(Had(Gf, G), p) && st.h == ModV(Had(Hf, H), p) && st.log == StartLog(log, |G|)
  {
  }

  lemma FinishPoints(oracle: Oracle, r: Reduction, c: Coins, gens: Gens, p: Modulus)
    ensures var pf := Finish(oracle, r, c, gens, p).0;
      pf.Ls == r.Ls && pf.Rs == r.Rs && Canonical(pf.A, p) && Canonical(pf.B, p)
  {
  }

  lemma VerifyStops(oracle: Oracle, log: Log, pf: Proof, Gf: seq<int>, Hf: seq<int>, P: int, gens: Gens,
                    G: seq<int>, H: seq<int>, p: Modulus)
    requires Prime(p) && ReadRounds(oracle, StartLog(log, Pow2(|pf.Ls|)), pf.Ls, pf.Rs, p) == None
    ensures Verify(oracle, log, pf, Gf, Hf, P, gens, G, H, p) == Reject
  {
  }

  /** The verdict once as many challenges as left points are read back. */
  lemma VerifyFromRounds(oracle: Oracle, log: Log, pf: Proof, Gf: seq<int>, Hf: seq<int>, P: int, gens: Gens,
                         G: seq<int>, H: seq<int>, us: seq<int>, log': Log, p: Modulus)
    requires Prime(p) && CanonicalV(us, p) && |us| == |pf.Ls|
    requires ReadRounds(oracle, StartLog(log, Pow2(|pf.Ls|)), pf.Ls, pf.Rs, p) == Some((us, log'))
    ensures var e := Challenge(oracle, LastLog(log', pf.A, pf.B), "e", p);
      var sc := EqScalars(pf, e, Squares(us, p), Squares(InversesOrZero(us, p), p), Spread(us, InversesOrOne(us, p), p),
                          Gf, Hf, |G|, p);
      var ba := EqBases(pf, P, gens, G, H);
      Verify(oracle, log, pf, Gf, Hf, P, gens, G, H, p) ==
        if pf.A == 0 || pf.B == 0 then Reject
        else if |sc| != |ba| then Panic
        else if Mod(Dot(sc, ba), p) == pf.B then Accept
        else Reject
  {
    hide Dot, Mod, EqScalars, EqBases, ReadRounds, Grow, Spread, Inv, InversesOrOne;
    GrowIsSpread(us, p);
  }

  lemma HonestEquation(oracle: Oracle, gens: Gens, st: State, blinds: seq<(int, int)>, c: Coins, P: int,
                       Gf: seq<int>, Hf: seq<int>, G: seq<int>, H: seq<int>, p: Modulus)
    requires Prime(p) && Sized(st, |blinds|) && Reduce(oracle, gens, st, blinds, p).Some?
    requires |Gf| == |Hf| == |G| == |H| == Pow2(|blinds|) && st.g == ModV(Had(Gf, G), p) && st.h == ModV(Had(Hf, H), p)
    ensures var r := Reduce(oracle, gens, st, blinds, p).value;
      var pf := Finish(oracle, r, c, gens, p).0;
      var e := Challenge(oracle, LastLog(r.log, pf.A, pf.B), "e", p);
      NonZero(r.us, p) &&
      var ws := Inverses(r.us, p);
      var sc := EqScalars(pf, e, Squares(r.us, p), Squares(ws, p), Spread(r.us, ws, p), Gf, Hf, |G|, p);
      var ba := EqBases(pf, P, gens, G, H);
      |sc| == |ba| && Cong(Dot(sc, ba), pf.B - e * e * (P - Committed(gens, st)), p)
  {
    hide Reduce, Dot, Mod, Committed, Inv, EqValue, Spread, EqScalars, EqBases, PairSum, Finish, Squares, Inverses,
         FinalCommit, PointA, PointB, Challenge, ModV, Had, Reverse, Pow2, LastLog, NonZero;
    var r := Reduce(oracle, gens, st, blinds, p).value;
    var pf := Finish(oracle, r, c, gens, p).0;
    var e := Challenge(oracle, LastLog(r.log, pf.A, pf.B), "e", p);
    FinishPoints(oracle, r, c, gens, p);
    SpreadFolds(oracle, gens, st, blinds, p);
    ReduceKeeps(oracle, gens, st, blinds, p);
    var ws := Inverses(r.us, p);
    var s := Spread(r.us, ws, p);
    WholeSlice(s);
    WholeSlice(Reverse(s));
    SpreadReverse(r.us, ws, p);
    HonestPoint(oracle, r, c, Dot(s, st.g), Dot(Reverse(s), st.h), PairSum(r, p), P, Committed(gens, st), gens, p);
    EquationValue(pf, e, Squares(r.us, p), Squares(ws, p), s, Gf, Hf, P, gens, G, H, p);
    PairSumUnfold(r, p);
  }

  lemma HonestPoint(oracle: Oracle, r: Reduction, c: Coins, sg: int, sh: int, pairs: int, P: int, stmt: int,
                    gens: Gens, p: Modulus)
    requires Cong(sg, r.g, p) && Cong(sh, r.h, p) && Cong(stmt + pairs, FinalCommit(r, gens), p)
    ensures var pf := Finish(oracle, r, c, gens, p).0;
      var e := Challenge(oracle, LastLog(r.log, pf.A, pf.B), "e", p);
      Cong(EqValue(pf, e, sg, sh, pairs, P, gens), pf.B - e * e * (P - stmt), p)
  {
    hide Mod, PointA, PointB, Challenge, EqValue, FinalCommit;
    var pf := Finish(oracle, r, c, gens, p).0;
    var e := Challenge(oracle, LastLog(r.log, pf.A, pf.B), "e", p);
    ExpectedPoint(r, c, pf, e, sg, sh, pairs, P, stmt, gens, p);
  }

  lemma PairSumUnfold(r: Reduction, p: Modulus)
    requires Prime(p) && NonZero(r.us, p) && |r.Ls| == |r.Rs| == |r.us|
    ensures PairSum(r, p) == Dot(Squares(r.us, p), r.Ls) + Dot(Squares(Inverses(r.us, p), p), r.Rs)
  {
    hide Dot, Squares, Inverses;
  }
}
