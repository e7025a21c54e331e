/**
 Soundness of the hashed memory check: for wrong values the products of hashes agree for fewer multiset
 challenges than there are accesses, unless the hash challenge makes two different accesses collide, and at
 most two values of it do so for any pair.
 */
module MemorySound {
  import opened PrimeField
  import opened Vectors
  import opened Roots
  import opened SumcheckRun
  import opened ProductTree
  import opened MemoryCheck

  // ---------- products of shifted values ----------

  /** Every value minus t. */
  function Shifted(hs: seq<int>, t: int): (r: seq<int>)
    ensures |r| == |hs|
  {
    seq(|hs|, i requires 0 <= i < |hs| => hs[i] - t)
  }

  /** (h - X) times the polynomial q. */
  function TimesRoot(q: seq<int>, h: int): (f: seq<int>)
    ensures |f| == |q| + 1
  {
    seq(|q| + 1, i requires 0 <= i <= |q| => (if i < |q| then h * q[i] else 0) - (if i > 0 then q[i - 1] else 0))
  }

  lemma {:induction false} EvalTimesRoot(q: seq<int>, h: int, x: int)
    ensures Eval(TimesRoot(q, h), x) == (h - x) * Eval(q, x)
  {
    if |q| == 0 {
      assert TimesRoot(q, h) == [0];
      EvalSingle(0, x);
    } else {
      var q', c := q[1..], q[0];
      EvalTimesRoot(q', h, x);
      var f, f' := TimesRoot(q, h), TimesRoot(q', h);
      assert f[1..] == [f'[0] - c] + f'[1..];
      assert f' == [f'[0]] + f'[1..];
      HeadShift(f'[0], c, f'[1..], x);
      assert f[0] == h * c;
      TimesStep(h, c, x, Eval(q', x));
    }
  }

  lemma EvalSingle(c: int, x: int)
    ensures Eval([c], x) == c
  {
    assert [c][1..] == [];
    assert x * Eval([], x) == 0;
  }

  lemma HeadShift(a: int, c: int, rest: seq<int>, x: int)
    ensures Eval([a - c] + rest, x) == Eval([a] + rest, x) - c
  {
    assert ([a - c] + rest)[1..] == rest && ([a] + rest)[1..] == rest;
  }

  lemma TimesStep(h: int, c: int, x: int, e: int)
    ensures h * c + x * ((h - x) * e - c) == (h - x) * (c + x * e)
  {
    assert x * ((h - x) * e - c) == (h - x) * (x * e) - x * c;
  }

  /** The polynomial whose value at t is the product of all values minus t. */
  function RootPoly(hs: seq<int>): (f: seq<int>)
    ensures |f| == |hs| + 1
  {
    if |hs| == 0 then [1] else TimesRoot(RootPoly(hs[..|hs| - 1]), hs[|hs| - 1])
  }

  lemma {:induction false} EvalRootPoly(hs: seq<int>, t: int)
    ensures Eval(RootPoly(hs), t) == Prod(Shifted(hs, t))
  {
    if |hs| == 0 {
      EvalSingle(1, t);
    } else {
      var n := |hs| - 1;
      EvalRootPoly(hs[..n], t);
      EvalTimesRoot(RootPoly(hs[..n]), hs[n], t);
      assert Shifted(hs, t)[..n] == Shifted(hs[..n], t);
    }
  }

  /** Products over equally many values have the same leading coefficient. */
  lemma {:induction false} SameLeading(hs: seq<int>, ks: seq<int>)
    requires |hs| == |ks|
    ensures RootPoly(hs)[|hs|] == RootPoly(ks)[|ks|]
  {
    if |hs| == 0 {
    } else {
      var n := |hs| - 1;
      SameLeading(hs[..n], ks[..n]);
    }
  }

  /** The difference of two products, without the leading terms that cancel. */
  function Difference(hs: seq<int>, ks: seq<int>): (d: seq<int>)
    requires |hs| == |ks|
    ensures |d| == |hs|
  {
    Lin(1, RootPoly(hs), -1, RootPoly(ks))[..|hs|]
  }

  lemma EvalDifference(hs: seq<int>, ks: seq<int>, t: int)
    requires |hs| == |ks|
    ensures Eval(Difference(hs, ks), t) == Prod(Shifted(hs, t)) - Prod(Shifted(ks, t))
  {
    hide Eval, RootPoly, Prod, Shifted;
    var f, g, n := RootPoly(hs), RootPoly(ks), |hs|;
    SameLeading(hs, ks);
    EvalRootPoly(hs, t);
    EvalRootPoly(ks, t);
    var all := Lin(1, f, -1, g);
    assert all[n] == 0;
    assert all == all[..n] + [0];
    SnocZero(all[..n], t);
    EvalMinus(f, g, t);
  }

  lemma SnocZero(d: seq<int>, t: int)
    ensures Eval(d + [0], t) == Eval(d, t)
  {
    EvalSnoc(d, 0, t);
  }

  lemma {:induction false} ZeroEverywhere(d: seq<int>, x: int, p: Modulus)
    requires AllZero(d, p)
    ensures Cong(Eval(d, x), 0, p)
  {
    hide Mod;
    if |d| == 0 {
    } else {
      assert forall i :: 0 <= i < |d[1..]| ==> d[1..][i] == d[i + 1];
      ZeroEverywhere(d[1..], x, p);
      CongScale(x, Eval(d[1..], x), 0, p);
      assert Cong(d[0], 0, p);
      CongSum(Eval(d, x), 0, d[0], 0, x * Eval(d[1..], x), x * 0, p);
    }
  }

  /** Products that agree at as many points as there are values agree everywhere. */
  lemma AgreeEverywhere(hs: seq<int>, ks: seq<int>, ts: seq<int>, x: int, p: Modulus)
    requires Prime(p) && |hs| == |ks| <= |ts| && Distinct(ts) && CanonicalV(ts, p)
    requires forall i :: 0 <= i < |ts| ==> Cong(Prod(Shifted(hs, ts[i])), Prod(Shifted(ks, ts[i])), p)
    ensures Cong(Prod(Shifted(hs, x)), Prod(Shifted(ks, x)), p)
  {
    hide Mod, Eval, Prod, Shifted, Difference;
    var d := Difference(hs, ks);
    forall i | 0 <= i < |ts| ensures Root(d, ts[i], p) {
      EvalDifference(hs, ks, ts[i]);
      DifferenceZero(Prod(Shifted(hs, ts[i])), Prod(Shifted(ks, ts[i])), p);
    }
    if !AllZero(d, p) {
      RootBound(d, ts, p);
    } else {
      ZeroEverywhere(d, x, p);
      EvalDifference(hs, ks, x);
      DifferenceZero(Prod(Shifted(hs, x)), Prod(Shifted(ks, x)), p);
    }
  }

  lemma {:induction false} ZeroFactor(a: seq<int>, p: Modulus) returns (j: nat)
    requires Prime(p) && |a| > 0 && Cong(Prod(a), 0, p)
    ensures j < |a| && Cong(a[j], 0, p)
  {
    if |a| == 1 {
      SingleProd(a);
      j := 0;
    } else {
      hide Mod;
      var n := |a| - 1;
      NoZeroDivisors(Prod(a[..n]), a[n], p);
      if Cong(a[n], 0, p) {
        j := n;
      } else {
        j := ZeroFactor(a[..n], p);
      }
    }
  }

  lemma ShiftedRemove(hs: seq<int>, i: nat, t: int)
    requires i < |hs|
    ensures Prod(Shifted(hs, t)) == (hs[i] - t) * Prod(Shifted(hs[..i] + hs[i + 1..], t))
  {
    hide Prod;
    var s := Shifted(hs, t);
    ProdRemove(s, i);
    assert s[..i] + s[i + 1..] == Shifted(hs[..i] + hs[i + 1..], t);
  }

  /** The points other than x. */
  function Without(ts: seq<int>, x: int): (r: seq<int>)
    ensures forall t :: t in r <==> t in ts && t != x
    ensures |r| <= |ts|
  {
    if |ts| == 0 then [] else
    var n := |ts| - 1;
    if ts[n] == x then Without(ts[..n], x) else Without(ts[..n], x) + [ts[n]]
  }

  lemma DistinctSnoc(r: seq<int>, x: int)
    requires Distinct(r) && x !in r
    ensures Distinct(r + [x])
  {
    assert forall i :: 0 <= i < |r| ==> r[i] in r;
  }

  lemma DistinctPrefix(ts: seq<int>)
    requires Distinct(ts) && |ts| > 0
    ensures Distinct(ts[..|ts| - 1]) && ts[|ts| - 1] !in ts[..|ts| - 1]
  {
  }

  lemma {:induction false} WithoutDistinct(ts: seq<int>, x: int)
    requires Distinct(ts)
    ensures Distinct(Without(ts, x)) && |Without(ts, x)| >= |ts| - 1
    ensures x !in ts ==> |Without(ts, x)| == |ts|
  {
    if |ts| == 0 {
    } else {
      hide Distinct;
      var n := |ts| - 1;
      DistinctPrefix(ts);
      WithoutDistinct(ts[..n], x);
      if ts[n] != x {
        DistinctSnoc(Without(ts[..n], x), ts[n]);
        assert x in ts ==> x in ts[..n];
      }
    }
  }

  lemma CancelShift(h: int, t: int, a: int, b: int, x: int, y: int, p: Modulus)
    requires Prime(p) && Canonical(h, p) && Canonical(t, p) && h != t
    requires x == (h - t) * a && y == (h - t) * b && Cong(x, y, p)
    ensures Cong(a, b, p)
  {
    hide Mod;
    DifferenceZero(x, y, p);
    MinusStep(h - t, a, b);
    NoZeroDivisors(h - t, a - b, p);
    DifferenceZero(h, t, p);
    if Cong(h, t, p) {
      CongCanonicalEqual(h, t, p);
    }
    DifferenceZero(a, b, p);
  }

  lemma RemovedSame<T>(hs: seq<T>, i: nat)
    requires i < |hs|
    ensures multiset(hs) == multiset(hs[..i] + hs[i + 1..]) + multiset{hs[i]}
  {
    assert hs == hs[..i] + [hs[i]] + hs[i + 1..];
  }

  /** Taking the common value out keeps the products equal elsewhere. */
  lemma StillAgree(hs: seq<int>, ks: seq<int>, j: nat, t: int, p: Modulus)
    requires Prime(p) && |hs| == |ks| && j < |ks| && ks[j] == hs[0] && hs[0] != t
    requires Canonical(hs[0], p) && Canonical(t, p) && Cong(Prod(Shifted(hs, t)), Prod(Shifted(ks, t)), p)
    ensures Cong(Prod(Shifted(hs[..0] + hs[1..], t)), Prod(Shifted(ks[..j] + ks[j + 1..], t)), p)
  {
    hide Mod, Prod, Shifted;
    ShiftedRemove(hs, 0, t);
    ShiftedRemove(ks, j, t);
    CancelShift(hs[0], t, Prod(Shifted(hs[..0] + hs[1..], t)), Prod(Shifted(ks[..j] + ks[j + 1..], t)),
                Prod(Shifted(hs, t)), Prod(Shifted(ks, t)), p);
  }

  /** The products agree at every point of ts. */
  ghost predicate AgreeOn(hs: seq<int>, ks: seq<int>, ts: seq<int>, p: Modulus) {
    forall t :: t in ts ==> Cong(Prod(Shifted(hs, t)), Prod(Shifted(ks, t)), p)
  }

  lemma AgreeOnRest(hs: seq<int>, ks: seq<int>, j: nat, ts: seq<int>, p: Modulus)
    requires Prime(p) && |hs| == |ks| && j < |ks| && ks[j] == hs[0] && Canonical(hs[0], p) && CanonicalV(ts, p)
    requires AgreeOn(hs, ks, ts, p)
    ensures AgreeOn(hs[..0] + hs[1..], ks[..j] + ks[j + 1..], Without(ts, hs[0]), p)
  {
    hide Mod, Prod, Shifted;
    var h := hs[0];
    forall t | t in Without(ts, h)
      ensures Cong(Prod(Shifted(hs[..0] + hs[1..], t)), Prod(Shifted(ks[..j] + ks[j + 1..], t)), p)
    {
      var l :| 0 <= l < |ts| && ts[l] == t;
      StillAgree(hs, ks, j, t, p);
    }
  }

  lemma RestCanonical(hs: seq<int>, j: nat, p: Modulus)
    requires CanonicalV(hs, p) && j < |hs|
    ensures CanonicalV(hs[..j] + hs[j + 1..], p)
  {
  }

  /** Values whose shifted products agree at as many points as there are values are the same values. */
  lemma {:induction false} AgreeingProducts(hs: seq<int>, ks: seq<int>, ts: seq<int>, p: Modulus)
    requires Prime(p) && |hs| == |ks| <= |ts| && Distinct(ts) && CanonicalV(ts, p)
    requires CanonicalV(hs, p) && CanonicalV(ks, p) && AgreeOn(hs, ks, ts, p)
    ensures multiset(hs) == multiset(ks)
    decreases |hs|
  {
    if |hs| == 0 {
      assert hs == [] && ks == [];
    } else {
      hide Mod, Prod, Shifted, AgreeOn, Without, Distinct;
      var h := hs[0];
      FirstAgree(hs, ks, ts, p);
      var j := CommonValue(ks, h, p);
      AgreeOnRest(hs, ks, j, ts, p);
      WithoutDistinct(ts, h);
      PointsCanonical(ts, Without(ts, h), p);
      RestCanonical(hs, 0, p);
      RestCanonical(ks, j, p);
      AgreeingProducts(hs[..0] + hs[1..], ks[..j] + ks[j + 1..], Without(ts, h), p);
      RemovedSame(hs, 0);
      RemovedSame(ks, j);
    }
  }

  lemma FirstAgree(hs: seq<int>, ks: seq<int>, ts: seq<int>, p: Modulus)
    requires Prime(p) && 0 < |hs| == |ks| <= |ts| && Distinct(ts) && CanonicalV(ts, p) && AgreeOn(hs, ks, ts, p)
    ensures Cong(Prod(Shifted(ks, hs[0])), 0, p)
  {
    hide Mod, Prod, Shifted;
    forall i | 0 <= i < |ts| ensures Cong(Prod(Shifted(hs, ts[i])), Prod(Shifted(ks, ts[i])), p) {
      assert ts[i] in ts;
    }
    AgreeEverywhere(hs, ks, ts, hs[0], p);
    ShiftedRemove(hs, 0, hs[0]);
    TimesZero(hs[0], Prod(Shifted(hs[..0] + hs[1..], hs[0])));
  }

  lemma TimesZero(h: int, x: int)
    ensures (h - h) * x == 0
  {
  }

  lemma PointsCanonical(ts: seq<int>, r: seq<int>, p: Modulus)
    requires CanonicalV(ts, p) && forall t :: t in r ==> t in ts
    ensures CanonicalV(r, p)
  {
    forall i | 0 <= i < |r| ensures Canonical(r[i], p) {
      assert r[i] in r;
    }
  }

  lemma CommonValue(ks: seq<int>, h: int, p: Modulus) returns (j: nat)
    requires Prime(p) && |ks| > 0 && CanonicalV(ks, p) && Canonical(h, p) && Cong(Prod(Shifted(ks, h)), 0, p)
    ensures j < |ks| && ks[j] == h
  {
    hide Mod, Prod;
    j := ZeroFactor(Shifted(ks, h), p);
    DifferenceZero(ks[j], h, p);
    CongCanonicalEqual(ks[j], h, p);
  }

  // ---------- fingerprints of accesses ----------

  /** The access in the field: addr + g val + g^2 ts. */
  function Fingerprint(x: Access, g: int, p: Modulus): (h: int)
    ensures Canonical(h, p)
  {
    Mod(Eval([x.addr, x.val, x.ts], g), p)
  }

  function Fingerprints(xs: seq<Access>, g: int, p: Modulus): (h: seq<int>)
    ensures |h| == |xs| && CanonicalV(h, p)
  {
    seq(|xs|, i requires 0 <= i < |xs| => Fingerprint(xs[i], g, p))
  }

  /** The access's three parts are field elements. */
  predicate InField(x: Access, p: Modulus) {
    x.addr < p && x.ts < p && Canonical(x.val, p)
  }

  predicate AllInField(xs: seq<Access>, p: Modulus) {
    forall i :: 0 <= i < |xs| ==> InField(xs[i], p)
  }

  ghost predicate Collide(x: Access, y: Access, g: int, p: Modulus) {
    x != y && Fingerprint(x, g, p) == Fingerprint(y, g, p)
  }

  lemma EvalThree(a: int, b: int, c: int, g: int)
    ensures Eval([a, b, c], g) == c * (g * g) + b * g + a
  {
    assert [a, b, c][1..] == [b, c] && [b, c][1..] == [c];
    EvalSingle(c, g);
    assert Eval([b, c], g) == b + g * c;
    assert a + g * (b + g * c) == c * (g * g) + b * g + a;
  }

  /** Two different accesses collide for at most two values of the hash challenge. */
  lemma FewCollisions(x: Access, y: Access, gs: seq<int>, p: Modulus)
    requires Prime(p) && x != y && InField(x, p) && InField(y, p) && Distinct(gs) && CanonicalV(gs, p)
    requires forall i :: 0 <= i < |gs| ==> Collide(x, y, gs[i], p)
    ensures |gs| <= 2
  {
    hide Mod, Eval;
    var f, h := [x.addr, x.val, x.ts], [y.addr, y.val, y.ts];
    var d := Lin(1, f, -1, h);
    assert d == [x.addr - y.addr, x.val - y.val, x.ts - y.ts];
    forall i | 0 <= i < |gs| ensures Root(d, gs[i], p) {
      assert Collide(x, y, gs[i], p);
      EvalMinus(f, h, gs[i]);
      DifferenceZero(Eval(f, gs[i]), Eval(h, gs[i]), p);
    }
    if AllZero(d, p) {
      assert Cong(d[0], 0, p) && Cong(d[1], 0, p) && Cong(d[2], 0, p);
      DifferenceZero(x.addr, y.addr, p);
      DifferenceZero(x.val, y.val, p);
      DifferenceZero(x.ts, y.ts, p);
      SamePart(x.addr, y.addr, p);
      SamePart(x.val, y.val, p);
      SamePart(x.ts, y.ts, p);
    } else {
      RootBound(d, gs, p);
    }
  }

  lemma SamePart(x: int, y: int, p: Modulus)
    requires Canonical(x, p) && Canonical(y, p)
    ensures Cong(x, y, p) <==> x == y
  {
  }

  /** A hash is the fingerprint minus the multiset challenge. */
  lemma HashIs(x: Access, g: int, t: int, p: Modulus)
    ensures Cong(Hash(x, g, t, p), Fingerprint(x, g, p) - t, p)
  {
    hide Mod, Eval;
    EvalThree(x.addr, x.val, x.ts, g);
    var f := Eval([x.addr, x.val, x.ts], g);
    ModCong(f - t, p);
    ModCong(f, p);
    CongSub(Fingerprint(x, g, p), f, t, t, p);
  }

  /** The product of the hashes is the shifted product of the fingerprints. */
  lemma {:induction false} HashesAre(xs: seq<Access>, g: int, t: int, p: Modulus)
    ensures Cong(Prod(HashAll(xs, g, t, p)), Prod(Shifted(Fingerprints(xs, g, p), t)), p)
  {
    if |xs| == 0 {
    } else {
      hide Mod, Hash, Fingerprint;
      var n := |xs| - 1;
      HashesAre(xs[..n], g, t, p);
      assert HashAll(xs, g, t, p)[..n] == HashAll(xs[..n], g, t, p);
      assert Shifted(Fingerprints(xs, g, p), t)[..n] == Shifted(Fingerprints(xs[..n], g, p), t);
      HashIs(xs[n], g, t, p);
      CongMul(Prod(HashAll(xs[..n], g, t, p)), Prod(Shifted(Fingerprints(xs[..n], g, p), t)),
              Hash(xs[n], g, t, p), Fingerprint(xs[n], g, p) - t, p);
    }
  }

  /** The hash challenge keeps all these accesses apart. */
  ghost predicate KeepsApart(xs: seq<Access>, ys: seq<Access>, g: int, p: Modulus) {
    forall i, j :: 0 <= i < |xs| && 0 <= j < |ys| ==> !Collide(xs[i], ys[j], g, p)
  }

  /** The access of ys with the first fingerprint of xs is the first access of xs. */
  lemma FirstMatch(xs: seq<Access>, ys: seq<Access>, g: int, p: Modulus) returns (j: nat)
    requires multiset(Fingerprints(xs, g, p)) == multiset(Fingerprints(ys, g, p)) && KeepsApart(xs, ys, g, p)
    requires |xs| > 0
    ensures j < |ys| && ys[j] == xs[0]
  {
    hide Fingerprint;
    var hs, ks := Fingerprints(xs, g, p), Fingerprints(ys, g, p);
    assert hs[0] in multiset(hs);
    j := IndexOf(ks, hs[0]);
    assert !Collide(xs[0], ys[j], g, p);
  }

  lemma FingerprintsRest(ys: seq<Access>, j: nat, g: int, p: Modulus)
    requires j < |ys|
    ensures multiset(Fingerprints(ys, g, p))
         == multiset(Fingerprints(ys[..j] + ys[j + 1..], g, p)) + multiset{Fingerprint(ys[j], g, p)}
  {
    hide Fingerprint;
    var ks := Fingerprints(ys, g, p);
    assert Fingerprints(ys[..j] + ys[j + 1..], g, p) == ks[..j] + ks[j + 1..];
    RemovedSame(ks, j);
  }

  /** Accesses with the same fingerprints are the same accesses, unless two of them collide. */
  lemma {:induction false} SameFingerprints(xs: seq<Access>, ys: seq<Access>, g: int, p: Modulus)
    requires |xs| == |ys|
    requires multiset(Fingerprints(xs, g, p)) == multiset(Fingerprints(ys, g, p)) && KeepsApart(xs, ys, g, p)
    ensures multiset(xs) == multiset(ys)
    decreases |xs|
  {
    hide Fingerprint, Fingerprints, KeepsApart;
    if |xs| == 0 {
      assert xs == [] && ys == [];
    } else {
      var j := FirstMatch(xs, ys, g, p);
      var xs', ys' := xs[..0] + xs[1..], ys[..j] + ys[j + 1..];
      FingerprintsRest(xs, 0, g, p);
      FingerprintsRest(ys, j, g, p);
      CancelOne(multiset(Fingerprints(xs', g, p)), multiset(Fingerprints(ys', g, p)), Fingerprint(xs[0], g, p));
      RestApart(xs, ys, j, g, p);
      SameFingerprints(xs', ys', g, p);
      RemovedSame(xs, 0);
      RemovedSame(ys, j);
    }
  }

  lemma RestApart(xs: seq<Access>, ys: seq<Access>, j: nat, g: int, p: Modulus)
    requires KeepsApart(xs, ys, g, p) && |xs| > 0 && j < |ys|
    ensures KeepsApart(xs[..0] + xs[1..], ys[..j] + ys[j + 1..], g, p)
  {
    hide Collide;
  }

  /** Accesses whose products of hashes agree for as many multiset challenges as there are accesses are the same. */
  lemma ProductsDecide(xs: seq<Access>, ys: seq<Access>, g: int, ts: seq<int>, p: Modulus)
    requires Prime(p) && |xs| == |ys| <= |ts| && Distinct(ts) && CanonicalV(ts, p)
    requires forall t :: t in ts ==> Cong(Prod(HashAll(xs, g, t, p)), Prod(HashAll(ys, g, t, p)), p)
    requires KeepsApart(xs, ys, g, p)
    ensures multiset(xs) == multiset(ys)
  {
    hide Mod, Prod, HashAll, Shifted, Fingerprints, KeepsApart;
    var hs, ks := Fingerprints(xs, g, p), Fingerprints(ys, g, p);
    forall t | t in ts ensures Cong(Prod(Shifted(hs, t)), Prod(Shifted(ks, t)), p) {
      HashesAre(xs, g, t, p);
      HashesAre(ys, g, t, p);
    }
    AgreeingProducts(hs, ks, ts, p);
    SameFingerprints(xs, ys, g, p);
  }

  // ---------- how many hash challenges make accesses collide ----------

  /** The challenges that do, or do not, make the two accesses collide. */
  ghost function Select(gs: seq<int>, x: Access, y: Access, hit: bool, p: Modulus): (r: seq<int>)
    ensures forall g :: g in r <==> g in gs && Collide(x, y, g, p) == hit
  {
    if |gs| == 0 then [] else
    var n := |gs| - 1;
    var r := Select(gs[..n], x, y, hit, p);
    if Collide(x, y, gs[n], p) == hit then r + [gs[n]] else r
  }

  lemma {:induction false} SelectSplits(gs: seq<int>, x: Access, y: Access, p: Modulus)
    ensures |Select(gs, x, y, true, p)| + |Select(gs, x, y, false, p)| == |gs|
  {
    hide Collide;
    if |gs| == 0 {
    } else {
      SelectSplits(gs[..|gs| - 1], x, y, p);
    }
  }

  lemma {:induction false} SelectDistinct(gs: seq<int>, x: Access, y: Access, hit: bool, p: Modulus)
    requires Distinct(gs)
    ensures Distinct(Select(gs, x, y, hit, p))
  {
    if |gs| == 0 {
    } else {
      hide Collide, Distinct;
      var n := |gs| - 1;
      DistinctPrefix(gs);
      SelectDistinct(gs[..n], x, y, hit, p);
      if Collide(x, y, gs[n], p) == hit {
        DistinctSnoc(Select(gs[..n], x, y, hit, p), gs[n]);
      }
    }
  }

  predicate PairsInField(pairs: seq<(Access, Access)>, p: Modulus) {
    forall k :: 0 <= k < |pairs| ==> InField(pairs[k].0, p) && InField(pairs[k].1, p)
  }

  ghost predicate SomeCollide(pairs: seq<(Access, Access)>, g: int, p: Modulus) {
    exists k :: 0 <= k < |pairs| && Collide(pairs[k].0, pairs[k].1, g, p)
  }

  lemma AnyOf(gs: seq<int>) returns (g: int)
    ensures |gs| > 0 ==> g in gs
  {
    g := if |gs| > 0 then gs[0] else 0;
  }

  /** At most two hash challenges for each pair make some pair collide. */
  lemma {:induction false} FewForPairs(pairs: seq<(Access, Access)>, gs: seq<int>, p: Modulus)
    requires Prime(p) && PairsInField(pairs, p) && Distinct(gs) && CanonicalV(gs, p)
    requires forall g :: g in gs ==> SomeCollide(pairs, g, p)
    ensures |gs| <= 2 * |pairs|
    decreases |pairs|
  {
    hide Collide, InField, Distinct, Select;
    if |pairs| == 0 {
      var g := AnyOf(gs);
      assert g in gs ==> SomeCollide(pairs, g, p);
    } else {
      var n := |pairs| - 1;
      var x, y := pairs[n].0, pairs[n].1;
      var hit, miss := Select(gs, x, y, true, p), Select(gs, x, y, false, p);
      SelectSplits(gs, x, y, p);
      SelectDistinct(gs, x, y, true, p);
      SelectDistinct(gs, x, y, false, p);
      PointsCanonical(gs, hit, p);
      PointsCanonical(gs, miss, p);
      FewForPair(x, y, hit, p);
      forall g | g in miss ensures SomeCollide(pairs[..n], g, p) {
        var k :| 0 <= k < |pairs| && Collide(pairs[k].0, pairs[k].1, g, p);
        assert k < n && pairs[..n][k] == pairs[k];
      }
      FewForPairs(pairs[..n], miss, p);
    }
  }

  lemma FewForPair(x: Access, y: Access, gs: seq<int>, p: Modulus)
    requires Prime(p) && InField(x, p) && InField(y, p) && Distinct(gs) && CanonicalV(gs, p)
    requires forall g :: g in gs ==> Collide(x, y, g, p)
    ensures |gs| <= 2
  {
    hide Fingerprint, InField;
    if |gs| > 0 {
      assert gs[0] in gs;
      forall i | 0 <= i < |gs| ensures Collide(x, y, gs[i], p) {
        assert gs[i] in gs;
      }
      FewCollisions(x, y, gs, p);
    }
  }

  function PairsWith(x: Access, ys: seq<Access>): (r: seq<(Access, Access)>)
    ensures |r| == |ys|
  {
    seq(|ys|, j requires 0 <= j < |ys| => (x, ys[j]))
  }

  function AllPairs(xs: seq<Access>, ys: seq<Access>): seq<(Access, Access)> {
    if |xs| == 0 then [] else AllPairs(xs[..|xs| - 1], ys) + PairsWith(xs[|xs| - 1], ys)
  }

  lemma {:induction false} AllPairsAre(xs: seq<Access>, ys: seq<Access>, p: Modulus)
    requires AllInField(xs, p) && AllInField(ys, p)
    ensures |AllPairs(xs, ys)| == |xs| * |ys| && PairsInField(AllPairs(xs, ys), p)
  {
    hide InField;
    if |xs| == 0 {
    } else {
      var n := |xs| - 1;
      AllPairsAre(xs[..n], ys, p);
      assert (n + 1) * |ys| == n * |ys| + |ys|;
    }
  }

  lemma {:induction false} PairAt(xs: seq<Access>, ys: seq<Access>, i: nat, j: nat) returns (k: nat)
    requires i < |xs| && j < |ys|
    ensures k < |AllPairs(xs, ys)| && AllPairs(xs, ys)[k] == (xs[i], ys[j])
  {
    var n := |xs| - 1;
    if i == n {
      k := |AllPairs(xs[..n], ys)| + j;
    } else {
      k := PairAt(xs[..n], ys, i, j);
    }
  }

  /** Distinct hash challenges that fail to keep the accesses apart are at most twice as many as the pairs. */
  lemma FewBadKeys(xs: seq<Access>, ys: seq<Access>, gs: seq<int>, p: Modulus)
    requires Prime(p) && AllInField(xs, p) && AllInField(ys, p) && Distinct(gs) && CanonicalV(gs, p)
    requires forall g :: g in gs ==> !KeepsApart(xs, ys, g, p)
    ensures |gs| <= 2 * (|xs| * |ys|)
  {
    hide Collide, InField, Distinct, AllPairs;
    AllPairsAre(xs, ys, p);
    forall g | g in gs ensures SomeCollide(AllPairs(xs, ys), g, p) {
      var i, j :| 0 <= i < |xs| && 0 <= j < |ys| && Collide(xs[i], ys[j], g, p);
      var k := PairAt(xs, ys, i, j);
    }
    FewForPairs(AllPairs(xs, ys), gs, p);
  }

  // ---------- the prover's check ----------

  /** The check on the products, as the source computes it. */
  predicate CheckPasses(mem: seq<int>, insts: seq<Instance>, g: int, t: int, p: Modulus)
    requires Aligned(insts)
  {
    var audit := After(Zeros(|mem|), Flatten(AllAddrs(insts)));
    Mod(Mod(Prod(HashAll(Init(mem), g, t, p)), p) * RootProduct(WriteTables(insts, g, t, p), p), p)
    == Mod(RootProduct(ReadTables(insts, g, t, p), p) * Mod(Prod(HashAll(Audit(mem, audit), g, t, p)), p), p)
  }

  /** init followed by writes, and reads followed by audit. */
  function Written(mem: seq<int>, addrs: seq<nat>, derefs: seq<int>): (r: seq<Access>)
    requires |addrs| == |derefs|
    ensures |r| == |mem| + |addrs|
  {
    Init(mem) + Writes(addrs, derefs, ReadTs(Zeros(|mem|), addrs))
  }

  function ReadBack(mem: seq<int>, addrs: seq<nat>, derefs: seq<int>): (r: seq<Access>)
    requires |addrs| == |derefs|
    ensures |r| == |mem| + |addrs|
  {
    Reads(addrs, derefs, ReadTs(Zeros(|mem|), addrs)) + Audit(mem, After(Zeros(|mem|), addrs))
  }

  /** The check compares the products over all that was written and all that was read. */
  lemma CheckCompares(mem: seq<int>, insts: seq<Instance>, g: int, t: int, p: Modulus)
    requires Aligned(insts) && |Flatten(AllAddrs(insts))| == |Flatten(AllDerefs(insts))|
    requires Flatten(AllTs(insts)) == ReadTs(Zeros(|mem|), Flatten(AllAddrs(insts)))
    ensures var a, d := Flatten(AllAddrs(insts)), Flatten(AllDerefs(insts));
      CheckPasses(mem, insts, g, t, p) <==>
        Cong(Prod(HashAll(Written(mem, a, d), g, t, p)), Prod(HashAll(ReadBack(mem, a, d), g, t, p)), p)
  {
    hide Mod, Hash, Prod, RootProduct, Flatten, After, ReadTs, HashAll, Init, Audit, Reads, Writes, ReadTables,
         WriteTables;
    var a, d := Flatten(AllAddrs(insts)), Flatten(AllDerefs(insts));
    var ts := ReadTs(Zeros(|mem|), a);
    var rt, wt := ReadTables(insts, g, t, p), WriteTables(insts, g, t, p);
    TablesFlatten(insts, g, t, p);
    RootProductIs(rt, p);
    RootProductIs(wt, p);
    HashJoin(Init(mem), Writes(a, d, ts), g, t, p);
    HashJoin(Reads(a, d, ts), Audit(mem, After(Zeros(|mem|), a)), g, t, p);
    var i, u := Prod(HashAll(Init(mem), g, t, p)), Prod(HashAll(Audit(mem, After(Zeros(|mem|), a)), g, t, p));
    ModCong(i, p);
    ModCong(u, p);
    CongMul(Mod(i, p), i, RootProduct(wt, p), Prod(Flatten(wt)), p);
    CongMul(RootProduct(rt, p), Prod(Flatten(rt)), Mod(u, p), u, p);
  }

  /**
   The hashed check is sound: if it passes for as many multiset challenges as there are cells and accesses,
   and the hash challenge makes no two accesses collide, then every value is that of its cell.
   */
  lemma CheckSound(mem: seq<int>, insts: seq<Instance>, g: int, ts: seq<int>, p: Modulus)
    requires Prime(p) && Aligned(insts) && InCells(Flatten(AllAddrs(insts)), |mem|)
    requires |Flatten(AllAddrs(insts))| == |Flatten(AllDerefs(insts))|
    requires Flatten(AllTs(insts)) == ReadTs(Zeros(|mem|), Flatten(AllAddrs(insts)))
    requires Distinct(ts) && CanonicalV(ts, p) && |ts| >= |mem| + |Flatten(AllAddrs(insts))|
    requires forall t :: t in ts ==> CheckPasses(mem, insts, g, t, p)
    requires var a, d := Flatten(AllAddrs(insts)), Flatten(AllDerefs(insts));
      KeepsApart(Written(mem, a, d), ReadBack(mem, a, d), g, p)
    ensures Honest(mem, Flatten(AllAddrs(insts)), Flatten(AllDerefs(insts)))
  {
    hide Mod, Prod, Flatten, HashAll, Init, Audit, Reads, Writes, KeepsApart, CheckPasses, ReadTs, After, Honest,
         Distinct;
    var a, d := Flatten(AllAddrs(insts)), Flatten(AllDerefs(insts));
    forall t | t in ts
      ensures Cong(Prod(HashAll(Written(mem, a, d), g, t, p)), Prod(HashAll(ReadBack(mem, a, d), g, t, p)), p)
    {
      CheckCompares(mem, insts, g, t, p);
    }
    ProductsDecide(Written(mem, a, d), ReadBack(mem, a, d), g, ts, p);
    CheckIsExact(mem, a, d);
  }
}
