/**
 When the scalar-multiplication circuit computes the product: infinity carries x = 0, so complete
 addition takes infinity and a finite point with x = 0 for opposite points.
 */
module EccClash {
  import opened PowersOfTwo
  import opened PrimeField
  import opened Curve
  import opened Constraints
  import opened Gadgets
  import opened EccCircuit
  import opened EccScalarMul

  /** Round i adds, and its operands are infinity and a point with x = 0. */
  ghost predicate ClashRound(E: Curve, w: Assignment, bits: seq<Variable>, i: nat, k: int) {
    i < |bits| && BitVal(w, bits[i], E.q) == 1 && Clash(E, Times(E, k, BitsValue(w, bits, i, E.q)),
                                                        Times(E, k, Pow2(i)))
  }

  /** Some complete round clashes. */
  ghost predicate Clashes(E: Curve, w: Assignment, bits: seq<Variable>, split: nat, n: nat, k: int) {
    exists i :: split <= i < n && ClashRound(E, w, bits, i, k)
  }

  function Product(E: Curve, w: Assignment, bits: seq<Variable>, n: nat, k: int): int
    requires n <= |bits|
  {
    Times(E, k, BitsValue(w, bits, n, E.q))
  }

  lemma ProductNext(E: Curve, w: Assignment, bits: seq<Variable>, n: nat, k: int)
    requires n < |bits| && IsBit(w, bits[n], E.q)
    ensures Product(E, w, bits, n + 1, k) ==
              if BitVal(w, bits[n], E.q) == 1 then Mod(Product(E, w, bits, n, k) + Times(E, k, Pow2(n)), E.r)
              else Product(E, w, bits, n, k)
  {
    hide Mod, Times, BitVal, BitsValue, Pow2;
    BitIs(w, bits[n], E.q);
    BitsNext(w, bits, n, E.q);
    TimesAdd(E, k, BitsValue(w, bits, n, E.q), Pow2(n));
  }

  /** Without a clash the circuit computes the product, for any number of bits. */
  lemma {:induction false} NoClashRight(E: Curve, w: Assignment, bits: seq<Variable>, split: nat, n: nat, k: int)
    requires split <= n <= |bits| && AllBits(w, bits, E.q) && !Clashes(E, w, bits, split, n, k)
    ensures Computed(E, w, bits, split, n, k) == Product(E, w, bits, n, k)
  {
    hide Mod, Times, BitVal, BitsValue, Pow2, Clash;
    if n == split {
    } else {
      assert !Clashes(E, w, bits, split, n - 1, k) && !ClashRound(E, w, bits, n - 1, k);
      NoClashRight(E, w, bits, split, n - 1, k);
      ProductNext(E, w, bits, n - 1, k);
    }
  }

  /** Small powers of two leave a finite point finite. */
  lemma Pow2Finite(E: Curve, k: int, split: nat)
    requires Prime(E.r) && E.r > 3 && Finite(E, k) && Pow2(split) < E.r
    ensures Finite(E, Times(E, k, Pow2(split))) && Finite(E, Times(E, k, Pow2(split + 1)))
    ensures Finite(E, Times(E, k, Pow2(split) + Pow2(split + 1)))
  {
    assert Mod(0, E.r) == 0 && Mod(2, E.r) == 2 && Mod(3, E.r) == 3;
    var t := Pow2(split);
    hide Mod, Times;
    Pow2Next(split);
    TimesFinite(E, k, t);
    MultipleFinite(E, k, t, 2);
    MultipleFinite(E, k, t, 3);
  }

  lemma MultipleFinite(E: Curve, k: int, t: int, c: int)
    requires Prime(E.r) && Finite(E, Times(E, k, t)) && Mod(c, E.r) != 0
    ensures Finite(E, Times(E, k, c * t))
  {
    assert Mod(0, E.r) == 0;
    hide Mod;
    if Times(E, k, c * t) == 0 {
      assert k * (c * t) == c * (k * t);
      NoZeroDivisors(c, k * t, E.r);
    }
  }

  /** A clash in the first complete round is not repaired by the second. */
  lemma FirstRoundWrong(E: Curve, w: Assignment, bits: seq<Variable>, split: nat, n: nat, k: int)
    requires Prime(E.r) && E.r > 3 && Finite(E, k) && AllBits(w, bits, E.q) && Pow2(split) < E.r
    requires split < n <= split + 2 && n <= |bits| && ClashRound(E, w, bits, split, k)
    ensures Computed(E, w, bits, split, n, k) != Product(E, w, bits, n, k)
  {
    var t, u := Times(E, k, Pow2(split)), Times(E, k, Pow2(split + 1));
    Pow2Finite(E, k, split);
    hide Mod, Times, BitVal, BitsValue, Pow2;
    BitAt(w, bits, split, E.q);
    ProductNext(E, w, bits, split, k);
    ZeroPlus(E, t);
    assert Product(E, w, bits, split, k) == 0;
    assert Product(E, w, bits, split + 1, k) == t && Computed(E, w, bits, split + 1 - 1, split + 1, k) == 0;
    if n == split + 2 {
      BitAt(w, bits, split + 1, E.q);
      ProductNext(E, w, bits, split + 1, k);
      TimesAdd(E, k, Pow2(split), Pow2(split + 1));
      NotAddedBack(t, u, E.r);
      ZeroPlus(E, u);
    }
  }

  lemma ZeroPlus(E: Curve, t: int)
    requires Finite(E, t)
    ensures Mod(0 + t, E.r) == t
  {
  }

  lemma NotAddedBack(t: int, u: int, r: Modulus)
    requires 0 < t < r && 0 <= u < r
    ensures Mod(t + u, r) != u
  {
  }

  /** A clash in the second complete round. */
  lemma SecondRoundWrong(E: Curve, w: Assignment, bits: seq<Variable>, split: nat, k: int)
    requires Prime(E.r) && E.r > 3 && Finite(E, k) && AllBits(w, bits, E.q) && Pow2(split) < E.r && split + 2 <= |bits|
    requires !ClashRound(E, w, bits, split, k) && ClashRound(E, w, bits, split + 1, k)
    ensures Computed(E, w, bits, split, split + 2, k) != Product(E, w, bits, split + 2, k)
  {
    var u := Times(E, k, Pow2(split + 1));
    Pow2Finite(E, k, split);
    hide Mod, Times, BitVal, BitsValue, Pow2;
    assert !Clashes(E, w, bits, split, split + 1, k);
    NoClashRight(E, w, bits, split, split + 1, k);
    BitAt(w, bits, split + 1, E.q);
    ProductNext(E, w, bits, split + 1, k);
    ZeroPlus(E, u);
  }

  /**
   For a scalar of at most numBits bits, the circuit computes the product exactly when neither of
   its complete rounds clashes.
   */
  lemma RightWithoutClash(E: Curve, w: Assignment, bits: seq<Variable>, numBits: nat, k: int)
    requires Prime(E.r) && E.r > 3 && Finite(E, k) && AllBits(w, bits, E.q)
    requires numBits >= 3 && |bits| <= numBits && Pow2(numBits - 2) < E.r
    ensures Computed(E, w, bits, SplitAt(|bits|, numBits), |bits|, k) == Product(E, w, bits, |bits|, k)
      <==> !Clashes(E, w, bits, SplitAt(|bits|, numBits), |bits|, k)
  {
    hide Mod, Times, BitVal, BitsValue, Pow2, Clash, Computed, Product, ClashRound;
    var split := SplitAt(|bits|, numBits);
    if !Clashes(E, w, bits, split, |bits|, k) {
      NoClashRight(E, w, bits, split, |bits|, k);
    } else if ClashRound(E, w, bits, split, k) {
      FirstRoundWrong(E, w, bits, split, |bits|, k);
    } else {
      SecondRoundWrong(E, w, bits, split, k);
    }
  }

  // ---------- curves without a clash ----------

  /** With a = 0 the tangent at a point of x = 0 is level, so such a point has order 3. */
  lemma ZeroXHasOrderThree(E: Curve, l: int)
    requires IsCurve(E) && E.a == 0 && Finite(E, l) && E.X(l) == 0
    ensures Mod(l + l, E.r) == E.r - l
  {
    hide Mod, IsCurve;
    var m := Mod(l + l, E.r);
    assert 0 * (2 * E.Y(l)) == 0 && 3 * (E.X(l) * E.X(l)) + E.a == 0;
    TangentLaw(E, l, 0);
    Coordinates(E, m);
    CongCanonicalEqual(E.X(m), 0, E.q);
    SameX(E, l, m);
    NotDoubleOfItself(l, E.r);
  }

  lemma NotDoubleOfItself(l: int, r: Modulus)
    requires 0 < l < r
    ensures Mod(l + l, r) != l
  {
  }

  /** On a curve of prime order above 3 with a = 0 the circuit computes the product of every finite point. */
  lemma RightWhenAIsZero(E: Curve, w: Assignment, bits: seq<Variable>, split: nat, n: nat, k: int)
    requires IsCurve(E) && E.a == 0 && Prime(E.r) && E.r > 3 && split <= n <= |bits| && AllBits(w, bits, E.q)
    ensures Computed(E, w, bits, split, n, k) == Product(E, w, bits, n, k)
  {
    hide Mod, IsCurve, Computed, Product, AllBits;
    forall l | Finite(E, l) ensures E.X(l) != 0 {
      if E.X(l) == 0 {
        ZeroXHasOrderThree(E, l);
        OrderNotThree(l, E.r);
      }
    }
    assert !Clashes(E, w, bits, split, n, k);
    NoClashRight(E, w, bits, split, n, k);
  }

  lemma OrderNotThree(l: int, r: Modulus)
    requires Prime(r) && r > 3 && 0 < l < r
    ensures Mod(l + l, r) != r - l
  {
    if Mod(l + l, r) == r - l {
      var three := 3;
      assert Mod(three * l, r) == 0 by {
        assert three * l == l + l + l;
        ModCong(l + l, r);
        CongAdd(r - l, l + l, l, l, r);
        SmallMod(0, r);
        ModShift(0, r);
      }
      SmallMod(three, r);
      SmallMod(l, r);
      SmallMod(0, r);
      NoZeroDivisors(three, l, r);
    }
  }

  // ---------- an input that clashes ----------

  /** The scalar is 2^split. */
  ghost predicate OnlyBit(w: Assignment, bits: seq<Variable>, split: nat, p: Modulus) {
    split < |bits| && forall i :: 0 <= i < |bits| ==> BitVal(w, bits[i], p) == if i == split then 1 else 0
  }

  lemma {:induction false} OnlyBitValue(w: Assignment, bits: seq<Variable>, split: nat, n: nat, p: Modulus)
    requires OnlyBit(w, bits, split, p) && n <= |bits|
    ensures BitsValue(w, bits, n, p) == if n <= split then 0 else Pow2(split)
  {
    hide BitVal, Pow2;
    if n == 0 {
    } else {
      OnlyBitValue(w, bits, split, n - 1, p);
      assert 0 * Pow2(n - 1) == 0;
    }
  }

  /**
   On every curve with a finite point l of x = 0 there is a point whose product by 2^split is l,
   while the circuit computes infinity.
   */
  lemma ClashInput(E: Curve, w: Assignment, bits: seq<Variable>, split: nat, l: int) returns (k: int)
    requires Prime(E.r) && Finite(E, l) && E.X(l) == 0 && Pow2(split) < E.r && OnlyBit(w, bits, split, E.q)
    ensures Finite(E, k) && Product(E, w, bits, |bits|, k) == l && Computed(E, w, bits, split, |bits|, k) == 0
  {
    k := Quotient(E, l, Pow2(split));
    OnlyBitValue(w, bits, split, |bits|, E.q);
    OnlyBitValue(w, bits, split, split, E.q);
    ClashPersists(E, w, bits, split, |bits|, k);
  }

  lemma Quotient(E: Curve, l: int, t: int) returns (k: int)
    requires Prime(E.r) && Finite(E, l) && 0 < t < E.r
    ensures Finite(E, k) && Times(E, k, t) == l
  {
    SmallMod(l, E.r);
    var i := Inv(t, E.r);
    k := Mod(l * i, E.r);
    hide Mod, Inv;
    ModCong(l * i, E.r);
    QuotientTimes(l, i, t, k, E.r);
    SmallMod(0, E.r);
    assert k == 0 ==> k * t == 0;
  }

  lemma QuotientTimes(l: int, i: int, t: int, k: int, r: Modulus)
    requires Cong(t * i, 1, r) && Cong(k, l * i, r)
    ensures Cong(k * t, l, r)
  {
    hide Mod;
    CongMul(k, l * i, t, t, r);
    CongScale(l, t * i, 1, r);
    MulSwap(i, t, l);
    assert i * t == t * i && (l * i) * t == l * (i * t);
  }

  lemma {:induction false} ClashPersists(E: Curve, w: Assignment, bits: seq<Variable>, split: nat, n: nat, k: int)
    requires split < n <= |bits| && OnlyBit(w, bits, split, E.q) && BitsValue(w, bits, split, E.q) == 0
    requires Finite(E, Times(E, k, Pow2(split))) && E.X(Times(E, k, Pow2(split))) == 0
    ensures Computed(E, w, bits, split, n, k) == 0
  {
    assert Times(E, k, 0) == 0 by {
      assert k * 0 == 0;
      SmallMod(0, E.r);
    }
    hide Mod, Times, BitVal, BitsValue, Pow2;
    if n == split + 1 {
    } else {
      ClashPersists(E, w, bits, split, n - 1, k);
    }
  }

  // ---------- the default curve ----------

  const P256_Q: Modulus := 0xffffffff00000001000000000000000000000000ffffffffffffffffffffffff
  const P256_B := 0x5ac635d8aa3a93e7b3ebbd55769886bc651d06b0cc53b0f63bce3c3e27d2604b
  const P256_ROOT := 0x66485c780e2f83d72433bd5d84a06bb6541c2af31dae871728bf856a174f93f4

  /** Every solution of y^2 = x^3 + a x + b is a point of the group. */
  ghost predicate AllSolutions(E: Curve, b: int) {
    forall x, y {:trigger E.Index(x, y)} ::
      Canonical(x, E.q) && Canonical(y, E.q) && Cong(y * y, x * (x * x) + E.a * x + b, E.q)
      ==> Finite(E, E.Index(x, y)) && E.X(E.Index(x, y)) == x && E.Y(E.Index(x, y)) == y
  }

  /** P-256 has finite points with x = 0, because its b is a square. */
  lemma P256HasZeroX(E: Curve)
    requires E.q == P256_Q && E.a == -3 && AllSolutions(E, P256_B)
    ensures Finite(E, E.Index(0, P256_ROOT)) && E.X(E.Index(0, P256_ROOT)) == 0
  {
    hide Mod;
    var y, b := P256_ROOT, P256_B;
    P256Root();
    assert 0 * (0 * 0) + E.a * 0 + b == b;
  }

  /** There, the scalar 2^split fails on some point: the product is (0, root), the output infinity. */
  lemma P256Fails(E: Curve, w: Assignment, bits: seq<Variable>, split: nat) returns (k: int)
    requires E.q == P256_Q && E.a == -3 && AllSolutions(E, P256_B) && Prime(E.r)
    requires Pow2(split) < E.r && OnlyBit(w, bits, split, E.q)
    ensures Finite(E, k) && Product(E, w, bits, |bits|, k) == E.Index(0, P256_ROOT)
    ensures Computed(E, w, bits, split, |bits|, k) == 0 && E.Index(0, P256_ROOT) != 0
  {
    hide Mod, Computed, Product, OnlyBit, AllSolutions;
    P256HasZeroX(E);
    k := ClashInput(E, w, bits, split, E.Index(0, P256_ROOT));
  }

  lemma P256Root()
    ensures Cong(P256_ROOT * P256_ROOT, P256_B, P256_Q)
  {
    hide Mod;
    CongIntro(P256_ROOT * P256_ROOT, P256_B, (P256_ROOT * P256_ROOT - P256_B) / P256_Q, P256_Q);
  }
}
