/**
 Arithmetic in the field F_p.  A field element is an integer, and two integers name the same
 element when they are congruent modulo p; the canonical name of x is x % p.  Code that computes
 `a * b + c` in the field is written `(a * b + c) % p`, and its properties are proved as
 congruences between integer polynomials.
 */
module PrimeField {

  type Modulus = p: int | p > 1 witness 2

  /** The canonical representative of x: the remainder of x by p. */
  function Mod(x: int, p: Modulus): (r: int)
    ensures 0 <= r < p
    decreases if x < 0 then p - x else x
  {
    if x < 0 then Mod(x + p, p) else if x < p then x else Mod(x - p, p)
  }

  ghost predicate Cong(x: int, y: int, p: Modulus) {
    Mod(x, p) == Mod(y, p)
  }

  ghost predicate Prime(p: int) {
    p > 1 && forall d {:trigger p % d} :: 1 < d < p ==> p % d != 0
  }

  /** x is the canonical representative of a field element. */
  predicate Canonical(x: int, p: Modulus) {
    0 <= x < p
  }

  lemma {:induction false} ModQuotient(x: int, p: Modulus) returns (q: int)
    ensures x == Mod(x, p) + q * p
    decreases if x < 0 then p - x else x
  {
    if x < 0 {
      q := ModQuotient(x + p, p);
      q := q - 1;
    } else if x < p {
      q := 0;
    } else {
      q := ModQuotient(x - p, p);
      q := q + 1;
    }
  }

  lemma {:induction false} ModShift(x: int, p: Modulus)
    ensures Mod(x + p, p) == Mod(x, p)
  {
    if x + p < 0 {
    } else if x < 0 {
    } else {
    }
  }

  lemma {:induction false} ModMultiple(x: int, k: int, p: Modulus)
    ensures Mod(x + k * p, p) == Mod(x, p)
    decreases if k < 0 then -k else k
  {
    if k > 0 {
      ModMultiple(x, k - 1, p);
      Distribute(k, 1, p);
      ModShift(x + (k - 1) * p, p);
    } else if k < 0 {
      ModMultiple(x, k + 1, p);
      ModShift(x + k * p, p);
      Distribute(k, 1, p);
    }
  }

  lemma Distribute(k: int, l: int, p: int)
    ensures (k + l) * p == k * p + l * p
    ensures (k - l) * p == k * p - l * p
  {
  }

  lemma CongIntro(x: int, y: int, k: int, p: Modulus)
    requires x - y == k * p
    ensures Cong(x, y, p)
  {
    ModMultiple(y, k, p);
  }

  lemma CongElim(x: int, y: int, p: Modulus) returns (k: int)
    requires Cong(x, y, p)
    ensures x == y + k * p
  {
    hide Mod;
    var a := ModQuotient(x, p);
    var b := ModQuotient(y, p);
    k := a - b;
    Distribute(a, b, p);
  }

  lemma CongAdd(x: int, y: int, a: int, b: int, p: Modulus)
    requires Cong(x, y, p) && Cong(a, b, p)
    ensures Cong(x + a, y + b, p)
  {
    hide Mod;
    var k := CongElim(x, y, p);
    var l := CongElim(a, b, p);
    Distribute(k, l, p);
    CongIntro(x + a, y + b, k + l, p);
  }

  lemma CongSub(x: int, y: int, a: int, b: int, p: Modulus)
    requires Cong(x, y, p) && Cong(a, b, p)
    ensures Cong(x - a, y - b, p)
  {
    hide Mod;
    var k := CongElim(x, y, p);
    var l := CongElim(a, b, p);
    Distribute(k, l, p);
    CongIntro(x - a, y - b, k - l, p);
  }

  lemma CongMul(x: int, y: int, a: int, b: int, p: Modulus)
    requires Cong(x, y, p) && Cong(a, b, p)
    ensures Cong(x * a, y * b, p)
  {
    hide Mod;
    var k := CongElim(x, y, p);
    var l := CongElim(a, b, p);
    MulExpand(x, y, a, b, k, l, p);
    CongIntro(x * a, y * b, y * l + k * b + k * l * p, p);
  }

  lemma MulExpand(x: int, y: int, a: int, b: int, k: int, l: int, p: int)
    requires x == y + k * p && a == b + l * p
    ensures x * a - y * b == (y * l + k * b + k * l * p) * p
  {
    assert x * a == y * b + y * (l * p) + (k * p) * b + (k * p) * (l * p);
  }

  lemma CongScale(c: int, x: int, y: int, p: Modulus)
    requires Cong(x, y, p)
    ensures Cong(c * x, c * y, p)
  {
    CongMul(c, c, x, y, p);
  }

  /** Equals may replace equals in a congruence. */
  lemma CongSame(x: int, y: int, x': int, y': int, p: Modulus)
    requires Cong(x, y, p) && x == x' && y == y'
    ensures Cong(x', y', p)
  {
  }

  lemma CongTo(x: int, y: int, y': int, p: Modulus)
    requires Cong(x, y, p) && y == y'
    ensures Cong(x, y', p)
  {
  }

  /** Congruence of sums, for sums that go by another name. */
  lemma CongSum(z: int, z': int, x: int, x': int, y: int, y': int, p: Modulus)
    requires z == x + y && z' == x' + y' && Cong(x, x', p) && Cong(y, y', p)
    ensures Cong(z, z', p)
  {
    CongAdd(x, x', y, y', p);
  }

  lemma CongProd(z: int, z': int, x: int, x': int, y: int, y': int, p: Modulus)
    requires z == x * y && z' == x' * y' && Cong(x, x', p) && Cong(y, y', p)
    ensures Cong(z, z', p)
  {
    CongMul(x, x', y, y', p);
  }

  lemma CongCanonicalEqual(x: int, y: int, p: Modulus)
    requires Cong(x, y, p) && Canonical(x, p) && Canonical(y, p)
    ensures x == y
  {
  }

  lemma CanonicalIs(x: int, p: Modulus)
    requires Canonical(x, p)
    ensures Mod(x, p) == x
  {
  }

  lemma CanonicalMod(x: int, y: int, p: Modulus)
    requires Canonical(x, p) && Cong(x, y, p)
    ensures x == Mod(y, p)
  {
  }

  lemma ModCong(x: int, p: Modulus)
    ensures Cong(Mod(x, p), x, p)
  {
  }

  lemma ModIsRemainder(x: int, p: Modulus)
    ensures Mod(x, p) == x % p
  {
    CongIntro(x % p, x, -(x / p), p);
  }

  /** Inverse of x by the remainder recursion p = q * x + r, so 1/x = -q * (1/r). */
  function Inv(x: int, p: Modulus): (y: int)
    requires Prime(p) && 0 < x < p
    ensures 0 < y < p && Cong(x * y, 1, p)
    decreases x
  {
    if x == 1 then
      1
    else
      var q, r := p / x, p % x;
      assert 0 < r < x && p == q * x + r;
      var s := Inv(r, p);
      InvStep(x, q, r, s, p);
      Mod(-q * s, p)
  }

  lemma InvStep(x: int, q: int, r: int, s: int, p: Modulus)
    requires p == q * x + r && Cong(r * s, 1, p)
    ensures Cong(x * Mod(-q * s, p), 1, p) && Mod(-q * s, p) != 0
  {
    var z := -q * s;
    var y := Mod(z, p);
    CongScale(x, y, z, p);
    InvExpand(x, s, q, r);
    CongIntro(x * z, r * s, -s, p);
    assert Mod(0, p) == 0 && Mod(1, p) == 1;
    assert y == 0 ==> x * y == 0;
  }

  lemma InvExpand(x: int, s: int, q: int, r: int)
    ensures x * (-q * s) - r * s == -s * (q * x + r)
  {
  }

  lemma MulSwap(x: int, y: int, i: int)
    ensures i * (x * y) == (x * i) * y == x * (i * y)
  {
  }

  /** A prime field has no zero divisors. */
  lemma NoZeroDivisors(x: int, y: int, p: Modulus)
    requires Prime(p) && Cong(x * y, 0, p)
    ensures Cong(x, 0, p) || Cong(y, 0, p)
  {
    if Mod(x, p) != 0 {
      var i := Inv(Mod(x, p), p);
      CongMul(x, Mod(x, p), i, i, p);
      CongMul(x * i, 1, y, y, p);
      CongScale(i, x * y, 0, p);
      MulSwap(x, y, i);
    }
  }
}
