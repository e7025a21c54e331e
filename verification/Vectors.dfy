/** Vectors of field elements: inner products, linear combinations and their congruences. */
module Vectors {
  import opened PrimeField

  function Dot(a: seq<int>, b: seq<int>): int
    requires |a| == |b|
  {
    if |a| == 0 then 0 else Dot(a[..|a| - 1], b[..|b| - 1]) + a[|a| - 1] * b[|b| - 1]
  }

  function Sum(a: seq<int>): int {
    if |a| == 0 then 0 else Sum(a[..|a| - 1]) + a[|a| - 1]
  }

  function Prod(a: seq<int>): int {
    if |a| == 0 then 1 else Prod(a[..|a| - 1]) * a[|a| - 1]
  }

  function Lin(x: int, a: seq<int>, y: int, b: seq<int>): (c: seq<int>)
    requires |a| == |b|
    ensures |c| == |a|
  {
    seq(|a|, i requires 0 <= i < |a| => x * a[i] + y * b[i])
  }

  function Scale(x: int, a: seq<int>): (c: seq<int>)
    ensures |c| == |a|
  {
    seq(|a|, i requires 0 <= i < |a| => x * a[i])
  }

  function Had(a: seq<int>, b: seq<int>): (c: seq<int>)
    requires |a| == |b|
    ensures |c| == |a|
  {
    seq(|a|, i requires 0 <= i < |a| => a[i] * b[i])
  }

  function Const(n: nat, x: int): (c: seq<int>)
    ensures |c| == n
  {
    seq(n, i => x)
  }

  function ModV(a: seq<int>, p: Modulus): (c: seq<int>)
    ensures |c| == |a|
  {
    seq(|a|, i requires 0 <= i < |a| => Mod(a[i], p))
  }

  function Reverse(a: seq<int>): (c: seq<int>)
    ensures |c| == |a|
  {
    seq(|a|, i requires 0 <= i < |a| => a[|a| - 1 - i])
  }

  ghost predicate CongV(a: seq<int>, b: seq<int>, p: Modulus) {
    |a| == |b| && forall i :: 0 <= i < |a| ==> Cong(a[i], b[i], p)
  }

  predicate CanonicalV(a: seq<int>, p: Modulus) {
    forall i :: 0 <= i < |a| ==> Canonical(a[i], p)
  }

  lemma DotNone()
    ensures Dot([], []) == 0
  {
  }

  lemma DotSnoc(a: seq<int>, b: seq<int>, x: int, y: int)
    requires |a| == |b|
    ensures Dot(a + [x], b + [y]) == Dot(a, b) + x * y
  {
    assert (a + [x])[..|a|] == a && (b + [y])[..|b|] == b;
  }

  lemma {:induction false} DotConcat(a: seq<int>, b: seq<int>, c: seq<int>, d: seq<int>)
    requires |a| == |b| && |c| == |d|
    ensures Dot(a + c, b + d) == Dot(a, b) + Dot(c, d)
  {
    if |c| == 0 {
      assert a + c == a && b + d == b;
    } else {
      var n := |c| - 1;
      DotConcat(a, b, c[..n], d[..n]);
      assert a + c == (a + c[..n]) + [c[n]] && b + d == (b + d[..n]) + [d[n]];
      DotSnoc(a + c[..n], b + d[..n], c[n], d[n]);
    }
  }

  lemma DotCons(x: int, a: seq<int>, y: int, b: seq<int>)
    requires |a| == |b|
    ensures Dot([x] + a, [y] + b) == x * y + Dot(a, b)
  {
    DotSingle(x, y);
    DotConcat([x], [y], a, b);
  }

  lemma DotSingle(x: int, y: int)
    ensures Dot([x], [y]) == x * y
  {
    DotSnoc([], [], x, y);
    assert [] + [x] == [x] && [] + [y] == [y];
  }

  /** Inner product of vectors given as two halves. */
  lemma DotHalves(a: seq<int>, b: seq<int>, n: nat)
    requires n <= |a| == |b|
    ensures Dot(a, b) == Dot(a[..n], b[..n]) + Dot(a[n..], b[n..])
  {
    assert a == a[..n] + a[n..] && b == b[..n] + b[n..];
    DotConcat(a[..n], b[..n], a[n..], b[n..]);
  }

  lemma {:induction false} DotComm(a: seq<int>, b: seq<int>)
    requires |a| == |b|
    ensures Dot(a, b) == Dot(b, a)
  {
    if |a| == 0 {
    } else {
      DotComm(a[..|a| - 1], b[..|b| - 1]);
    }
  }

  lemma {:induction false} DotLin(x: int, a: seq<int>, y: int, b: seq<int>, c: seq<int>)
    requires |a| == |b| == |c|
    ensures Dot(Lin(x, a, y, b), c) == x * Dot(a, c) + y * Dot(b, c)
    ensures Dot(c, Lin(x, a, y, b)) == x * Dot(c, a) + y * Dot(c, b)
  {
    if |a| == 0 {
    } else {
      var n := |a| - 1;
      DotLin(x, a[..n], y, b[..n], c[..n]);
      assert Lin(x, a, y, b)[..n] == Lin(x, a[..n], y, b[..n]);
      DotLinStep(x, a[n], y, b[n], c[n], Dot(a[..n], c[..n]), Dot(b[..n], c[..n]));
      DotLinStep(x, a[n], y, b[n], c[n], Dot(c[..n], a[..n]), Dot(c[..n], b[..n]));
    }
  }

  lemma DotLinStep(x: int, a: int, y: int, b: int, c: int, da: int, db: int)
    ensures x * da + y * db + (x * a + y * b) * c == x * (da + a * c) + y * (db + b * c)
    ensures x * da + y * db + c * (x * a + y * b) == x * (da + c * a) + y * (db + c * b)
  {
  }

  lemma DotScale(x: int, a: seq<int>, c: seq<int>)
    requires |a| == |c|
    ensures Dot(Scale(x, a), c) == x * Dot(a, c)
    ensures Dot(c, Scale(x, a)) == x * Dot(c, a)
  {
    DotLin(x, a, 0, a, c);
    assert Scale(x, a) == Lin(x, a, 0, a);
  }

  lemma DotMinus(a: seq<int>, b: seq<int>, c: seq<int>)
    requires |a| == |b| == |c|
    ensures Dot(Lin(1, a, -1, b), c) == Dot(a, c) - Dot(b, c)
    ensures Dot(c, Lin(1, a, -1, b)) == Dot(c, a) - Dot(c, b)
  {
    hide Dot, Lin;
    DotLin(1, a, -1, b, c);
  }

  lemma DotNegate(a: seq<int>, c: seq<int>)
    requires |a| == |c|
    ensures Dot(Scale(-1, a), c) == -Dot(a, c)
    ensures Dot(c, Scale(-1, a)) == -Dot(c, a)
  {
    hide Dot, Scale;
    DotScale(-1, a, c);
  }

  lemma {:induction false} DotZero(n: nat, c: seq<int>)
    requires |c| == n
    ensures Dot(Const(n, 0), c) == 0 && Dot(c, Const(n, 0)) == 0
  {
    if n == 0 {
    } else {
      DotZero(n - 1, c[..n - 1]);
      assert Const(n, 0)[..n - 1] == Const(n - 1, 0);
    }
  }

  lemma {:induction false} DotCong(a: seq<int>, a': seq<int>, b: seq<int>, b': seq<int>, p: Modulus)
    requires CongV(a, a', p) && CongV(b, b', p) && |a| == |b|
    ensures Cong(Dot(a, b), Dot(a', b'), p)
  {
    if |a| == 0 {
    } else {
      var n := |a| - 1;
      DotCong(a[..n], a'[..n], b[..n], b'[..n], p);
      CongMul(a[n], a'[n], b[n], b'[n], p);
      CongAdd(Dot(a[..n], b[..n]), Dot(a'[..n], b'[..n]), a[n] * b[n], a'[n] * b'[n], p);
    }
  }

  /** Reducing either vector does not change the inner product in the field. */
  lemma DotModV(a: seq<int>, b: seq<int>, p: Modulus)
    requires |a| == |b|
    ensures Cong(Dot(ModV(a, p), b), Dot(a, b), p)
    ensures Cong(Dot(a, ModV(b, p)), Dot(a, b), p)
    ensures Cong(Dot(ModV(a, p), ModV(b, p)), Dot(a, b), p)
  {
    DotCong(ModV(a, p), a, b, b, p);
    DotCong(a, a, ModV(b, p), b, p);
    DotCong(ModV(a, p), a, ModV(b, p), b, p);
  }

  /** Entries of a Hadamard factor can move across the inner product. */
  lemma {:induction false} DotHad(a: seq<int>, b: seq<int>, c: seq<int>)
    requires |a| == |b| == |c|
    ensures Dot(Had(a, b), c) == Dot(a, Had(b, c))
  {
    if |a| == 0 {
    } else {
      var n := |a| - 1;
      DotHad(a[..n], b[..n], c[..n]);
      assert Had(a, b)[..n] == Had(a[..n], b[..n]);
      assert Had(b, c)[..n] == Had(b[..n], c[..n]);
    }
  }

  /** Changing one entry of a vector changes an inner product by that entry alone. */
  lemma {:induction false} DotUpdate(a: seq<int>, b: seq<int>, i: nat, x: int)
    requires i < |a| == |b|
    ensures Dot(a[i := x], b) == Dot(a, b) + (x - a[i]) * b[i]
    ensures Dot(b, a[i := x]) == Dot(b, a) + (x - a[i]) * b[i]
  {
    var n := |a| - 1;
    if i == n {
      assert a[i := x][..n] == a[..n];
      UpdateStep(x, a[i], b[i]);
    } else {
      DotUpdate(a[..n], b[..n], i, x);
      assert a[i := x][..n] == a[..n][i := x];
    }
  }

  lemma UpdateStep(x: int, y: int, b: int)
    ensures x * b == y * b + (x - y) * b && b * x == b * y + (x - y) * b
  {
  }

  method InnerProduct(a: seq<int>, b: seq<int>, p: Modulus) returns (out: int)
    requires |a| == |b|
    ensures out == Mod(Dot(a, b), p)
  {
    out := 0;
    for i := 0 to |a|
      invariant out == Mod(Dot(a[..i], b[..i]), p)
    {
      DotPrefix(a, b, i, out, p);
      out := Mod(out + a[i] * b[i], p);
    }
    assert a[..|a|] == a && b[..|b|] == b;
  }

  lemma DotPrefix(a: seq<int>, b: seq<int>, i: nat, out: int, p: Modulus)
    requires |a| == |b| && i < |a| && out == Mod(Dot(a[..i], b[..i]), p)
    ensures Mod(out + a[i] * b[i], p) == Mod(Dot(a[..i + 1], b[..i + 1]), p)
  {
    hide Mod, Dot;
    assert a[..i + 1] == a[..i] + [a[i]] && b[..i + 1] == b[..i] + [b[i]];
    DotSnoc(a[..i], b[..i], a[i], b[i]);
    ModCong(Dot(a[..i], b[..i]), p);
    CongSum(out + a[i] * b[i], Dot(a[..i + 1], b[..i + 1]), out, Dot(a[..i], b[..i]), a[i] * b[i], a[i] * b[i], p);
  }
}
