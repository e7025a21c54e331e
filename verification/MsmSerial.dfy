/**
 Serial and chunked Pippenger multi-scalar multiplication: signed windows from the most significant
 down, one bucket per digit magnitude, and summation by parts.
 */
module MsmSerial {
  import opened PowersOfTwo
  import opened PrimeField
  import opened Vectors
  import opened Booth

  /** The three states of a bucket; a missing bucket is the identity. */
  datatype Bucket = Empty | AffinePoint(pt: int) | ProjectivePoint(pt: int)

  function Val(b: Bucket): int {
    if b == Empty then 0 else b.pt
  }

  function AddAssign(b: Bucket, pt: int, p: Modulus): Bucket {
    match b
    case Empty => AffinePoint(pt)
    case AffinePoint(a) => ProjectivePoint(Mod(a + pt, p))
    case ProjectivePoint(a) => ProjectivePoint(Mod(a + pt, p))
  }

  function AddTo(b: Bucket, other: int, p: Modulus): int {
    match b
    case Empty => other
    case AffinePoint(a) => Mod(other + a, p)
    case ProjectivePoint(a) => Mod(other + a, p)
  }

  function Vals(bs: seq<Bucket>): (v: seq<int>)
    ensures |v| == |bs|
  {
    seq(|bs|, i requires 0 <= i < |bs| => Val(bs[i]))
  }

  /** 1, 2, ..., n: the digit magnitude of each bucket. */
  function Weights(n: nat): (w: seq<int>)
    ensures |w| == n
  {
    seq(n, i => i + 1)
  }

  function Values(coeffs: seq<Bytes>): (v: seq<int>)
    ensures |v| == |coeffs|
  {
    seq(|coeffs|, i requires 0 <= i < |coeffs| => Value(coeffs[i]))
  }

  function Digits(coeffs: seq<Bytes>, c: nat, w: nat): (d: seq<int>)
    requires 1 <= c <= 30
    ensures |d| == |coeffs|
  {
    seq(|coeffs|, i requires 0 <= i < |coeffs| => BoothIndex(w, c, coeffs[i]))
  }

  /** What windows w to n - 1 of every scalar add up to, in units of window w. */
  function RecodedAllFrom(coeffs: seq<Bytes>, c: nat, w: nat, n: nat): (r: seq<int>)
    requires 1 <= c <= 30
    ensures |r| == |coeffs|
  {
    seq(|coeffs|, i requires 0 <= i < |coeffs| => RecodedFrom(coeffs[i], c, w, n))
  }

  /** What the first n windows of every scalar add up to. */
  function RecodedAll(coeffs: seq<Bytes>, c: nat, n: nat): (v: seq<int>)
    requires 1 <= c <= 30
    ensures |v| == |coeffs|
  {
    seq(|coeffs|, i requires 0 <= i < |coeffs| => Recoded(coeffs[i], c, n))
  }

  /** Up to width 24, covering windows add up to the scalars. */
  lemma AllWindows(coeffs: seq<Bytes>, c: nat, n: nat)
    requires 1 <= c <= 24 && n * c >= 1 && forall i :: 0 <= i < |coeffs| ==> Value(coeffs[i]) < Pow2(n * c - 1)
    ensures RecodedAll(coeffs, c, n) == Values(coeffs)
  {
    hide Recoded, Value, Pow2, BoothIndex;
    forall i | 0 <= i < |coeffs| ensures Recoded(coeffs[i], c, n) == Value(coeffs[i]) {
      BoothExact(coeffs[i], c, n);
    }
  }

  // ---------- buckets ----------

  lemma AddAssignCong(b: Bucket, pt: int, p: Modulus)
    ensures Cong(Val(AddAssign(b, pt, p)), Val(b) + pt, p)
  {
    hide Mod;
    ModCong(Val(b) + pt, p);
  }

  lemma AddToCong(b: Bucket, other: int, p: Modulus)
    ensures Cong(AddTo(b, other, p), other + Val(b), p)
  {
    hide Mod;
    ModCong(other + Val(b), p);
  }

  /** Adding a point to bucket j adds j + 1 times the point to the weighted sum. */
  lemma BucketStep(bs: seq<Bucket>, j: nat, pt: int, t: int, p: Modulus)
    requires j < |bs| && t == Dot(Weights(|bs|), Vals(bs)) + (j + 1) * pt
    ensures Cong(Dot(Weights(|bs|), Vals(bs[j := AddAssign(bs[j], pt, p)])), t, p)
  {
    hide Mod, Dot, AddAssign, Val;
    var x, y := Val(AddAssign(bs[j], pt, p)), Val(bs[j]);
    assert Vals(bs[j := AddAssign(bs[j], pt, p)]) == Vals(bs)[j := x];
    DotUpdate(Vals(bs), Weights(|bs|), j, x);
    AddAssignCong(bs[j], pt, p);
    CongSub(x, y + pt, y, y, p);
    WeightedStep(Dot(Weights(|bs|), Vals(bs)), x, y, j + 1, pt, Dot(Weights(|bs|), Vals(bs)[j := x]), t, p);
  }

  lemma WeightedStep(d: int, x: int, y: int, w: int, pt: int, d': int, t: int, p: Modulus)
    requires Cong(x - y, pt, p) && d' == d + (x - y) * w && t == d + w * pt
    ensures Cong(d', t, p)
  {
    hide Mod;
    CongMul(x - y, pt, w, w, p);
    CongSum(d', t, d, d, (x - y) * w, pt * w, p);
  }

  /** One bucket per digit magnitude: the weighted sum of the buckets is the digits' multi-product. */
  method FillBuckets(w: nat, c: nat, coeffs: seq<Bytes>, bases: seq<int>, p: Modulus) returns (buckets: array<Bucket>)
    requires 1 <= c <= 30 && |coeffs| == |bases|
    ensures fresh(buckets) && buckets.Length == Pow2(c - 1)
    ensures Cong(Dot(Weights(buckets.Length), Vals(buckets[..])), Dot(Digits(coeffs, c, w), bases), p)
  {
    hide Mod, Dot, BoothIndex, Vals, AddAssign;
    buckets := new Bucket[Pow2(c - 1)](_ => Empty);
    EmptyBuckets(buckets[..]);
    for i := 0 to |coeffs|
      invariant Cong(Dot(Weights(buckets.Length), Vals(buckets[..])), Dot(Digits(coeffs[..i], c, w), bases[..i]), p)
    {
      var digit := BoothIndex(w, c, coeffs[i]);
      DigitRange(w, c, coeffs[i]);
      ghost var before := buckets[..];
      if digit > 0 {
        buckets[digit - 1] := AddAssign(buckets[digit - 1], bases[i], p);
      }
      if digit < 0 {
        buckets[-digit - 1] := AddAssign(buckets[-digit - 1], Mod(-bases[i], p), p);
      }
      FillStep(before, buckets[..], digit, bases[i], Dot(Digits(coeffs[..i], c, w), bases[..i]), p);
      DigitsSnoc(coeffs, bases, c, w, i);
    }
    assert coeffs[..|coeffs|] == coeffs && bases[..|bases|] == bases;
  }

  lemma EmptyBuckets(bs: seq<Bucket>)
    requires forall i :: 0 <= i < |bs| ==> bs[i] == Empty
    ensures Dot(Weights(|bs|), Vals(bs)) == 0 && Dot([], []) == 0
  {
    assert Vals(bs) == Const(|bs|, 0);
    DotZero(|bs|, Weights(|bs|));
  }

  lemma DigitsSnoc(coeffs: seq<Bytes>, bases: seq<int>, c: nat, w: nat, i: nat)
    requires 1 <= c <= 30 && i < |coeffs| == |bases|
    ensures Dot(Digits(coeffs[..i + 1], c, w), bases[..i + 1])
         == Dot(Digits(coeffs[..i], c, w), bases[..i]) + BoothIndex(w, c, coeffs[i]) * bases[i]
  {
    hide Dot, BoothIndex;
    assert Digits(coeffs[..i + 1], c, w) == Digits(coeffs[..i], c, w) + [BoothIndex(w, c, coeffs[i])];
    assert bases[..i + 1] == bases[..i] + [bases[i]];
    DotSnoc(Digits(coeffs[..i], c, w), bases[..i], BoothIndex(w, c, coeffs[i]), bases[i]);
  }

  lemma FillStep(bs: seq<Bucket>, bs': seq<Bucket>, digit: int, base: int, d: int, p: Modulus)
    requires Cong(Dot(Weights(|bs|), Vals(bs)), d, p) && -|bs| <= digit <= |bs|
    requires bs' == if digit > 0 then bs[digit - 1 := AddAssign(bs[digit - 1], base, p)]
                    else if digit < 0 then bs[-digit - 1 := AddAssign(bs[-digit - 1], Mod(-base, p), p)]
                    else bs
    ensures Cong(Dot(Weights(|bs'|), Vals(bs')), d + digit * base, p)
  {
    hide Mod, Dot, AddAssign, Vals, Weights;
    var s, t := Dot(Weights(|bs|), Vals(bs)), Dot(Weights(|bs'|), Vals(bs'));
    if digit > 0 {
      BucketStep(bs, digit - 1, base, s + digit * base, p);
      CongAdd(s, d, digit * base, digit * base, p);
    } else if digit < 0 {
      var neg := Mod(-base, p);
      BucketStep(bs, -digit - 1, neg, s + -digit * neg, p);
      ModCong(-base, p);
      CongScale(-digit, neg, -base, p);
      assert -digit * -base == digit * base;
      CongAdd(s, d, -digit * neg, digit * base, p);
    } else {
      assert digit * base == 0;
    }
  }

  // ---------- summation by parts ----------

  /** acc plus 1, 2, ..., n times the buckets, with one running sum. */
  method SumByParts(buckets: seq<Bucket>, acc0: int, p: Modulus) returns (acc: int)
    ensures Cong(acc, acc0 + Dot(Weights(|buckets|), Vals(buckets)), p)
    ensures Canonical(acc0, p) ==> Canonical(acc, p)
  {
    hide Mod, Dot, Sum, Weights, AddTo;
    ghost var v := Vals(buckets);
    var running := 0;
    acc := acc0;
    var j := |buckets|;
    SuffixEmpty(v);
    while j > 0
      invariant 0 <= j <= |buckets|
      invariant Canonical(acc0, p) ==> Canonical(acc, p)
      invariant Cong(running, Sum(v[j..]), p)
      invariant Cong(acc, acc0 + Dot(Weights(|v| - j), v[j..]), p)
    {
      j := j - 1;
      ghost var before, running0 := acc, running;
      running := AddTo(buckets[j], running, p);
      acc := Mod(acc + running, p);
      AddToCong(buckets[j], running0, p);
      PartsStep(v, j, running0, running, before, acc, acc0, p);
    }
    assert v[0..] == v;
  }

  lemma SuffixEmpty(v: seq<int>)
    ensures Sum(v[|v|..]) == 0 && Dot(Weights(0), v[|v|..]) == 0
  {
  }

  lemma PartsStep(v: seq<int>, j: nat, running: int, running': int, acc: int, acc': int, acc0: int, p: Modulus)
    requires j < |v|
    requires Cong(running, Sum(v[j + 1..]), p) && Cong(running', running + v[j], p)
    requires Cong(acc, acc0 + Dot(Weights(|v| - j - 1), v[j + 1..]), p) && acc' == Mod(acc + running', p)
    ensures Cong(running', Sum(v[j..]), p)
    ensures Cong(acc', acc0 + Dot(Weights(|v| - j), v[j..]), p)
  {
    hide Mod, Dot, Sum, Weights;
    var s, d := Sum(v[j + 1..]), Dot(Weights(|v| - j - 1), v[j + 1..]);
    CongSum(running + v[j], s + v[j], running, s, v[j], v[j], p);
    SuffixStep(v, j);
    ModCong(acc + running', p);
    CongSum(acc + running', acc0 + Dot(Weights(|v| - j), v[j..]), acc, acc0 + d, running', s + v[j], p);
  }

  lemma SuffixStep(v: seq<int>, j: nat)
    requires j < |v|
    ensures Sum(v[j..]) == Sum(v[j + 1..]) + v[j]
    ensures Dot(Weights(|v| - j), v[j..]) == Dot(Weights(|v| - j - 1), v[j + 1..]) + (Sum(v[j + 1..]) + v[j])
  {
    hide Dot, Sum;
    var rest := v[j + 1..];
    var n := |rest|;
    assert v[j..] == [v[j]] + rest;
    assert Weights(n + 1) == [1] + Lin(1, Weights(n), 1, Const(n, 1));
    DotCons(1, Lin(1, Weights(n), 1, Const(n, 1)), v[j], rest);
    DotLin(1, Weights(n), 1, Const(n, 1), rest);
    DotOnes(rest);
    SumCons(v[j], rest);
  }

  lemma {:induction false} DotOnes(a: seq<int>)
    ensures Dot(Const(|a|, 1), a) == Sum(a)
  {
    if |a| == 0 {
    } else {
      DotOnes(a[..|a| - 1]);
      assert Const(|a|, 1)[..|a| - 1] == Const(|a| - 1, 1);
    }
  }

  lemma {:induction false} SumCons(x: int, a: seq<int>)
    ensures Sum([x] + a) == x + Sum(a)
  {
    if |a| == 0 {
      assert [x] + a == [x] && [x][..0] == [];
    } else {
      SumCons(x, a[..|a| - 1]);
      assert ([x] + a)[..|a|] == [x] + a[..|a| - 1];
    }
  }

  // ---------- windows ----------

  method DoubleTimes(acc0: int, n: nat, p: Modulus) returns (acc: int)
    ensures Cong(acc, Pow2(n) * acc0, p)
    ensures Canonical(acc0, p) ==> Canonical(acc, p)
  {
    hide Mod;
    acc := acc0;
    for i := 0 to n
      invariant Cong(acc, Pow2(i) * acc0, p) && (Canonical(acc0, p) ==> Canonical(acc, p))
    {
      DoubleStep(acc, Pow2(i), acc0, p);
      acc := Mod(acc + acc, p);
    }
  }

  lemma DoubleStep(acc: int, t: int, acc0: int, p: Modulus)
    requires Cong(acc, t * acc0, p)
    ensures Cong(Mod(acc + acc, p), (2 * t) * acc0, p)
  {
    hide Mod;
    ModCong(acc + acc, p);
    CongSum(acc + acc, (2 * t) * acc0, acc, t * acc0, acc, t * acc0, p);
  }

  /** One window: what the windows above add up to takes in one more digit. */
  lemma WindowStep(coeffs: seq<Bytes>, bases: seq<int>, c: nat, w: nat, n: nat)
    requires 1 <= c <= 30 && w < n && |coeffs| == |bases|
    ensures Dot(RecodedAllFrom(coeffs, c, w, n), bases)
         == Pow2(c) * Dot(RecodedAllFrom(coeffs, c, w + 1, n), bases) + Dot(Digits(coeffs, c, w), bases)
  {
    hide Dot, BoothIndex, Pow2;
    var r, r', d := RecodedAllFrom(coeffs, c, w, n), RecodedAllFrom(coeffs, c, w + 1, n), Digits(coeffs, c, w);
    assert r == Lin(Pow2(c), r', 1, d);
    DotLin(Pow2(c), r', 1, d, bases);
  }

  function Result(coeffs: seq<Bytes>, bases: seq<int>, acc0: int, shift: nat, p: Modulus): int
    requires |coeffs| == |bases|
  {
    Mod(Pow2(shift) * acc0 + Dot(Values(coeffs), bases), p)
  }

  /** The same with what n windows of the scalars add up to in place of the scalars. */
  function RecodedResult(coeffs: seq<Bytes>, bases: seq<int>, acc0: int, c: nat, n: nat, p: Modulus): int
    requires 1 <= c <= 30 && |coeffs| == |bases|
  {
    Mod(Pow2(n * c) * acc0 + Dot(RecodedAll(coeffs, c, n), bases), p)
  }

  /** All windows, from the top down. */
  method Windows(coeffs: seq<Bytes>, bases: seq<int>, acc0: int, c: nat, n: nat, p: Modulus) returns (acc: int)
    requires 1 <= c <= 30 && |coeffs| == |bases| && Canonical(acc0, p)
    ensures acc == RecodedResult(coeffs, bases, acc0, c, n, p)
    ensures c <= 24 && n * c >= 1 && (forall i :: 0 <= i < |coeffs| ==> Value(coeffs[i]) < Pow2(n * c - 1))
      ==> acc == Result(coeffs, bases, acc0, n * c, p)
  {
    hide Mod, Dot, Pow2, Values, Value, RecodedAllFrom, RecodedAll;
    acc := acc0;
    var w := n;
    NoWindowsAbove(coeffs, bases, c, n);
    assert (n - n) * c == 0;
    SmallPowers();
    while w > 0
      invariant 0 <= w <= n && Canonical(acc, p)
      invariant Cong(acc, Pow2((n - w) * c) * acc0 + Dot(RecodedAllFrom(coeffs, c, w, n), bases), p)
    {
      w := w - 1;
      ghost var before := acc;
      acc := DoubleTimes(acc, c, p);
      var buckets := FillBuckets(w, c, coeffs, bases, p);
      ghost var doubled := acc;
      acc := SumByParts(buckets[..], acc, p);
      WindowStep(coeffs, bases, c, w, n);
      Pow2Add(c, (n - w - 1) * c);
      assert c + (n - w - 1) * c == (n - w) * c;
      WindowGlue(before, Pow2((n - w - 1) * c), acc0, Dot(RecodedAllFrom(coeffs, c, w + 1, n), bases), doubled, Pow2(c),
                 Dot(Weights(buckets.Length), Vals(buckets[..])), Dot(Digits(coeffs, c, w), bases), acc,
                 Pow2((n - w) * c) * acc0 + Dot(RecodedAllFrom(coeffs, c, w, n), bases), p);
    }
    AllWindowsAbove(coeffs, c, n);
    CanonicalMod(acc, Pow2(n * c) * acc0 + Dot(RecodedAll(coeffs, c, n), bases), p);
    if c <= 24 && n * c >= 1 && forall i :: 0 <= i < |coeffs| ==> Value(coeffs[i]) < Pow2(n * c - 1) {
      AllWindows(coeffs, c, n);
    }
  }

  lemma WindowGlue(acc: int, s: int, acc0: int, r: int, doubled: int, t: int, b: int, d: int, acc': int, goal: int,
                   p: Modulus)
    requires Cong(acc, s * acc0 + r, p) && Cong(doubled, t * acc, p) && Cong(b, d, p) && Cong(acc', doubled + b, p)
    requires goal == (t * s) * acc0 + (t * r + d)
    ensures Cong(acc', goal, p)
  {
    hide Mod;
    CongScale(t, acc, s * acc0 + r, p);
    assert t * (s * acc0 + r) == (t * s) * acc0 + t * r;
    CongSum(doubled + b, goal, doubled, (t * s) * acc0 + t * r, b, d, p);
  }

  lemma NoWindowsAbove(coeffs: seq<Bytes>, bases: seq<int>, c: nat, n: nat)
    requires 1 <= c <= 30 && |coeffs| == |bases|
    ensures Dot(RecodedAllFrom(coeffs, c, n, n), bases) == 0
  {
    hide Dot, BoothIndex;
    assert RecodedAllFrom(coeffs, c, n, n) == Const(|coeffs|, 0);
    DotZero(|coeffs|, bases);
  }

  lemma AllWindowsAbove(coeffs: seq<Bytes>, c: nat, n: nat)
    requires 1 <= c <= 30
    ensures RecodedAllFrom(coeffs, c, 0, n) == RecodedAll(coeffs, c, n)
  {
    hide RecodedFrom, Recoded;
    forall i | 0 <= i < |coeffs| ensures RecodedFrom(coeffs[i], c, 0, n) == Recoded(coeffs[i], c, n) {
      HornerIsRecoded(coeffs[i], c, n);
    }
  }

  // ---------- the number of bytes in use ----------

  /** The position after the last byte that is non-zero in some scalar. */
  ghost function UsedBytes(coeffs: seq<Bytes>, size: nat): (n: nat)
    requires forall i :: 0 <= i < |coeffs| ==> |coeffs[i]| >= size
    ensures n <= size && (forall i, j :: 0 <= i < |coeffs| && n <= j < size ==> coeffs[i][j] == 0)
    ensures n > 0 ==> exists i :: 0 <= i < |coeffs| && coeffs[i][n - 1] != 0
  {
    if size == 0 || exists i :: 0 <= i < |coeffs| && coeffs[i][size - 1] != 0 then size else UsedBytes(coeffs, size - 1)
  }

  /** The OR of all scalars, byte by byte, and the position after its last non-zero byte. */
  method MaxBytes(coeffs: seq<Bytes>, size: nat) returns (n: nat)
    requires forall i :: 0 <= i < |coeffs| ==> |coeffs[i]| == size
    ensures n == UsedBytes(coeffs, size) && forall i :: 0 <= i < |coeffs| ==> Used(n, coeffs[i])
  {
    var mask := new bv8[size](_ => 0);
    for i := 0 to |coeffs|
      invariant forall j :: 0 <= j < size ==> (mask[j] == 0 <==> forall k :: 0 <= k < i ==> coeffs[k][j] == 0)
    {
      for j := 0 to size
        invariant forall l :: 0 <= l < j ==> (mask[l] == 0 <==> forall k :: 0 <= k < i + 1 ==> coeffs[k][l] == 0)
        invariant forall l :: j <= l < size ==> (mask[l] == 0 <==> forall k :: 0 <= k < i ==> coeffs[k][l] == 0)
      {
        OrZero(mask[j], coeffs[i][j]);
        mask[j] := mask[j] | coeffs[i][j];
      }
    }
    n := size;
    while n > 0 && mask[n - 1] == 0
      invariant 0 <= n <= size
      invariant forall j :: n <= j < size ==> mask[j] == 0
    {
      n := n - 1;
    }
    if n > 0 {
      assert mask[n - 1] != 0;
      ghost var k :| 0 <= k < |coeffs| && coeffs[k][n - 1] != 0;
    }
    forall i | 0 <= i < |coeffs| ensures Used(n, coeffs[i]) {
      forall j | n <= j < size ensures coeffs[i][j] == 0 {
        assert mask[j] == 0;
      }
    }
  }

  lemma OrZero(x: bv8, y: bv8)
    ensures x | y == 0 <==> x == 0 && y == 0
  {
  }

  lemma {:induction false} ValueBound(el: Bytes, n: nat)
    requires Used(n, el)
    ensures Value(el) < Pow2(8 * n)
  {
    hide Pow2;
    if |el| == 0 {
    } else if n == 0 {
      AllZeroValue(el);
    } else {
      assert Used(n - 1, el[1..]) by {
        forall j | n - 1 <= j < |el[1..]| ensures el[1..][j] == 0 {
          assert el[1..][j] == el[j + 1];
        }
      }
      ValueBound(el[1..], n - 1);
      Pow2Add(8, 8 * (n - 1));
      SmallPowers();
      ByteBelow(el[0] as nat, Value(el[1..]), Pow2(8 * (n - 1)));
    }
  }

  lemma ByteBelow(b: nat, v: nat, t: nat)
    requires b < 256 && v < t
    ensures b + 256 * v < 256 * t
  {
  }

  lemma {:induction false} NonZeroValue(el: Bytes, j: nat)
    requires j < |el| && el[j] != 0
    ensures Value(el) > 0
  {
    if j > 0 {
      NonZeroValue(el[1..], j - 1);
    } else {
      assert el[0] as nat != 0;
    }
  }

  predicate AllZeroScalars(coeffs: seq<Bytes>) {
    forall i :: 0 <= i < |coeffs| ==> Value(coeffs[i]) == 0
  }

  function WindowCount(bytes: nat, c: nat): nat
    requires c > 0
  {
    bytes * 8 / c + 1
  }

  lemma WindowsCover(bytes: nat, c: nat)
    requires c > 0
    ensures WindowCount(bytes, c) * c > 8 * bytes
  {
    var q := bytes * 8 / c;
    assert (q + 1) * c == q * c + c;
  }

  /**
   The serial routine: acc is left alone when every scalar is zero, and otherwise shifted by all
   windows and increased by what the windows of the scalars add up to, times the bases; up to
   width 24 these are the scalars themselves.
   */
  method MsmSerialWithC(coeffs: seq<Bytes>, bases: seq<int>, size: nat, acc0: int, c: nat, p: Modulus)
    returns (acc: int)
    requires 1 <= c <= 30 && |coeffs| == |bases| && Canonical(acc0, p)
    requires forall i :: 0 <= i < |coeffs| ==> |coeffs[i]| == size
    ensures acc == if AllZeroScalars(coeffs) then acc0
                   else RecodedResult(coeffs, bases, acc0, c, WindowCount(UsedBytes(coeffs, size), c), p)
    ensures c <= 24 ==>
              acc == if AllZeroScalars(coeffs) then acc0
                     else Result(coeffs, bases, acc0, WindowCount(UsedBytes(coeffs, size), c) * c, p)
  {
    hide Mod, Dot, Value, Pow2, Values, RecodedResult, Result;
    acc := acc0;
    var bytes := MaxBytes(coeffs, size);
    if bytes == 0 {
      forall i | 0 <= i < |coeffs| ensures Value(coeffs[i]) == 0 {
        AllZeroValue(coeffs[i]);
      }
      return;
    }
    ghost var k :| 0 <= k < |coeffs| && coeffs[k][bytes - 1] != 0;
    NonZeroValue(coeffs[k], bytes - 1);
    var n := WindowCount(bytes, c);
    WindowsCover(bytes, c);
    forall i | 0 <= i < |coeffs| ensures Value(coeffs[i]) < Pow2(n * c - 1) {
      ValueBound(coeffs[i], bytes);
      Pow2Monotone(8 * bytes, n * c - 1);
    }
    acc := Windows(coeffs, bases, acc0, c, n, p);
  }

  // ---------- the dispatchers ----------

  /** Window size by input length; the logarithm's ceiling comes from floating point. */
  function PippengerC(len: nat, lnCeil: nat -> nat): nat {
    if len < 4 then 1 else if len < 32 then 3 else lnCeil(len)
  }

  /** The logarithm of a 32-bit length, rounded up, lies between 4 and 23. */
  ghost predicate LogRange(lnCeil: nat -> nat) {
    forall n: nat :: 32 <= n < WORD ==> 4 <= lnCeil(n) <= 23
  }

  /** Serial multiplication into the identity gives the plain sum of k * P. */
  method MsmSerial(coeffs: seq<Bytes>, bases: seq<int>, size: nat, lnCeil: nat -> nat, p: Modulus) returns (acc: int)
    requires |coeffs| == |bases| < WORD && LogRange(lnCeil)
    requires forall i :: 0 <= i < |coeffs| ==> |coeffs[i]| == size
    ensures acc == Mod(Dot(Values(coeffs), bases), p)
  {
    hide Mod, Dot, Value, Pow2;
    assert Canonical(0, p);
    acc := MsmSerialWithC(coeffs, bases, size, 0, PippengerC(|bases|, lnCeil), p);
    ZeroScalars(coeffs, bases, p);
  }

  lemma ZeroScalars(coeffs: seq<Bytes>, bases: seq<int>, p: Modulus)
    requires |coeffs| == |bases|
    ensures AllZeroScalars(coeffs) ==> Mod(Dot(Values(coeffs), bases), p) == 0
  {
    hide Dot, Value;
    if AllZeroScalars(coeffs) {
      assert Values(coeffs) == Const(|coeffs|, 0);
      DotZero(|coeffs|, bases);
    }
  }

  /** The input in chunks of len / threads, each summed on its own. */
  method MsmParallel(coeffs: seq<Bytes>, bases: seq<int>, size: nat, threads: nat, lnCeil: nat -> nat, p: Modulus)
    returns (acc: int)
    requires |coeffs| == |bases| < WORD && LogRange(lnCeil) && threads > 0
    requires forall i :: 0 <= i < |coeffs| ==> |coeffs[i]| == size
    ensures acc == Mod(Dot(Values(coeffs), bases), p)
  {
    hide Mod, Dot, Value;
    if |coeffs| > threads {
      var chunk := |coeffs| / threads;
      assert chunk >= 1;
      acc := 0;
      var done := 0;
      EmptyPrefix(coeffs, bases, p);
      while done < |coeffs|
        invariant 0 <= done <= |coeffs| && acc == Mod(Dot(Values(coeffs[..done]), bases[..done]), p)
      {
        var next := if done + chunk <= |coeffs| then done + chunk else |coeffs|;
        var part := MsmSerial(coeffs[done..next], bases[done..next], size, lnCeil, p);
        ChunkStep(coeffs, bases, done, next, acc, part, p);
        acc := Mod(acc + part, p);
        done := next;
      }
      assert coeffs[..|coeffs|] == coeffs && bases[..|bases|] == bases;
    } else {
      acc := MsmSerial(coeffs, bases, size, lnCeil, p);
    }
  }

  lemma EmptyPrefix(coeffs: seq<Bytes>, bases: seq<int>, p: Modulus)
    ensures Mod(Dot(Values(coeffs[..0]), bases[..0]), p) == 0
  {
  }

  lemma ChunkStep(coeffs: seq<Bytes>, bases: seq<int>, i: nat, j: nat, acc: int, part: int, p: Modulus)
    requires i <= j <= |coeffs| == |bases|
    requires acc == Mod(Dot(Values(coeffs[..i]), bases[..i]), p) &&
             part == Mod(Dot(Values(coeffs[i..j]), bases[i..j]), p)
    ensures Mod(acc + part, p) == Mod(Dot(Values(coeffs[..j]), bases[..j]), p)
  {
    hide Mod, Dot, Value;
    var x, y := Dot(Values(coeffs[..i]), bases[..i]), Dot(Values(coeffs[i..j]), bases[i..j]);
    assert Values(coeffs[..j]) == Values(coeffs[..i]) + Values(coeffs[i..j]) && bases[..j] == bases[..i] + bases[i..j];
    DotConcat(Values(coeffs[..i]), bases[..i], Values(coeffs[i..j]), bases[i..j]);
    ModCong(x, p);
    ModCong(y, p);
    CongSum(acc + part, Dot(Values(coeffs[..j]), bases[..j]), acc, x, part, y, p);
  }
}
