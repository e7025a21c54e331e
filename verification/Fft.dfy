/** The Fourier transform as it runs: swaps and butterflies in place, iteratively or by recursion. */
module Fft {
  import opened PowersOfTwo
  import opened PrimeField
  import opened SparseMatrix
  import opened FftSpec

  /** Shifts the low bits out of n one at a time into r. */
  method BitReverse(n0: nat, l: nat) returns (r: nat)
    ensures r == Rev(n0, l)
  {
    r := 0;
    var n := n0;
    for i := 0 to l
      invariant r * Pow2(l - i) + Rev(n, l - i) == Rev(n0, l)
    {
      ShiftIn(r, n, l - i);
      r := 2 * r + n % 2;
      n := n / 2;
    }
    assert Pow2(0) == 1 && Rev(n, 0) == 0;
  }

  lemma ShiftIn(r: nat, n: nat, m: nat)
    requires m > 0
    ensures (2 * r + n % 2) * Pow2(m - 1) + Rev(n / 2, m - 1) == r * Pow2(m) + Rev(n, m)
  {
    var h := Pow2(m - 1);
    assert (2 * r + n % 2) * h == r * (2 * h) + n % 2 * h;
  }

  /** Swaps every entry with the one at the reversed position, once. */
  method Reorder(a: array<int>, k: nat)
    requires a.Length == Pow2(k)
    modifies a
    ensures a[..] == Reordered(old(a[..]), k)
  {
    hide Rev, Pow2;
    var n := a.Length;
    for i := 0 to n
      invariant forall j :: 0 <= j < n ==> a[j] == if j < i || Rev(j, k) < i then old(a[Rev(j, k)]) else old(a[j])
    {
      var ri := BitReverse(i, k);
      RevTwice(i, k);
      forall j | 0 <= j < n ensures Rev(Rev(j, k), k) == j {
        RevTwice(j, k);
      }
      if i < ri {
        a[ri], a[i] := a[i], a[ri];
      }
    }
  }

  /** The powers of omega, each the one before times omega. */
  method Twiddles(omega: int, n: nat, p: Modulus) returns (t: seq<int>)
    ensures |t| == n && forall i :: 0 <= i < n ==> t[i] == Mod(Pow(omega, i), p)
  {
    hide Mod;
    t := [];
    var w := Mod(1, p);
    for i := 0 to n
      invariant |t| == i && w == Mod(Pow(omega, i), p) && forall j :: 0 <= j < i ==> t[j] == Mod(Pow(omega, j), p)
    {
      t := t + [w];
      ModCong(Pow(omega, i), p);
      CongMul(w, Pow(omega, i), omega, omega, p);
      w := Mod(w * omega, p);
    }
  }

  ghost predicate IsTwiddles(t: seq<int>, omega: int, p: Modulus) {
    forall i :: 0 <= i < |t| ==> t[i] == Mod(Pow(omega, i), p)
  }

  lemma TwiddleAt(t: seq<int>, omega: int, i: nat, chunk: nat, b: int, p: Modulus)
    requires IsTwiddles(t, omega, p) && i * chunk < |t|
    ensures Mod(t[i * chunk] * b, p) == Mod(Pow(Pow(omega, chunk), i) * b, p)
  {
    hide Mod;
    PowPow(omega, chunk, i);
    ModCong(Pow(omega, i * chunk), p);
    CongMul(t[i * chunk], Pow(omega, i * chunk), b, b, p);
  }

  lemma {:induction false} PowPow(w: int, c: nat, i: nat)
    ensures Pow(Pow(w, c), i) == Pow(w, i * c)
  {
    if i == 0 {
      assert 0 * c == 0;
    } else {
      PowPow(w, c, i - 1);
      PowAdd(w, (i - 1) * c, c);
      assert (i - 1) * c + c == i * c;
    }
  }

  /** The butterflies of one block of 2h entries; the first pair needs no twiddle factor. */
  method Stage(a: array<int>, lo: nat, h: nat, chunk: nat, twiddles: seq<int>, ghost omega: int, p: Modulus)
    requires h >= 1 && lo + 2 * h <= a.Length && IsTwiddles(twiddles, omega, p) && h * chunk <= |twiddles| && chunk >= 1
    modifies a
    ensures a[lo..lo + 2 * h] == Combine(old(a[lo..lo + h]), old(a[lo + h..lo + 2 * h]), Pow(omega, chunk), p)
    ensures forall j :: 0 <= j < a.Length && !(lo <= j < lo + 2 * h) ==> a[j] == old(a[j])
  {
    hide Mod, Pow, Combine;
    ghost var c := Combine(a[lo..lo + h], a[lo + h..lo + 2 * h], Pow(omega, chunk), p);
    var t := a[lo + h];
    CombineAt(a[lo..lo + h], a[lo + h..lo + 2 * h], Pow(omega, chunk), 0, p);
    FirstTwiddle(Pow(omega, chunk), a[lo], a[lo + h], p);
    a[lo + h] := Mod(a[lo] - t, p);
    a[lo] := Mod(a[lo] + t, p);
    for i := 1 to h
      invariant forall j :: lo <= j < lo + i || lo + h <= j < lo + h + i ==> a[j] == c[j - lo]
      invariant forall j :: 0 <= j < a.Length && !(lo <= j < lo + i || lo + h <= j < lo + h + i) ==> a[j] == old(a[j])
    {
      CombineAt(old(a[lo..lo + h]), old(a[lo + h..lo + 2 * h]), Pow(omega, chunk), i, p);
      TwiddleIndex(i, h, chunk);
      TwiddleAt(twiddles, omega, i, chunk, a[lo + h + i], p);
      var u := Mod(twiddles[i * chunk] * a[lo + h + i], p);
      a[lo + h + i] := Mod(a[lo + i] - u, p);
      a[lo + i] := Mod(a[lo + i] + u, p);
    }
    assert a[lo..lo + 2 * h] == c;
  }

  lemma TwiddleIndex(i: nat, h: nat, chunk: nat)
    requires i < h && chunk >= 1
    ensures i * chunk < h * chunk
  {
    var d := h - i;
    assert h * chunk == i * chunk + d * chunk;
    Positive(d, chunk);
  }

  lemma Positive(x: nat, y: nat)
    requires x >= 1 && y >= 1
    ensures x * y >= 1
  {
  }

  lemma FirstTwiddle(w: int, x: int, y: int, p: Modulus)
    ensures Mod(x + y, p) == Mod(x + Mod(Pow(w, 0) * y, p), p) && Mod(x - y, p) == Mod(x - Mod(Pow(w, 0) * y, p), p)
  {
    assert Pow(w, 0) * y == y;
    hide Mod;
    ModCong(y, p);
    CongAdd(x, x, Mod(y, p), y, p);
    CongSub(x, x, Mod(y, p), y, p);
  }

  // ---------- the recursive form ----------

  lemma ButterflyUnfold(b: seq<int>, k: nat, w: int, p: Modulus)
    requires k > 0 && |b| == Pow2(k)
    ensures var n := Pow2(k - 1);
      Butterfly(b, k, w, p) == Combine(Butterfly(b[..n], k - 1, w * w, p), Butterfly(b[n..], k - 1, w * w, p), w, p)
  {
    hide Mod, Combine;
  }

  lemma HalfCount(k: nat, chunk: nat)
    requires k >= 1
    ensures Pow2(k) == 2 * Pow2(k - 1)
    ensures k >= 2 ==> Pow2(k - 2) * (2 * chunk) == Pow2(k - 1) * chunk
  {
    if k >= 2 {
      assert Pow2(k - 1) == 2 * Pow2(k - 2);
      assert Pow2(k - 2) * (2 * chunk) == (2 * Pow2(k - 2)) * chunk;
    }
  }

  /** Both halves first, then the butterflies between them. */
  method RecursiveButterfly(a: array<int>, lo: nat, k: nat, chunk: nat, twiddles: seq<int>, ghost omega: int,
                            p: Modulus)
    requires k >= 1 && lo + Pow2(k) <= a.Length && chunk >= 1 && IsTwiddles(twiddles, omega, p) &&
             Pow2(k - 1) * chunk <= |twiddles|
    modifies a
    ensures a[lo..lo + Pow2(k)] == Butterfly(old(a[lo..lo + Pow2(k)]), k, Pow(omega, chunk), p)
    ensures forall j :: 0 <= j < a.Length && !(lo <= j < lo + Pow2(k)) ==> a[j] == old(a[j])
    decreases k
  {
    hide Mod, Pow, Combine, Butterfly, Pow2;
    var h := Pow2(k - 1);
    HalfCount(k, chunk);
    ghost var b, w := a[lo..lo + Pow2(k)], Pow(omega, chunk);
    assert b[..h] == a[lo..lo + h] && b[h..] == a[lo + h..lo + 2 * h];
    ButterflyUnfold(b, k, w, p);
    if k == 1 {
      SmallButterfly(b[..h], w * w, p);
      SmallButterfly(b[h..], w * w, p);
    } else {
      PowAdd(omega, chunk, chunk);
      assert chunk + chunk == 2 * chunk;
      RecursiveButterfly(a, lo, k - 1, 2 * chunk, twiddles, omega, p);
      assert a[lo + h..lo + 2 * h] == b[h..];
      ghost var l := a[lo..lo + h];
      RecursiveButterfly(a, lo + h, k - 1, 2 * chunk, twiddles, omega, p);
      assert a[lo..lo + h] == l;
    }
    Stage(a, lo, h, chunk, twiddles, omega, p);
  }

  lemma SmallButterfly(b: seq<int>, w: int, p: Modulus)
    requires |b| == Pow2(0)
    ensures Butterfly(b, 0, w, p) == b
  {
  }

  // ---------- the iterative form ----------

  lemma BlockBounds(q: nat, m: nat, h: nat)
    requires q < m
    ensures 0 <= q * h <= q * h + h == (q + 1) * h <= m * h
  {
    assert (m - q - 1) * h >= 0;
    assert m * h == (q + 1) * h + (m - q - 1) * h;
  }

  function Block(b: seq<int>, m: nat, h: nat, q: nat): (c: seq<int>)
    requires |b| == m * h && q < m
    ensures |c| == h
  {
    BlockBounds(q, m, h);
    b[q * h..q * h + h]
  }

  /** Block q of size 2h is blocks 2q and 2q + 1 of size h. */
  lemma BlockPair(b: seq<int>, m: nat, h: nat, q: nat)
    requires |b| == m * (2 * h) == (2 * m) * h && q < m
    ensures Block(b, m, 2 * h, q) == Block(b, 2 * m, h, 2 * q) + Block(b, 2 * m, h, 2 * q + 1)
  {
    BlockBounds(q, m, 2 * h);
    BlockBounds(2 * q, 2 * m, h);
    BlockBounds(2 * q + 1, 2 * m, h);
    assert q * (2 * h) == (2 * q) * h && (2 * q + 1) * h == (2 * q) * h + h;
  }

  /** All blocks of 2^s entries from block `from` on are transformed. */
  ghost predicate StageDone(a: seq<int>, b: seq<int>, m: nat, s: nat, from: nat, to: nat, w: int, p: Modulus) {
    |a| == |b| == m * Pow2(s) && to <= m &&
    forall q :: from <= q < to ==> Block(a, m, Pow2(s), q) == Butterfly(Block(b, m, Pow2(s), q), s, w, p)
  }

  /** One pass over all pairs of blocks. */
  method Pass(a: array<int>, ghost b: seq<int>, m: nat, s: nat, chunk: nat, twiddles: seq<int>, ghost omega: int,
              p: Modulus)
    requires chunk >= 1 && IsTwiddles(twiddles, omega, p) && Pow2(s) * chunk <= |twiddles|
    requires a.Length == m * (2 * Pow2(s)) == (2 * m) * Pow2(s)
    requires StageDone(a[..], b, 2 * m, s, 0, 2 * m, Pow(omega, chunk) * Pow(omega, chunk), p)
    modifies a
    ensures StageDone(a[..], b, m, s + 1, 0, m, Pow(omega, chunk), p)
  {
    hide Mod, Pow, Combine, Butterfly, Pow2;
    var h := Pow2(s);
    ghost var w := Pow(omega, chunk);
    Pow2Next(s);
    for q := 0 to m
      invariant StageDone(a[..], b, m, s + 1, 0, q, w, p)
      invariant StageDone(a[..], b, 2 * m, s, 2 * q, 2 * m, w * w, p)
    {
      BlockBounds(q, m, 2 * h);
      ghost var before := a[..];
      BlockPair(before, m, h, q);
      BlockPair(b, m, h, q);
      Stage(a, q * (2 * h), h, chunk, twiddles, omega, p);
      PassStep(before, a[..], b, m, s, q, w, p);
    }
  }

  lemma PassStep(a: seq<int>, a': seq<int>, b: seq<int>, m: nat, s: nat, q: nat, w: int, p: Modulus)
    requires |a| == |a'| == |b| == m * (2 * Pow2(s)) == (2 * m) * Pow2(s) && q < m && Pow2(s + 1) == 2 * Pow2(s)
    requires StageDone(a, b, m, s + 1, 0, q, w, p) && StageDone(a, b, 2 * m, s, 2 * q, 2 * m, w * w, p)
    requires var h := Pow2(s); var lo := q * (2 * h);
      0 <= lo && lo + 2 * h <= |a| && a'[lo..lo + 2 * h] == Combine(a[lo..lo + h], a[lo + h..lo + 2 * h], w, p) &&
      SameOutside(a, a', lo, lo + 2 * h)
    ensures StageDone(a', b, m, s + 1, 0, q + 1, w, p) && StageDone(a', b, 2 * m, s, 2 * (q + 1), 2 * m, w * w, p)
  {
    hide Mod, Pow, Combine, Butterfly, Pow2, Block, SameOutside, StageDone;
    NewBlock(a, a', b, m, s, q, w, p);
    EarlierBlocks(a, a', b, m, s, q, w, p);
    LaterBlocks(a, a', b, m, s, q, w * w, p);
  }

  lemma EarlierBlocks(a: seq<int>, a': seq<int>, b: seq<int>, m: nat, s: nat, q: nat, w: int, p: Modulus)
    requires |a| == |a'| == |b| == m * (2 * Pow2(s)) && q < m && Pow2(s + 1) == 2 * Pow2(s) &&
             StageDone(a, b, m, s + 1, 0, q, w, p)
    requires var lo := q * (2 * Pow2(s)); 0 <= lo && SameOutside(a, a', lo, lo + 2 * Pow2(s))
    requires Block(a', m, 2 * Pow2(s), q) == Butterfly(Block(b, m, 2 * Pow2(s), q), s + 1, w, p)
    ensures StageDone(a', b, m, s + 1, 0, q + 1, w, p)
  {
    hide Mod, Pow, Butterfly, Pow2, Block, SameOutside;
    var h, lo := Pow2(s), q * (2 * Pow2(s));
    forall r | 0 <= r < q ensures Block(a', m, 2 * h, r) == Block(a, m, 2 * h, r) {
      BlockBounds(r, q, 2 * h);
      SameBlock(a, a', m, 2 * h, r, lo, lo + 2 * h);
    }
  }

  lemma LaterBlocks(a: seq<int>, a': seq<int>, b: seq<int>, m: nat, s: nat, q: nat, w: int, p: Modulus)
    requires |a| == |a'| == |b| == (2 * m) * Pow2(s) && q < m && StageDone(a, b, 2 * m, s, 2 * q, 2 * m, w, p)
    requires var lo := q * (2 * Pow2(s)); 0 <= lo && SameOutside(a, a', lo, lo + 2 * Pow2(s))
    ensures StageDone(a', b, 2 * m, s, 2 * (q + 1), 2 * m, w, p)
  {
    hide Mod, Pow, Butterfly, Pow2, Block, SameOutside;
    var h, lo := Pow2(s), q * (2 * Pow2(s));
    forall r | 2 * (q + 1) <= r < 2 * m ensures Block(a', 2 * m, h, r) == Block(a, 2 * m, h, r) {
      LaterBlock(r, 2 * (q + 1), h);
      assert (2 * (q + 1)) * h == lo + 2 * h;
      SameBlock(a, a', 2 * m, h, r, lo, lo + 2 * h);
    }
  }

  ghost predicate SameOutside(a: seq<int>, a': seq<int>, lo: nat, hi: nat) {
    |a| == |a'| && forall j :: 0 <= j < |a| && !(lo <= j < hi) ==> a'[j] == a[j]
  }

  lemma SameBlock(a: seq<int>, a': seq<int>, m: nat, h: nat, r: nat, lo: nat, hi: nat)
    requires |a| == |a'| == m * h && r < m && SameOutside(a, a', lo, hi)
    requires 0 <= r * h && (r * h + h <= lo || hi <= r * h)
    ensures Block(a', m, h, r) == Block(a, m, h, r)
  {
    BlockBounds(r, m, h);
  }

  /** The block just combined is the butterfly of its block of the input. */
  lemma NewBlock(a: seq<int>, a': seq<int>, b: seq<int>, m: nat, s: nat, q: nat, w: int, p: Modulus)
    requires |a| == |a'| == |b| == m * (2 * Pow2(s)) == (2 * m) * Pow2(s) && q < m && Pow2(s + 1) == 2 * Pow2(s)
    requires StageDone(a, b, 2 * m, s, 2 * q, 2 * m, w * w, p)
    requires var h := Pow2(s); var lo := q * (2 * h);
      0 <= lo && lo + 2 * h <= |a| && a'[lo..lo + 2 * h] == Combine(a[lo..lo + h], a[lo + h..lo + 2 * h], w, p)
    ensures Block(a', m, 2 * Pow2(s), q) == Butterfly(Block(b, m, 2 * Pow2(s), q), s + 1, w, p)
  {
    hide Mod, Pow, Combine, Butterfly, Pow2, Block;
    var h := Pow2(s);
    BlocksAt(a, a', m, h, q);
    BlockPair(b, m, h, q);
    BlocksDone(a, b, m, s, q, w * w, p);
    ButterflyUnfold(Block(b, m, 2 * h, q), s + 1, w, p);
  }

  lemma BlocksAt(a: seq<int>, a': seq<int>, m: nat, h: nat, q: nat)
    requires |a| == |a'| == m * (2 * h) == (2 * m) * h && q < m
    ensures var lo := q * (2 * h);
      0 <= lo && lo + 2 * h <= |a| && Block(a', m, 2 * h, q) == a'[lo..lo + 2 * h] &&
      Block(a, 2 * m, h, 2 * q) == a[lo..lo + h] && Block(a, 2 * m, h, 2 * q + 1) == a[lo + h..lo + 2 * h]
  {
    BlockBounds(q, m, 2 * h);
    BlockBounds(2 * q, 2 * m, h);
    BlockBounds(2 * q + 1, 2 * m, h);
    assert q * (2 * h) == (2 * q) * h && (2 * q + 1) * h == (2 * q) * h + h;
  }

  lemma BlocksDone(a: seq<int>, b: seq<int>, m: nat, s: nat, q: nat, w: int, p: Modulus)
    requires q < m && StageDone(a, b, 2 * m, s, 2 * q, 2 * m, w, p)
    ensures Block(a, 2 * m, Pow2(s), 2 * q) == Butterfly(Block(b, 2 * m, Pow2(s), 2 * q), s, w, p)
    ensures Block(a, 2 * m, Pow2(s), 2 * q + 1) == Butterfly(Block(b, 2 * m, Pow2(s), 2 * q + 1), s, w, p)
  {
    hide Mod, Pow, Butterfly, Pow2, Block;
  }

  lemma LaterBlock(r: nat, r': nat, h: nat)
    requires r >= r'
    ensures r * h >= r' * h
  {
    assert r * h == r' * h + (r - r') * h;
  }

  /** log n passes over blocks of doubling size. */
  method IterativeButterfly(a: array<int>, k: nat, twiddles: seq<int>, ghost omega: int, p: Modulus)
    requires a.Length == Pow2(k) && IsTwiddles(twiddles, omega, p) && (k > 0 ==> |twiddles| == Pow2(k - 1))
    modifies a
    ensures a[..] == Butterfly(old(a[..]), k, Pow(omega, 1), p)
  {
    hide Mod, Pow, Combine, Butterfly, Pow2;
    ghost var b := a[..];
    FirstStage(b, k, Pow(omega, Pow2(k)), p);
    Pow2Zero();
    var chunk := a.Length;
    for s := 0 to k
      invariant a.Length == Pow2(k) && chunk == Pow2(k - s)
      invariant StageDone(a[..], b, Pow2(k - s), s, 0, Pow2(k - s), Pow(omega, chunk), p)
    {
      StageSizes(k, s);
      chunk := chunk / 2;
      PowAdd(omega, chunk, chunk);
      Pass(a, b, Pow2(k - s - 1), s, chunk, twiddles, omega, p);
    }
    LastStage(a[..], b, k, Pow(omega, 1), p);
  }

  lemma Pow2Zero()
    ensures Pow2(0) == 1
  {
  }

  lemma StageSizes(k: nat, s: nat)
    requires s < k
    ensures var m := Pow2(k - s - 1);
      Pow2(k - s) == 2 * m && Pow2(s) * m == Pow2(k - 1) && Pow2(k) == m * (2 * Pow2(s)) == (2 * m) * Pow2(s)
  {
    Pow2Add(s, k - s - 1);
    Pow2Add(k - s - 1, s + 1);
    Pow2Add(k - s, s);
  }

  lemma FirstStage(b: seq<int>, k: nat, w: int, p: Modulus)
    requires |b| == Pow2(k)
    ensures StageDone(b, b, Pow2(k), 0, 0, Pow2(k), w, p)
  {
    hide Mod;
    assert Pow2(k) * Pow2(0) == Pow2(k);
  }

  lemma LastStage(a: seq<int>, b: seq<int>, k: nat, w: int, p: Modulus)
    requires |a| == |b| == Pow2(k) && Pow2(0) == 1 && StageDone(a, b, 1, k, 0, 1, w, p)
    ensures a == Butterfly(b, k, w, p)
  {
    hide Mod, Butterfly, Pow2;
    assert Block(a, 1, Pow2(k), 0) == a && Block(b, 1, Pow2(k), 0) == b;
  }

  /** The whole transform: reorder, then butterflies in one form or the other by the number of threads. */
  method BestFft(a: array<int>, omega: int, k: nat, logThreads: nat, p: Modulus)
    requires a.Length == Pow2(k)
    modifies a
    ensures a[..] == Transform(old(a[..]), k, omega, p)
  {
    hide Mod, Pow, Butterfly, Reordered;
    FirstPower(omega);
    Reorder(a, k);
    var n := a.Length;
    var twiddles := Twiddles(omega, n / 2, p);
    if k > 0 {
      HalfCount(k, 1);
    }
    if k <= logThreads {
      IterativeButterfly(a, k, twiddles, omega, p);
    } else {
      assert a[0..0 + Pow2(k)] == a[..];
      RecursiveButterfly(a, 0, k, 1, twiddles, omega, p);
      assert a[0..0 + Pow2(k)] == a[..];
    }
  }

  lemma FirstPower(w: int)
    ensures Pow(w, 1) == w
  {
    assert Pow(w, 1) == Pow(w, 0) * w;
  }
}
