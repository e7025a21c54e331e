/**
 Booth recoding: the signed digit of one window of a scalar, read from its little-endian bytes
 through one 32-bit word, and the theorem that the digits of all windows make up the scalar.
 */
module Booth {
  import opened PowersOfTwo

  type Bytes = seq<bv8>

  const WORD := 0x1_0000_0000

  /** x shifted right by k bits. */
  function ShiftRight(x: nat, k: nat): nat
    decreases k
  {
    if k == 0 then x else ShiftRight(x / 2, k - 1)
  }

  /** x cut to its k lowest bits. */
  function LowBits(x: nat, k: nat): (r: nat)
    ensures r < Pow2(k)
    decreases k
  {
    if k == 0 then 0 else x % 2 + 2 * LowBits(x / 2, k - 1)
  }

  function ByteAt(el: Bytes, i: nat): (b: nat)
    ensures b < 256
  {
    if i < |el| then el[i] as nat else 0
  }

  function Drop(el: Bytes, n: nat): Bytes {
    if n <= |el| then el[n..] else []
  }

  /** The little-endian value of a byte string. */
  function Value(el: Bytes): (v: nat) {
    if |el| == 0 then 0 else (el[0] as nat) + 256 * Value(el[1..])
  }

  /** The first four bytes of el as a little-endian 32-bit word; missing bytes are zero. */
  function LoadWord(el: Bytes): (v: nat)
    ensures v < WORD
  {
    ByteAt(el, 0) + 0x100 * ByteAt(el, 1) + 0x1_0000 * ByteAt(el, 2) + 0x100_0000 * ByteAt(el, 3)
  }

  function SkipBits(w: nat, c: nat): (s: nat)
  {
    if w * c == 0 then 0 else w * c - 1
  }

  /** The c + 1 bits of window w: c bits of the scalar, with the bit below them. */
  function ReadWindow(w: nat, c: nat, el: Bytes): (r: nat)
    requires 1 <= c <= 30
    ensures r < Pow2(c + 1) && r < WORD
  {
    var skipBits := SkipBits(w, c);
    var skipBytes := skipBits / 8;
    var loaded := LoadWord(Drop(el, skipBytes));
    var padded := if w == 0 then (2 * loaded) % WORD else loaded;
    Pow2Monotone(c + 1, 31);
    SmallPowers();
    LowBits(ShiftRight(padded, skipBits - 8 * skipBytes), c + 1)
  }

  /** The digit of a window, in 32-bit arithmetic: negative when its top bit is set. */
  function WindowDigit(window: nat, c: nat): int
    requires window < WORD
  {
    var half := (window + 1) / 2;
    if ShiftRight(window, c) % 2 == 0 then half else 0 - LowBits(WORD - 1 - (half - 1), c)
  }

  /** The digit of window w when windows are c bits wide. */
  function BoothIndex(w: nat, c: nat, el: Bytes): int
    requires 1 <= c <= 30
  {
    WindowDigit(ReadWindow(w, c, el), c)
  }

  // ---------- shifts and masks ----------

  lemma SmallPowers()
    ensures Pow2(0) == 1 && Pow2(1) == 2 && Pow2(8) == 256 && Pow2(32) == 2 * Pow2(31) == WORD
  {
    assert Pow2(4) == 16;
    Pow2Add(4, 4);
    Pow2Add(8, 8);
    Pow2Add(16, 16);
  }

  /** x is its high part, moved up, plus its low part. */
  lemma {:induction false} Split(x: nat, k: nat)
    ensures x == ShiftRight(x, k) * Pow2(k) + LowBits(x, k)
    decreases k
  {
    if k == 0 {
    } else {
      Split(x / 2, k - 1);
      assert ShiftRight(x, k) * (2 * Pow2(k - 1)) == 2 * (ShiftRight(x, k) * Pow2(k - 1));
    }
  }

  /** The two parts are determined by that equation. */
  lemma SplitUnique(x: nat, k: nat, q: nat, r: nat)
    requires x == q * Pow2(k) + r && r < Pow2(k)
    ensures ShiftRight(x, k) == q && LowBits(x, k) == r
  {
    hide ShiftRight, LowBits;
    Split(x, k);
    var q', r', d := ShiftRight(x, k), LowBits(x, k), Pow2(k);
    SameQuotient(q, r, q', r', d);
  }

  lemma SameQuotient(q: int, r: int, q': int, r': int, d: int)
    requires q * d + r == q' * d + r' && 0 <= r < d && 0 <= r' < d
    ensures q == q' && r == r'
  {
    assert (q' - q) * d == q' * d - q * d && (q - q') * d == q * d - q' * d;
    if q' > q {
      Grows(q' - q, d);
    } else if q' < q {
      Grows(q - q', d);
    }
  }

  lemma Grows(k: int, d: int)
    requires k >= 1 && d > 0
    ensures k * d >= d
  {
  }

  lemma ShiftTwice(x: nat, a: nat, b: nat)
    ensures ShiftRight(ShiftRight(x, a), b) == ShiftRight(x, a + b)
  {
    hide ShiftRight, LowBits, Pow2;
    var q := ShiftRight(x, a);
    Split(x, a);
    Split(q, b);
    Pow2Add(a, b);
    Nested(x, Pow2(a), Pow2(b), q, LowBits(x, a), ShiftRight(q, b), LowBits(q, b));
    SplitUnique(x, a + b, ShiftRight(q, b), LowBits(q, b) * Pow2(a) + LowBits(x, a));
  }

  lemma Nested(x: nat, a: nat, b: nat, q: nat, r: nat, q': nat, r': nat)
    requires a > 0 && b > 0 && x == q * a + r && q == q' * b + r' && r < a && r' < b
    ensures x == q' * (a * b) + (r' * a + r) && 0 <= r' * a + r < a * b
  {
    assert (q' * b + r') * a == q' * (a * b) + r' * a;
    BelowProduct(r', r, a, b);
  }

  lemma BelowProduct(x: nat, r: nat, a: nat, b: nat)
    requires r < a && x < b
    ensures x * a + r < a * b
  {
    assert (x + 1) * a <= b * a;
  }

  /** The low bits of a shift do not depend on bits above them. */
  lemma ShiftLow(x: nat, n: nat, s: nat, d: nat)
    requires s + d <= n
    ensures LowBits(ShiftRight(LowBits(x, n), s), d) == LowBits(ShiftRight(x, s), d)
  {
    hide ShiftRight, LowBits, Pow2;
    var l, m := LowBits(x, n), n - s - d;
    var h := ShiftRight(x, n);
    Split(x, n);
    Split(l, s);
    Pow2Add(s, d + m);
    Pow2Add(d, m);
    var y := ShiftRight(l, s);
    Repack(x, Pow2(s), Pow2(d), Pow2(m), h, l, y, LowBits(l, s));
    SplitUnique(x, s, h * (Pow2(d) * Pow2(m)) + y, LowBits(l, s));
    LowOfSum(y, h * Pow2(m), d);
    assert h * (Pow2(d) * Pow2(m)) == (h * Pow2(m)) * Pow2(d);
  }

  lemma Repack(x: nat, s: nat, d: nat, m: nat, h: nat, l: nat, y: nat, r: nat)
    requires x == h * (s * (d * m)) + l && l == y * s + r
    ensures x == (h * (d * m) + y) * s + r
  {
    assert h * (s * (d * m)) == (h * (d * m)) * s;
  }

  lemma LowOfSum(x: nat, k: nat, d: nat)
    ensures LowBits(k * Pow2(d) + x, d) == LowBits(x, d)
  {
    hide ShiftRight, LowBits, Pow2;
    Split(x, d);
    var q := ShiftRight(x, d);
    assert (k + q) * Pow2(d) == k * Pow2(d) + q * Pow2(d);
    SplitUnique(k * Pow2(d) + x, d, k + q, LowBits(x, d));
  }

  lemma LowOfWord(x: nat)
    ensures x % WORD == LowBits(x, 32)
  {
    hide Pow2, LowBits, ShiftRight;
    SmallPowers();
    Split(x, 32);
  }

  lemma DoubleLow(k: nat)
    ensures (2 * (k % WORD)) % WORD == (2 * k) % WORD
  {
    var q, r := k / WORD, k % WORD;
    var h := 2 * r / WORD;
    assert 2 * k == (2 * q + h) * WORD + (2 * r) % WORD;
  }

  // ---------- the bytes of a scalar ----------

  lemma ValueStep(el: Bytes)
    ensures Value(el) == ByteAt(el, 0) + 256 * Value(Drop(el, 1))
  {
  }

  lemma DropDrop(el: Bytes, m: nat, n: nat)
    ensures Drop(Drop(el, m), n) == Drop(el, m + n)
  {
  }

  lemma ByteAtDrop(el: Bytes, n: nat)
    ensures ByteAt(Drop(el, n), 0) == ByteAt(el, n)
  {
  }

  lemma LoadWordIsLow(el: Bytes)
    ensures LoadWord(el) == LowBits(Value(el), 32)
  {
    hide Value, Drop, LowBits, ShiftRight, Pow2;
    ValueStep(el);
    ValueStep(Drop(el, 1));
    ValueStep(Drop(el, 2));
    ValueStep(Drop(el, 3));
    DropDrop(el, 1, 1);
    DropDrop(el, 2, 1);
    DropDrop(el, 3, 1);
    ByteAtDrop(el, 1);
    ByteAtDrop(el, 2);
    ByteAtDrop(el, 3);
    SmallPowers();
    SplitUnique(Value(el), 32, Value(Drop(el, 4)), LoadWord(el));
  }

  lemma {:induction false} ValueDrop(el: Bytes, n: nat)
    ensures Value(Drop(el, n)) == ShiftRight(Value(el), 8 * n)
  {
    hide Value, ShiftRight, LowBits, Pow2;
    SmallPowers();
    if n == 0 {
      assert Drop(el, 0) == el;
      SplitUnique(Value(el), 0, Value(el), 0);
    } else {
      ValueDrop(el, n - 1);
      DropDrop(el, n - 1, 1);
      ValueStep(Drop(el, n - 1));
      SplitUnique(Value(Drop(el, n - 1)), 8, Value(Drop(el, n)), ByteAt(Drop(el, n - 1), 0));
      ShiftTwice(Value(el), 8 * (n - 1), 8);
    }
  }

  /** c + 1 bits of 2k from position w * c. */
  function Window(k: nat, c: nat, w: nat): (r: nat) {
    LowBits(ShiftRight(2 * k, w * c), c + 1)
  }

  /** A 32-bit word holds every window of at most 24 bits and its overlap bit. */
  lemma ReadWindowIsWindow(w: nat, c: nat, el: Bytes)
    requires 1 <= c <= 24
    ensures ReadWindow(w, c, el) == Window(Value(el), c, w)
  {
    hide Value, Pow2, LoadWord, ShiftRight, LowBits;
    if w == 0 {
      ReadFirst(c, el);
    } else {
      Positive(w, c);
      var k, skip := Value(el), w * c - 1;
      var bytes := skip / 8;
      var s := skip - 8 * bytes;
      LoadWordIsLow(Drop(el, bytes));
      ValueDrop(el, bytes);
      ShiftLow(ShiftRight(k, 8 * bytes), 32, s, c + 1);
      ShiftTwice(k, 8 * bytes, s);
      HalvePower(k, skip);
    }
  }

  lemma Positive(w: nat, c: nat)
    requires w > 0 && c > 0
    ensures w * c > 0
  {
  }

  lemma HalvePower(k: nat, n: nat)
    ensures ShiftRight(2 * k, n + 1) == ShiftRight(k, n)
  {
    hide ShiftRight, LowBits, Pow2;
    SmallPowers();
    SplitUnique(2 * k, 1, k, 0);
    ShiftTwice(2 * k, 1, n);
  }

  lemma ReadFirst(c: nat, el: Bytes)
    requires 1 <= c <= 24
    ensures ReadWindow(0, c, el) == Window(Value(el), c, 0)
  {
    hide Value, LoadWord, ShiftRight, LowBits, Pow2;
    assert Drop(el, 0) == el && 0 * c == 0;
    LoadWordIsLow(el);
    LowOfWord(Value(el));
    DoubleLow(Value(el));
    LowOfWord(2 * Value(el));
    ShiftLow(2 * Value(el), 32, 0, c + 1);
  }

  // ---------- the digits make up the scalar ----------

  /** k divided by 2^(c w) and rounded to the nearest integer, halves upwards. */
  function Rounded(k: nat, c: nat, w: nat): nat {
    (ShiftRight(2 * k, w * c) + 1) / 2
  }

  /** The digit of a window of 2t values, without machine arithmetic. */
  function SignedDigit(window: nat, t: nat): int {
    (window + 1) / 2 - if window < t then 0 else t
  }

  lemma DigitIs(window: nat, c: nat)
    requires 1 <= c <= 30 && window < Pow2(c + 1) && window < WORD
    ensures WindowDigit(window, c) == SignedDigit(window, Pow2(c))
  {
    hide Pow2, ShiftRight, LowBits;
    var t := Pow2(c);
    Pow2Add(1, c);
    SmallPowers();
    if window < t {
      SplitUnique(window, c, 0, window);
    } else {
      SplitUnique(window, c, 1, window - t);
      Pow2Add(32 - c, c);
      var half, m := (window + 1) / 2, Pow2(32 - c);
      assert (m - 1) * t == m * t - t;
      SplitUnique(WORD - half, c, m - 1, t - half);
    }
  }

  /** One digit peels c bits off q, with the carry moved to the next window. */
  lemma Peel(q: nat, c: nat)
    ensures (q + 1) / 2 == SignedDigit(LowBits(q, c + 1), Pow2(c)) + Pow2(c) * ((ShiftRight(q, c) + 1) / 2)
  {
    hide Pow2, ShiftRight, LowBits;
    Pow2Add(1, c);
    SmallPowers();
    Split(q, c + 1);
    var t, a, b := Pow2(c), ShiftRight(q, c + 1), LowBits(q, c + 1);
    var top := if b < t then 0 else 1;
    SplitTop(q, t, a, b, top);
    SplitUnique(q, c, 2 * a + top, b - top * t);
    PeelSum(q, a, b, t, top, (ShiftRight(q, c) + 1) / 2);
  }

  lemma SplitTop(q: nat, t: nat, a: nat, b: nat, top: nat)
    requires q == a * (2 * t) + b && b < 2 * t && top == if b < t then 0 else 1
    ensures q == (2 * a + top) * t + (b - top * t) && 0 <= b - top * t < t
  {
    assert a * (2 * t) == 2 * (t * a);
    assert top * t == if b < t then 0 else t;
    assert (2 * a + top) * t == 2 * (t * a) + top * t;
  }

  lemma PeelSum(q: nat, a: nat, b: nat, t: nat, top: nat, h: nat)
    requires q == a * (2 * t) + b && b < 2 * t && top == (if b < t then 0 else 1) && h == a + top
    ensures (q + 1) / 2 == SignedDigit(b, t) + t * h
  {
    assert a * (2 * t) == 2 * (t * a);
    assert t * (a + top) == t * a + top * t;
    assert top * t == if b < t then 0 else t;
  }

  /** The remaining scalar after windows 0 to w - 1 is one digit and 2^c times the rest. */
  lemma RoundedStep(k: nat, c: nat, w: nat)
    requires 1 <= c <= 30 && Window(k, c, w) < WORD
    ensures Rounded(k, c, w) == WindowDigit(Window(k, c, w), c) + Pow2(c) * Rounded(k, c, w + 1)
  {
    hide WindowDigit, Pow2, SignedDigit, ShiftRight, LowBits;
    DigitIs(Window(k, c, w), c);
    ShiftTwice(2 * k, w * c, c);
    assert (w + 1) * c == w * c + c;
    Peel(ShiftRight(2 * k, w * c), c);
  }

  lemma RoundedFirst(k: nat, c: nat)
    ensures Rounded(k, c, 0) == k
  {
    hide ShiftRight, LowBits, Pow2;
    assert 0 * c == 0;
    SmallPowers();
    SplitUnique(2 * k, 0, 2 * k, 0);
  }

  /** Nothing is left once the windows cover the scalar and one more bit. */
  lemma RoundedLast(k: nat, c: nat, w: nat)
    requires w * c >= 1 && k < Pow2(w * c - 1)
    ensures Rounded(k, c, w) == 0
  {
    hide ShiftRight, LowBits, Pow2;
    Pow2Add(1, w * c - 1);
    SmallPowers();
    SplitUnique(2 * k, w * c, 0, 2 * k);
  }

  /** The sum of digit(w) * 2^(c w) over the first n windows. */
  function Recoded(el: Bytes, c: nat, n: nat): int
    requires 1 <= c <= 30
  {
    if n == 0 then 0 else Recoded(el, c, n - 1) + BoothIndex(n - 1, c, el) * Pow2((n - 1) * c)
  }

  lemma {:induction false} RecodedPrefix(el: Bytes, c: nat, n: nat)
    requires 1 <= c <= 24
    ensures Value(el) == Recoded(el, c, n) + Pow2(n * c) * Rounded(Value(el), c, n)
  {
    hide WindowDigit, Pow2, Rounded, Value, Window, ReadWindow;
    if n == 0 {
      RoundedFirst(Value(el), c);
      assert 0 * c == 0;
      SmallPowers();
    } else {
      var w := n - 1;
      RecodedPrefix(el, c, w);
      ReadWindowIsWindow(w, c, el);
      RoundedStep(Value(el), c, w);
      Pow2Add(w * c, c);
      assert (w + 1) * c == w * c + c;
      PrefixSum(Pow2(w * c), Pow2(c), BoothIndex(w, c, el), Rounded(Value(el), c, w), Rounded(Value(el), c, n));
    }
  }

  lemma PrefixSum(a: int, b: int, d: int, r: int, r': int)
    requires r == d + b * r'
    ensures a * r == d * a + (a * b) * r'
  {
  }

  /**
   Booth recoding is exact: when the n windows cover the scalar and one more bit, the digits, each
   at most 2^(c-1) in absolute value, make up the scalar.
   */
  lemma BoothExact(el: Bytes, c: nat, n: nat)
    requires 1 <= c <= 24 && n * c >= 1 && Value(el) < Pow2(n * c - 1)
    ensures Recoded(el, c, n) == Value(el)
    ensures forall w: nat :: 0 - Pow2(c - 1) <= BoothIndex(w, c, el) <= Pow2(c - 1)
  {
    hide Value, Pow2, ReadWindow, Recoded, Rounded, BoothIndex;
    RecodedPrefix(el, c, n);
    RoundedLast(Value(el), c, n);
    assert Pow2(n * c) * 0 == 0;
    forall w: nat ensures 0 - Pow2(c - 1) <= BoothIndex(w, c, el) <= Pow2(c - 1) {
      DigitRange(w, c, el);
    }
  }

  lemma DigitRange(w: nat, c: nat, el: Bytes)
    requires 1 <= c <= 30
    ensures 0 - Pow2(c - 1) <= BoothIndex(w, c, el) <= Pow2(c - 1)
  {
    hide Pow2, WindowDigit, ReadWindow;
    DigitIs(ReadWindow(w, c, el), c);
    Pow2Add(1, c - 1);
    Pow2Add(1, c);
    SmallPowers();
  }

  // ---------- the same sum, from the most significant window down ----------

  /** What windows w to n - 1 add up to, in units of window w. */
  function RecodedFrom(el: Bytes, c: nat, w: nat, n: nat): int
    requires 1 <= c <= 30
    decreases n - w
  {
    if w >= n then 0 else BoothIndex(w, c, el) + Pow2(c) * RecodedFrom(el, c, w + 1, n)
  }

  lemma {:induction false} HornerSplit(el: Bytes, c: nat, w: nat, n: nat)
    requires 1 <= c <= 30 && w <= n
    ensures Recoded(el, c, n) == Recoded(el, c, w) + Pow2(w * c) * RecodedFrom(el, c, w, n)
    decreases n - w
  {
    hide Pow2, BoothIndex;
    if w == n {
    } else {
      HornerSplit(el, c, w + 1, n);
      RecodedUnfold(el, c, w + 1);
      Pow2Add(w * c, c);
      assert (w + 1) * c == w * c + c;
      PrefixSum(Pow2(w * c), Pow2(c), BoothIndex(w, c, el), RecodedFrom(el, c, w, n), RecodedFrom(el, c, w + 1, n));
    }
  }

  lemma HornerIsRecoded(el: Bytes, c: nat, n: nat)
    requires 1 <= c <= 30
    ensures RecodedFrom(el, c, 0, n) == Recoded(el, c, n)
  {
    hide BoothIndex, RecodedFrom;
    HornerSplit(el, c, 0, n);
    assert 0 * c == 0 && Recoded(el, c, 0) == 0;
    SmallPowers();
  }

  lemma RecodedUnfold(el: Bytes, c: nat, n: nat)
    requires 1 <= c <= 30 && n > 0
    ensures Recoded(el, c, n) == Recoded(el, c, n - 1) + BoothIndex(n - 1, c, el) * Pow2((n - 1) * c)
  {
    hide Pow2, BoothIndex;
  }

  // ---------- the widest exact window ----------

  /** Recoding at width c is right for every scalar of at most 32 bytes and every covering window count. */
  ghost predicate ExactAtWidth(c: nat)
    requires 1 <= c <= 30
  {
    forall el: Bytes, n: nat {:trigger Recoded(el, c, n)} ::
      |el| <= 32 && n * c >= 1 && Value(el) < Pow2(n * c - 1) ==> Recoded(el, c, n) == Value(el)
  }

  /**
   A word of four bytes is wide enough exactly up to 24 bits: at every larger width some window
   starts so late in its word that it loses its top bit.
   */
  lemma ExactWidths(c: nat)
    requires 1 <= c <= 30
    ensures ExactAtWidth(c) <==> c <= 24
  {
    hide Value, Pow2, Recoded, BoothIndex;
    if c <= 24 {
      forall el: Bytes, n: nat | |el| <= 32 && n * c >= 1 && Value(el) < Pow2(n * c - 1)
        ensures Recoded(el, c, n) == Value(el)
      {
        BoothExact(el, c, n);
      }
    } else {
      var el := WideScalar(c, 32);
      WideRecoded(c, 32, CarryWindow(c) + 1);
    }
  }

  /** The window whose carry is lost. */
  function CarryWindow(c: nat): nat {
    if c == 25 then 9 else if c == 26 then 5 else if c <= 28 then 3 else 2
  }

  /** The byte and the bit that hold the top of the window below. */
  function CarryByte(c: nat): nat {
    if c == 25 then 28 else if c == 26 then 16 else if c <= 28 then 10 else 7
  }

  function CarryBit(c: nat): nat {
    if c == 26 || c == 29 then 1 else if c == 28 || c == 30 then 3 else 0
  }

  /** The power of two just below the carry window's unit. */
  function WideScalar(c: nat, size: nat): (el: Bytes)
    requires 25 <= c <= 30 && size >= 29
    ensures |el| == size
  {
    seq(CarryByte(c), _ => 0) + [if CarryBit(c) == 0 then 1 else if CarryBit(c) == 1 then 2 else 8] +
    seq(size - CarryByte(c) - 1, _ => 0)
  }

  /** Only byte m is set, and it is 2^s. */
  ghost predicate OneBit(el: Bytes, m: nat, s: nat) {
    m < |el| && s < 8 && el[m] as nat == Pow2(s) && forall i :: 0 <= i < |el| && i != m ==> el[i] == 0
  }

  lemma WideIsOneBit(c: nat, size: nat)
    requires 25 <= c <= 30 && size >= 29
    ensures OneBit(WideScalar(c, size), CarryByte(c), CarryBit(c))
    ensures CarryWindow(c) * c == 8 * CarryByte(c) + CarryBit(c) + 1 && CarryBit(c) + 25 <= c
  {
    assert Pow2(0) == 1 && Pow2(1) == 2 && Pow2(3) == 8;
  }

  /** All bytes from n on are zero. */
  predicate Used(n: nat, el: Bytes) {
    forall j :: n <= j < |el| ==> el[j] == 0
  }

  lemma {:induction false} AllZeroValue(el: Bytes)
    requires Used(0, el)
    ensures Value(el) == 0
  {
    if |el| == 0 {
    } else {
      assert el[0] == 0;
      AllZeroValue(el[1..]);
    }
  }

  lemma {:induction false} LeadingZeros(el: Bytes, n: nat)
    requires n <= |el| && forall i :: 0 <= i < n ==> el[i] == 0
    ensures Value(el) == Pow2(8 * n) * Value(Drop(el, n))
  {
    hide Value, Pow2;
    SmallPowers();
    if n == 0 {
      assert Drop(el, 0) == el;
    } else {
      LeadingZeros(el, n - 1);
      ValueStep(Drop(el, n - 1));
      DropDrop(el, n - 1, 1);
      ByteAtDrop(el, n - 1);
      Pow2Add(8 * (n - 1), 8);
      PrefixSum(Pow2(8 * (n - 1)), 256, 0, Value(Drop(el, n - 1)), Value(Drop(el, n)));
    }
  }

  lemma OneBitValue(el: Bytes, m: nat, s: nat)
    requires OneBit(el, m, s)
    ensures Value(el) == Pow2(8 * m + s)
  {
    hide Value, Pow2;
    LeadingZeros(el, m);
    ValueStep(Drop(el, m));
    DropDrop(el, m, 1);
    ByteAtDrop(el, m);
    AllZeroValue(Drop(el, m + 1));
    Pow2Add(8 * m, s);
  }

  /** The digit of a window whose four bytes are zero. */
  lemma ZeroDigit(el: Bytes, c: nat, w: nat)
    requires 1 <= c <= 30 && forall i :: SkipBits(w, c) / 8 <= i < SkipBits(w, c) / 8 + 4 && i < |el| ==> el[i] == 0
    ensures BoothIndex(w, c, el) == 0
  {
    hide Pow2, LowBits, ShiftRight, WindowDigit;
    var skip := SkipBits(w, c);
    assert LoadWord(Drop(el, skip / 8)) == 0;
    SplitUnique(0, skip - 8 * (skip / 8), 0, 0);
    SplitUnique(0, c + 1, 0, 0);
    DigitIs(0, c);
  }

  /** The digits of a power of two that lies just below window w's unit. */
  lemma OneBitDigit(el: Bytes, c: nat, m: nat, s: nat, w: nat, v: nat)
    requires 25 <= c <= 30 && w >= 2 && OneBit(el, m, s) && w * c == 8 * m + s + 1 && s + 25 <= c
    ensures BoothIndex(v, c, el) == if v == w then 1 else 0
  {
    hide Pow2, BoothIndex;
    if v == w {
      CarryDigit(el, c, m, s, w);
    } else {
      if v < w {
        Below(v, w, c);
        Below(0, w, c);
        assert v == 0 || SkipBits(v, c) == v * c - 1;
      } else {
        Below(w, v, c);
        assert SkipBits(v, c) == v * c - 1;
      }
      ZeroDigit(el, c, v);
    }
  }

  lemma Below(v: nat, w: nat, c: nat)
    requires v < w
    ensures v * c + c <= w * c
  {
    assert (v + 1) * c <= w * c;
  }

  lemma CarryDigit(el: Bytes, c: nat, m: nat, s: nat, w: nat)
    requires 25 <= c <= 30 && w > 0 && OneBit(el, m, s) && w * c == 8 * m + s + 1
    ensures BoothIndex(w, c, el) == 1
  {
    hide Pow2, LowBits, ShiftRight, WindowDigit;
    assert SkipBits(w, c) == 8 * m + s && (8 * m + s) / 8 == m;
    assert LoadWord(Drop(el, m)) == Pow2(s);
    SmallPowers();
    Pow2Monotone(1, c);
    Pow2Monotone(1, c + 1);
    SplitUnique(Pow2(s), s, 1, 0);
    SplitUnique(1, c + 1, 0, 1);
    assert ReadWindow(w, c, el) == 1;
    DigitIs(1, c);
  }

  lemma {:induction false} OneDigit(el: Bytes, c: nat, w: nat, n: nat)
    requires 1 <= c <= 30
    requires forall v: nat {:trigger BoothIndex(v, c, el)} :: BoothIndex(v, c, el) == if v == w then 1 else 0
    ensures Recoded(el, c, n) == if n <= w then 0 else Pow2(w * c)
  {
    hide Pow2, BoothIndex;
    if n == 0 {
    } else {
      OneDigit(el, c, w, n - 1);
      assert BoothIndex(n - 1, c, el) == if n - 1 == w then 1 else 0;
      assert 0 * Pow2((n - 1) * c) == 0;
    }
  }

  /** For every covering window count, the power of two is recoded as the next one. */
  lemma WideRecoded(c: nat, size: nat, n: nat)
    requires 25 <= c <= 30 && size >= 29 && n > CarryWindow(c)
    ensures Value(WideScalar(c, size)) == Pow2(CarryWindow(c) * c - 1) < Pow2(n * c - 1)
    ensures Recoded(WideScalar(c, size), c, n) == 2 * Value(WideScalar(c, size))
  {
    hide Value, Pow2, BoothIndex, Recoded, OneBit, WideScalar;
    var el, m, s, w := WideScalar(c, size), CarryByte(c), CarryBit(c), CarryWindow(c);
    WideIsOneBit(c, size);
    OneBitValue(el, m, s);
    forall v: nat ensures BoothIndex(v, c, el) == if v == w then 1 else 0 {
      OneBitDigit(el, c, m, s, w, v);
    }
    OneDigit(el, c, w, n);
    Below(w, n, c);
    Pow2Next(w * c - 1);
    Pow2Monotone(w * c, n * c - 1);
  }
}
