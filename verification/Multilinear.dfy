/** Multilinear polynomials as tables over the Boolean cube, most significant variable first. */
module Multilinear {
  import opened PowersOfTwo
  import opened PrimeField
  import opened Vectors
  import opened Tensor

  function Complement(rs: seq<int>): (ws: seq<int>)
    ensures |ws| == |rs|
  {
    seq(|rs|, i requires 0 <= i < |rs| => 1 - rs[i])
  }

  /** Entry i is the product of r_j or 1 - r_j as the bits of i are 1 or 0. */
  function EqTable(rs: seq<int>, p: Modulus): (t: seq<int>)
    ensures |t| == Pow2(|rs|)
  {
    Spread(rs, Complement(rs), p)
  }

  /** The point at r on the line through x at 0 and y at 1. */
  function Line(x: int, y: int, r: int): int {
    x + r * (y - x)
  }

  function Mix(x: int, y: int, r: int, p: Modulus): (m: int)
    ensures Canonical(m, p)
  {
    Mod(Line(x, y, r), p)
  }

  /** The table with its top variable set to r. */
  function Bind(T: seq<int>, r: int, p: Modulus): (t: seq<int>)
    requires |T| % 2 == 0
    ensures |t| == |T| / 2 && CanonicalV(t, p)
  {
    Fold(T, 1 - r, r, p)
  }

  /** The table with its bottom variable set to r. */
  function BindBot(T: seq<int>, r: int, p: Modulus): (t: seq<int>)
    requires |T| % 2 == 0
    ensures |t| == |T| / 2 && CanonicalV(t, p)
  {
    seq(|T| / 2, i requires 0 <= i < |T| / 2 => Mix(T[2 * i], T[2 * i + 1], r, p))
  }

  /** The multilinear extension of T: all variables bound, top first. */
  function Mle(T: seq<int>, rs: seq<int>, p: Modulus): (v: int)
    requires |T| == Pow2(|rs|)
    decreases |rs|
  {
    if |rs| == 0 then T[0] else Mle(Bind(T, rs[0], p), rs[1..], p)
  }

  lemma ComplementCons(rs: seq<int>)
    requires |rs| > 0
    ensures Complement(rs)[0] == 1 - rs[0] && Complement(rs)[1..] == Complement(rs[1..])
  {
  }

  lemma EqTableCons(rs: seq<int>, p: Modulus)
    requires |rs| > 0
    ensures EqTable(rs, p)
         == ModV(Scale(1 - rs[0], EqTable(rs[1..], p)), p) + ModV(Scale(rs[0], EqTable(rs[1..], p)), p)
  {
    hide Mod;
    ComplementCons(rs);
  }

  lemma EqTableEmpty(p: Modulus)
    ensures EqTable([], p) == [1]
  {
  }

  /** Binding every variable in order is the inner product with the product table. */
  lemma {:induction false} MleIsDot(T: seq<int>, rs: seq<int>, p: Modulus)
    requires |T| == Pow2(|rs|)
    ensures Cong(Mle(T, rs, p), Dot(EqTable(rs, p), T), p)
    decreases |rs|
  {
    hide Mod, Dot, Fold, EqTable;
    if |rs| == 0 {
      EqTableEmpty(p);
      assert T == [T[0]];
      DotSingle(1, T[0]);
    } else {
      MleIsDot(Bind(T, rs[0], p), rs[1..], p);
      EqTableCons(rs, p);
      SpreadStep(EqTable(rs[1..], p), T, rs[0], 1 - rs[0], p);
    }
  }

  /** One variable more at the bottom splits every entry in two. */
  lemma EqTableSnoc(rs: seq<int>, r: int, k: nat, t: int, p: Modulus)
    requires k < 2 * Pow2(|rs|) && t == (if k % 2 == 1 then r else 1 - r) * EqTable(rs, p)[k / 2]
    ensures Cong(EqTable(rs + [r], p)[k], t, p)
  {
    hide Mod, EqTable, BitProduct, Complement;
    var f := if k % 2 == 1 then r else 1 - r;
    EqTableAt(rs + [r], k, p);
    EqTableAt(rs, k / 2, p);
    ComplementSnoc(rs, r);
    var x, y := BitProduct(rs + [r], Complement(rs + [r]), k), BitProduct(rs, Complement(rs), k / 2);
    BitProductSnoc(rs, Complement(rs), r, 1 - r, k);
    CongProd(x, t, f, f, y, EqTable(rs, p)[k / 2], p);
  }

  lemma ComplementSnoc(rs: seq<int>, r: int)
    ensures Complement(rs + [r]) == Complement(rs) + [1 - r]
  {
  }

  /** Entry i is the product over the bits of i of r_j or 1 - r_j. */
  lemma EqTableAt(rs: seq<int>, i: nat, p: Modulus)
    requires i < Pow2(|rs|)
    ensures Cong(EqTable(rs, p)[i], BitProduct(rs, Complement(rs), i), p)
  {
    hide Mod, Spread, BitProduct;
    SpreadBits(rs, Complement(rs), i, p);
  }

  lemma BitProductSnoc(us: seq<int>, ws: seq<int>, u: int, w: int, k: nat)
    requires |us| == |ws|
    ensures BitProduct(us + [u], ws + [w], k) == (if k % 2 == 1 then u else w) * BitProduct(us, ws, k / 2)
  {
    assert (us + [u])[..|us|] == us && (ws + [w])[..|ws|] == ws;
  }

  lemma EqTableCanonical(rs: seq<int>, p: Modulus)
    ensures CanonicalV(EqTable(rs, p), p)
  {
  }

  // ---------- the in-place table ----------

  /** The doubling loop: each round copies every entry twice, from the top down. */
  method Evals(rs: seq<int>, p: Modulus) returns (evals: array<int>)
    ensures fresh(evals) && evals[..] == EqTable(rs, p)
  {
    hide Mod, EqTable;
    evals := new int[Pow2(|rs|)](_ => 1);
    var size := 1;
    EqTableEmpty(p);
    assert evals[..1] == [1] && rs[..0] == [];
    for j := 0 to |rs|
      invariant size == Pow2(j) <= evals.Length
      invariant evals[..size] == EqTable(rs[..j], p)
    {
      Pow2Monotone(j + 1, |rs|);
      assert rs[..j + 1] == rs[..j] + [rs[j]];
      DoubleTable(evals, size, rs[..j], rs[j], p);
      size := 2 * size;
    }
    assert rs[..|rs|] == rs;
  }

  method DoubleTable(evals: array<int>, half: nat, rs: seq<int>, r: int, p: Modulus)
    requires half == Pow2(|rs|) && 2 * half <= evals.Length && evals[..half] == EqTable(rs, p)
    modifies evals
    ensures evals[..2 * half] == EqTable(rs + [r], p)
  {
    hide Mod, EqTable, Pow2;
    ghost var t, t' := EqTable(rs, p), EqTable(rs + [r], p);
    assert |t'| == 2 * half by { Pow2Next(|rs|); }
    var i := half;
    while i > 0
      invariant 0 <= i <= half
      invariant forall k :: 0 <= k < i ==> evals[k] == t[k]
      invariant forall k :: 2 * i <= k < 2 * half ==> evals[k] == t'[k]
    {
      i := i - 1;
      var scalar := evals[i];
      evals[2 * i + 1] := Mod(scalar * r, p);
      evals[2 * i] := Mod(scalar - evals[2 * i + 1], p);
      SnocPair(rs, r, i, p);
    }
  }

  /** The loop's two products are the next table's two entries. */
  lemma SnocPair(rs: seq<int>, r: int, i: nat, p: Modulus)
    requires i < Pow2(|rs|)
    ensures var s := EqTable(rs, p)[i];
      EqTable(rs + [r], p)[2 * i + 1] == Mod(s * r, p) && EqTable(rs + [r], p)[2 * i] == Mod(s - Mod(s * r, p), p)
  {
    hide Mod, EqTable;
    var s := EqTable(rs, p)[i];
    var x := s * r;
    SplitEntry(s, r);
    EqTableSnoc(rs, r, 2 * i, s - x, p);
    EqTableSnoc(rs, r, 2 * i + 1, x, p);
    EqTableCanonical(rs + [r], p);
    ModCong(x, p);
    CongSub(s, s, Mod(x, p), x, p);
    ModCong(s - Mod(x, p), p);
    CongCanonicalEqual(EqTable(rs + [r], p)[2 * i + 1], Mod(x, p), p);
    CongCanonicalEqual(EqTable(rs + [r], p)[2 * i], Mod(s - Mod(x, p), p), p);
  }

  lemma SplitEntry(s: int, r: int)
    ensures (1 - r) * s == s - s * r && r * s == s * r
  {
  }

  // ---------- dense polynomials ----------

  lemma BindAt(t: seq<int>, n: nat, r: int, i: nat, p: Modulus)
    requires |t| == 2 * n && i < n
    ensures Bind(t, r, p)[i] == Mix(t[i], t[n + i], r, p)
  {
    hide Mod;
    BindEntry(t[i], t[n + i], r);
  }

  lemma BindBotAt(t: seq<int>, n: nat, r: int, i: nat, p: Modulus)
    requires |t| == 2 * n && i < n
    ensures BindBot(t, r, p)[i] == Mix(t[2 * i], t[2 * i + 1], r, p)
  {
  }

  lemma BindEntry(x: int, y: int, r: int)
    ensures Line(x, y, r) == (1 - r) * x + r * y
  {
  }

  method BindTopInPlace(z: array<int>, n: nat, r: int, p: Modulus)
    requires 2 * n <= z.Length
    modifies z
    ensures z[..n] == Bind(old(z[..2 * n]), r, p)
  {
    hide Mix, Bind;
    ghost var t := z[..2 * n];
    for i := 0 to n
      invariant forall k :: 0 <= k < i ==> z[k] == Bind(t, r, p)[k]
      invariant forall k :: i <= k < 2 * n ==> z[k] == t[k]
    {
      BindAt(t, n, r, i, p);
      z[i] := Mix(z[i], z[i + n], r, p);
    }
  }

  method BindBotInPlace(z: array<int>, n: nat, r: int, p: Modulus)
    requires 2 * n <= z.Length
    modifies z
    ensures z[..n] == BindBot(old(z[..2 * n]), r, p)
  {
    hide Mix, BindBot;
    ghost var t := z[..2 * n];
    for i := 0 to n
      invariant forall k :: 0 <= k < i ==> z[k] == BindBot(t, r, p)[k]
      invariant forall k :: i <= k < 2 * n ==> z[k] == t[k]
    {
      BindBotAt(t, n, r, i, p);
      z[i] := Mix(z[2 * i], z[2 * i + 1], r, p);
    }
  }

  /** Evaluations over the Boolean cube; binding a variable halves `len` and leaves the buffer. */
  class DensePolynomial {
    var numVars: nat
    var len: nat
    const z: array<int>

    ghost predicate Valid()
      reads this
    {
      len == Pow2(numVars) <= z.Length
    }

    ghost function Table(): (t: seq<int>)
      requires Valid()
      reads this, z
      ensures |t| == len
    {
      z[..len]
    }

    constructor (values: seq<int>, numVars: nat)
      requires |values| == Pow2(numVars)
      ensures Valid() && fresh(z) && Table() == values && this.numVars == numVars && z.Length == len
    {
      this.numVars := numVars;
      this.len := |values|;
      this.z := new int[|values|](i requires 0 <= i < |values| => values[i]);
    }

    method BoundPolyVarTop(r: int, p: Modulus)
      requires Valid() && numVars > 0
      modifies this, z
      ensures Valid() && numVars == old(numVars) - 1
      ensures Table() == Bind(old(Table()), r, p)
    {
      hide Mod, Bind;
      BindTopInPlace(z, len / 2, r, p);
      numVars := numVars - 1;
      len := len / 2;
    }

    method BoundPolyVarBot(r: int, p: Modulus)
      requires Valid() && numVars > 0
      modifies this, z
      ensures Valid() && numVars == old(numVars) - 1
      ensures Table() == BindBot(old(Table()), r, p)
    {
      hide Mod, BindBot;
      BindBotInPlace(z, len / 2, r, p);
      numVars := numVars - 1;
      len := len / 2;
    }

    /** Z(r), for a polynomial no variable of which is bound. */
    method Evaluate(rs: seq<int>, p: Modulus) returns (v: int)
      requires Valid() && |rs| == numVars && z.Length == len
      ensures v == Mod(Mle(Table(), rs, p), p)
    {
      hide Mod, Dot, EqTable, Mle;
      var chis := Evals(rs, p);
      v := InnerProduct(chis[..], z[..], p);
      assert z[..] == Table();
      MleIsDot(Table(), rs, p);
    }
  }

  // ---------- the equality polynomial ----------

  /** The product of r_i x_i + (1 - r_i)(1 - x_i). */
  function EqEval(rs: seq<int>, xs: seq<int>, p: Modulus): int
    requires |rs| == |xs|
  {
    if |rs| == 0 then 1 else
    Mod((rs[0] * xs[0] + (1 - rs[0]) * (1 - xs[0])) * EqEval(rs[1..], xs[1..], p), p)
  }

  /** The inner product of two product tables is the equality polynomial. */
  lemma {:induction false} EqTablesDot(rs: seq<int>, xs: seq<int>, p: Modulus)
    requires |rs| == |xs|
    ensures Cong(Dot(EqTable(rs, p), EqTable(xs, p)), EqEval(rs, xs, p), p)
  {
    hide Mod, Dot, EqTable, EqEval;
    if |rs| == 0 {
      EqTableEmpty(p);
      DotSingle(1, 1);
      EqEvalEmpty(p);
    } else {
      EqTablesDot(rs[1..], xs[1..], p);
      EqTableCons(rs, p);
      EqTableCons(xs, p);
      var t, u := EqTable(rs[1..], p), EqTable(xs[1..], p);
      var e := EqEval(rs[1..], xs[1..], p);
      HalvesDot(1 - rs[0], rs[0], t, 1 - xs[0], xs[0], u, e, p);
      EqEvalCons(rs, xs, p);
    }
  }

  lemma EqEvalEmpty(p: Modulus)
    ensures EqEval([], [], p) == 1
  {
  }

  lemma EqEvalCons(rs: seq<int>, xs: seq<int>, p: Modulus)
    requires |rs| == |xs| > 0
    ensures Cong(EqEval(rs, xs, p), ((1 - rs[0]) * (1 - xs[0]) + rs[0] * xs[0]) * EqEval(rs[1..], xs[1..], p), p)
  {
    hide Mod;
    var f := rs[0] * xs[0] + (1 - rs[0]) * (1 - xs[0]);
    ModCong(f * EqEval(rs[1..], xs[1..], p), p);
  }

  lemma HalvesDot(w: int, u: int, t: seq<int>, w': int, u': int, t': seq<int>, e: int, p: Modulus)
    requires |t| == |t'| && Cong(Dot(t, t'), e, p)
    ensures Cong(Dot(ModV(Scale(w, t), p) + ModV(Scale(u, t), p), ModV(Scale(w', t'), p) + ModV(Scale(u', t'), p)),
                 (w * w' + u * u') * e, p)
  {
    hide Mod, Dot, Scale, ModV;
    var d := Dot(t, t');
    DotConcat(ModV(Scale(w, t), p), ModV(Scale(w', t'), p), ModV(Scale(u, t), p), ModV(Scale(u', t'), p));
    ScaledDot(w, t, w', t', p);
    ScaledDot(u, t, u', t', p);
    CongScale(w * w', d, e, p);
    CongScale(u * u', d, e, p);
    CongSum(Dot(ModV(Scale(w, t), p) + ModV(Scale(u, t), p), ModV(Scale(w', t'), p) + ModV(Scale(u', t'), p)),
            (w * w' + u * u') * e,
            Dot(ModV(Scale(w, t), p), ModV(Scale(w', t'), p)), (w * w') * e,
            Dot(ModV(Scale(u, t), p), ModV(Scale(u', t'), p)), (u * u') * e, p);
  }

  lemma ScaledDot(w: int, t: seq<int>, w': int, t': seq<int>, p: Modulus)
    requires |t| == |t'|
    ensures Cong(Dot(ModV(Scale(w, t), p), ModV(Scale(w', t'), p)), (w * w') * Dot(t, t'), p)
  {
    hide Mod, Dot, Scale, ModV;
    DotModV(Scale(w, t), Scale(w', t'), p);
    DotScale(w, t, Scale(w', t'));
    DotScale(w', t', t);
    assert w * (w' * Dot(t, t')) == (w * w') * Dot(t, t');
  }

  // ---------- bottom variable, and factored tables ----------

  /** Binding the top and the bottom variable commute. */
  lemma BindsCommute(T: seq<int>, n: nat, r: int, x: int, p: Modulus)
    requires |T| == 4 * n
    ensures BindBot(Bind(T, r, p), x, p) == Bind(BindBot(T, x, p), r, p)
  {
    hide Mix, Bind, BindBot;
    var top, bot := Bind(T, r, p), BindBot(T, x, p);
    forall i | 0 <= i < n ensures BindBot(top, x, p)[i] == Bind(bot, r, p)[i] {
      BindBotAt(top, n, x, i, p);
      BindAt(T, 2 * n, r, 2 * i, p);
      BindAt(T, 2 * n, r, 2 * i + 1, p);
      BindAt(bot, n, r, i, p);
      BindBotAt(T, 2 * n, x, i, p);
      BindBotAt(T, 2 * n, x, n + i, p);
      MixSquare(T[2 * i], T[2 * i + 1], T[2 * n + 2 * i], T[2 * n + 2 * i + 1], r, x, p);
    }
  }

  lemma MixSquare(a: int, b: int, c: int, d: int, r: int, x: int, p: Modulus)
    ensures Mix(Mix(a, c, r, p), Mix(b, d, r, p), x, p) == Mix(Mix(a, b, x, p), Mix(c, d, x, p), r, p)
  {
    hide Mod, Line;
    SquarePoly(a, b, c, d, r, x);
    MixOfMods(Line(a, c, r), Line(b, d, r), x, p);
    MixOfMods(Line(a, b, x), Line(c, d, x), r, p);
  }

  lemma SquarePoly(a: int, b: int, c: int, d: int, r: int, x: int)
    ensures Line(Line(a, c, r), Line(b, d, r), x) == Line(Line(a, b, x), Line(c, d, x), r)
  {
  }

  lemma MixOfMods(y: int, z: int, x: int, p: Modulus)
    ensures Mix(Mod(y, p), Mod(z, p), x, p) == Mix(y, z, x, p)
  {
    hide Mod, Line;
    ModCong(y, p);
    ModCong(z, p);
    LineCong(Mod(y, p), y, Mod(z, p), z, x, p);
  }

  lemma LineCong(y': int, y: int, z': int, z: int, x: int, p: Modulus)
    requires Cong(y', y, p) && Cong(z', z, p)
    ensures Cong(Line(y', z', x), Line(y, z, x), p)
  {
    hide Mod;
    CongSub(z', z, y', y, p);
    CongScale(x, z' - y', z - y, p);
    CongSum(Line(y', z', x), Line(y, z, x), y', y, x * (z' - y'), x * (z - y), p);
  }

  /** The bottom variable may be bound first. */
  lemma {:induction false} MleBindBot(T: seq<int>, rs: seq<int>, r: int, p: Modulus)
    requires |T| == 2 * Pow2(|rs|)
    ensures Mle(T, rs + [r], p) == Mle(BindBot(T, r, p), rs, p)
    decreases |rs|
  {
    hide Mod, Bind, BindBot;
    if |rs| == 0 {
      assert rs + [r] == [r];
      BindAt(T, 1, r, 0, p);
      BindBotAt(T, 1, r, 0, p);
    } else {
      assert (rs + [r])[1..] == rs[1..] + [r];
      MleBindBot(Bind(T, rs[0], p), rs[1..], r, p);
      BindsCommute(T, Pow2(|rs| - 1), rs[0], r, p);
    }
  }

  /** Column i of the table read as rows of n entries. */
  function Column(Z: seq<int>, rows: nat, n: nat, i: nat): (c: seq<int>)
    requires |Z| == rows * n && i < n
    ensures |c| == rows
  {
    seq(rows, j requires 0 <= j < rows => RowMajor(j, rows, n, i); Z[j * n + i])
  }

  lemma RowMajor(j: nat, rows: nat, n: nat, i: nat)
    requires j < rows && i < n
    ensures 0 <= j * n + i < rows * n
  {
    assert (j + 1) * n <= rows * n;
  }

  /** The vector-matrix product L * Z. */
  function Bound(Z: seq<int>, L: seq<int>, n: nat, p: Modulus): (v: seq<int>)
    requires |Z| == |L| * n
    ensures |v| == n
  {
    seq(n, i requires 0 <= i < n => Mod(Dot(L, Column(Z, |L|, n, i)), p))
  }

  /** The factored evaluation: with the tables of the first and the last variables, <L Z, R> = Z(r). */
  lemma {:induction false} FactoredEvaluation(Z: seq<int>, ls: seq<int>, rs: seq<int>, p: Modulus)
    requires |Z| == Pow2(|ls + rs|)
    ensures |Z| == Pow2(|ls|) * Pow2(|rs|)
    ensures Cong(Dot(Bound(Z, EqTable(ls, p), Pow2(|rs|), p), EqTable(rs, p)), Mle(Z, ls + rs, p), p)
    decreases |ls|
  {
    hide Mod, Dot, EqTable, Bound, Mle, Bind, Pow2, Spread;
    Pow2Add(|ls|, |rs|);
    if |ls| == 0 {
      FactoredBase(Z, ls, rs, p);
    } else {
      FactoredSizes(|ls|, |rs|);
      assert (ls + rs)[1..] == ls[1..] + rs && (ls + rs)[0] == ls[0];
      FactoredEvaluation(Bind(Z, ls[0], p), ls[1..], rs, p);
      FactoredStep(Z, ls, rs, Pow2(|rs|), p);
      MleUnfold(Z, ls + rs, p);
    }
  }

  lemma FactoredSizes(k: nat, l: nat)
    requires k > 0
    ensures Pow2(k) * Pow2(l) == 2 * (Pow2(k - 1) * Pow2(l)) && Pow2(k + l) == 2 * Pow2(k - 1 + l)
  {
  }

  lemma FactoredBase(Z: seq<int>, ls: seq<int>, rs: seq<int>, p: Modulus)
    requires |ls| == 0 && |Z| == Pow2(|rs|)
    ensures |EqTable(ls, p)| * Pow2(|rs|) == |Z| && ls + rs == rs
    ensures Cong(Dot(Bound(Z, EqTable(ls, p), Pow2(|rs|), p), EqTable(rs, p)), Mle(Z, rs, p), p)
  {
    hide Mod, Dot, EqTable, Bound, Mle;
    assert ls == [];
    BoundOne(Z, Pow2(|rs|), p);
    EqTableEmpty(p);
    DotModV(Z, EqTable(rs, p), p);
    MleIsDot(Z, rs, p);
    DotComm(Z, EqTable(rs, p));
  }

  lemma FactoredStep(Z: seq<int>, ls: seq<int>, rs: seq<int>, n: nat, p: Modulus)
    requires |ls| > 0 && n == Pow2(|rs|) && |Z| == Pow2(|ls|) * n == 2 * (Pow2(|ls| - 1) * n)
    ensures |Z| % 2 == 0 && |Bind(Z, ls[0], p)| == |EqTable(ls[1..], p)| * n
    ensures Cong(Dot(Bound(Z, EqTable(ls, p), n, p), EqTable(rs, p)),
                 Dot(Bound(Bind(Z, ls[0], p), EqTable(ls[1..], p), n, p), EqTable(rs, p)), p)
  {
    hide Mod, Dot, EqTable, Bound, Bind, Pow2, Spread;
    EqTableCons(ls, p);
    BoundCons(Z, ls[0], EqTable(ls[1..], p), n, p);
    DotCong(Bound(Z, EqTable(ls, p), n, p), Bound(Bind(Z, ls[0], p), EqTable(ls[1..], p), n, p), EqTable(rs, p),
            EqTable(rs, p), p);
  }

  lemma MleUnfold(T: seq<int>, rs: seq<int>, p: Modulus)
    requires |T| == Pow2(|rs|) && |rs| > 0
    ensures Mle(T, rs, p) == Mle(Bind(T, rs[0], p), rs[1..], p)
  {
  }

  lemma BoundOne(Z: seq<int>, n: nat, p: Modulus)
    requires |Z| == n
    ensures Bound(Z, [1], n, p) == ModV(Z, p)
  {
    hide Mod, Dot;
    forall i | 0 <= i < n ensures Dot([1], Column(Z, 1, n, i)) == Z[i] {
      assert Column(Z, 1, n, i) == [Z[i]];
      DotSingle(1, Z[i]);
    }
  }

  lemma BoundCons(Z: seq<int>, r: int, t: seq<int>, n: nat, p: Modulus)
    requires |Z| == 2 * (|t| * n)
    ensures var L := ModV(Scale(1 - r, t), p) + ModV(Scale(r, t), p);
      |L| * n == |Z| && CongV(Bound(Z, L, n, p), Bound(Bind(Z, r, p), t, n, p), p)
  {
    hide Mod, Dot, Bind;
    var L := ModV(Scale(1 - r, t), p) + ModV(Scale(r, t), p);
    DoubleRows(|t|, n);
    forall i | 0 <= i < n ensures Cong(Bound(Z, L, n, p)[i], Bound(Bind(Z, r, p), t, n, p)[i], p) {
      BoundColumn(Z, r, t, n, i, p);
    }
  }

  lemma DoubleRows(m: nat, n: nat)
    ensures (m + m) * n == 2 * (m * n)
  {
  }

  lemma BoundColumn(Z: seq<int>, r: int, t: seq<int>, n: nat, i: nat, p: Modulus)
    requires |Z| == 2 * (|t| * n) == (|t| + |t|) * n && i < n
    ensures var L := ModV(Scale(1 - r, t), p) + ModV(Scale(r, t), p);
      Cong(Mod(Dot(L, Column(Z, |L|, n, i)), p), Mod(Dot(t, Column(Bind(Z, r, p), |t|, n, i)), p), p)
  {
    hide Mod, Dot, Bind, Scale, ModV, Column;
    var L := ModV(Scale(1 - r, t), p) + ModV(Scale(r, t), p);
    var c := Column(Z, |L|, n, i);
    SpreadStep(t, c, r, 1 - r, p);
    BindColumn(Z, r, |t|, n, i, p);
    ModCong(Dot(L, c), p);
    ModCong(Dot(t, Bind(c, r, p)), p);
    BindIsFold(c, r, p);
  }

  lemma BindIsFold(T: seq<int>, r: int, p: Modulus)
    requires |T| % 2 == 0
    ensures Bind(T, r, p) == Fold(T, 1 - r, r, p)
  {
  }

  lemma BindColumn(Z: seq<int>, r: int, m: nat, n: nat, i: nat, p: Modulus)
    requires |Z| == 2 * (m * n) == (m + m) * n && i < n
    ensures Bind(Column(Z, m + m, n, i), r, p) == Column(Bind(Z, r, p), m, n, i)
  {
    hide Mix, Bind;
    var a, b := Bind(Column(Z, m + m, n, i), r, p), Column(Bind(Z, r, p), m, n, i);
    forall j | 0 <= j < m ensures a[j] == b[j] {
      BindAt(Column(Z, m + m, n, i), m, r, j, p);
      RowMajor(j, m, n, i);
      BindAt(Z, m * n, r, j * n + i, p);
      assert (m + j) * n + i == m * n + (j * n + i);
    }
  }
}
