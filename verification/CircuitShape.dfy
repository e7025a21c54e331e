/**
 Compiling a circuit to constraint matrices: the shape builder and the witness builder number their
 variables alike, and padding and renumbering keep the meaning of every constraint.
 */
module CircuitShape {
  import opened PowersOfTwo
  import opened PrimeField
  import opened Vectors
  import opened SparseMatrix
  import opened Constraints

  /** One call a circuit makes on a constraint system. */
  datatype Op = AllocAux(value: int) | AllocInput(value: int) | Enforce(c: Constraint)

  /** The builder of the matrices' shape: it counts variables and collects constraints. */
  class ShapeCS {
    var inputs: nat
    var aux: nat
    var constraints: seq<Constraint>

    constructor ()
      ensures inputs == 1 && aux == 0 && constraints == []
    {
      inputs, aux, constraints := 1, 0, [];
    }

    method Alloc() returns (v: Variable)
      modifies this
      ensures v == Aux(old(aux)) && aux == old(aux) + 1 && inputs == old(inputs) && constraints == old(constraints)
    {
      aux := aux + 1;
      v := Aux(aux - 1);
    }

    method AllocInput() returns (v: Variable)
      requires inputs >= 1
      modifies this
      ensures v == Input(old(inputs)) && inputs == old(inputs) + 1 && aux == old(aux) && constraints == old(constraints)
    {
      inputs := inputs + 1;
      v := Input(inputs - 1);
    }

    method Enforce(c: Constraint)
      modifies this
      ensures constraints == old(constraints) + [c] && inputs == old(inputs) && aux == old(aux)
    {
      constraints := constraints + [c];
    }
  }

  /** The builder of the witness: it keeps values and ignores constraints. */
  class SatisfyingAssignment {
    var inputs: seq<int>
    var aux: seq<int>

    constructor ()
      ensures inputs == [1] && aux == []
    {
      inputs, aux := [1], [];
    }

    method Alloc(value: int) returns (v: Variable)
      modifies this
      ensures v == Aux(|old(aux)|) && aux == old(aux) + [value] && inputs == old(inputs)
    {
      aux := aux + [value];
      v := Aux(|aux| - 1);
    }

    method AllocInput(value: int) returns (v: Variable)
      modifies this
      ensures v == Input(|old(inputs)|) && inputs == old(inputs) + [value] && aux == old(aux)
    {
      inputs := inputs + [value];
      v := Input(|inputs| - 1);
    }

    method Enforce(c: Constraint)
      ensures unchanged(this)
    {
    }
  }

  // ---------- what a sequence of calls builds ----------

  function Inputs(ops: seq<Op>): (r: seq<int>)
    ensures |r| >= 1 && r[0] == 1
  {
    if |ops| == 0 then [1] else
    var op := ops[|ops| - 1];
    if op.AllocInput? then Inputs(ops[..|ops| - 1]) + [op.value] else Inputs(ops[..|ops| - 1])
  }

  function AuxValues(ops: seq<Op>): seq<int> {
    if |ops| == 0 then [] else
    var op := ops[|ops| - 1];
    if op.AllocAux? then AuxValues(ops[..|ops| - 1]) + [op.value] else AuxValues(ops[..|ops| - 1])
  }

  function ConstraintsOf(ops: seq<Op>): seq<Constraint> {
    if |ops| == 0 then [] else
    var op := ops[|ops| - 1];
    if op.Enforce? then ConstraintsOf(ops[..|ops| - 1]) + [op.c] else ConstraintsOf(ops[..|ops| - 1])
  }

  /** The variables that the calls hand out, in order. */
  function Handed(ops: seq<Op>): seq<Variable> {
    if |ops| == 0 then [] else
    var op, before := ops[|ops| - 1], ops[..|ops| - 1];
    match op
    case AllocAux(_) => Handed(before) + [Aux(|AuxValues(before)|)]
    case AllocInput(_) => Handed(before) + [Input(|Inputs(before)|)]
    case Enforce(_) => Handed(before)
  }

  /** A circuit decides on its next call from the number of calls so far and the variables it was handed. */
  type Circuit = (nat, seq<Variable>) -> Op

  /** The first n calls, with variables numbered as they are allocated. */
  function Calls(circuit: Circuit, n: nat): (ops: seq<Op>)
    ensures |ops| == n
  {
    if n == 0 then [] else
    var before := Calls(circuit, n - 1);
    before + [circuit(n - 1, Handed(before))]
  }

  /** The circuit run on the shape builder. */
  method BuildShape(circuit: Circuit, n: nat) returns (shape: ShapeCS, vars: seq<Variable>)
    ensures fresh(shape) && vars == Handed(Calls(circuit, n))
    ensures shape.inputs == |Inputs(Calls(circuit, n))| && shape.aux == |AuxValues(Calls(circuit, n))|
    ensures shape.constraints == ConstraintsOf(Calls(circuit, n))
  {
    shape := new ShapeCS();
    vars := [];
    for i := 0 to n
      invariant fresh(shape) && vars == Handed(Calls(circuit, i))
      invariant shape.inputs == |Inputs(Calls(circuit, i))| && shape.aux == |AuxValues(Calls(circuit, i))|
      invariant shape.constraints == ConstraintsOf(Calls(circuit, i))
    {
      CallsNext(circuit, i);
      match circuit(i, vars)
      case AllocAux(_) =>
        var v := shape.Alloc();
        vars := vars + [v];
      case AllocInput(_) =>
        var v := shape.AllocInput();
        vars := vars + [v];
      case Enforce(c) =>
        shape.Enforce(c);
    }
  }

  /** The circuit run on the witness builder. */
  method BuildWitness(circuit: Circuit, n: nat) returns (wit: SatisfyingAssignment, vars: seq<Variable>)
    ensures fresh(wit) && vars == Handed(Calls(circuit, n))
    ensures wit.inputs == Inputs(Calls(circuit, n)) && wit.aux == AuxValues(Calls(circuit, n))
  {
    wit := new SatisfyingAssignment();
    vars := [];
    for i := 0 to n
      invariant fresh(wit) && vars == Handed(Calls(circuit, i))
      invariant wit.inputs == Inputs(Calls(circuit, i)) && wit.aux == AuxValues(Calls(circuit, i))
    {
      CallsNext(circuit, i);
      match circuit(i, vars)
      case AllocAux(value) =>
        var v := wit.Alloc(value);
        vars := vars + [v];
      case AllocInput(value) =>
        var v := wit.AllocInput(value);
        vars := vars + [v];
      case Enforce(c) =>
        wit.Enforce(c);
    }
  }

  lemma CallsNext(circuit: Circuit, i: nat)
    ensures var ops := Calls(circuit, i + 1);
      |ops| == i + 1 && ops[..i] == Calls(circuit, i) && ops[i] == circuit(i, Handed(Calls(circuit, i)))
  {
  }

  // ---------- matrices ----------

  datatype Shape = Shape(cons: nat, vars: nat, io: nat, A: Matrix, B: Matrix, C: Matrix)

  /** Inputs come last, with input 0, the constant one, right after the variables. */
  function Column(v: Variable, vars: nat): nat {
    match v
    case Input(i) => i + vars
    case Aux(i) => i
  }

  predicate LcInRange(l: Lc, vars: nat, inputs: nat) {
    match l
    case Zero => true
    case Add(m, _, v) => LcInRange(m, vars, inputs) && match v case Input(i) => i < inputs case Aux(i) => i < vars
  }

  predicate ConstraintInRange(c: Constraint, vars: nat, inputs: nat) {
    LcInRange(c.a, vars, inputs) && LcInRange(c.b, vars, inputs) && LcInRange(c.c, vars, inputs)
  }

  predicate AllInRange(cs: seq<Constraint>, vars: nat, inputs: nat) {
    forall i :: 0 <= i < |cs| ==> ConstraintInRange(cs[i], vars, inputs)
  }

  function LcEntries(l: Lc, row: nat, vars: nat): Matrix {
    match l
    case Zero => []
    case Add(m, c, v) => LcEntries(m, row, vars) + [Entry(row, Column(v, vars), c)]
  }

  datatype Side = SideA | SideB | SideC

  function SideOf(c: Constraint, s: Side): Lc {
    match s
    case SideA => c.a
    case SideB => c.b
    case SideC => c.c
  }

  function Entries(cs: seq<Constraint>, s: Side, vars: nat): Matrix {
    if |cs| == 0 then [] else
    var n := |cs| - 1;
    Entries(cs[..n], s, vars) + LcEntries(SideOf(cs[n], s), n, vars)
  }

  function UnpaddedShape(cs: seq<Constraint>, vars: nat, inputs: nat): Shape
    requires inputs >= 1
  {
    Shape(|cs|, vars, inputs - 1, Entries(cs, SideA, vars), Entries(cs, SideB, vars), Entries(cs, SideC, vars))
  }

  /** Pushes the terms of one combination onto a matrix. */
  method PushTerms(M: Matrix, l: Lc, row: nat, vars: nat) returns (r: Matrix)
    ensures r == M + LcEntries(l, row, vars)
    decreases l
  {
    match l
    case Zero =>
      r := M;
      assert M + [] == M;
    case Add(m, c, v) =>
      r := PushTerms(M, m, row, vars);
      ghost var e := LcEntries(m, row, vars);
      r := r + [Entry(row, Column(v, vars), c)];
      assert r == M + (e + [Entry(row, Column(v, vars), c)]);
  }

  method R1csShapeUnpadded(shape: ShapeCS) returns (s: Shape)
    requires shape.inputs >= 1
    ensures s == UnpaddedShape(shape.constraints, shape.aux, shape.inputs)
  {
    var A, B, C := [], [], [];
    var cs, vars := shape.constraints, shape.aux;
    for i := 0 to |cs|
      invariant A == Entries(cs[..i], SideA, vars) && B == Entries(cs[..i], SideB, vars) &&
                C == Entries(cs[..i], SideC, vars)
    {
      assert cs[..i + 1][..i] == cs[..i];
      A := PushTerms(A, cs[i].a, i, vars);
      B := PushTerms(B, cs[i].b, i, vars);
      C := PushTerms(C, cs[i].c, i, vars);
    }
    assert cs[..|cs|] == cs;
    s := Shape(|cs|, vars, shape.inputs - 1, A, B, C);
  }

  // ---------- rows mean constraints ----------

  /** The values as one assignment. */
  function AssignmentOf(inputs: seq<int>, aux: seq<int>): Assignment {
    (v: Variable) => match v
      case Input(i) => if i < |inputs| then inputs[i] else 0
      case Aux(i) => if i < |aux| then aux[i] else 0
  }

  lemma {:induction false} RowConcat(M: Matrix, N: Matrix, r: nat, z: seq<int>)
    requires (forall i :: 0 <= i < |M| ==> M[i].col < |z|) && (forall i :: 0 <= i < |N| ==> N[i].col < |z|)
    ensures RowTimes(M + N, r, z) == RowTimes(M, r, z) + RowTimes(N, r, z)
  {
    if |N| == 0 {
      assert M + N == M;
    } else {
      RowConcat(M, N[..|N| - 1], r, z);
      assert (M + N)[..|M + N| - 1] == M + N[..|N| - 1];
    }
  }

  lemma RowSnoc(M: Matrix, e: Entry, r: nat, z: seq<int>)
    requires (forall i :: 0 <= i < |M| ==> M[i].col < |z|) && e.col < |z|
    ensures RowTimes(M + [e], r, z) == RowTimes(M, r, z) + if e.row == r then e.val * z[e.col] else 0
  {
    assert (M + [e])[..|M|] == M;
  }

  lemma {:induction false} LcRow(l: Lc, row: nat, r: nat, inputs: seq<int>, aux: seq<int>)
    requires LcInRange(l, |aux|, |inputs|)
    ensures var e := LcEntries(l, row, |aux|);
      InRange(e, row + 1, |aux| + |inputs|) &&
      RowTimes(e, r, aux + inputs) == if row == r then EvalLc(l, AssignmentOf(inputs, aux)) else 0
    decreases l
  {
    match l
    case Zero =>
    case Add(m, c, v) =>
      LcRow(m, row, r, inputs, aux);
      AddRow(LcEntries(m, row, |aux|), Entry(row, Column(v, |aux|), c), v, row, r, inputs, aux);
  }

  lemma AddRow(M: Matrix, e: Entry, v: Variable, row: nat, r: nat, inputs: seq<int>, aux: seq<int>)
    requires e.row == row && e.col == Column(v, |aux|) && InRange(M, row + 1, |aux| + |inputs|)
    requires match v case Input(i) => i < |inputs| case Aux(i) => i < |aux|
    ensures InRange(M + [e], row + 1, |aux| + |inputs|)
    ensures RowTimes(M + [e], r, aux + inputs)
         == RowTimes(M, r, aux + inputs) + if row == r then e.val * AssignmentOf(inputs, aux)(v) else 0
  {
    hide RowTimes;
    RowSnoc(M, e, r, aux + inputs);
    assert (aux + inputs)[e.col] == AssignmentOf(inputs, aux)(v);
  }

  lemma {:induction false} LcEntriesInRange(l: Lc, row: nat, vars: nat, inputs: nat)
    requires LcInRange(l, vars, inputs)
    ensures InRange(LcEntries(l, row, vars), row + 1, vars + inputs)
    decreases l
  {
    match l
    case Zero =>
    case Add(m, _, _) => LcEntriesInRange(m, row, vars, inputs);
  }

  lemma {:induction false} EntriesInRange(cs: seq<Constraint>, s: Side, vars: nat, inputs: nat)
    requires AllInRange(cs, vars, inputs)
    ensures InRange(Entries(cs, s, vars), |cs|, vars + inputs)
  {
    if |cs| == 0 {
    } else {
      hide LcEntries;
      var n := |cs| - 1;
      EntriesInRange(cs[..n], s, vars, inputs);
      assert ConstraintInRange(cs[n], vars, inputs);
      LcEntriesInRange(SideOf(cs[n], s), n, vars, inputs);
    }
  }

  /** Row r of the matrix is the combination of constraint r. */
  lemma {:induction false} EntriesRow(cs: seq<Constraint>, s: Side, r: nat, inputs: seq<int>, aux: seq<int>)
    requires AllInRange(cs, |aux|, |inputs|)
    ensures InRange(Entries(cs, s, |aux|), |cs|, |aux| + |inputs|)
    ensures RowTimes(Entries(cs, s, |aux|), r, aux + inputs)
         == if r < |cs| then EvalLc(SideOf(cs[r], s), AssignmentOf(inputs, aux)) else 0
  {
    EntriesInRange(cs, s, |aux|, |inputs|);
    if |cs| == 0 {
    } else {
      hide EvalLc, LcEntries, AssignmentOf, RowTimes;
      var n := |cs| - 1;
      EntriesRow(cs[..n], s, r, inputs, aux);
      assert ConstraintInRange(cs[n], |aux|, |inputs|);
      LcRow(SideOf(cs[n], s), n, r, inputs, aux);
      RowConcat(Entries(cs[..n], s, |aux|), LcEntries(SideOf(cs[n], s), n, |aux|), r, aux + inputs);
    }
  }

  // ---------- padding ----------

  /** The smallest power of two not below n. */
  function NextPow2(n: nat): (m: nat)
    ensures m >= n && m >= 1
  {
    if n <= 1 then 1 else 2 * NextPow2((n + 1) / 2)
  }

  lemma {:induction false} NextPow2Is(n: nat) returns (k: nat)
    ensures NextPow2(n) == Pow2(k) && (k > 0 ==> Pow2(k - 1) < n)
  {
    if n <= 1 {
      k := 0;
    } else {
      k := NextPow2Is((n + 1) / 2);
      k := k + 1;
      if k > 1 {
        assert Pow2(k - 1) == 2 * Pow2(k - 2);
      }
    }
  }

  /** m is the smallest power of two that reaches both a and b. */
  ghost predicate LeastPower(m: nat, a: nat, b: nat) {
    (exists k :: m == Pow2(k)) && m >= a && m >= b && forall k :: a <= Pow2(k) && b <= Pow2(k) ==> m <= Pow2(k)
  }

  function Max(a: nat, b: nat): nat {
    if a > b then a else b
  }

  lemma LeastOfMax(a: nat, b: nat)
    ensures LeastPower(NextPow2(Max(a, b)), a, b)
  {
    var k := NextPow2Is(Max(a, b));
    forall j | a <= Pow2(j) && b <= Pow2(j) ensures Pow2(k) <= Pow2(j) {
      if j < k {
        Pow2Monotone(j, k - 1);
      } else {
        Pow2Monotone(k, j);
      }
    }
  }

  /** Columns from `vars` on move up by the number of new variables. */
  function Renumber(M: Matrix, vars: nat, padded: nat): (r: Matrix)
    requires vars <= padded
    ensures |r| == |M|
  {
    seq(|M|, i requires 0 <= i < |M| => if M[i].col >= vars then Entry(M[i].row, M[i].col + padded - vars,
                                                                       M[i].val) else M[i])
  }

  /** Equalize variables and constraints at a power of two, renumbering when variables are added. */
  function Pad(s: Shape): (t: Shape)
    ensures t.vars >= s.vars && t.cons >= s.cons && t.io == s.io
  {
    var m := NextPow2(Max(s.vars, s.cons));
    if s.vars == m && s.cons == m then s
    else if s.vars == m then Shape(m, m, s.io, s.A, s.B, s.C)
    else Shape(m, m, s.io, Renumber(s.A, s.vars, m), Renumber(s.B, s.vars, m), Renumber(s.C, s.vars, m))
  }

  lemma {:induction false} RenumberRow(M: Matrix, r: nat, rows: nat, aux: seq<int>, rest: seq<int>, padded: nat)
    requires |aux| <= padded && InRange(M, rows, |aux| + |rest|)
    ensures InRange(Renumber(M, |aux|, padded), rows, padded + |rest|)
    ensures RowTimes(Renumber(M, |aux|, padded), r, aux + Const(padded - |aux|, 0) + rest) == RowTimes(M, r, aux + rest)
  {
    var N, z := Renumber(M, |aux|, padded), aux + Const(padded - |aux|, 0) + rest;
    if |M| == 0 {
    } else {
      var n := |M| - 1;
      RenumberRow(M[..n], r, rows, aux, rest, padded);
      assert N[..n] == Renumber(M[..n], |aux|, padded);
      assert z[N[n].col] == (aux + rest)[M[n].col];
    }
  }
}
