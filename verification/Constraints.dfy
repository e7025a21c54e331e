/** Rank-one constraints over linear combinations of variables. */
module Constraints {
  import opened PrimeField

  /** Input 0 is the constant one. */
  datatype Variable = Input(i: nat) | Aux(i: nat)

  const ONE := Input(0)

  datatype Lc = Zero | Add(lc: Lc, coeff: int, v: Variable)

  datatype Constraint = Constraint(a: Lc, b: Lc, c: Lc)

  type Assignment = Variable -> int

  function EvalLc(l: Lc, w: Assignment): int {
    match l
    case Zero => 0
    case Add(m, c, v) => EvalLc(m, w) + c * w(v)
  }

  ghost predicate Holds(c: Constraint, w: Assignment, p: Modulus) {
    Cong(EvalLc(c.a, w) * EvalLc(c.b, w), EvalLc(c.c, w), p)
  }

  function Term(c: int, v: Variable): Lc {
    Add(Zero, c, v)
  }

  lemma EvalOne(c: int, v: Variable, w: Assignment)
    ensures EvalLc(Term(c, v), w) == c * w(v)
  {
  }

  lemma EvalTwo(c: int, v: Variable, d: int, u: Variable, w: Assignment)
    ensures EvalLc(Add(Term(c, v), d, u), w) == c * w(v) + d * w(u)
  {
    EvalOne(c, v, w);
  }

  lemma EvalThree(c: int, v: Variable, d: int, u: Variable, e: int, t: Variable, w: Assignment)
    ensures EvalLc(Add(Add(Term(c, v), d, u), e, t), w) == c * w(v) + d * w(u) + e * w(t)
  {
    EvalTwo(c, v, d, u, w);
  }

  /**
   The constraint system a gadget writes to.  `w` is an arbitrary assignment to all variables, fixed
   and hidden from the gadgets: what is proved about it holds for every assignment.  `honest` says
   whether that assignment gives every variable the value its allocation asks for.
   */
  class ConstraintSystem {
    const p: Modulus
    var numAux: nat
    var constraints: seq<Constraint>
    ghost const w: Assignment
    ghost var honest: bool

    constructor (p: Modulus, ghost w: Assignment)
      ensures this.p == p && this.w == w && constraints == [] && numAux == 0 && honest
    {
      this.p, this.numAux, this.constraints, this.w, this.honest := p, 0, [], w, true;
    }

    /** The assignment satisfies all constraints so far. */
    ghost predicate Sat()
      reads this
    {
      Cong(w(ONE), 1, p) && forall i :: 0 <= i < |constraints| ==> Holds(constraints[i], w, p)
    }

    /** A new variable, to which an honest prover assigns `value`. */
    method Alloc(ghost value: int) returns (v: Variable)
      modifies this
      ensures v == Aux(old(numAux)) && numAux == old(numAux) + 1 && constraints == old(constraints)
      ensures honest <==> old(honest) && Cong(w(v), value, p)
      ensures Sat() <==> old(Sat())
    {
      v := Aux(numAux);
      numAux := numAux + 1;
      honest := honest && Cong(w(v), value, p);
    }

    method Enforce(a: Lc, b: Lc, c: Lc)
      modifies this
      ensures constraints == old(constraints) + [Constraint(a, b, c)] && numAux == old(numAux) && honest == old(honest)
      ensures Sat() <==> old(Sat()) && Holds(Constraint(a, b, c), w, p)
    {
      hide Holds;
      ghost var before := constraints;
      constraints := constraints + [Constraint(a, b, c)];
      assert forall i :: 0 <= i < |before| ==> constraints[i] == before[i];
      assert constraints[|before|] == Constraint(a, b, c);
    }
  }
}
