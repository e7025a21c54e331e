/** Many polynomials bound at once, each in its own buffer. */
module PolyPool {
  import opened PowersOfTwo
  import opened PrimeField
  import opened Multilinear

  /** No two polynomials are the same object or share a buffer. */
  ghost predicate Apart(ds: seq<DensePolynomial>) {
    forall i, j :: 0 <= i < j < |ds| ==> ds[i] != ds[j] && ds[i].z != ds[j].z
  }

  /** No polynomial of one list is, or shares a buffer with, one of the other. */
  ghost predicate Disjoint(ds: seq<DensePolynomial>, es: seq<DensePolynomial>) {
    forall i, j :: 0 <= i < |ds| && 0 <= j < |es| ==> ds[i] != es[j] && ds[i].z != es[j].z
  }

  ghost function Buffers(ds: seq<DensePolynomial>): set<object> {
    set i | 0 <= i < |ds| :: ds[i].z
  }

  /** All polynomials have k variables. */
  ghost predicate Ready(ds: seq<DensePolynomial>, k: nat)
    reads ds
  {
    forall i :: 0 <= i < |ds| ==> ds[i].Valid() && ds[i].numVars == k
  }

  /** The tables the polynomials hold. */
  function Contents(ds: seq<DensePolynomial>, ghost k: nat): (vs: seq<seq<int>>)
    requires Ready(ds, k)
    reads ds, Buffers(ds)
    ensures |vs| == |ds| && forall i :: 0 <= i < |vs| ==> |vs[i]| == Pow2(k)
  {
    seq(|ds|, i requires 0 <= i < |ds| && Ready(ds, k) reads ds, Buffers(ds) => BufferIn(ds, i); ds[i].z[..ds[i].len])
  }

  lemma BufferIn(ds: seq<DensePolynomial>, i: nat)
    requires i < |ds|
    ensures ds[i].z in Buffers(ds)
  {
  }

  lemma BuffersCons(d: DensePolynomial, ds: seq<DensePolynomial>)
    ensures Buffers([d] + ds) == {d.z} + Buffers(ds)
  {
    var all := [d] + ds;
    assert all[0] == d && forall i :: 0 <= i < |ds| ==> all[i + 1] == ds[i];
    assert forall i :: 1 <= i < |all| ==> all[i] == ds[i - 1];
  }

  lemma DisjointBuffers(ds: seq<DensePolynomial>, es: seq<DensePolynomial>)
    requires Disjoint(ds, es)
    ensures (forall d :: d in ds ==> d !in es) && Buffers(ds) !! Buffers(es)
  {
  }

  /** One polynomial more, at the front. */
  lemma ApartCons(d: DensePolynomial, ds: seq<DensePolynomial>)
    requires Apart(ds) && Disjoint([d], ds)
    ensures Apart([d] + ds)
  {
    var all := [d] + ds;
    assert [d][0] == d;
    assert all[0] == d && forall i :: 1 <= i < |all| ==> all[i] == ds[i - 1];
  }

  lemma ContentsCons(d: DensePolynomial, ds: seq<DensePolynomial>, k: nat)
    requires Ready(ds, k) && d.Valid() && d.numVars == k
    ensures Ready([d] + ds, k) && Contents([d] + ds, k) == [d.Table()] + Contents(ds, k)
  {
    var all := [d] + ds;
    assert all[0] == d && forall i :: 1 <= i < |all| ==> all[i] == ds[i - 1];
  }

  /** The tables with their top variable bound. */
  function BindEach(vs: seq<seq<int>>, ghost n: nat, r: int, p: Modulus): (ws: seq<seq<int>>)
    requires forall i :: 0 <= i < |vs| ==> |vs[i]| == 2 * n
    ensures |ws| == |vs| && forall i :: 0 <= i < |ws| ==> |ws[i]| == n
  {
    seq(|vs|, i requires 0 <= i < |vs| => Bind(vs[i], r, p))
  }

  /** Binds the top variable of every polynomial in place. */
  method BindTops(ds: seq<DensePolynomial>, ghost k: nat, r: int, p: Modulus)
    requires Apart(ds) && k > 0 && Ready(ds, k)
    modifies ds, Buffers(ds)
    ensures Ready(ds, k - 1)
    ensures Contents(ds, k - 1) == BindEach(old(Contents(ds, k)), Pow2(k - 1), r, p)
  {
    hide Bind, Pow2;
    assert Pow2(k) == 2 * Pow2(k - 1) by { Pow2Next(k - 1); }
    for i := 0 to |ds|
      invariant forall j :: 0 <= j < i
                  ==> ds[j].Valid() && ds[j].numVars == k - 1 && ds[j].Table() == Bind(old(ds[j].Table()), r, p)
      invariant forall j :: i <= j < |ds| ==> ds[j].Valid() && ds[j].numVars == k && ds[j].Table() == old(ds[j].Table())
    {
      BufferIn(ds, i);
      ds[i].BoundPolyVarTop(r, p);
    }
    ghost var before, after := old(Contents(ds, k)), Contents(ds, k - 1);
    forall i | 0 <= i < |ds| ensures after[i] == BindEach(before, Pow2(k - 1), r, p)[i] {
      assert before[i] == old(ds[i].Table());
    }
  }
}
