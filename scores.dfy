/**
 * The numbers the search and the move ordering compare.  The source keeps them in
 * Java doubles and uses the two infinities as sentinels; here a score is a real
 * number or one of the two infinities, and adding one to an infinity leaves it
 * unchanged, as it does for a double.  NaN never arises in the source and is not
 * modelled.
 */
module Scores {

  datatype Score = NegInf | Fin(v: real) | PosInf

  /** `a <= b` on doubles. */
  predicate Le(a: Score, b: Score) {
    a.NegInf? || b.PosInf? || (a.Fin? && b.Fin? && a.v <= b.v)
  }

  /** `a < b` on doubles. */
  predicate Lt(a: Score, b: Score) {
    !Le(b, a)
  }

  /** `Math.max(a, b)`. */
  function Max(a: Score, b: Score): (r: Score)
    ensures Le(a, r) && Le(b, r)
    ensures r == a || r == b
  {
    if Le(a, b) then b else a
  }

  /** `Math.min(a, b)`. */
  function Min(a: Score, b: Score): (r: Score)
    ensures Le(r, a) && Le(r, b)
    ensures r == a || r == b
  {
    if Le(a, b) then a else b
  }

  /** `x + 1.0`: the sentinel findMax returns for a pruned node. */
  function Inc(x: Score): (r: Score)
    ensures Le(x, r)
    ensures x.Fin? <==> r.Fin?
    ensures x.Fin? ==> Lt(x, r)
  {
    if x.Fin? then Fin(x.v + 1.0) else x
  }

  /** `x - 1.0`: the sentinel findMin returns for a pruned node. */
  function Dec(x: Score): (r: Score)
    ensures Le(r, x)
    ensures x.Fin? <==> r.Fin?
    ensures x.Fin? ==> Lt(r, x)
  {
    if x.Fin? then Fin(x.v - 1.0) else x
  }

  /** Descending order, the order the move ordering wants. */
  ghost predicate NonIncreasing(s: seq<Score>) {
    forall p, q :: 0 <= p < q < |s| ==> Le(s[q], s[p])
  }
}
