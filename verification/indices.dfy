/** Selecting positions of a sequence, in order: the model of the Java scheduler's
    `stream().filter(...).collect(toList())` over an insertion-ordered roster. */
module Indices {

  /** The positions `from <= j < n` that satisfy `p`, in increasing order. */
  function IndicesWhere(n: nat, p: nat -> bool, from: nat): (r: seq<nat>)
    requires from <= n
    ensures forall j :: j in r <==> from <= j < n && p(j)
    ensures forall a, b :: 0 <= a < b < |r| ==> r[a] < r[b]
    decreases n - from
  {
    if from == n then []
    else
      var rest := IndicesWhere(n, p, from + 1);
      assert forall a :: 0 <= a < |rest| ==> rest[a] in rest;
      if p(from) then [from] + rest else rest
  }
}
