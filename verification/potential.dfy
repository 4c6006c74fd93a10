/**
  The termination measure of the traversal: the sum, over a finite set of stations,
  of each station's recorded distance, or a cap above every admissible distance for
  a station that has none yet. Every successful relaxation lowers it.
*/
module Potential {
  import opened Graph

  /** What one station contributes: its recorded distance, or `cap` while it has none. */
  function Cost(d: map<Station, nat>, v: Station, cap: nat): nat {
    if v in d then d[v] else cap
  }

  /** A fixed element of a non-empty set, so that `Sum` and the lemmas about it split alike. */
  ghost function Pick(vs: set<Station>): (v: Station)
    requires vs != {}
    ensures v in vs
  {
    var v :| v in vs; v
  }

  ghost function Sum(vs: set<Station>, d: map<Station, nat>, cap: nat): nat
    decreases vs
  {
    if vs == {} then 0
    else
      var v := Pick(vs);
      Cost(d, v, cap) + Sum(vs - {v}, d, cap)
  }

  /** Lowering no station's cost does not raise the sum. */
  lemma {:induction false} SumMonotone(vs: set<Station>, d: map<Station, nat>, d': map<Station, nat>, cap: nat)
    requires forall v :: v in vs ==> Cost(d', v, cap) <= Cost(d, v, cap)
    ensures Sum(vs, d', cap) <= Sum(vs, d, cap)
    decreases vs
  {
    if vs != {} {
      SumMonotone(vs - {Pick(vs)}, d, d', cap);
    }
  }

  /** Lowering one member's cost, and raising none, strictly lowers the sum. */
  lemma {:induction false} SumDecreases(vs: set<Station>, d: map<Station, nat>, d': map<Station, nat>, cap: nat, u: Station)
    requires u in vs
    requires forall v :: v in vs ==> Cost(d', v, cap) <= Cost(d, v, cap)
    requires Cost(d', u, cap) < Cost(d, u, cap)
    ensures Sum(vs, d', cap) < Sum(vs, d, cap)
    decreases vs
  {
    var v := Pick(vs);
    if v == u {
      SumMonotone(vs - {v}, d, d', cap);
    } else {
      SumDecreases(vs - {v}, d, d', cap, u);
    }
  }

  /** Recording a distance below the cap, and below the one recorded if any, strictly lowers the sum. */
  lemma RelaxLowersSum(vs: set<Station>, d: map<Station, nat>, cap: nat, u: Station, x: nat, d': map<Station, nat>)
    requires u in vs
    requires x < cap
    requires u in d ==> x < d[u]
    requires d' == d[u := x]
    ensures Sum(vs, d', cap) < Sum(vs, d, cap)
  {
    SumDecreases(vs, d, d', cap, u);
  }
}
