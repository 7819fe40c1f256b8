// Weighted assignment of experiment variants: a hash picks one of a hundred buckets, and each variant
// owns the buckets below its cumulative weight.
module Experiment {
  datatype Variant = Variant(id: string, weight: nat)

  function Weight(variants: seq<Variant>): nat {
    if variants == [] then 0 else Weight(variants[..|variants| - 1]) + variants[|variants| - 1].weight
  }

  // Position of the variant a bucket falls to: the first whose cumulative weight exceeds it.
  ghost predicate FallsTo(variants: seq<Variant>, bucket: nat, k: nat) {
    k < |variants| && Weight(variants[..k]) <= bucket < Weight(variants[..k + 1])
  }

  method AssignVariant(bucket: nat, variants: seq<Variant>) returns (id: string)
    requires bucket < 100
    ensures forall k: nat :: FallsTo(variants, bucket, k) ==> id == variants[k].id
    ensures bucket >= Weight(variants) ==> id == if variants == [] then "control" else variants[0].id
  {
    var cumulative := 0;
    assert variants[..0] == [];
    for i := 0 to |variants|
      invariant cumulative == Weight(variants[..i])
      invariant cumulative <= bucket || i == 0
      invariant forall k: nat :: k < i ==> !FallsTo(variants, bucket, k)
    {
      assert variants[..i + 1][..i] == variants[..i];
      cumulative := cumulative + variants[i].weight;
      if bucket < cumulative {
        forall k: nat | FallsTo(variants, bucket, k)
          ensures k == i
        {
          OneOwner(variants, bucket, k, i);
        }
        WeightGrows(variants, i + 1, |variants|);
        assert variants[..|variants|] == variants;
        return variants[i].id;
      }
    }
    assert variants[..|variants|] == variants;
    id := if variants != [] then variants[0].id else "control";
  }

  lemma {:induction false} WeightGrows(variants: seq<Variant>, i: nat, j: nat)
    requires i <= j <= |variants|
    ensures Weight(variants[..i]) <= Weight(variants[..j])
    decreases j - i
  {
    if i < j {
      WeightGrows(variants, i, j - 1);
      assert variants[..j][..j - 1] == variants[..j - 1];
    }
  }

  lemma OneOwner(variants: seq<Variant>, bucket: nat, k: nat, i: nat)
    requires FallsTo(variants, bucket, k) && FallsTo(variants, bucket, i)
    ensures k == i
  {
    if k < i { WeightGrows(variants, k + 1, i); }
    if i < k { WeightGrows(variants, i + 1, k); }
  }

  // ---------- How many buckets a variant owns ----------

  ghost predicate Owns(variants: seq<Variant>, k: nat, bucket: nat) {
    FallsTo(variants, bucket, k) || (k == 0 && bucket >= Weight(variants))
  }

  ghost function Buckets(variants: seq<Variant>, k: nat): set<nat> {
    set bucket: nat | bucket < 100 && Owns(variants, k, bucket)
  }

  ghost function Interval(a: nat, b: nat): (r: set<nat>)
    requires a <= b
    ensures |r| == b - a && forall x: nat :: x in r <==> a <= x < b
  {
    if a == b then {} else Interval(a, b - 1) + {b - 1}
  }

  // When the weights add up to at most 100, every variant after the first owns as many buckets as
  // its weight, and the first owns the remainder as well.
  lemma BucketsMatchWeights(variants: seq<Variant>, k: nat)
    requires k < |variants| && Weight(variants) <= 100
    ensures |Buckets(variants, k)| == variants[k].weight + (if k == 0 then 100 - Weight(variants) else 0)
  {
    var from, to, total := Weight(variants[..k]), Weight(variants[..k + 1]), Weight(variants);
    assert variants[..k + 1][..k] == variants[..k] && variants[..|variants|] == variants;
    WeightGrows(variants, k + 1, |variants|);
    var own, rest := Interval(from, to), if k == 0 then Interval(total, 100) else {};
    forall b: nat
      ensures b in Buckets(variants, k) <==> b in own || b in rest
    {
      assert Owns(variants, k, b) <==> from <= b < to || (k == 0 && b >= total);
    }
    DisjointUnion(Buckets(variants, k), own, rest);
  }

  lemma DisjointUnion(all: set<nat>, a: set<nat>, b: set<nat>)
    requires a !! b && forall x :: x in all <==> x in a || x in b
    ensures |all| == |a| + |b|
  {
    assert all == a + b;
  }
}
