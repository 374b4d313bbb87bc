/** Traversals: orders in which the `n` places of a list are visited, each once. */
module Traversals {
  import opened Basics

  /** An order in which each of the places below `n` comes once. */
  ghost predicate Covers(order: seq<nat>, n: nat) {
    |order| == n && NoDuplicates(order) && forall i :: 0 <= i < n ==> order[i] < n
  }

  function Without(order: seq<nat>, i: nat): seq<nat>
    requires i < |order|
  {
    order[..i] + order[i + 1..]
  }

  function Below(n: nat): set<nat> {
    if n == 0 then {} else Below(n - 1) + {n - 1}
  }

  function Places(order: seq<nat>): set<nat> {
    if order == [] then {} else Places(order[..|order| - 1]) + {order[|order| - 1]}
  }

  lemma {:induction false} BelowHas(n: nat)
    ensures |Below(n)| == n && forall k :: k in Below(n) <==> 0 <= k < n
  {
    if n > 0 { BelowHas(n - 1); }
  }

  lemma {:induction false} PlacesHas(order: seq<nat>)
    requires NoDuplicates(order)
    ensures |Places(order)| == |order| && forall k :: k in Places(order) <==> k in order
  {
    if order != [] {
      var n := |order| - 1;
      PlacesHas(order[..n]);
      assert order[n] !in order[..n];
      assert forall k :: k in order <==> k in order[..n] || k == order[n] by {
        assert order == order[..n] + [order[n]];
      }
    }
  }

  lemma {:induction false} SubsetSize(a: set<nat>, b: set<nat>)
    requires a <= b
    ensures |a| <= |b|
  {
    if a != {} {
      var x :| x in a;
      SubsetSize(a - {x}, b - {x});
    }
  }

  /** `n` different places below `n` are all of them. */
  lemma TraversalReaches(order: seq<nat>, n: nat, k: nat)
    requires Covers(order, n) && k < n
    ensures k in order
  {
    BelowHas(n);
    PlacesHas(order);
    if k !in order {
      SubsetSize(Places(order), Below(n) - {k});
    }
  }

  /** Where the last place is visited; leaving that visit out traverses the others. */
  lemma PlaceOfLast(order: seq<nat>, n: nat) returns (i: nat)
    requires n > 0 && Covers(order, n)
    ensures i < |order| && order[i] == n - 1 && Covers(Without(order, i), n - 1)
  {
    TraversalReaches(order, n, n - 1);
    i :| i < |order| && order[i] == n - 1;
    var rest := Without(order, i);
    forall a | 0 <= a < |rest| ensures rest[a] < n - 1 {
      var b := if a < i then a else a + 1;
      assert rest[a] == order[b] && b != i;
      assert if b < i then order[b] != order[i] else order[i] != order[b];
    }
  }
}
