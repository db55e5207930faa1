/**
  Weight arithmetic shared by both generations of the chain: maps from a word
  to an accumulated weight, their total, and the cumulative scan that both
  `nextWord` (node.go, markov.go) and `chainNode.Next` (chainNode.go) use to
  pick a word.

  Weights are `nat`: the source's `uint64` wrap-around is not modelled.
*/
module Weights {

  /** The weight stored under `k`, or 0 when `k` is absent (Go's zero value for a missing map entry). */
  function Get(m: map<string, nat>, k: string): nat
  {
    if k in m then m[k] else 0
  }

  /** `m` with `w` added to the weight under `k`; an absent key counts as 0. */
  function Bump(m: map<string, nat>, k: string, w: nat): (r: map<string, nat>)
    ensures r.Keys == m.Keys + {k}
    ensures r[k] == Get(m, k) + w
    ensures forall j :: j in m && j != k ==> r[j] == m[j]
  {
    m[k := Get(m, k) + w]
  }

  /** The total of all weights in `m`, in no particular order. */
  ghost function Sum(m: map<string, nat>): nat
    decreases |m.Keys|
  {
    if m.Keys == {} then 0
    else
      var k :| k in m.Keys;
      assert |(m - {k}).Keys| < |m.Keys| by {
        assert (m - {k}).Keys == m.Keys - {k};
      }
      m[k] + Sum(m - {k})
  }

  /** Any key can be taken out first: the total does not depend on the order of summation. */
  lemma {:induction false} SumRemove(m: map<string, nat>, k: string)
    requires k in m
    ensures Sum(m) == m[k] + Sum(m - {k})
    decreases |m.Keys|
  {
    var j :| j in m.Keys && Sum(m) == m[j] + Sum(m - {j});
    if j != k {
      var withoutJ, withoutK := m - {j}, m - {k};
      assert withoutJ.Keys == m.Keys - {j} && withoutK.Keys == m.Keys - {k};
      SumRemove(withoutJ, k);
      SumRemove(withoutK, j);
      assert withoutJ - {k} == withoutK - {j};
      assert withoutJ[k] == m[k] && withoutK[j] == m[j];
    }
  }

  /** Adding `w` under one key raises the total by exactly `w`. */
  lemma SumBump(m: map<string, nat>, k: string, w: nat)
    ensures Sum(Bump(m, k, w)) == Sum(m) + w
  {
    var b := Bump(m, k, w);
    SumRemove(b, k);
    if k in m {
      SumRemove(m, k);
      assert b - {k} == m - {k};
    } else {
      assert b - {k} == m;
    }
  }


  /** The weights of the keys in `ks`, added up in the order of `ks`. */
  function Cum(m: map<string, nat>, ks: seq<string>): nat
  {
    if ks == [] then 0 else Cum(m, ks[..|ks| - 1]) + Get(m, ks[|ks| - 1])
  }

  /** `order` lists every key of `keys` exactly once: a Go map's iteration order. */
  ghost predicate Enumerates(order: seq<string>, keys: set<string>)
  {
    && (forall i, j :: 0 <= i < j < |order| ==> order[i] != order[j])
    && (forall i :: 0 <= i < |order| ==> order[i] in keys)
    && (forall k :: k in keys ==> k in order)
  }

  /** Weights of keys that `ks` does not list play no part in `Cum`. */
  lemma {:induction false} CumIgnoresOthers(m: map<string, nat>, ks: seq<string>, k: string)
    requires k !in ks
    ensures Cum(m - {k}, ks) == Cum(m, ks)
  {
    if ks != [] {
      CumIgnoresOthers(m, ks[..|ks| - 1], k);
    }
  }

  /** Summing along any iteration order of the keys gives the total. */
  lemma {:induction false} CumOfEnumeration(m: map<string, nat>, order: seq<string>)
    requires Enumerates(order, m.Keys)
    ensures Cum(m, order) == Sum(m)
    decreases |order|
  {
    if order == [] {
      assert m.Keys == {};
    } else {
      var last := order[|order| - 1];
      var front := order[..|order| - 1];
      var rest := m - {last};
      assert rest.Keys == m.Keys - {last};
      forall i | 0 <= i < |front|
        ensures front[i] != last
      {
        assert order[i] != order[|order| - 1];
      }
      assert Enumerates(front, rest.Keys) by {
        forall k | k in rest.Keys
          ensures k in front
        {
          assert k in order;
          var i :| 0 <= i < |order| && order[i] == k;
          assert i != |order| - 1;
          assert front[i] == k;
        }
      }
      CumOfEnumeration(rest, front);
      CumIgnoresOthers(m, front, last);
      SumRemove(m, last);
    }
  }

  /**
    The scan of the weighted-selection loop: walk `order` from position `i`
    with running total `acc`; the first key whose running total exceeds `d` is
    chosen, and "" when the scan runs off the end.
  */
  function PickFrom(m: map<string, nat>, order: seq<string>, d: nat, i: nat, acc: nat): string
    requires i <= |order|
    decreases |order| - i
  {
    if i == |order| then ""
    else
      var acc' := acc + Get(m, order[i]);
      if d < acc' then order[i] else PickFrom(m, order, d, i + 1, acc')
  }

  /** The word that a draw `d` selects when the keys are visited in `order`. */
  function Pick(m: map<string, nat>, order: seq<string>, d: nat): string
  {
    PickFrom(m, order, d, 0, 0)
  }

  /** Running the scan on from position `i` with the running total `Cum(m, order[..i])`. */
  lemma {:induction false} PickFromFirstExceeding(m: map<string, nat>, order: seq<string>, d: nat, i: nat)
    requires i <= |order|
    requires Cum(m, order[..i]) <= d
    ensures var r := PickFrom(m, order, d, i, Cum(m, order[..i]));
      || (r == "" && Cum(m, order) <= d)
      || exists j :: i <= j < |order| && r == order[j] && Cum(m, order[..j]) <= d < Cum(m, order[..j + 1])
    decreases |order| - i
  {
    if i == |order| {
      assert order[..i] == order;
    } else {
      assert order[..i + 1][..i] == order[..i];
      var acc' := Cum(m, order[..i + 1]);
      if d >= acc' {
        PickFromFirstExceeding(m, order, d, i + 1);
      }
    }
  }

  /**
    A draw selects the first key, in iteration order, whose cumulative weight
    exceeds the draw; when no prefix's weight exceeds it, the result is "".
  */
  lemma PickFirstExceeding(m: map<string, nat>, order: seq<string>, d: nat)
    ensures var r := Pick(m, order, d);
      || (r == "" && Cum(m, order) <= d)
      || exists j :: 0 <= j < |order| && r == order[j] && Cum(m, order[..j]) <= d < Cum(m, order[..j + 1])
  {
    assert order[..0] == [];
    PickFromFirstExceeding(m, order, d, 0);
  }

  /**
    When the keys are visited in an iteration order of the map and the draw is
    below the map's total, the selected word is always one of the keys.
  */
  lemma PickIsKey(m: map<string, nat>, order: seq<string>, d: nat)
    requires Enumerates(order, m.Keys)
    requires d < Sum(m)
    ensures Pick(m, order, d) in m
  {
    CumOfEnumeration(m, order);
    PickFirstExceeding(m, order, d);
  }
}
