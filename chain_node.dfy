/**
  The context node of the flat-list chain (chainNode.go): the key of
  preceding tokens it stands for, the weights of the tokens seen after that
  key, and a `weightSum` that nothing ever raises.
*/
module FlatNode {
  import opened Wrappers
  import opened Weights

  /**
    What `Equals` decides: the lengths agree and SOME position holds the same
    token in both. Two empty keys therefore never agree.
  */
  predicate Agree(a: seq<string>, b: seq<string>)
  {
    |a| == |b| && exists i :: 0 <= i < |a| && a[i] == b[i]
  }

  class ChainNode {
    /** The key this node stands for; no operation changes it after construction. */
    const tokens: seq<string>
    /** Weight of each token seen after the key. */
    var next: map<string, nat>
    var weightSum: nat

    /** `newChainNode`: the given tokens, no successors, total weight 0. */
    constructor(tokens: seq<string>)
      ensures this.tokens == tokens && next == map[] && weightSum == 0
    {
      this.tokens := tokens;
      next := map[];
      weightSum := 0;
    }

    /**
      `Equals`: false when the lengths differ; otherwise true as soon as one
      position agrees, and false only when no position does.
    */
    method Equals(other: seq<string>) returns (r: bool)
      ensures r <==> Agree(tokens, other)
      ensures |tokens| != |other| ==> !r
      ensures other == [] ==> !r
    {
      if |tokens| != |other| {
        return false;
      }
      var i := 0;
      while i < |other|
        invariant 0 <= i <= |other|
        invariant forall j :: 0 <= j < i ==> tokens[j] != other[j]
      {
        if tokens[i] == other[i] {
          return true;
        }
        i := i + 1;
      }
      return false;
    }

    /**
      `Next` with the value of `rand.Uint64()` passed as `draw` and the order
      of the `range` over `next` passed as `order`. None stands for the
      division by zero of `draw % weightSum`.
    */
    method Next(draw: nat, order: seq<string>) returns (r: Option<string>)
      requires Enumerates(order, next.Keys)
      ensures next == map[] ==> r == Some("")
      ensures next != map[] && weightSum == 0 ==> r == None
      ensures next != map[] && 0 < weightSum ==> r == Some(Pick(next, order, draw % weightSum))
      ensures next != map[] && 0 < weightSum ==>
        || (r == Some("") && Cum(next, order) <= draw % weightSum)
        || exists j :: 0 <= j < |order| && r == Some(order[j])
             && Cum(next, order[..j]) <= draw % weightSum < Cum(next, order[..j + 1])
    {
      if |next| == 0 {
        assert next == map[];
        return Some("");
      }
      if weightSum == 0 {
        return None;
      }
      var val := draw % weightSum;
      var currSum: nat := 0;
      var i := 0;
      while i < |order|
        invariant 0 <= i <= |order|
        invariant Pick(next, order, val) == PickFrom(next, order, val, i, currSum)
      {
        var token := order[i];
        currSum := currSum + Get(next, token);
        if val < currSum {
          PickFirstExceeding(next, order, val);
          return Some(token);
        }
        i := i + 1;
      }
      PickFirstExceeding(next, order, val);
      return Some("");
    }

    /**
      `TrainWeighted`: the weight under `token` grows by `weight` (from 0 when
      absent); every other entry, the key and `weightSum` stay as they were.
    */
    method TrainWeighted(token: string, weight: nat)
      modifies this
      ensures next == Bump(old(next), token, weight)
      ensures weightSum == old(weightSum)
    {
      next := next[token := Get(next, token) + weight];
    }
  }
}
