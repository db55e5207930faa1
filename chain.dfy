/**
  The flat-list chain (chain.go): a list of context nodes, each standing for
  a key of the last `keyDepth` tokens, trained by sliding the key along a
  line of tokens.

  Because `matchNode` answers `len(nodes)-1` on a miss, a node is appended
  only while the list is empty, so the list never holds more than one node.
*/
module FlatChain {
  import opened Weights
  import opened FlatNode

  /** A key of `depth` empty strings: the key before any token has been seen. */
  function Blank(depth: nat): (key: seq<string>)
    ensures |key| == depth && forall i :: 0 <= i < depth ==> key[i] == ""
  {
    seq(depth, _ => "")
  }

  /**
    `pushKey`: `value` enters at the back and the oldest token leaves at the
    front; the key keeps its length, and the empty key stays empty.
  */
  function PushKey(key: seq<string>, value: string): (r: seq<string>)
    ensures |r| == |key|
    ensures forall i :: 0 <= i < |key| - 1 ==> r[i] == key[i + 1]
    ensures key != [] ==> r[|r| - 1] == value
  {
    (key + [value])[1..]
  }

  /** The key after pushing each of `values` in turn. */
  function PushAll(key: seq<string>, values: seq<string>): seq<string>
    decreases |values|
  {
    if values == [] then key else PushKey(PushAll(key, values[..|values| - 1]), values[|values| - 1])
  }

  /** After pushing `values`, the key holds the last `|key|` tokens of `key + values`. */
  lemma {:induction false} PushAllWindow(key: seq<string>, values: seq<string>)
    ensures PushAll(key, values) == (key + values)[|values|..]
    decreases |values|
  {
    if values != [] {
      var front := values[..|values| - 1];
      var last := values[|values| - 1];
      PushAllWindow(key, front);
      assert key + values == (key + front) + [last];
      assert PushAll(key, values) == ((key + front)[|front|..] + [last])[1..];
    }
  }

  /** Pushing the same number of tokens as the key is long replaces it by those tokens. */
  lemma PushAllForgets(key: seq<string>, values: seq<string>)
    requires |values| == |key|
    ensures PushAll(key, values) == values
  {
    PushAllWindow(key, values);
  }

  /** `matchNode`'s answer when the scan starts at position `i`: the first agreeing node, else `len(nodes)-1`. */
  function MatchFrom(nodes: seq<ChainNode>, key: seq<string>, i: nat): int
    requires i <= |nodes|
    decreases |nodes| - i
  {
    if i == |nodes| then |nodes| - 1
    else if Agree(nodes[i].tokens, key) then i
    else MatchFrom(nodes, key, i + 1)
  }

  /**
    The smallest index whose node agrees with `key`; when none does, the last
    index, so -1 only for an empty list.
  */
  lemma {:induction false} MatchFromSpec(nodes: seq<ChainNode>, key: seq<string>, i: nat)
    requires i <= |nodes|
    requires forall k :: 0 <= k < i ==> !Agree(nodes[k].tokens, key)
    ensures var r := MatchFrom(nodes, key, i);
      && -1 <= r < |nodes|
      && (r == -1 <==> nodes == [])
      && ((exists k :: 0 <= k < |nodes| && Agree(nodes[k].tokens, key)) ==>
            Agree(nodes[r].tokens, key) && forall k :: 0 <= k < r ==> !Agree(nodes[k].tokens, key))
      && ((forall k :: 0 <= k < |nodes| ==> !Agree(nodes[k].tokens, key)) ==> r == |nodes| - 1)
    decreases |nodes| - i
  {
    if i < |nodes| && !Agree(nodes[i].tokens, key) {
      MatchFromSpec(nodes, key, i + 1);
    }
  }

  /** Every token of `tokens`, in order, with weight `weight` added under it. */
  function BumpAll(m: map<string, nat>, tokens: seq<string>, weight: nat): map<string, nat>
    decreases |tokens|
  {
    if tokens == [] then m
    else Bump(BumpAll(m, tokens[..|tokens| - 1], weight), tokens[|tokens| - 1], weight)
  }

  /** Nonlinear-arithmetic step for the induction in `BumpAllGet` and `BumpAllSum`. */
  lemma MulSucc(n: nat, w: nat)
    ensures (n + 1) * w == n * w + w
  {
  }

  /** Each token's weight grows by `weight` per occurrence of the token. */
  lemma {:induction false} BumpAllGet(m: map<string, nat>, tokens: seq<string>, weight: nat, t: string)
    ensures Get(BumpAll(m, tokens, weight), t) == Get(m, t) + multiset(tokens)[t] * weight
    decreases |tokens|
  {
    if tokens != [] {
      var front := tokens[..|tokens| - 1];
      var last := tokens[|tokens| - 1];
      assert tokens == front + [last];
      BumpAllGet(m, front, weight, t);
      var n := multiset(front)[t];
      if last == t {
        assert multiset(tokens)[t] == n + 1;
        MulSucc(n, weight);
      } else {
        assert multiset(tokens)[t] == n;
      }
    }
  }

  /** The total weight grows by `weight` per token. */
  lemma {:induction false} BumpAllSum(m: map<string, nat>, tokens: seq<string>, weight: nat)
    ensures Sum(BumpAll(m, tokens, weight)) == Sum(m) + |tokens| * weight
    decreases |tokens|
  {
    if tokens != [] {
      var front := tokens[..|tokens| - 1];
      BumpAllSum(m, front, weight);
      SumBump(BumpAll(m, front, weight), tokens[|tokens| - 1], weight);
      MulSucc(|front|, weight);
    }
  }

  /** A chain; the rollstat word statistics are not modelled. */
  class Chain {
    var keyDepth: nat
    var nodes: seq<ChainNode>

    /** At most one node, and no node's `weightSum` was ever raised. */
    ghost predicate Valid()
      reads this, nodes
    {
      |nodes| <= 1 && forall n :: n in nodes ==> n.weightSum == 0
    }

    /** `NewChain`: the given key depth and no nodes. */
    constructor(depth: nat)
      ensures keyDepth == depth && nodes == [] && Valid()
    {
      keyDepth := depth;
      nodes := [];
    }

    /** `newKey`: exactly `keyDepth` empty strings. */
    method NewKey() returns (key: seq<string>)
      ensures key == Blank(keyDepth)
    {
      var a := new string[keyDepth];
      var i := 0;
      while i < keyDepth
        invariant 0 <= i <= keyDepth
        invariant forall j :: 0 <= j < i ==> a[j] == ""
      {
        a[i] := "";
        i := i + 1;
      }
      key := a[..];
    }

    /** `matchNode`: the first node whose key `Equals` `key`, else the last index. */
    method MatchNode(key: seq<string>) returns (index: int)
      ensures index == MatchFrom(nodes, key, 0)
      ensures -1 <= index < |nodes| && (index == -1 <==> nodes == [])
    {
      var i := 0;
      while i < |nodes|
        invariant 0 <= i <= |nodes|
        invariant MatchFrom(nodes, key, 0) == MatchFrom(nodes, key, i)
      {
        var agrees := nodes[i].Equals(key);
        if agrees {
          MatchFromSpec(nodes, key, 0);
          return i;
        }
        i := i + 1;
      }
      MatchFromSpec(nodes, key, 0);
      return |nodes| - 1;
    }

    /**
      `findNode`: -1 exactly when the key or the node list is empty. On an
      empty list every entry of the caller's key is overwritten with "";
      otherwise the key is untouched and the answer is `matchNode`'s.
    */
    method FindNode(key: array<string>) returns (index: int)
      modifies key
      ensures index == -1 <==> nodes == [] || key.Length == 0
      ensures nodes == [] ==> forall i :: 0 <= i < key.Length ==> key[i] == ""
      ensures nodes != [] ==> key[..] == old(key[..])
      ensures nodes != [] && key.Length != 0 ==> index == MatchFrom(nodes, key[..], 0)
    {
      var i := 0;
      while i < key.Length
        invariant 0 <= i <= key.Length
        invariant nodes != [] ==> i == 0
        invariant forall j :: 0 <= j < i ==> key[j] == ""
        invariant forall j :: i <= j < key.Length ==> key[j] == old(key[j])
      {
        index := MatchNode(key[..]);
        if index != -1 {
          return index;
        }
        key[i] := "";
        i := i + 1;
      }
      return -1;
    }

    /**
      `TrainWeighted`, leaving out the word statistics: every token and then
      the end marker "" gain `weight` in the one node, which is created, with
      the blank key, only when the list is empty; the total weight of that
      node's successors grows by `(|tokens| + 1) * weight`, and `weightSum`
      stays 0.
    */
    method TrainWeighted(tokens: seq<string>, weight: nat)
      requires Valid()
      modifies this, nodes
      ensures Valid() && |nodes| == 1 && keyDepth == old(keyDepth)
      ensures old(nodes) != [] ==> nodes == old(nodes)
      ensures old(nodes) == [] ==> fresh(nodes[0]) && nodes[0].tokens == Blank(keyDepth)
      ensures nodes[0].next == BumpAll(if old(nodes) == [] then map[] else old(nodes[0].next), tokens + [""], weight)
      ensures Sum(nodes[0].next) == Sum(if old(nodes) == [] then map[] else old(nodes[0].next)) + (|tokens| + 1) * weight
      ensures "" in nodes[0].next
    {
      ghost var base := if nodes == [] then map[] else nodes[0].next;
      ghost var nodes0 := nodes;
      var key := NewKey();
      var i := 0;
      while i < |tokens|
        invariant 0 <= i <= |tokens| && keyDepth == old(keyDepth)
        invariant Valid() && (nodes == [] ==> i == 0 && base == map[])
        invariant nodes0 != [] ==> nodes == nodes0
        invariant nodes0 == [] && nodes != [] ==> fresh(nodes[0]) && nodes[0].tokens == Blank(keyDepth)
        invariant nodes != [] ==> nodes[0].next == BumpAll(base, tokens[..i], weight)
        invariant key == PushAll(Blank(keyDepth), tokens[..i])
      {
        TrainAtKey(key, tokens[i], weight);
        key := PushKey(key, tokens[i]);
        assert tokens[..i + 1][..i] == tokens[..i];
        i := i + 1;
      }
      assert tokens[..i] == tokens;
      TrainAtKey(key, "", weight);
      assert (tokens + [""])[..|tokens|] == tokens;
      BumpAllSum(base, tokens + [""], weight);
    }

    /**
      What `TrainWeighted` does for each token and again for the end marker:
      look the key up with `matchNode`, append a node for it when the answer
      is -1, and train that node with `token`.
    */
    method TrainAtKey(key: seq<string>, token: string, weight: nat)
      requires Valid()
      modifies this, nodes
      ensures Valid() && |nodes| == 1 && keyDepth == old(keyDepth)
      ensures old(nodes) != [] ==> nodes == old(nodes)
      ensures old(nodes) == [] ==> fresh(nodes[0]) && nodes[0].tokens == key
      ensures nodes[0].next == Bump(if old(nodes) == [] then map[] else old(nodes[0].next), token, weight)
    {
      var index := MatchNode(key);
      if index == -1 {
        var node := new ChainNode(key);
        nodes := nodes + [node];
        index := |nodes| - 1;
      }
      assert |nodes| == 1 && index == 0;
      nodes[index].TrainWeighted(token, weight);
      assert forall n :: n in nodes ==> n == nodes[0];
    }

    /** `Train`: `TrainWeighted` with weight 1. */
    method Train(tokens: seq<string>)
      requires Valid()
      modifies this, nodes
      ensures Valid() && |nodes| == 1 && keyDepth == old(keyDepth)
      ensures old(nodes) != [] ==> nodes == old(nodes)
      ensures old(nodes) == [] ==> fresh(nodes[0]) && nodes[0].tokens == Blank(keyDepth)
      ensures nodes[0].next == BumpAll(if old(nodes) == [] then map[] else old(nodes[0].next), tokens + [""], 1)
    {
      TrainWeighted(tokens, 1);
    }
  }
}
