/**
  The prefix-tree node of node.go. A `*node` together with everything reachable
  from it is modelled as one value of the datatype `Node`; the operations that
  update a node in place are functions from the node before to the node after.
  No node is ever reachable from two parents, so replacing a child's value in
  its parent's `children` map is what the in-place update amounts to.

  markov.go declares the same node a second time; module Markov uses the
  definitions here.
*/
module TrieNode {
  import opened Wrappers
  import opened Weights

  /**
    A node: the running `weightSum`, the child reached by each word
    (`children`) and the weight of the edge to it (`childWeights`).
  */
  datatype Node = Node(weightSum: nat, children: map<string, Node>, childWeights: map<string, nat>)

  /**
    `new(node)`. In Go both maps of a fresh node are nil, and the first
    insertion into such a node panics on the write to the nil map; the model
    takes them to be empty maps instead, which is what the rest of the source
    evidently expects.
  */
  function New(): (r: Node)
    ensures r.weightSum == 0 && r.children == map[] && r.childWeights == map[]
    ensures Valid(r)
  {
    Node(0, map[], map[])
  }

  /**
    The invariant of every node: `children` and `childWeights` have the same
    keys, `weightSum` is the total of `childWeights`, and the same holds of
    every descendant.
  */
  ghost predicate Valid(n: Node)
    decreases n
  {
    && n.children.Keys == n.childWeights.Keys
    && n.weightSum == Sum(n.childWeights)
    && forall k :: k in n.children ==> Valid(n.children[k])
  }

  // ---------------------------------------------------------------------
  // Case folding
  // ---------------------------------------------------------------------

  /** Lower-casing of one character; only the ASCII letters are mapped. */
  function LowerRune(c: char): char
  {
    if 'A' <= c <= 'Z' then (c as int - 'A' as int + 'a' as int) as char else c
  }

  /** `strings.ToLower`, restricted to ASCII letters. */
  function Fold(s: string): string
  {
    if s == [] then [] else [LowerRune(s[0])] + Fold(s[1..])
  }

  /** Folding twice is folding once, so a word that is folded again is stored under the same key. */
  lemma {:induction false} FoldIdempotent(s: string)
    ensures Fold(Fold(s)) == Fold(s)
  {
    if s != [] {
      FoldIdempotent(s[1..]);
    }
  }

  /** The key under which a word is stored and looked up. */
  function Key(word: string, ignoreCase: bool): string
  {
    if ignoreCase then Fold(word) else word
  }

  /** A key is its own key. */
  lemma KeyIdempotent(word: string, ignoreCase: bool)
    ensures Key(Key(word, ignoreCase), ignoreCase) == Key(word, ignoreCase)
  {
    if ignoreCase {
      FoldIdempotent(word);
    }
  }

  // ---------------------------------------------------------------------
  // Insertion
  // ---------------------------------------------------------------------

  /**
    `addWeightedChild`: fold the word when `ignoreCase`, add `weight` to
    `weightSum` and to the word's edge weight (an absent edge counts as 0),
    and allocate the child only when it is absent.
  */
  function AddWeightedChild(n: Node, word: string, weight: nat, ignoreCase: bool): (r: Node)
    ensures r.weightSum == n.weightSum + weight
    ensures Get(r.childWeights, Key(word, ignoreCase)) == Get(n.childWeights, Key(word, ignoreCase)) + weight
    ensures r.children.Keys == n.children.Keys + {Key(word, ignoreCase)}
  {
    var key := Key(word, ignoreCase);
    Node(n.weightSum + weight,
         if key in n.children then n.children else n.children[key := New()],
         Bump(n.childWeights, key, weight))
  }

  /**
    What `addWeightedChild` changes: `weightSum` and the edge weight of the
    folded word rise by exactly `weight`; every other edge weight stays; the
    word's child is allocated only when it is absent, and no existing child is
    replaced; equal key sets of `children` and `childWeights` stay equal.
  */
  lemma AddWeightedChildEffect(n: Node, word: string, weight: nat, ignoreCase: bool)
    ensures var key := Key(word, ignoreCase);
      var r := AddWeightedChild(n, word, weight, ignoreCase);
      && r.weightSum == n.weightSum + weight
      && Get(r.childWeights, key) == Get(n.childWeights, key) + weight
      && (forall k :: k != key ==> Get(r.childWeights, k) == Get(n.childWeights, k))
      && r.children.Keys == n.children.Keys + {key}
      && (forall k :: k in n.children ==> r.children[k] == n.children[k])
      && (key !in n.children ==> r.children[key] == New())
      && (n.children.Keys == n.childWeights.Keys ==> r.children.Keys == r.childWeights.Keys)
  {
  }

  /** `addWeightedChild` keeps the node invariant: `weightSum` stays the total of the edge weights. */
  lemma AddWeightedChildKeepsValid(n: Node, word: string, weight: nat, ignoreCase: bool)
    ensures Valid(n) ==> Valid(AddWeightedChild(n, word, weight, ignoreCase))
  {
    SumBump(n.childWeights, Key(word, ignoreCase), weight);
  }

  /** `addChild`: `addWeightedChild` with weight 1. */
  function AddChild(n: Node, word: string, ignoreCase: bool): (r: Node)
    ensures r.weightSum == n.weightSum + 1
    ensures Get(r.childWeights, Key(word, ignoreCase)) == Get(n.childWeights, Key(word, ignoreCase)) + 1
    ensures Valid(n) ==> Valid(r)
  {
    AddWeightedChildKeepsValid(n, word, 1, ignoreCase);
    AddWeightedChild(n, word, 1, ignoreCase)
  }

  /** The weights slice is long enough for every index the descent reads (Go panics otherwise). */
  predicate WeightsCover(words: seq<string>, weights: seq<nat>, index: int)
  {
    index < 0 || |words| <= index || |words| <= |weights|
  }

  /**
    `addWeightedChildren`: nothing when `index` is outside `words`; otherwise
    add `words[index]` as a child with weight `weights[index]` and continue
    from that child with `index + 1`. The word is folded here and folded again
    by `addWeightedChild`. At the receiver itself, the effect is that of one
    `addWeightedChild`; what happens further down is stated by the lemmas below.
  */
  function AddWeightedChildren(n: Node, words: seq<string>, weights: seq<nat>, index: int, ignoreCase: bool): (r: Node)
    requires WeightsCover(words, weights, index)
    ensures index < 0 || index >= |words| ==> r == n
    ensures 0 <= index < |words| ==> r.weightSum == n.weightSum + weights[index]
    decreases |words| - index
  {
    if index < 0 || index >= |words| then n
    else
      var word := Key(words[index], ignoreCase);
      KeyIdempotent(words[index], ignoreCase);
      var n1 := AddWeightedChild(n, word, weights[index], ignoreCase);
      n1.(children := n1.children[word := AddWeightedChildren(n1.children[word], words, weights, index + 1, ignoreCase)])
  }

  /** Path insertion keeps the node invariant at every node it touches. */
  lemma {:induction false} AddWeightedChildrenKeepsValid(n: Node, words: seq<string>, weights: seq<nat>, index: int, ignoreCase: bool)
    requires WeightsCover(words, weights, index)
    requires Valid(n)
    ensures Valid(AddWeightedChildren(n, words, weights, index, ignoreCase))
    decreases |words| - index
  {
    if 0 <= index < |words| {
      var word := Key(words[index], ignoreCase);
      KeyIdempotent(words[index], ignoreCase);
      var n1 := AddWeightedChild(n, word, weights[index], ignoreCase);
      AddWeightedChildKeepsValid(n, word, weights[index], ignoreCase);
      var child := n1.children[word];
      AddWeightedChildrenKeepsValid(child, words, weights, index + 1, ignoreCase);
      ReplaceChildKeepsValid(n1, word, AddWeightedChildren(child, words, weights, index + 1, ignoreCase));
    }
  }

  /** Replacing an existing child by a valid node keeps a valid node valid. */
  lemma ReplaceChildKeepsValid(n: Node, word: string, child: Node)
    requires Valid(n) && word in n.children && Valid(child)
    ensures Valid(n.(children := n.children[word := child]))
  {
    var r := n.(children := n.children[word := child]);
    forall k | k in r.children
      ensures Valid(r.children[k])
    {
      if k != word {
        assert r.children[k] == n.children[k];
      }
    }
  }

  /** The all-ones weight slice that `addChildren` builds. */
  function Ones(count: nat): (r: seq<nat>)
    ensures |r| == count && forall i :: 0 <= i < count ==> r[i] == 1
  {
    seq(count, _ => 1)
  }

  /**
    `addChildren`: fill a weight slice of the same length as `words` with 1s,
    then insert the path with `addWeightedChildren`.
  */
  method AddChildren(n: Node, words: seq<string>, index: int, ignoreCase: bool) returns (r: Node)
    ensures r == AddWeightedChildren(n, words, Ones(|words|), index, ignoreCase)
  {
    var weights := new nat[|words|];
    var i := 0;
    while i < |words|
      invariant 0 <= i <= |words|
      invariant forall j :: 0 <= j < i ==> weights[j] == 1
    {
      weights[i] := 1;
      i := i + 1;
    }
    assert weights[..] == Ones(|words|);
    r := AddWeightedChildren(n, words, weights[..], index, ignoreCase);
  }

  // ---------------------------------------------------------------------
  // Lookup
  // ---------------------------------------------------------------------

  /**
    `seek`: the node itself when `index` is outside `words`, None (Go's nil)
    as soon as a folded word has no child, and otherwise the node reached by
    following the children along `words[index..]`. The source finds the child
    by scanning the `children` map for an equal key, which is a map lookup.
  */
  function Seek(n: Node, words: seq<string>, index: int, ignoreCase: bool): (r: Option<Node>)
    ensures (index < 0 || index >= |words|) ==> r == Some(n)
    decreases |words| - index
  {
    if index < 0 || index >= |words| then Some(n)
    else
      var word := Key(words[index], ignoreCase);
      if word in n.children then Seek(n.children[word], words, index + 1, ignoreCase) else None
  }

  /** Every node below a valid node is valid, so whatever `seek` finds in a valid tree is valid. */
  lemma {:induction false} SeekFindsValid(n: Node, words: seq<string>, index: int, ignoreCase: bool)
    requires Valid(n)
    ensures var r := Seek(n, words, index, ignoreCase); r.Some? ==> Valid(r.value)
    decreases |words| - index
  {
    if 0 <= index < |words| {
      var word := Key(words[index], ignoreCase);
      if word in n.children {
        SeekFindsValid(n.children[word], words, index + 1, ignoreCase);
      }
    }
  }

  /** The node found, or a fresh one where the path does not exist yet. */
  function OrNew(o: Option<Node>): Node
  {
    if o.Some? then o.value else New()
  }

  /**
    Looking up in two stages is looking up once: seeking `words[index..]` is
    seeking `words[index..j]` first and then, from the node found, the rest.
  */
  lemma {:induction false} SeekInStages(n: Node, words: seq<string>, index: nat, j: nat, ignoreCase: bool)
    requires index <= j <= |words|
    ensures Seek(n, words, index, ignoreCase)
         == match Seek(n, words[..j], index, ignoreCase)
            case None => None
            case Some(m) => Seek(m, words, j, ignoreCase)
    decreases j - index
  {
    if index < j {
      assert words[..j][index] == words[index];
      var word := Key(words[index], ignoreCase);
      if word in n.children {
        SeekInStages(n.children[word], words, index + 1, j, ignoreCase);
      }
    }
  }

  /** Nothing is found below a fresh node except the node itself. */
  lemma SeekNew(words: seq<string>, index: int, ignoreCase: bool)
    ensures OrNew(Seek(New(), words, index, ignoreCase)) == New()
  {
  }

  /**
    Path insertion reuses existing nodes: the node that the inserted path
    reaches after `words[index..j]` is the node found there before (a fresh
    one if there was none) with the rest of the path, `words[j..]`, inserted
    below it.
  */
  lemma {:induction false} AddWeightedChildrenAlongPath(n: Node, words: seq<string>, weights: seq<nat>, index: int, j: int, ignoreCase: bool)
    requires 0 <= index <= j <= |words| <= |weights|
    ensures Seek(AddWeightedChildren(n, words, weights, index, ignoreCase), words[..j], index, ignoreCase)
         == Some(AddWeightedChildren(OrNew(Seek(n, words[..j], index, ignoreCase)), words, weights, j, ignoreCase))
  {
    AlongPrefix(n, words, weights, words[..j], index, ignoreCase);
  }

  /** `AddWeightedChildrenAlongPath` for any `prefix` that agrees with `words` on its positions. */
  lemma {:induction false} AlongPrefix(n: Node, words: seq<string>, weights: seq<nat>, prefix: seq<string>, index: int, ignoreCase: bool)
    requires 0 <= index <= |prefix| <= |words| <= |weights|
    requires forall k :: 0 <= k < |prefix| ==> prefix[k] == words[k]
    ensures Seek(AddWeightedChildren(n, words, weights, index, ignoreCase), prefix, index, ignoreCase)
         == Some(AddWeightedChildren(OrNew(Seek(n, prefix, index, ignoreCase)), words, weights, |prefix|, ignoreCase))
    decreases |prefix| - index
  {
    if index < |prefix| {
      AlongPrefix(ChildOrNew(n, Key(words[index], ignoreCase)), words, weights, prefix, index + 1, ignoreCase);
      AlongPrefixStep(n, words, weights, prefix, index, ignoreCase);
    } else {
      AlongPrefixEnd(n, words, weights, prefix, ignoreCase);
    }
  }

  /** At the end of the prefix, the node reached is the node itself with the rest of the path inserted. */
  lemma AlongPrefixEnd(n: Node, words: seq<string>, weights: seq<nat>, prefix: seq<string>, ignoreCase: bool)
    requires |prefix| <= |words| <= |weights|
    ensures Seek(AddWeightedChildren(n, words, weights, |prefix|, ignoreCase), prefix, |prefix|, ignoreCase)
         == Some(AddWeightedChildren(OrNew(Seek(n, prefix, |prefix|, ignoreCase)), words, weights, |prefix|, ignoreCase))
  {
  }

  /** The child under `word`, or a fresh node when there is none. */
  function ChildOrNew(n: Node, word: string): Node
  {
    if word in n.children then n.children[word] else New()
  }

  /** One level of `AlongPrefix`, given the levels below it. */
  lemma AlongPrefixStep(n: Node, words: seq<string>, weights: seq<nat>, prefix: seq<string>, index: int, ignoreCase: bool)
    requires 0 <= index < |prefix| <= |words| <= |weights|
    requires forall k :: 0 <= k < |prefix| ==> prefix[k] == words[k]
    requires var child := ChildOrNew(n, Key(words[index], ignoreCase));
      Seek(AddWeightedChildren(child, words, weights, index + 1, ignoreCase), prefix, index + 1, ignoreCase)
      == Some(AddWeightedChildren(OrNew(Seek(child, prefix, index + 1, ignoreCase)), words, weights, |prefix|, ignoreCase))
    ensures Seek(AddWeightedChildren(n, words, weights, index, ignoreCase), prefix, index, ignoreCase)
         == Some(AddWeightedChildren(OrNew(Seek(n, prefix, index, ignoreCase)), words, weights, |prefix|, ignoreCase))
  {
    var word := Key(words[index], ignoreCase);
    InsertDescends(n, words, weights, index, ignoreCase);
    if word !in n.children {
      SeekNew(prefix, index + 1, ignoreCase);
    }
  }

  /**
    One level of path insertion: the inserted word's child afterwards is the
    child found there before (a fresh one if there was none) with the rest of
    the path inserted below it.
  */
  lemma InsertDescends(n: Node, words: seq<string>, weights: seq<nat>, index: int, ignoreCase: bool)
    requires 0 <= index < |words| <= |weights|
    ensures var word := Key(words[index], ignoreCase);
      var r := AddWeightedChildren(n, words, weights, index, ignoreCase);
      && word in r.children
      && r.children[word] == AddWeightedChildren(ChildOrNew(n, word), words, weights, index + 1, ignoreCase)
  {
    KeyIdempotent(words[index], ignoreCase);
  }

  /** The round trip: after inserting a path, `seek` of the same words from the same index finds a node. */
  lemma AddWeightedChildrenFindable(n: Node, words: seq<string>, weights: seq<nat>, index: int, ignoreCase: bool)
    requires WeightsCover(words, weights, index)
    ensures Seek(AddWeightedChildren(n, words, weights, index, ignoreCase), words, index, ignoreCase).Some?
  {
    if 0 <= index < |words| {
      AddWeightedChildrenAlongPath(n, words, weights, index, |words|, ignoreCase);
      assert words[..|words|] == words;
    }
  }

  /**
    Edge `j` of an inserted path gains exactly `weights[j]`: at the node that
    the path reaches after `words[index..j]`, `weightSum` rises by
    `weights[j]`, the weight under the folded `words[j]` rises by `weights[j]`,
    and no other edge weight changes.
  */
  lemma AddWeightedChildrenEdgeWeight(n: Node, words: seq<string>, weights: seq<nat>, index: int, j: int, ignoreCase: bool)
    requires 0 <= index <= j < |words| <= |weights|
    ensures var before := OrNew(Seek(n, words[..j], index, ignoreCase));
      var after := Seek(AddWeightedChildren(n, words, weights, index, ignoreCase), words[..j], index, ignoreCase);
      && after.Some?
      && after.value.weightSum == before.weightSum + weights[j]
      && after.value.childWeights == Bump(before.childWeights, Key(words[j], ignoreCase), weights[j])
  {
    AddWeightedChildrenAlongPath(n, words, weights, index, j, ignoreCase);
    KeyIdempotent(words[j], ignoreCase);
  }

  /**
    With `ignoreCase`, words that differ only in case share one child and one
    accumulated weight, because folding is applied both on insertion and on
    lookup.
  */
  lemma FoldedWordsShareChild(n: Node, a: string, b: string, wa: nat, wb: nat)
    requires Fold(a) == Fold(b)
    ensures var r := AddWeightedChild(AddWeightedChild(n, a, wa, true), b, wb, true);
      && r.children.Keys == n.children.Keys + {Fold(a)}
      && r.childWeights[Fold(a)] == Get(n.childWeights, Fold(a)) + wa + wb
      && Seek(r, [b], 0, true) == Seek(r, [a], 0, true) == Some(r.children[Fold(a)])
  {
  }

  // ---------------------------------------------------------------------
  // Weighted selection
  // ---------------------------------------------------------------------

  /**
    `nextWord`. The draw `d` stands for `ran.Int63n(weightSum)`, which panics
    unless `weightSum` is positive and otherwise lies below it; `order` is the
    order in which this run's `range` visits the children. The running total
    of the edge weights is compared with the draw, and the first key whose
    running total exceeds it is returned; "" when none does. Whenever the
    node's own `weightSum` is the total of its edge weights and both maps have
    the same keys, the result is always a child.
  */
  method NextWord(n: Node, d: nat, order: seq<string>) returns (word: string)
    requires 0 < n.weightSum && d < n.weightSum
    requires Enumerates(order, n.children.Keys)
    ensures word == Pick(n.childWeights, order, d)
    ensures || (word == "" && Cum(n.childWeights, order) <= d)
            || exists j :: 0 <= j < |order| && word == order[j]
                 && Cum(n.childWeights, order[..j]) <= d < Cum(n.childWeights, order[..j + 1])
    ensures n.children.Keys == n.childWeights.Keys && n.weightSum == Sum(n.childWeights) ==> word in n.children
  {
    var currWeight: nat := 0;
    var i := 0;
    word := "";
    while i < |order|
      invariant 0 <= i <= |order|
      invariant Pick(n.childWeights, order, d) == PickFrom(n.childWeights, order, d, i, currWeight)
    {
      var key := order[i];
      currWeight := currWeight + Get(n.childWeights, key);
      if d < currWeight {
        word := key;
        break;
      }
      i := i + 1;
    }
    PickFirstExceeding(n.childWeights, order, d);
    if n.children.Keys == n.childWeights.Keys && n.weightSum == Sum(n.childWeights) {
      PickIsKey(n.childWeights, order, d);
    }
  }
}
