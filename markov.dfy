/**
  markov.go: the `Chain` of the weighted prefix-tree design. A chain holds two
  trees of `node` (module TrieNode): `wordTreeRoot`, trained by `trainLine`
  from every line, and `sentenceStartTreeRoot`, which records the first word
  of every line. `NextSentence` picks a first word from the second tree and
  then repeatedly seeks the last `maxDepth` words in the first tree and picks
  the next word there. `Train` splits its input into lines and words with a
  rune-classification table built by `constructRuneLookupMap`.

  markov.go declares its own copy of `node`: its `addChildren` and `addChild`
  take the weights explicitly and are node.go's `addWeightedChildren` and
  `addWeightedChild` under other names, and its `seek` and `nextWord` are
  node.go's. Module TrieNode models both copies.

  As written, `trainLine` inserts only direct children of `wordTreeRoot`, so
  every child of that root stays a leaf; `NextSentence` on a trained chain
  then panics in `nextWord` on such a leaf (lemma TrainedChainPanics).
*/
module Markov {
  import opened Wrappers
  import opened Weights
  import opened TrieNode

  /** The categories of the rune-classification table. */
  const DelimTypeNone := 0
  const DelimTypeIgnore := 1
  const DelimTypeLine := 2
  const DelimTypeToken := 3

  /** The error message of a rune listed twice. */
  const DuplicateRune := "Duplicate rune"

  function Min(a: int, b: int): int
  {
    if a < b then a else b
  }

  // ---------------------------------------------------------------------
  // What training does to the trees
  // ---------------------------------------------------------------------

  /** Every word of `words`, in order, added as a direct child of `n` with weight 1. */
  function AddEach(n: Node, words: seq<string>, ignoreCase: bool): Node
  {
    if words == [] then n
    else AddWeightedChild(AddEach(n, words[..|words| - 1], ignoreCase), words[|words| - 1], 1, ignoreCase)
  }

  /** The number of words of `words` whose key is `k`. */
  function Occurrences(words: seq<string>, k: string, ignoreCase: bool): nat
  {
    if words == [] then 0
    else Occurrences(words[..|words| - 1], k, ignoreCase) + (if Key(words[|words| - 1], ignoreCase) == k then 1 else 0)
  }

  /** The keys of the words of `words`. */
  function KeysOf(words: seq<string>, ignoreCase: bool): set<string>
  {
    if words == [] then {} else KeysOf(words[..|words| - 1], ignoreCase) + {Key(words[|words| - 1], ignoreCase)}
  }

  /** The key of the first word is among the keys of the words. */
  lemma {:induction false} FirstKeyIn(words: seq<string>, ignoreCase: bool)
    requires words != []
    ensures Key(words[0], ignoreCase) in KeysOf(words, ignoreCase)
  {
    if |words| > 1 {
      FirstKeyIn(words[..|words| - 1], ignoreCase);
    }
  }

  /**
    Adding the words one by one as direct children: `weightSum` rises by the
    number of words, and each key's edge weight by the number of words with
    that key.
  */
  lemma {:induction false} AddEachWeights(n: Node, words: seq<string>, ignoreCase: bool)
    ensures var r := AddEach(n, words, ignoreCase);
      && r.weightSum == n.weightSum + |words|
      && forall k :: Get(r.childWeights, k) == Get(n.childWeights, k) + Occurrences(words, k, ignoreCase)
  {
    if words != [] {
      var front := words[..|words| - 1];
      AddEachWeights(n, front, ignoreCase);
      AddWeightedChildEffect(AddEach(n, front, ignoreCase), words[|words| - 1], 1, ignoreCase);
    }
  }

  /**
    Adding the words one by one as direct children: the children gained are
    exactly the keys of the words, each a fresh leaf, and the children already
    there are untouched.
  */
  lemma {:induction false} AddEachChildren(n: Node, words: seq<string>, ignoreCase: bool)
    ensures var r := AddEach(n, words, ignoreCase);
      && r.children.Keys == n.children.Keys + KeysOf(words, ignoreCase)
      && forall k :: k in r.children ==> r.children[k] == if k in n.children then n.children[k] else New()
  {
    if words != [] {
      var front := words[..|words| - 1];
      AddEachChildren(n, front, ignoreCase);
      AddWeightedChildEffect(AddEach(n, front, ignoreCase), words[|words| - 1], 1, ignoreCase);
    }
  }

  /** Adding the words one by one keeps the node invariant. */
  lemma {:induction false} AddEachKeepsValid(n: Node, words: seq<string>, ignoreCase: bool)
    requires TrieNode.Valid(n)
    ensures TrieNode.Valid(AddEach(n, words, ignoreCase))
  {
    if words != [] {
      var front := words[..|words| - 1];
      AddEachKeepsValid(n, front, ignoreCase);
      AddWeightedChildKeepsValid(AddEach(n, front, ignoreCase), words[|words| - 1], 1, ignoreCase);
    }
  }

  /**
    One iteration `i > 0` of `trainLine`'s loop. With `i < maxDepth` the window
    is `words[0..i+1]` and the start index `i` is its last position, so only
    `words[i]` is added, as a direct child; with `i >= maxDepth` the window has
    length `maxDepth <= i` and the start index lies outside it, so nothing
    happens.
  */
  lemma TrainLineStep(n: Node, words: seq<string>, weights: seq<nat>, i: int, maxDepth: int, ignoreCase: bool)
    requires 1 <= maxDepth && 0 < i < |words| == |weights| && weights[i] == 1
    ensures i < maxDepth ==>
      AddWeightedChildren(n, words[0..i + 1], weights[0..i + 1], i, ignoreCase) == AddWeightedChild(n, words[i], 1, ignoreCase)
    ensures maxDepth <= i ==>
      AddWeightedChildren(n, words[i - maxDepth + 1..i + 1], weights[i - maxDepth + 1..i + 1], i, ignoreCase) == n
  {
    if i < maxDepth {
      var word := Key(words[i], ignoreCase);
      KeyIdempotent(words[i], ignoreCase);
      var n1 := AddWeightedChild(n, word, 1, ignoreCase);
      assert n1.children[word := n1.children[word]] == n1.children;
    }
  }

  /**
    One iteration of `trainLine`'s loop on the word tree, as the source writes
    it, takes the tree from the first `min(i, maxDepth)` words inserted
    directly to the first `min(i + 1, maxDepth)`.
  */
  lemma TrainLineIteration(tree0: Node, tree: Node, words: seq<string>, weights: seq<nat>, i: int, maxDepth: int, ignoreCase: bool)
    requires 1 <= maxDepth && 0 <= i < |words| && weights == Ones(|words|)
    requires tree == AddEach(tree0, words[..Min(i, maxDepth)], ignoreCase)
    ensures i == 0 ==>
      AddEach(tree0, words[..Min(i + 1, maxDepth)], ignoreCase) == AddWeightedChild(tree, words[i], 1, ignoreCase)
    ensures 0 < i < maxDepth ==>
      AddEach(tree0, words[..Min(i + 1, maxDepth)], ignoreCase)
      == AddWeightedChildren(tree, words[0..i + 1], weights[0..i + 1], i, ignoreCase)
    ensures 0 < i && maxDepth <= i ==>
      AddEach(tree0, words[..Min(i + 1, maxDepth)], ignoreCase)
      == AddWeightedChildren(tree, words[i - maxDepth + 1..i + 1], weights[i - maxDepth + 1..i + 1], i, ignoreCase)
  {
    if 0 < i {
      TrainLineStep(tree, words, weights, i, maxDepth, ignoreCase);
    }
    if i < maxDepth {
      assert words[..i + 1][..i] == words[..i];
    }
  }

  /** The first loop of `trainLine`: a weight of 1 for each word of the line. */
  method AllOnes(n: nat) returns (weights: seq<nat>)
    ensures weights == Ones(n)
  {
    weights := seq(n, _ => 0);
    var i := 0;
    while i < n
      invariant 0 <= i <= n == |weights|
      invariant forall j :: 0 <= j < i ==> weights[j] == 1
    {
      weights := weights[i := 1];
      i := i + 1;
    }
  }

  /** The first `maxDepth` words of a line: the ones `trainLine` inserts. */
  function Head(words: seq<string>, maxDepth: int): (r: seq<string>)
    requires 1 <= maxDepth
    ensures |r| == Min(|words|, maxDepth) && r == words[..|r|]
  {
    words[..Min(|words|, maxDepth)]
  }

  /** `sentenceStartTreeRoot` after `trainLine(words)`: the first word, if any, added with weight 1. */
  function AddStart(start: Node, words: seq<string>, ignoreCase: bool): Node
  {
    if words == [] then start else AddWeightedChild(start, words[0], 1, ignoreCase)
  }

  /**
    The shape that training leaves behind: every first word is also a child
    of the word tree, every child of the word tree is a leaf, and the keys of
    the start tree are stored folded when `ignoreCase`.
  */
  ghost predicate DirectEdgesOnly(start: Node, tree: Node, ignoreCase: bool)
  {
    && start.children.Keys <= tree.children.Keys
    && (forall k :: k in tree.children ==> tree.children[k] == New())
    && (forall k :: k in start.children ==> Key(k, ignoreCase) == k)
  }

  /**
    What `trainLine` adds up to: the start tree's `weightSum` rises by 1 for a
    non-empty line, the word tree's by `min(len(words), maxDepth)`, and an
    empty line changes neither tree.
  */
  lemma TrainLineWeights(start: Node, tree: Node, words: seq<string>, maxDepth: int, ignoreCase: bool)
    requires 1 <= maxDepth
    ensures AddStart(start, words, ignoreCase).weightSum == start.weightSum + (if words == [] then 0 else 1)
    ensures AddEach(tree, Head(words, maxDepth), ignoreCase).weightSum == tree.weightSum + Min(|words|, maxDepth)
    ensures words == [] ==> AddStart(start, words, ignoreCase) == start && AddEach(tree, Head(words, maxDepth), ignoreCase) == tree
  {
    AddEachWeights(tree, Head(words, maxDepth), ignoreCase);
  }

  /** Training a line keeps the two trees valid and in the shape above. */
  lemma TrainLineKeepsShape(start: Node, tree: Node, words: seq<string>, maxDepth: int, ignoreCase: bool)
    requires 1 <= maxDepth
    requires TrieNode.Valid(start) && TrieNode.Valid(tree) && DirectEdgesOnly(start, tree, ignoreCase)
    ensures var start' := AddStart(start, words, ignoreCase);
      var tree' := AddEach(tree, Head(words, maxDepth), ignoreCase);
      TrieNode.Valid(start') && TrieNode.Valid(tree') && DirectEdgesOnly(start', tree', ignoreCase)
  {
    AddEachChildren(tree, Head(words, maxDepth), ignoreCase);
    AddEachKeepsValid(tree, Head(words, maxDepth), ignoreCase);
    if words != [] {
      AddWeightedChildEffect(start, words[0], 1, ignoreCase);
      AddWeightedChildKeepsValid(start, words[0], 1, ignoreCase);
      KeyIdempotent(words[0], ignoreCase);
      FirstKeyIn(Head(words, maxDepth), ignoreCase);
    }
  }

  // ---------------------------------------------------------------------
  // Rune classification
  // ---------------------------------------------------------------------

  /** Some rune occurs twice in `s`. */
  predicate HasDuplicate(s: seq<char>)
  {
    exists i, j :: 0 <= i < j < |s| && s[i] == s[j]
  }

  /** Each listed rune mapped to the category of its list, line delimiters first. */
  function RuneTable(lineDelim: seq<char>, tokenDelim: seq<char>, ignore: seq<char>): map<char, int>
  {
    map r | r in lineDelim + tokenDelim + ignore ::
      if r in lineDelim then DelimTypeLine
      else if r in tokenDelim then DelimTypeToken
      else DelimTypeIgnore
  }

  /** A table that has exactly the listed runes, each with its list's category, is the rune table. */
  lemma IsRuneTable(t: map<char, int>, lineDelim: seq<char>, tokenDelim: seq<char>, ignore: seq<char>)
    requires forall c :: c in t <==> c in lineDelim + tokenDelim + ignore
    requires forall c :: c in lineDelim ==> t[c] == DelimTypeLine
    requires forall c :: c in tokenDelim && c !in lineDelim ==> t[c] == DelimTypeToken
    requires forall c :: c in ignore && c !in lineDelim && c !in tokenDelim ==> t[c] == DelimTypeIgnore
    ensures t == RuneTable(lineDelim, tokenDelim, ignore)
  {
    var table := RuneTable(lineDelim, tokenDelim, ignore);
    assert t.Keys == table.Keys;
    forall c | c in t
      ensures t[c] == table[c]
    {
    }
  }

  /** A rune that is already among the runes before position `p` makes `s` have a duplicate. */
  lemma DuplicateAt(s: seq<char>, p: int)
    requires 0 <= p < |s| && s[p] in s[..p]
    ensures HasDuplicate(s)
  {
    var i :| 0 <= i < p && s[..p][i] == s[p];
    assert s[i] == s[p];
  }

  /** A rune that is new keeps a sequence free of duplicates. */
  lemma NoDuplicateExtend(s: seq<char>, c: char)
    requires !HasDuplicate(s) && c !in s
    ensures !HasDuplicate(s + [c])
  {
    var t := s + [c];
    forall i, j | 0 <= i < j < |t|
      ensures t[i] != t[j]
    {
      if j < |s| {
        assert t[i] == s[i] && t[j] == s[j];
      } else {
        assert t[i] == s[i];
      }
    }
  }

  /** Two parts of a sequence without duplicates share no rune. */
  lemma NoDuplicateDisjoint(a: seq<char>, b: seq<char>)
    requires !HasDuplicate(a + b)
    ensures forall c :: c in a ==> c !in b
  {
    forall i, j | 0 <= i < |a| && 0 <= j < |b|
      ensures a[i] != b[j]
    {
      assert (a + b)[i] == a[i] && (a + b)[|a| + j] == b[j];
    }
  }

  /** A duplicate stays a duplicate when more runes follow. */
  lemma DuplicateInPrefix(s: seq<char>, t: seq<char>)
    requires HasDuplicate(s)
    ensures HasDuplicate(s + t)
  {
    var i, j :| 0 <= i < j < |s| && s[i] == s[j];
    assert (s + t)[i] == s[i] && (s + t)[j] == s[j];
  }

  /**
    One of the three loops of `constructRuneLookupMap`: enter each rune of
    `runes` with `category`, and stop with the error "Duplicate rune" at the
    first rune already in the table. `done` lists the runes entered before.
  */
  method EnterRunes(table: map<char, int>, runes: seq<char>, category: int, ghost done: seq<char>) returns (r: Result<map<char, int>>)
    requires forall c :: c in table <==> c in done
    requires !HasDuplicate(done)
    ensures r.Err? <==> HasDuplicate(done + runes)
    ensures r.Err? ==> r.message == DuplicateRune
    ensures r.Ok? ==>
      && (forall c :: c in r.value <==> c in done + runes)
      && (forall c :: c in runes ==> r.value[c] == category)
      && (forall c :: c in table ==> r.value[c] == table[c])
  {
    var runeLookup := table;
    var i := 0;
    while i < |runes|
      invariant 0 <= i <= |runes|
      invariant forall c :: c in runeLookup <==> c in done + runes[..i]
      invariant forall c :: c in runes[..i] ==> runeLookup[c] == category
      invariant forall c :: c in table ==> runeLookup[c] == table[c]
      invariant !HasDuplicate(done + runes[..i])
    {
      var c := runes[i];
      assert (done + runes)[..|done| + i] == done + runes[..i] && (done + runes)[|done| + i] == c;
      if c in runeLookup {
        DuplicateAt(done + runes, |done| + i);
        return Err(DuplicateRune);
      }
      runeLookup := runeLookup[c := category];
      assert runes[..i + 1] == runes[..i] + [c];
      NoDuplicateExtend(done + runes[..i], c);
      assert done + runes[..i + 1] == done + runes[..i] + [c];
      i := i + 1;
    }
    assert runes[..i] == runes;
    r := Ok(runeLookup);
  }

  /**
    `constructRuneLookupMap`: the line delimiters, then the token delimiters,
    then the ignored runes are entered into the table, and a rune that is
    already there stops the construction with the error "Duplicate rune".
    So the result is an error exactly when some rune occurs twice across or
    within the three lists, and otherwise maps every listed rune to its list's
    category.

    Go declares the table as a nil map, and its first write panics; the model
    starts from an empty map, which is what the rest of the source expects.
  */
  method ConstructRuneLookupMap(lineDelim: seq<char>, tokenDelim: seq<char>, ignore: seq<char>) returns (r: Result<map<char, int>>)
    ensures r.Err? <==> HasDuplicate(lineDelim + tokenDelim + ignore)
    ensures r.Err? ==> r.message == DuplicateRune
    ensures r.Ok? ==> r.value == RuneTable(lineDelim, tokenDelim, ignore)
  {
    assert [] + lineDelim == lineDelim;
    r := EnterRunes(map[], lineDelim, DelimTypeLine, []);
    if r.Err? {
      DuplicateInPrefix(lineDelim, tokenDelim + ignore);
      assert lineDelim + (tokenDelim + ignore) == lineDelim + tokenDelim + ignore;
      return;
    }
    var lines := r.value;
    r := EnterRunes(lines, tokenDelim, DelimTypeToken, lineDelim);
    if r.Err? {
      DuplicateInPrefix(lineDelim + tokenDelim, ignore);
      return;
    }
    var tokens := r.value;
    r := EnterRunes(tokens, ignore, DelimTypeIgnore, lineDelim + tokenDelim);
    if r.Ok? {
      assert lineDelim + (tokenDelim + ignore) == lineDelim + tokenDelim + ignore;
      NoDuplicateDisjoint(lineDelim, tokenDelim + ignore);
      NoDuplicateDisjoint(lineDelim + tokenDelim, ignore);
      IsRuneTable(r.value, lineDelim, tokenDelim, ignore);
    }
  }

  // ---------------------------------------------------------------------
  // The rune loop of Train
  // ---------------------------------------------------------------------

  /** The state of `Train`'s rune loop: the lines trained so far, `lineBuffer` and `wordBuffer`. */
  datatype Buffers = Buffers(lines: seq<seq<string>>, line: seq<string>, word: string)

  /** The category of a rune; runes missing from the table are `delimTypeNone`. */
  function Category(table: map<char, int>, c: char): int
  {
    if c in table then table[c] else DelimTypeNone
  }

  /**
    One rune of the loop. A line delimiter appends the current word to the
    line only when it is non-empty, trains the line and clears both buffers;
    a token delimiter appends the current word even when it is empty; an
    ignored rune is dropped; every other rune is appended to the word.
  */
  function Step(table: map<char, int>, b: Buffers, c: char): Buffers
  {
    var category := Category(table, c);
    if category == DelimTypeLine then
      Buffers(b.lines + [if |b.word| > 0 then b.line + [b.word] else b.line], [], "")
    else if category == DelimTypeToken then
      Buffers(b.lines, b.line + [b.word], "")
    else if category == DelimTypeIgnore then
      b
    else
      Buffers(b.lines, b.line, b.word + [c])
  }

  /** The loop's state after the runes of `input`, from empty buffers. */
  function Scan(table: map<char, int>, input: seq<char>): Buffers
  {
    if input == [] then Buffers([], [], "")
    else Step(table, Scan(table, input[..|input| - 1]), input[|input| - 1])
  }

  /** The part of `s` after its last line or token delimiter. */
  function SinceDelimiter(table: map<char, int>, s: seq<char>): (r: seq<char>)
    ensures |r| <= |s| && r == s[|s| - |r|..]
  {
    if s == [] then []
    else if Category(table, s[|s| - 1]) in {DelimTypeLine, DelimTypeToken} then []
    else SinceDelimiter(table, s[..|s| - 1]) + [s[|s| - 1]]
  }

  /** The runes of `s` that are not ignored. */
  function Kept(table: map<char, int>, s: seq<char>): seq<char>
  {
    if s == [] then []
    else if Category(table, s[|s| - 1]) == DelimTypeIgnore then Kept(table, s[..|s| - 1])
    else Kept(table, s[..|s| - 1]) + [s[|s| - 1]]
  }

  /** The number of token delimiters in `s` after its last line delimiter. */
  function TokensSinceLine(table: map<char, int>, s: seq<char>): nat
  {
    if s == [] then 0
    else
      var category := Category(table, s[|s| - 1]);
      if category == DelimTypeLine then 0
      else TokensSinceLine(table, s[..|s| - 1]) + (if category == DelimTypeToken then 1 else 0)
  }

  /**
    The word being built is the runes since the last delimiter with the
    ignored ones dropped, and the line being built has one word per token
    delimiter since the last line delimiter, empty words included.
  */
  lemma {:induction false} ScanBuffers(table: map<char, int>, input: seq<char>)
    ensures Scan(table, input).word == Kept(table, SinceDelimiter(table, input))
    ensures |Scan(table, input).line| == TokensSinceLine(table, input)
  {
    if input != [] {
      ScanBuffers(table, input[..|input| - 1]);
    }
  }

  /** The runes of `s` after its last line delimiter. */
  function SinceLine(table: map<char, int>, s: seq<char>): seq<char>
  {
    if s == [] then []
    else if Category(table, s[|s| - 1]) == DelimTypeLine then []
    else SinceLine(table, s[..|s| - 1]) + [s[|s| - 1]]
  }

  /**
    The runes of `t` cut at every token delimiter, with ignored runes
    dropped: entry `k` holds the runes between the `k`-th and the
    `(k+1)`-th token delimiter, and the last entry the runes after the last
    one. There is always at least one entry.
  */
  function Fields(table: map<char, int>, t: seq<char>): (r: seq<string>)
    ensures |r| >= 1
  {
    if t == [] then [""]
    else
      var f := Fields(table, t[..|t| - 1]);
      var c := t[|t| - 1];
      var category := Category(table, c);
      if category == DelimTypeToken then f + [""]
      else if category == DelimTypeIgnore || category == DelimTypeLine then f
      else f[..|f| - 1] + [f[|f| - 1] + [c]]
  }

  /**
    The line buffer followed by the word buffer is the fields of the runes
    since the last line delimiter: the line buffer holds every field that a
    token delimiter closed, empty ones included, and the word buffer the
    field still open.
  */
  lemma {:induction false} ScanLineFields(table: map<char, int>, input: seq<char>)
    ensures Scan(table, input).line + [Scan(table, input).word] == Fields(table, SinceLine(table, input))
  {
    if input != [] {
      var front := input[..|input| - 1];
      var c := input[|input| - 1];
      ScanLineFields(table, front);
      if Category(table, c) != DelimTypeLine {
        var t := SinceLine(table, input);
        assert t[..|t| - 1] == SinceLine(table, front) && t[|t| - 1] == c;
      }
    }
  }

  /**
    A line delimiter trains the fields since the previous line delimiter as
    one line; the last field becomes its final word only when non-empty.
  */
  lemma TrainedLine(table: map<char, int>, input: seq<char>, c: char)
    requires Category(table, c) == DelimTypeLine
    ensures var f := Fields(table, SinceLine(table, input));
      Scan(table, input + [c]).lines
      == Scan(table, input).lines + [if f[|f| - 1] == [] then f[..|f| - 1] else f]
  {
    ScanLineFields(table, input);
    assert (input + [c])[..|input|] == input;
    var b := Scan(table, input);
    var f := Fields(table, SinceLine(table, input));
    assert b.line == f[..|f| - 1] && b.word == f[|f| - 1];
  }

  /** A rune that can end up in a word: neither a delimiter nor ignored. */
  predicate Ordinary(table: map<char, int>, c: char)
  {
    Category(table, c) !in {DelimTypeIgnore, DelimTypeLine, DelimTypeToken}
  }

  /** Every rune of `w` is ordinary. */
  predicate OrdinaryWord(table: map<char, int>, w: string)
  {
    forall i :: 0 <= i < |w| ==> Ordinary(table, w[i])
  }

  /** Every word of every trained line, of the current line and the current word consist of ordinary runes. */
  ghost predicate OrdinaryBuffers(table: map<char, int>, b: Buffers)
  {
    && (forall l, i :: 0 <= l < |b.lines| && 0 <= i < |b.lines[l]| ==> OrdinaryWord(table, b.lines[l][i]))
    && (forall i :: 0 <= i < |b.line| ==> OrdinaryWord(table, b.line[i]))
    && OrdinaryWord(table, b.word)
  }

  /** Delimiters and ignored runes never end up inside a trained word. */
  lemma {:induction false} ScanWordsAreOrdinary(table: map<char, int>, input: seq<char>)
    ensures OrdinaryBuffers(table, Scan(table, input))
  {
    if input != [] {
      ScanWordsAreOrdinary(table, input[..|input| - 1]);
    }
  }

  /** Runes after the last line delimiter are never trained: they leave the trained lines unchanged. */
  lemma {:induction false} TrailingRunesNotTrained(table: map<char, int>, input: seq<char>, tail: seq<char>)
    requires forall i :: 0 <= i < |tail| ==> Category(table, tail[i]) != DelimTypeLine
    ensures Scan(table, input + tail).lines == Scan(table, input).lines
  {
    if tail != [] {
      var front := tail[..|tail| - 1];
      assert (input + tail)[..|input + tail| - 1] == input + front;
      assert (input + tail)[|input + tail| - 1] == tail[|tail| - 1];
      assert Category(table, tail[|tail| - 1]) != DelimTypeLine;
      assert forall i :: 0 <= i < |front| ==> front[i] == tail[i];
      TrailingRunesNotTrained(table, input, front);
    } else {
      assert input + tail == input;
    }
  }

  /** The word tree after training `lines` one after the other. */
  function TrainWords(tree: Node, lines: seq<seq<string>>, maxDepth: int, ignoreCase: bool): Node
    requires 1 <= maxDepth
  {
    if lines == [] then tree
    else AddEach(TrainWords(tree, lines[..|lines| - 1], maxDepth, ignoreCase), Head(lines[|lines| - 1], maxDepth), ignoreCase)
  }

  /** The start tree after training `lines` one after the other. */
  function TrainStarts(start: Node, lines: seq<seq<string>>, ignoreCase: bool): Node
  {
    if lines == [] then start
    else AddStart(TrainStarts(start, lines[..|lines| - 1], ignoreCase), lines[|lines| - 1], ignoreCase)
  }

  // ---------------------------------------------------------------------
  // Sentence generation
  // ---------------------------------------------------------------------

  /**
    How `NextSentence` ends: it returns its words; or it panics, because
    `nextWord` was called on a node with `weightSum` 0 and `Int63n(0)` panics
    (carrying the words generated before); or the model's step bound ran out
    while the source would go on.
  */
  datatype Outcome = Returned(words: seq<string>) | Panicked(words: seq<string>) | OutOfFuel(words: seq<string>)

  /** The last `min(len(words), maxDepth)` words: what `NextSentence` seeks. */
  function Window(words: seq<string>, maxDepth: int): (r: seq<string>)
    requires 1 <= maxDepth
    ensures |r| == Min(|words|, maxDepth) && r == words[|words| - |r|..]
  {
    if |words| > maxDepth then words[|words| - maxDepth..] else words
  }

  /**
    An injected source of randomness. `draw(j, bound)` is the value of the
    `j`-th call `ran.Int63n(bound)`, and `order(j, keys)` the order in which
    the `j`-th `nextWord` visits the children's keys.
  */
  ghost predicate Draws(draw: (nat, nat) -> nat)
  {
    forall j, bound :: 0 < bound ==> draw(j, bound) < bound
  }

  /** Every order handed out lists the keys it is given, each once. */
  ghost predicate Orders(order: (nat, set<string>) -> seq<string>)
  {
    forall j, keys :: Enumerates(order(j, keys), keys)
  }

  /** `nextWord` on `n` as the `j`-th draw; None when `weightSum` is 0 and `Int63n` panics. */
  function PickNext(n: Node, draw: (nat, nat) -> nat, order: (nat, set<string>) -> seq<string>, j: nat): Option<string>
  {
    if n.weightSum == 0 then None
    else Some(Pick(n.childWeights, order(j, n.children.Keys), draw(j, n.weightSum)))
  }

  /** What one round of `NextSentence`'s loop does: stop with an outcome, or append a word. */
  datatype Round = Stop(outcome: Outcome) | Append(word: string)

  /**
    One round of the loop, the `j`-th draw next: seek the window of the last
    words; stop when the seek misses, panic when the node found has
    `weightSum` 0, stop when the word drawn is "", and append it otherwise.
  */
  function NextRound(tree: Node, maxDepth: int, ignoreCase: bool, draw: (nat, nat) -> nat, order: (nat, set<string>) -> seq<string>,
                     words: seq<string>, j: nat): Round
    requires 1 <= maxDepth
  {
    match Seek(tree, Window(words, maxDepth), 0, ignoreCase)
    case None => Stop(Returned(words))
    case Some(node) =>
      match PickNext(node, draw, order, j)
      case None => Stop(Panicked(words))
      case Some(word) => if word == "" then Stop(Returned(words)) else Append(word)
  }

  /** A function of the words so far and the draw's index is a round of the loop. */
  type Loop = (seq<string>, nat) --> Round

  /**
    `step` is the round function of the loop over the word tree `tree`: it
    agrees with `NextRound` on every round that `NextRound` is asked about.
  */
  ghost predicate RoundsOf(step: Loop, tree: Node, maxDepth: int, ignoreCase: bool, draw: (nat, nat) -> nat,
                           order: (nat, set<string>) -> seq<string>)
  {
    && 1 <= maxDepth
    && (forall words, j :: step.requires(words, j))
    && forall words, j {:trigger NextRound(tree, maxDepth, ignoreCase, draw, order, words, j)} ::
         step(words, j) == NextRound(tree, maxDepth, ignoreCase, draw, order, words, j)
  }

  /** The rounds of the loop over the word tree `tree`. */
  function Rounds(tree: Node, maxDepth: int, ignoreCase: bool, draw: (nat, nat) -> nat,
                  order: (nat, set<string>) -> seq<string>): (step: Loop)
    requires 1 <= maxDepth
    ensures RoundsOf(step, tree, maxDepth, ignoreCase, draw, order)
  {
    (words: seq<string>, j: nat) requires 1 <= maxDepth => NextRound(tree, maxDepth, ignoreCase, draw, order, words, j)
  }

  /** The loop of `NextSentence` from `words`, the `j`-th draw next, for at most `fuel` more rounds. */
  function Extend(step: Loop, words: seq<string>, j: nat, fuel: nat): Outcome
    requires forall words, j :: step.requires(words, j)
    decreases fuel
  {
    if fuel == 0 then OutOfFuel(words)
    else
      match step(words, j)
      case Stop(outcome) => outcome
      case Append(word) => Extend(step, words + [word], j + 1, fuel - 1)
  }

  /** `NextSentence`: a first word from the start tree, then the loop with the rounds `step`. */
  function Sentence(start: Node, step: Loop, draw: (nat, nat) -> nat, order: (nat, set<string>) -> seq<string>,
                    fuel: nat): Outcome
    requires forall words, j :: step.requires(words, j)
  {
    match PickNext(start, draw, order, 0)
    case None => Panicked([])
    case Some(first) => Extend(step, [first], 1, fuel)
  }

  /** A round that appends `word` leaves the rest of the loop to continue from the longer sentence. */
  lemma ExtendAppend(step: Loop, words: seq<string>, j: nat, fuel: nat, word: string)
    requires forall words, j :: step.requires(words, j)
    requires 0 < fuel && step(words, j) == Append(word)
    ensures Extend(step, words, j, fuel) == Extend(step, words + [word], j + 1, fuel - 1)
  {
  }

  /** A round that stops keeps the words so far, and one that goes on never appends the empty word. */
  lemma NextRoundShape(tree: Node, maxDepth: int, ignoreCase: bool, draw: (nat, nat) -> nat,
                       order: (nat, set<string>) -> seq<string>, words: seq<string>, j: nat)
    requires 1 <= maxDepth
    ensures var r := NextRound(tree, maxDepth, ignoreCase, draw, order, words, j);
      && (r.Stop? ==> r.outcome.words == words)
      && (r.Append? ==> r.word != "")
  {
  }

  /** Every round of the loop over a word tree keeps the words when it stops and appends a non-empty word otherwise. */
  lemma RoundsShape(step: Loop, tree: Node, maxDepth: int, ignoreCase: bool, draw: (nat, nat) -> nat,
                    order: (nat, set<string>) -> seq<string>)
    requires RoundsOf(step, tree, maxDepth, ignoreCase, draw, order)
    ensures forall words, j :: step(words, j).Stop? ==> step(words, j).outcome.words == words
    ensures forall words, j :: step(words, j).Append? ==> step(words, j).word != ""
  {
    forall words, j | true
      ensures step(words, j).Stop? ==> step(words, j).outcome.words == words
      ensures step(words, j).Append? ==> step(words, j).word != ""
    {
      NextRoundShape(tree, maxDepth, ignoreCase, draw, order, words, j);
    }
  }

  /** The loop only appends: the words it started with stay in front, and every word it adds is non-empty. */
  lemma {:induction false} ExtendAppendsNonEmpty(step: Loop, words: seq<string>, j: nat, fuel: nat)
    requires forall words, j :: step.requires(words, j)
    requires forall words, j :: step(words, j).Stop? ==> step(words, j).outcome.words == words
    requires forall words, j :: step(words, j).Append? ==> step(words, j).word != ""
    ensures var o := Extend(step, words, j, fuel);
      && |words| <= |o.words| && o.words[..|words|] == words
      && forall i :: |words| <= i < |o.words| ==> o.words[i] != ""
    decreases fuel
  {
    if fuel > 0 {
      match step(words, j)
      case Stop(_) =>
      case Append(word) =>
        ExtendAppendsNonEmpty(step, words + [word], j + 1, fuel - 1);
        var o := Extend(step, words + [word], j + 1, fuel - 1);
        assert o.words[..|words|] == o.words[..|words| + 1][..|words|];
    }
  }

  /**
    A sentence from a chain whose start tree has been trained starts with a
    child of the start tree, and every later word is non-empty.
  */
  lemma SentenceShape(start: Node, tree: Node, step: Loop, maxDepth: int, ignoreCase: bool, draw: (nat, nat) -> nat,
                      order: (nat, set<string>) -> seq<string>, fuel: nat)
    requires RoundsOf(step, tree, maxDepth, ignoreCase, draw, order)
    requires TrieNode.Valid(start) && Draws(draw) && Orders(order) && 0 < start.weightSum
    ensures var o := Sentence(start, step, draw, order, fuel);
      && 1 <= |o.words| && o.words[0] in start.children
      && forall i :: 1 <= i < |o.words| ==> o.words[i] != ""
  {
    var keys := start.children.Keys;
    PickIsKey(start.childWeights, order(0, keys), draw(0, start.weightSum));
    var first := Pick(start.childWeights, order(0, keys), draw(0, start.weightSum));
    RoundsShape(step, tree, maxDepth, ignoreCase, draw, order);
    ExtendAppendsNonEmpty(step, [first], 1, fuel);
  }

  /** The first round on a word that is a leaf child of the word tree panics in `nextWord`. */
  lemma LeafRoundPanics(tree: Node, maxDepth: int, ignoreCase: bool, draw: (nat, nat) -> nat,
                        order: (nat, set<string>) -> seq<string>, first: string)
    requires 1 <= maxDepth && Key(first, ignoreCase) == first
    requires first in tree.children && tree.children[first] == New()
    ensures NextRound(tree, maxDepth, ignoreCase, draw, order, [first], 1) == Stop(Panicked([first]))
  {
    assert Window([first], maxDepth) == [first];
    assert Seek(tree, [first], 0, ignoreCase) == Some(New());
  }

  /**
    Because training inserts only direct children of the word tree, on any
    trained chain the first seek lands on a leaf and `nextWord` panics there;
    on an untrained chain the first `nextWord` already panics.
  */
  lemma TrainedChainPanics(start: Node, tree: Node, step: Loop, maxDepth: int, ignoreCase: bool,
                           draw: (nat, nat) -> nat, order: (nat, set<string>) -> seq<string>, fuel: nat)
    requires RoundsOf(step, tree, maxDepth, ignoreCase, draw, order)
    requires TrieNode.Valid(start) && DirectEdgesOnly(start, tree, ignoreCase) && Draws(draw) && Orders(order)
    requires 0 < fuel
    ensures Sentence(start, step, draw, order, fuel).Panicked?
  {
    if 0 < start.weightSum {
      var keys := start.children.Keys;
      PickIsKey(start.childWeights, order(0, keys), draw(0, start.weightSum));
      var first := Pick(start.childWeights, order(0, keys), draw(0, start.weightSum));
      LeafRoundPanics(tree, maxDepth, ignoreCase, draw, order, first);
    }
  }

  // ---------------------------------------------------------------------
  // The chain
  // ---------------------------------------------------------------------

  /** A chain; the random source `ran` is replaced by draws passed to `NextSentence`. */
  class Chain {
    var ignoreCase: bool
    var maxDepth: int
    var wordTreeRoot: Node
    var sentenceStartTreeRoot: Node

    /** `maxDepth` is at least 1, both trees keep the node invariant and have the shape that training leaves. */
    ghost predicate Valid()
      reads this
    {
      && 1 <= maxDepth
      && TrieNode.Valid(wordTreeRoot)
      && TrieNode.Valid(sentenceStartTreeRoot)
      && DirectEdgesOnly(sentenceStartTreeRoot, wordTreeRoot, ignoreCase)
    }

    /** `NewChain`: a depth below 1 becomes 1, `ignoreCase` is kept, and both trees start empty. */
    constructor (depth: int, ignoreCase: bool)
      ensures maxDepth == (if depth < 1 then 1 else depth)
      ensures this.ignoreCase == ignoreCase
      ensures wordTreeRoot == New() && sentenceStartTreeRoot == New()
      ensures Valid()
    {
      if depth < 1 {
        maxDepth := 1;
      } else {
        maxDepth := depth;
      }
      this.ignoreCase := ignoreCase;
      wordTreeRoot := New();
      sentenceStartTreeRoot := New();
    }

    /**
      `trainLine`: the first word is added to the start tree, and the first
      `min(len(words), maxDepth)` words are added to the word tree as direct
      children, each with weight 1; the later words change nothing.
    */
    method TrainLine(words: seq<string>)
      requires Valid()
      modifies this
      ensures Valid()
      ensures ignoreCase == old(ignoreCase) && maxDepth == old(maxDepth)
      ensures wordTreeRoot == AddEach(old(wordTreeRoot), Head(words, maxDepth), ignoreCase)
      ensures sentenceStartTreeRoot == AddStart(old(sentenceStartTreeRoot), words, ignoreCase)
    {
      var weights := AllOnes(|words|);
      ghost var tree0, start0 := wordTreeRoot, sentenceStartTreeRoot;
      var i := 0;
      while i < |words|
        invariant 0 <= i <= |words|
        invariant ignoreCase == old(ignoreCase) && maxDepth == old(maxDepth)
        invariant wordTreeRoot == AddEach(tree0, words[..Min(i, maxDepth)], ignoreCase)
        invariant sentenceStartTreeRoot == if i == 0 then start0 else AddStart(start0, words, ignoreCase)
      {
        TrainAt(words, weights, i, tree0, start0);
        i := i + 1;
      }
      assert words[..Min(i, maxDepth)] == Head(words, maxDepth);
      assert sentenceStartTreeRoot == AddStart(start0, words, ignoreCase);
      TrainLineKeepsShape(start0, tree0, words, maxDepth, ignoreCase);
    }

    /** One pass of the second loop of `trainLine`: the `i`-th word of the line. */
    method TrainAt(words: seq<string>, weights: seq<nat>, i: int, ghost tree0: Node, ghost start0: Node)
      requires 1 <= maxDepth && 0 <= i < |words| && weights == Ones(|words|)
      requires wordTreeRoot == AddEach(tree0, words[..Min(i, maxDepth)], ignoreCase)
      requires sentenceStartTreeRoot == if i == 0 then start0 else AddStart(start0, words, ignoreCase)
      modifies this
      ensures ignoreCase == old(ignoreCase) && maxDepth == old(maxDepth)
      ensures wordTreeRoot == AddEach(tree0, words[..Min(i + 1, maxDepth)], ignoreCase)
      ensures sentenceStartTreeRoot == AddStart(start0, words, ignoreCase)
    {
      var word := words[i];
      TrainLineIteration(tree0, wordTreeRoot, words, weights, i, maxDepth, ignoreCase);
      if i == 0 {
        sentenceStartTreeRoot := AddWeightedChild(sentenceStartTreeRoot, word, 1, ignoreCase);
        wordTreeRoot := AddWeightedChild(wordTreeRoot, word, 1, ignoreCase);
      } else if i < maxDepth {
        wordTreeRoot := AddWeightedChildren(wordTreeRoot, words[0..i + 1], weights[0..i + 1], i, ignoreCase);
      } else {
        wordTreeRoot := AddWeightedChildren(wordTreeRoot, words[i - maxDepth + 1..i + 1], weights[i - maxDepth + 1..i + 1], i, ignoreCase);
      }
    }

    /**
      `Train` on input already decoded to runes. The table is built first and
      its error is returned with nothing trained; otherwise every line that the
      rune loop completes is trained in turn, and the runes after the last
      line delimiter are not trained.
    */
    method Train(input: seq<char>, lineDelim: seq<char>, tokenDelim: seq<char>, ignore: seq<char>) returns (err: Option<string>)
      requires Valid()
      modifies this
      ensures Valid()
      ensures ignoreCase == old(ignoreCase) && maxDepth == old(maxDepth)
      ensures err.Some? <==> HasDuplicate(lineDelim + tokenDelim + ignore)
      ensures err.Some? ==>
        && err.value == DuplicateRune
        && wordTreeRoot == old(wordTreeRoot) && sentenceStartTreeRoot == old(sentenceStartTreeRoot)
      ensures err.None? ==>
        var lines := Scan(RuneTable(lineDelim, tokenDelim, ignore), input).lines;
        && wordTreeRoot == TrainWords(old(wordTreeRoot), lines, maxDepth, ignoreCase)
        && sentenceStartTreeRoot == TrainStarts(old(sentenceStartTreeRoot), lines, ignoreCase)
    {
      var lookup := ConstructRuneLookupMap(lineDelim, tokenDelim, ignore);
      if lookup.Err? {
        return Some(lookup.message);
      }
      var runeLookup := lookup.value;
      var lineBuffer: seq<string> := [];
      var wordBuffer: string := "";
      var i := 0;
      while i < |input|
        invariant 0 <= i <= |input|
        invariant Valid()
        invariant ignoreCase == old(ignoreCase) && maxDepth == old(maxDepth)
        invariant lineBuffer == Scan(runeLookup, input[..i]).line
        invariant wordBuffer == Scan(runeLookup, input[..i]).word
        invariant wordTreeRoot == TrainWords(old(wordTreeRoot), Scan(runeLookup, input[..i]).lines, maxDepth, ignoreCase)
        invariant sentenceStartTreeRoot == TrainStarts(old(sentenceStartTreeRoot), Scan(runeLookup, input[..i]).lines, ignoreCase)
      {
        assert input[..i + 1][..i] == input[..i];
        lineBuffer, wordBuffer := HandleRune(runeLookup, input[i], lineBuffer, wordBuffer,
                                           Scan(runeLookup, input[..i]).lines, old(wordTreeRoot), old(sentenceStartTreeRoot));
        i := i + 1;
      }
      assert input[..i] == input;
      err := None;
    }

    /**
      One pass of the rune loop of `Train`, given the lines trained so far:
      the buffers and the trees move on as `Step` says.
    */
    method HandleRune(runeLookup: map<char, int>, r: char, lineBuffer: seq<string>, wordBuffer: string,
                    ghost lines: seq<seq<string>>, ghost tree0: Node, ghost start0: Node)
      returns (line: seq<string>, word: string)
      requires Valid()
      requires wordTreeRoot == TrainWords(tree0, lines, maxDepth, ignoreCase)
      requires sentenceStartTreeRoot == TrainStarts(start0, lines, ignoreCase)
      modifies this
      ensures Valid()
      ensures ignoreCase == old(ignoreCase) && maxDepth == old(maxDepth)
      ensures var b := Step(runeLookup, Buffers(lines, lineBuffer, wordBuffer), r);
        && line == b.line && word == b.word
        && wordTreeRoot == TrainWords(tree0, b.lines, maxDepth, ignoreCase)
        && sentenceStartTreeRoot == TrainStarts(start0, b.lines, ignoreCase)
    {
      line, word := lineBuffer, wordBuffer;
      if r in runeLookup {
        var runeType := runeLookup[r];
        if runeType == DelimTypeLine {
          if |word| > 0 {
            line := line + [word];
          }
          TrainLine(line);
          ghost var lines' := lines + [line];
          assert lines'[..|lines'| - 1] == lines;
          word := "";
          line := [];
        } else if runeType == DelimTypeToken {
          line := line + [word];
          word := "";
        } else if runeType == DelimTypeIgnore {
        } else {
          word := word + [r];
        }
      } else {
        word := word + [r];
      }
    }

    /**
      One pass of the body of `NextSentence`'s loop, the `j`-th draw next:
      seek the window of the last `maxDepth` words and draw the next word there.
    */
    method Advance(draw: (nat, nat) -> nat, order: (nat, set<string>) -> seq<string>, words: seq<string>, j: nat,
                   ghost step: Loop)
      returns (round: Round)
      requires Draws(draw) && Orders(order) && RoundsOf(step, wordTreeRoot, maxDepth, ignoreCase, draw, order)
      ensures round == step(words, j)
    {
      ghost var expected := NextRound(wordTreeRoot, maxDepth, ignoreCase, draw, order, words, j);
      var node: Option<Node>;
      if |words| > maxDepth {
        node := Seek(wordTreeRoot, words[|words| - maxDepth..], 0, ignoreCase);
      } else {
        node := Seek(wordTreeRoot, words, 0, ignoreCase);
      }
      assert node == Seek(wordTreeRoot, Window(words, maxDepth), 0, ignoreCase);
      if node.None? {
        return Stop(Returned(words));
      }
      if node.value.weightSum == 0 {
        // `Int63n(0)` panics
        return Stop(Panicked(words));
      }
      var word := NextWord(node.value, draw(j, node.value.weightSum), order(j, node.value.children.Keys));
      if word == "" {
        return Stop(Returned(words));
      }
      return Append(word);
    }

    /**
      `NextSentence`, with the random source injected: `draw` supplies the
      values of `Int63n` and `order` the order of every `range` over a node's
      children; `fuel` bounds the rounds of the loop, which the source does
      not bound. The outcome is the one `Sentence` describes.
    */
    method NextSentence(draw: (nat, nat) -> nat, order: (nat, set<string>) -> seq<string>, fuel: nat) returns (o: Outcome)
      requires 1 <= maxDepth && Draws(draw) && Orders(order)
      ensures o == Sentence(sentenceStartTreeRoot, Rounds(wordTreeRoot, maxDepth, ignoreCase, draw, order), draw, order, fuel)
    {
      if sentenceStartTreeRoot.weightSum == 0 {
        // `Int63n(0)` panics
        return Panicked([]);
      }
      var first := NextWord(sentenceStartTreeRoot, draw(0, sentenceStartTreeRoot.weightSum),
                            order(0, sentenceStartTreeRoot.children.Keys));
      o := Continue(draw, order, [first], 1, fuel, Rounds(wordTreeRoot, maxDepth, ignoreCase, draw, order));
    }

    /**
      The loop of `NextSentence` from `words`, the `j`-th draw next, for at
      most `fuel` rounds.
    */
    method Continue(draw: (nat, nat) -> nat, order: (nat, set<string>) -> seq<string>, start: seq<string>, next: nat, fuel: nat,
                    ghost step: Loop)
      returns (o: Outcome)
      requires Draws(draw) && Orders(order) && RoundsOf(step, wordTreeRoot, maxDepth, ignoreCase, draw, order)
      ensures o == Extend(step, start, next, fuel)
    {
      ghost var outcome := Extend(step, start, next, fuel);
      var words, j := start, next;
      var rounds := 0;
      while rounds < fuel
        invariant 0 <= rounds <= fuel
        invariant outcome == Extend(step, words, j, fuel - rounds)
        decreases fuel - rounds
      {
        var round := Advance(draw, order, words, j, step);
        match round {
          case Stop(result) => return result;
          case Append(word) =>
            ExtendAppend(step, words, j, fuel - rounds, word);
            words := words + [word];
        }
        j := j + 1;
        rounds := rounds + 1;
      }
      return OutOfFuel(words);
    }
  }
}
