# markov — a Dafny model

This project models the core of `littlehawk93/markov`, a word-level Markov
text generator written in Go. The repository holds two generations of the
generator, and both are modelled as the code is written, defects included.

**The weighted prefix-tree design.** This covers `node.go` and `markov.go`.
- A `node` holds:
  - `weightSum`;
  - a map from word to child node (`children`);
  - a map from word to edge weight (`childWeights`).
- Module `TrieNode` models the node:
  - `addWeightedChild`/`addChild`;
  - path insertion (`addWeightedChildren`/`addChildren`);
  - the `seek` lookup;
  - weighted selection (`nextWord`).

  `markov.go` declares a second copy of the node. Its `addChild` and `addChildren` take the weights explicitly and are otherwise node.go's `addWeightedChild` and `addWeightedChildren`. Its `seek` and `nextWord` are the same as node.go's. Module `TrieNode` stands for both copies.
- Module `Markov` models the `Chain` built on the node:
  - `NewChain` clamps the depth;
  - `trainLine` inserts windows of a line into two trees;
  - `NextSentence` is the generation loop;
  - `constructRuneLookupMap` builds the rune classification table;
  - the rune loop of `Train` splits input into lines and words.

**The flat-list design.** This covers `chainNode.go` and `chain.go`.
- Module `FlatNode` models a context node: its key, the successor weights, `Equals`, `Next` and `TrainWeighted`.
- Module `FlatChain` models the list of such nodes:
  - the sliding key (`newKey`, `pushKey`);
  - the `matchNode`/`findNode` lookup;
  - `TrainWeighted`/`Train`.

Module `Weights` holds what both designs share:
- weight maps and their total;
- the cumulative scan that picks a word for a draw.

**How the model represents the source.**
- A `node` and everything below it is one value of the datatype `Node`. Go's in-place updates become functions from the node before to the node after. The `Chain` of `markov.go` is a class whose tree fields its methods reassign.
- `chainNode` and the flat `Chain` are classes whose methods update their fields.
- Randomness is a parameter:
  - a draw function gives the value of each `Int63n` call;
  - an order function gives the iteration order of each `range` over a map, as a sequence listing every key once;
  - `chainNode.Next` takes the value of `rand.Uint64()` directly.

**Behaviour the code has as written, and the model keeps:**
- `trainLine` calls `addChildren` on `words[0:i+1]` (or the `maxDepth`-word window) with start index `i`. For `0 < i < maxDepth`, `i` is the last position of that slice, so only `words[i]` is added, as a direct child of the word tree. For `i >= maxDepth`, the index lies outside the window, and nothing is inserted.
- Every child of the word tree therefore stays a leaf. On any chain built by `NewChain` and trained any number of times, `NextSentence` ends in the panic of `Int63n(0)` before it appends a second word (`Markov.TrainedChainPanics`).
- `Equals` answers true as soon as one position agrees.
- `matchNode` answers `len(nodes)-1`, not -1, when nothing matches. So the flat list never holds more than one node.
- `chainNode.TrainWeighted` never raises `weightSum`. So `Next` on any trained node divides by zero.
- Go leaves the maps of `new(node)` and the table of `constructRuneLookupMap` nil, so the first write to them would panic. The model starts them as empty maps, which is what the rest of the code expects.

## Model

| member | source | states |
|---|---|---|
| TrieNode.New | node.go:60 | A fresh node has `weightSum` 0 and empty maps (Go leaves the maps nil), and it is valid. markov.go:65 and markov.go:247-248 allocate the same node. |
| TrieNode.AddWeightedChild | node.go:51-70 | The word is folded first. `weightSum` and the folded word's edge weight each rise by `weight`. The children's key set gains exactly the folded word, so a child is allocated only when absent. markov.go:56-75 is the same code. |
| TrieNode.AddWeightedChildEffect | node.go:51-70 | `weightSum` and the folded word's edge weight rise by exactly `weight` (an absent edge counts as 0). Every other edge weight is unchanged. The child is created only when absent. No existing child is replaced. Equal key sets of `children` and `childWeights` stay equal. markov.go:56-75 (`addChild` with an explicit weight) is the same code. |
| TrieNode.AddWeightedChildKeepsValid | node.go:57-69 | The node invariant is preserved: equal key sets, and `weightSum` equal to the total of the edge weights, at every node. |
| TrieNode.AddChild | node.go:46-49 | `addWeightedChild` with weight 1: `weightSum` and the word's edge weight each rise by 1. The invariant is kept. |
| TrieNode.AddWeightedChildren | node.go:25-44 | Nothing changes when `index` is outside `words`. Otherwise the word is folded and added with `weights[index]` by `addWeightedChild`, so the receiver's `weightSum` rises by `weights[index]`; the descent continues from that child at `index+1`. Requires `weights` to cover every index read, which Go otherwise panics on. markov.go:35-54 (`addChildren` with explicit weights) is the same code. |
| TrieNode.AddWeightedChildrenKeepsValid | node.go:25-44 | Path insertion (`addWeightedChildren`) keeps the node invariant at every node. markov.go:35-54 (`addChildren` with explicit weights) is the same code. |
| TrieNode.AddWeightedChildrenFindable | node.go:25-44 | After a path is inserted, `seek` of the same words from the same index finds a node. |
| TrieNode.AddWeightedChildrenAlongPath | node.go:39-43 | Insertion reuses existing nodes. The node reached after `words[index..j]` is the node found there before (a fresh one if none) with `words[j..]` inserted below it. |
| TrieNode.AddWeightedChildrenEdgeWeight | node.go:25-44 | Edge `j` of an inserted path gains exactly `weights[j]`, and so does `weightSum` at its node. No other edge weight there changes. |
| TrieNode.AddChildren | node.go:14-23 | `addChildren` is `addWeightedChildren` with an all-ones weight slice as long as `words`. |
| TrieNode.Ones | node.go:16-20 | The weight slice has the length of `words`, and every entry is 1. |
| TrieNode.Seek | node.go:72-92 | An index outside `words` yields the receiver itself. markov.go:77-97 is the same code. |
| TrieNode.SeekInStages | node.go:84-89 | Seeking `words[index..]` equals seeking `words[index..j]`, then the rest from the node found. A miss in the first stage is a miss overall. |
| TrieNode.SeekFindsValid | node.go:72-92 | In a valid tree, whatever `seek` finds is valid. |
| TrieNode.SeekNew | node.go:74-91 | From a fresh node, `seek` finds nothing but the node itself. |
| TrieNode.FoldIdempotent | node.go:53-55 | Lower-casing twice equals lower-casing once. So the second fold in `addWeightedChild` changes nothing. |
| TrieNode.KeyIdempotent | node.go:33-37 | The key of a key is the key itself, with or without `ignoreCase`. |
| TrieNode.FoldedWordsShareChild | node.go:53-55 | With `ignoreCase`, words that differ only in case share one child and one accumulated edge weight, and `seek` finds that child for either word. |
| TrieNode.NextWord | node.go:94-113 | Requires `weightSum > 0` and a draw below it. Returns the first key, in iteration order, whose cumulative weight exceeds the draw, else "". When the node's own key sets agree and `weightSum` is the total of its edge weights, the result is always a child; nothing is required of the nodes below. markov.go:99-118 is the same code. |
| Weights.Bump | node.go:63-69 | The weight under the key becomes its old value (0 if absent) plus `w`. Every other entry is unchanged. The key joins the key set. |
| Weights.SumBump | node.go:57-69 | Adding `w` under one key raises the total by exactly `w`. This is why `weightSum += weight` keeps the invariant. |
| Weights.CumOfEnumeration | node.go:101-110 | Summing the weights along any iteration order gives the map's total. |
| Weights.PickFirstExceeding | node.go:98-112 | The scan returns the first key whose running total exceeds the draw, or "" when no running total does. |
| Weights.PickIsKey | node.go:94-113 | If the order lists every key once and the draw is below the total, the pick is a key of the map. |
| Markov.Chain.constructor | markov.go:235-254 | A depth below 1 becomes 1; otherwise the depth is kept. `ignoreCase` is stored. Both trees are fresh nodes. |
| Markov.Chain.TrainLine | markov.go:153-174 | The first word is added to the start tree. The first `min(len(words), maxDepth)` words are added to the word tree as direct children. Both trees stay valid. |
| Markov.AllOnes | markov.go:155-159 | The weight slice holds one 1 per word. |
| Markov.Chain.TrainAt | markov.go:161-173 | One pass of the loop moves the word tree from the first `min(i, maxDepth)` words to the first `min(i+1, maxDepth)`. After the pass, the start tree holds the first word. |
| Markov.TrainLineStep | markov.go:168-172 | For `0 < i < maxDepth`, the start index `i` selects only `words[i]`, which becomes a direct child. For `i >= maxDepth`, the index lies outside the window and nothing changes. |
| Markov.TrainLineIteration | markov.go:163-172 | Each of the three branches of the loop adds exactly the next word of the line's head, or nothing past `maxDepth`. |
| Markov.TrainLineWeights | markov.go:161-173 | The start tree's `weightSum` rises by 1 for a non-empty line. The word tree's rises by `min(n, maxDepth)`. An empty line changes neither tree. |
| Markov.TrainLineKeepsShape | markov.go:161-173 | Training keeps both trees valid. It keeps every child of the word tree a leaf, and every first word a child of the word tree. |
| Markov.AddEachWeights | markov.go:62-74 | Adding words one by one raises `weightSum` by the number of words. Each key's weight rises by the number of words with that key. |
| Markov.AddEachChildren | markov.go:64-66 | Adding words one by one gains exactly the words' keys as children, each a fresh leaf. Existing children are untouched. |
| Markov.AddEachKeepsValid | markov.go:62-74 | Adding words one by one keeps the node invariant. |
| Markov.ConstructRuneLookupMap | markov.go:256-288 | The result is the error "Duplicate rune" exactly when some rune occurs twice, within or across the three lists. Otherwise every listed rune maps to its list's category. |
| Markov.EnterRunes | markov.go:260-267 | One list's loop fails at the first rune already in the table. Otherwise it adds every rune with its category and leaves the earlier entries alone. |
| Markov.Chain.Train | markov.go:177-230 | A table error is returned with nothing trained. Otherwise every line that the rune loop completes is trained, in order, into both trees. |
| Markov.Chain.HandleRune | markov.go:200-226 | One rune moves the buffers and the trees as the loop's branches say. A line delimiter trains the line. |
| Markov.ScanBuffers | markov.go:200-226 | The word buffer holds the runes since the last delimiter, minus ignored runes. The line buffer holds one word per token delimiter since the last line delimiter, empty words included. |
| Markov.ScanLineFields | markov.go:200-226 | The line buffer followed by the word buffer is the list of fields of the runes since the last line delimiter. Field `k` holds the non-ignored ordinary runes between the `k`-th and `(k+1)`-th token delimiter. |
| Markov.TrainedLine | markov.go:203-212 | A line delimiter trains exactly those fields, leaving out the last one when it is empty. |
| Markov.ScanWordsAreOrdinary | markov.go:200-226 | No delimiter or ignored rune ever ends up inside a word. |
| Markov.TrailingRunesNotTrained | markov.go:191-229 | Runes after the last line delimiter never reach `trainLine`. |
| Markov.Window | markov.go:131-135 | The window is exactly the last `min(len(words), maxDepth)` words. |
| Markov.Chain.NextSentence | markov.go:121-151 | Given the draws and iteration orders, the outcome is the first word from the start tree, then rounds of seek-and-pick on the word tree. It panics when a `weightSum` is 0. |
| Markov.Chain.Continue | markov.go:127-148 | The loop's outcome is the one its rounds determine, for at most `fuel` rounds. |
| Markov.Chain.Advance | markov.go:129-147 | One round: stop on a seek miss or an empty pick, panic on a node with `weightSum` 0, otherwise append the pick. |
| Markov.NextRoundShape | markov.go:137-147 | A round that stops keeps the words so far. A round that appends never appends "". |
| Markov.ExtendAppendsNonEmpty | markov.go:127-148 | The loop only appends. The starting words stay in front, and every added word is non-empty. |
| Markov.SentenceShape | markov.go:121-151 | On a valid start tree with positive weight, the sentence starts with a child of the start tree, and every later word is non-empty. |
| Markov.LeafRoundPanics | markov.go:129-141 | Seeking a one-word sentence whose word is a leaf child lands on that leaf, and `nextWord` panics there. |
| Markov.TrainedChainPanics | markov.go:121-151 | On any chain with the shape that training leaves, `NextSentence` panics. |
| FlatNode.ChainNode.constructor | chainNode.go:53-56 | The node holds the given tokens, no successors, and `weightSum` 0. |
| FlatNode.ChainNode.Equals | chainNode.go:11-24 | True exactly when the lengths agree and some position holds the same token. So it is false when the lengths differ, and false for two empty keys. |
| FlatNode.ChainNode.Next | chainNode.go:26-46 | "" when there are no successors. A division by zero when there are successors but `weightSum` is 0. Otherwise the first token whose cumulative weight exceeds `draw % weightSum`, else "". |
| FlatNode.ChainNode.TrainWeighted | chainNode.go:48-51 | The token's weight becomes its old value (0 if absent) plus `weight`. Other entries and `weightSum` are unchanged. |
| FlatChain.Blank | chain.go:113-117 | Exactly `depth` empty strings. |
| FlatChain.Chain.NewKey | chain.go:111-120 | Returns exactly `keyDepth` empty strings. |
| FlatChain.PushKey | chain.go:122-126 | The length is kept. Each entry moves one place forward, and `value` is last. |
| FlatChain.PushAllWindow | chain.go:60-73 | After pushing tokens, the key holds the last `keyDepth` tokens of the blank key followed by the tokens. |
| FlatChain.PushAllForgets | chain.go:60-73 | After `keyDepth` pushes, the key is exactly the tokens pushed. |
| FlatChain.Chain.MatchNode | chain.go:100-109 | Returns the smallest index whose node `Equals` the key, else `len(nodes)-1`. So it is -1 only for an empty list. |
| FlatChain.MatchFromSpec | chain.go:100-109 | The scan's answer: the first agreeing node, else the last index, and -1 exactly for an empty list. |
| FlatChain.Chain.FindNode | chain.go:86-98 | -1 exactly when the key or the list is empty. An empty list blanks every entry of the caller's key. Otherwise the key is untouched and the answer is `matchNode`'s. |
| FlatChain.Chain.TrainWeighted | chain.go:53-84 | A node is created, with the blank key, only when the list is empty, so the list ends with exactly one node. Every token and then "" gains `weight`. The total grows by `(len(tokens)+1)·weight`. `weightSum` stays 0. |
| FlatChain.Chain.TrainAtKey | chain.go:62-70 | The lookup, the append-if-missing and the training for one token leave exactly one node, trained with that token. |
| FlatChain.BumpAllGet | chain.go:60-83 | Each token's weight rises by `weight` times its number of occurrences. |
| FlatChain.BumpAllSum | chain.go:60-83 | The total weight rises by `weight` per token. |
| FlatChain.Chain.Train | chain.go:47-51 | `TrainWeighted` with weight 1. |
| FlatChain.Chain.constructor | chain.go:128-132 | The given key depth and an empty node list. |

## Left out

- Reading from `io.Reader` through `bufio`, UTF-8 decoding, and read errors other than EOF: `Train` takes its input as a sequence of runes.
- The random generator's construction and seeding in `NewChain` (`new(rand.Rand)` followed by `Seed`), and the global `rand.Uint64` in `chainNode.Next`. Draws and iteration orders are parameters. As written, `new(rand.Rand)` has no underlying source, so `Seed` would dereference a nil source; the model does not capture that.
- No probability distribution is stated about the draws.
- `Chain.Generate` in chain.go is not part of this model. It depends on a Gaussian CDF over floating point, `rand.Float64` and an external library.
- The rollstat word statistics (`wordStats`) of the flat chain are an external library of floating-point statistics. They are left out of both the state and `TrainWeighted`.
- TrieNode.Fold: lower-cases ASCII letters only, because the Unicode case tables of `strings.ToLower` are out of scope. The property the code relies on, that folding twice equals folding once, is proved for this fold.
- Weights.Bump: weights are unbounded naturals. The `uint64` wrap-around of `weightSum`, the edge weights and `next` is not modelled.
- TrieNode.NextWord: the conversion of `weightSum` to `int64` before `Int63n` is not modelled. That conversion turns weights of 2^63 and above negative, and `Int63n` panics on them.
- Markov.Chain.NextSentence: `fuel` bounds the rounds of a loop that the source does not bound. It ends in `OutOfFuel` where the source would go on.
- Markov.Chain.NextSentence: requires that every draw lies below its bound and that every iteration order lists each key once. These are the guarantees of `Int63n` and of Go's `range`; the source does not check them.
- The panics on writes to nil maps are not modelled. The maps of a fresh node and the rune table start as empty maps.
- Pointer identity in the prefix tree: a `*node` with everything below it is a value, and an in-place update is the replacement of that value in its parent. No node has two parents, so no update can be seen through another path. Aliasing of nodes is therefore not modelled.
- The flat chain's nodes live in a Go slice of structs. They are modelled as objects. The `range` in `matchNode` (chain.go:102) copies each struct, but those copies are only read, by `Equals`, so no update is lost.
- `Chain.trainLine` builds its weight slice with `make`. `AllOnes` builds it as a sequence.
- Go declares `node` in both node.go and markov.go, and `Chain`/`NewChain` in both markov.go and chain.go, so the package as written does not compile. Each design is modelled as its own module.
