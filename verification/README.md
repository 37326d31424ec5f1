# A verified model of the byte-pair encoder

The repository encodes text with byte-pair encoding (BPE): tokens are byte strings with
identifiers, and a token that is not primitive is the merge of two smaller ones.  The
reference meaning is the naive procedure: start from single bytes and repeatedly merge the
adjacent pair with the lowest resulting identifier, leftmost on ties.  Everything else in the
repository is a faster way to the same result, or an index that answers questions about it.
This project models those fast forms and proves each of them equal to the naive procedure.

## How it is built

**Meaning.** `Vocabulary` holds the token table, `Merging` the naive procedure (`Naive`,
`Bpe`) and the pass form (rule 0, rule 1, ... once each, left to right), and proves the two
equal on every sequence.  `Chain` proves the theorem all fast encoders rest on: a token
sequence is the encoding of its bytes exactly when no merge rule reaches across a border
between two neighbours.  `PairCheck` proves that the loop of `bpe_is_valid_token_pair`, with
its two `limit` values, decides that condition.

**Search.** `Trie`, `FailureLinks`, `DoubleArray` and `Automata` build the Aho-Corasick
automaton; `AhoCorasick` is its run-time side.  After any bytes the state spells the longest
suffix that is a trie path, the output chain lists exactly the words that end there, longest
first, and reading n bytes follows at most n failure links.

**Encoders.** `PrefixTable` (one last token per prefix), `Backtrack` (with the exact set of
positions it tries, hence the exact number of steps) and `Detour` (a text it goes a long way
around for), `Appendable`, `Prependable`, `IntervalEncoding` with `TreeNumbering`,
`Minimal`, and the heap encoder in `LowestFirst`, `Heaps`, `HeapMerging`, `Ties`, `TripleTies`,
`LeftFirst`, `TripleRuns`, `PushOrder` and `HeapEncoder`.  `SelfCheck` is the check that runs it on every token, over any bytes map, with
`SameRuns` comparing runs over different vocabularies.  `FnvHash` and `BitField` are the maps
and bit sets below them, `Training` says which tables training can give, `Construction` finds the
merge rules again from the token bytes alone, `Tables` bundles the finished tables (`Ready`).

**Around it.** `Utf8`, `Pretokenizer`, `PieceShapes` and `Tokenizer` cut a text into pieces and
encode the pieces; `PieceShapes` describes what each alternative of the pretokenizers matches.  `ThreadPool`, `ThreadPoolProgress` and `ThreadPoolTermination` model the thread pool
as atomic steps of any number of producers and workers; `WorkQueue` is its ring buffer.

Objects the source updates in place are classes or arrays here, loops are loops, and the
tables that never change once built are values.  Each such method is proved against a
function of its inputs, and the properties are proved of that function.

## What is assumed of a vocabulary

`WellFormed` in `Vocabulary` says it once: tokens are non-empty and have distinct bytes, a
single-byte token is primitive, and every other token is the concatenation of two smaller
ones that no earlier rule merges across.  `Covers` asks that every byte of the text is itself
a token.  `HashInjective` asks that the 32-bit hash tells the tokens apart; the Rust form
asserts this (rust/bpe/src/byte_pair_encoding.rs:270), the C form relies on it and offers
`bpe_self_check` to find out (include/bpe.h:63-64).  The bytes map, its lookups, the heap encoder
and the self-check are modelled for any hash, and a passed check proves that the hash tells the
tokens apart (`SelfCheck.PassedTellsApart`).  Identifiers lie below the sentinel `UINT32_MAX`.

Well-formed tables are exactly those that training gives (`Training.TrainedIffWellFormed`): a
training run takes the words in order and makes each longer word a rule that joins two
neighbours it finds in some text, encoded with the rules learned before.  Which pair it picks is
left open, so the theorem holds for any choice.  That a vocabulary is well-formed is not taken on
trust for a built encoder: `Construction.FromDictionary` ends in a well-formed table exactly when
some training run gives one for these token bytes, and then in that one.

## Where the code and a claim about it differ

- The C heap compares identifiers only (src/bpe_core.c:221, src/bpe_core.c:236-239), so ties
  do not go to the left: n copies of a byte whose double is a token, but not its triple or
  quadruple, come out right if and only if n is even or at most 3 (`Ties.RepeatedByte`); five
  copies of a come out as aa, a, aa (`Ties.TieGoesWrong`).  If the triple is a token as well, but no
  longer run, they come out right if and only if n is at most 6 (`TripleRuns.CopiesWithTriple`);
  `TripleRuns.ManyCopies` says what more of them become.  The Rust form orders by identifier
  and position.  Both are modelled by one flag, `byPosition`.  In Rust's order the heap encoder
  always gives the encoding.  In C's order it does so on every text where no three copies of a
  token stand in a row when a rule that doubles it is about to run, in particular
  (`LowestFirst.TripleInText`) on every text without three copies of its bytes in a row; and for
  every text, in either order, the result is the encoding if and only if its neighbours pass the
  pair check (`HeapMerging.HeapIsBpeIffChain`).
- include/bpe.h:64 and include/bpe.h:231 offer `bpe_self_check` to validate a hash multiplier and a
  construction.  It encodes each token with the heap encoder.  With Rust's order a trained table
  passes if and only if the hash tells its tokens apart (`SelfCheck.CheckDecidesHash`).  With C's
  order that holds where no token's own bytes have three copies of a token in a row when a rule that
  doubles it is about to run; but every trained table with a byte, its double and its fivefold, and
  without its triple, is rejected whatever the hash (`SelfCheck.FivefoldRejected`): a, aa, aaaa and
  aaaaa, for example (`SelfCheck.FivefoldTrained`).
- include/bpe.h:156 and include/tokenizer.h:60 say that the limited counts return SIZE_MAX when
  the count exceeds the limit.  They also do so for texts within the limit: exactly if the search
  for the encoding holds more than limit + 10 tokens on its way (src/bpe_core.c:468-473).  For
  every limit from 2 to UINT32_MAX - 15 there is a text of two tokens that gets no number
  (`Detour.NumberWithheld`), and as limit + 10 is a size_t that wraps around, the ten largest
  limits withhold numbers at more than 0 to 9 tokens held (`Detour.SumWraps`).  `Backtrack.CountTillLimit` and
  `Tokenizer.CountTillLimit` state when there is a number, in terms of encodings alone.
- README.md:221-240 shows the limited count returning a character position, or None within the
  limit.  The code returns the number of tokens, or None without one; the model follows the code.
- src/pretok_cl100k.c:12-15 gives the look-ahead pattern as two or more whitespace characters of
  which the last is given back.  The code also fails when the run is as long in bytes as the
  character behind it (src/pretok_cl100k.c:296 compares with the length of the character decoded
  last): two spaces in front of an e with an acute accent stay one piece
  (`Tokenizer.TwoSpacesKept`).  `Tokenizer.GivenBackIff` states exactly when the last character is
  given back.  src/pretok_o200k.c does what the pattern says.
- src/pymodule.c:361 accepts bytes objects too, which need not be UTF-8, and on some of them the
  loop of `tokenizer_encode` never ends: a piece comes out empty and the offset stands still
  (src/tokenizer.c:57-79).  `Tokenizer.EmptyPieceIff` says where, for any bytes: at a line break in
  an overlong form, and at a whitespace character with nothing but stray bytes 85 and A0 behind it,
  in front of another character; 20 85 61 is an input (`Tokenizer.StrayNeverEnds`).
  `Tokenizer.NeverEndsIff` says that the iteration fails to end exactly if it comes to such a place,
  and `Tokenizer.WellFormedCuts` that it never does in well-formed text.
- tests/test_bpe_core.c:228-234 asserts that a pair some rule merges is a valid pair.  In the
  code "valid" means that the two tokens stay separate; `Chain.ValidPairMeaning` states it.
- `bpe_encode_via_table` starts its reversal at count - 1 (src/bpe_core.c:191) also when count
  is 0; that is the largest size_t, so on the empty text the swap leaves the array.
  `PrefixTable.ReverseInPlace` states that it stays inside if and only if count > 0.
- A pool without workers (thread creation may fail for the first thread already) finishes
  only empty batches: `ThreadPoolProgress.NoWorkerNoResult`.

## Model

| member | source | states |
|---|---|---|
| `Merging.NaiveIsPasses` | README.md:66-72 | on every sequence the naive procedure (lowest identifier first, leftmost on ties) and one left-to-right pass per rule in increasing order end in the same sequence |
| `Chain.BpeIsChain` | README.md:70-72 | the encoding of every covered text decodes to the text and no rule reaches across any of its borders |
| `Chain.ChainIsBpe` | README.md:70-72 | a sequence whose neighbours all stay separate is the encoding of its bytes, so each text has exactly one |
| `Chain.ChainTheorem` | README.md:66-74 | a token sequence is the encoding of its own bytes if and only if all its neighbouring pairs are valid |
| `Chain.ValidPairMeaning` | src/bpe_core.c:55-80 | a pair is valid if and only if encoding the two tokens' joined bytes gives back exactly these two tokens |
| `Chain.ChainConcat` | README.md:71-71 | pieces of a valid sequence are valid, and two valid sequences join to one exactly when the pair at the border is valid |
| `Chain.TokenEncodesToItself` | README.md:70-72 | every token's bytes encode to that token alone |
| `PairCheck.IsValidTokenPair` | src/bpe_core.c:55-80 | the loop ends and returns true exactly when no rule installed so far reaches across the border, also while the tables are still being built |
| `Tables.CheckPair` | src/bpe_core.c:55-80 | on finished tables the check decides validity of the pair |
| `FnvHash.Get` | include/fnv_hash.h:160-170 | linear probing returns the value the map holds for the key, and the sentinel for every other key; in any slots with a free one it ends and returns the first entry probed that has the key |
| `FnvHash.RepresentsInsert` | include/fnv_hash.h:69-78 | writing a new entry into the first free slot of its probe sequence adds exactly that entry and hides no other |
| `FnvHash.ProbeTable.constructor` | include/fnv_hash.h:52-62 | a new table is the empty map |
| `FnvHash.ProbeTable.Put` | include/fnv_hash.h:69-78 | inserting writes one free slot, without looking for the key, and for a new key adds exactly that entry to the map the table holds |
| `FnvHash.ProbeTable.Insert` | include/fnv_hash.h:149-157 | inserting, growing first when half full, adds exactly the new entry and keeps the table at most half full |
| `FnvHash.ProbeTable.Grow` | include/fnv_hash.h:132-147 | doubling the table and inserting every entry again keeps the map |
| `BitFields.BitField.constructor` | include/bitfield.h:38-45 | all bits of a new field are set |
| `BitFields.BitField.Clear` | include/bitfield.h:57-59 | clears that bit and no other |
| `BitFields.BitField.Reset` | include/bitfield.h:98-105 | all bits asked for are set again, in the old buffer or a larger one |
| `BitFields.BitField.Successor` | include/bitfield.h:62-74 | returns the first set bit from the given one on |
| `BitFields.BitField.Predecessor` | include/bitfield.h:77-89 | returns the last set bit up to the given one |
| `Trie.FindChild` | src/ac_bpe.c:151-161 | binary search over the sorted edges finds the child on a byte if and only if there is one |
| `Trie.TrieBuilder.Child` | src/ac_bpe.c:70-92 | returns the node that spells the path plus the byte, adding it at its sorted place if it is new, and keeps the tree |
| `Trie.TrieBuilder.Insert` | src/ac_bpe.c:94-100 | the trie then spells exactly the old paths and those of the new word, and the word's token stays the first one given for it |
| `FailureLinks.BuildLinks` | src/ac_bpe.c:183-248 | the breadth-first walk gives every node its depth, a failure link to the longest proper suffix that is a path, and an output chain of exactly the words ending there, longest first |
| `DoubleArray.FindBase` | src/ac_bpe.c:283-305 | the search for a base ends at one whose slots for all children are free and inside the arrays |
| `DoubleArray.Pack` | src/ac_bpe.c:250-329 | nodes get distinct slots, and for every node and byte the check test succeeds exactly when the trie has that edge, in bounds, landing on the child's slot; the one exception, stated exactly, is byte 0 at the root of an empty trie, which meets the root's own mark in slot 0 |
| `Automata.Build` | src/ac_bpe.c:183-349 | the assembled automaton recognizes exactly the words inserted into the trie |
| `Automata.BuildForTokens` | src/ac_bpe.c:116-127 | the automaton built from the token table recognizes the tokens, or their reversals for the backward one |
| `Automata.TokenDictExact` | src/ac_bpe.c:94-100 | with distinct tokens each word belongs to exactly its own identifier |
| `AhoCorasick.LongestSuffixIsSuffix` | src/ac_bpe.c:367-375 | what a state spells is a suffix of the bytes read and a trie path, and no longer suffix is one |
| `AhoCorasick.AcStep` | src/ac_bpe.c:367-375 | one step leads to the state of the longer text, and each failure link followed is paid for by depth, so n bytes follow at most n links |
| `AhoCorasick.SuffixMatchesExact` | src/ac_bpe.c:424-439 | the list of matches at a position holds exactly the words ending there, once each, in decreasing length |
| `AhoCorasick.MatchIter.Advance` | src/ac_bpe.c:424-429 | after a byte the iterator has exactly the matches that end there pending |
| `AhoCorasick.MatchIter.NextMatch` | src/ac_bpe.c:431-439 | yields the pending matches in order with their starts, then reports the end |
| `AhoCorasick.LeftmostLongest` | src/ac_bpe.c:381-411 | with its early exit in the root the search still returns the leftmost match and the longest of those, or none if there is none, and follows at most as many failure links as there are bytes |
| `Tables.FindTokenByBytes` | src/bpe_core.c:29-40 | returns the token that the stored hash finds if it has exactly these bytes, else none; with a hash that tells the tokens apart, the token with these bytes or none if there is none |
| `Tables.NextMatch` | src/bpe_core.c:42-49 | returns the longest token the text starts with |
| `Tables.WalkListsAllPrefixes` | src/bpe_core.c:638-648 | following the next-prefix table from the longest token at the start of a text lists exactly the tokens the text starts with, each shorter than the one before, then stops |
| `PrefixTable.LastSplits` | README.md:70-72 | taking the last token off an encoding leaves the encoding of the shorter text |
| `PrefixTable.Candidate` | src/bpe_core.c:92-110 | of the tokens a text ends with, the one that may follow the encoding of what precedes it is the last token, and only that one |
| `PrefixTable.EncodeAllPrefixes` | src/bpe_core.c:86-111 | entry p of the table is the last token of the encoding of the first p + 1 bytes, and all bytes together follow at most as many failure links as there are bytes |
| `PrefixTable.EncodeViaTable` | src/bpe_core.c:175-196 | the walk back over the table and the reversal give the encoding of every non-empty text; on the empty text, and only there, the reversal leaves its array |
| `PrefixTable.ReverseInPlace` | src/bpe_core.c:190-193 | with count - 1 taken in size_t, the swap loop stays inside its array if and only if count > 0, and then reverses |
| `PrefixTable.DecodeTokens` | src/bpe_core.c:117-139 | decodes exactly the sequences of known tokens, the encoding of a text to that text, and refuses all others |
| `Backtrack.BtEnc.constructor` | src/bpe_core.c:385-398 | a new encoder stands at the start with the longest first token to try and no dead ends |
| `Backtrack.DeadEnd` | src/bpe_core.c:425-438 | a position where every token that fits was rejected is one that the encoding of the text does not pass, so a cleared bit marks a prefix whose encoding cannot be extended to the end |
| `Backtrack.BtEnc.Step` | src/bpe_core.c:406-453 | a step accepts the longest token allowed or steps back, keeps the encoder's invariant and counts one call |
| `Backtrack.StackExplored` | src/bpe_core.c:406-453 | wherever the search stands, its stack runs along the encoding of the text or left it with a longer token, never with a shorter one |
| `Backtrack.AllAccepted` | src/bpe_core.c:406-453 | a finished search has accepted every position whose encoding does so |
| `Backtrack.Finish` | src/bpe_core.c:480-484 | stepping until nothing is left ends with the encoding; the positions accepted are exactly those of the two rows above, and the calls are twice their number less the number of tokens, at most 2·len+1 |
| `Backtrack.EncodeViaBacktracking` | src/bpe_core.c:480-492 | gives the encoding, with exactly that number of calls of the step |
| `Backtrack.Count` | src/bpe_core.c:455-462 | gives the number of tokens of the encoding |
| `Backtrack.CountTillLimit` | src/bpe_core.c:464-478 | a number returned is the token count; none is returned if and only if the count is over the limit or some prefix before the end, whose encoding runs along that of the text or leaves it with a longer token, has more than limit + 10 tokens, the sum taken in size_t |
| `Detour.LongDetour` | src/bpe_core.c:406-453 | for every n from 1 to UINT32_MAX - 4 there are a vocabulary and a text of two tokens on which the search holds n tokens, and never more |
| `Detour.NumberGivenIff` | src/bpe_core.c:464-478 | such a text gets its number exactly if the limit is at least 2 and n does not exceed it by more than 10 |
| `Detour.NumberWithheld` | include/bpe.h:156-159 | for every limit from 2 to UINT32_MAX - 15 there are a vocabulary and a text of two tokens that gets no number |
| `Detour.SumWraps` | src/bpe_core.c:468-468 | the same for the limits so large that limit + 10 wraps around |
| `Appendable.AppendableEncoder.Push` | src/appendable_encoder.c:20-63 | after a byte the states are those of the longer text |
| `Appendable.AppendableEncoder.Extend` | src/appendable_encoder.c:65-68 | after several bytes the states are those of the extended text |
| `Appendable.AppendableEncoder.Truncate` | src/appendable_encoder.c:70-72 | after a cut the states are those of the shorter text |
| `Appendable.AppendableEncoder.TokenCount` | src/appendable_encoder.c:74-77 | gives the number of tokens of the encoding of what was appended and not cut off |
| `Prependable.PrependableEncoder.Push` | src/prependable_encoder.c:22-67 | after a byte the states are those of the text with that byte in front |
| `Prependable.PrependableEncoder.Extend` | src/prependable_encoder.c:69-72 | several bytes are put in front, the last one first |
| `Prependable.PrependableEncoder.Truncate` | src/prependable_encoder.c:74-76 | after a cut the states are those of the end of the text that remains |
| `Prependable.PrependableEncoder.TokenCount` | src/prependable_encoder.c:78-81 | gives the number of tokens of the encoding of the text read forwards |
| `TreeNumbering.SubtreeSizes` | src/interval_encoding.c:16-28 | the backward loop gives every node the size of its subtree |
| `TreeNumbering.SizeCounts` | src/interval_encoding.c:16-28 | that size is the number of descendants |
| `TreeNumbering.Number` | src/interval_encoding.c:29-43 | the forward loop gives every node its preorder number, the end of its interval and its depth |
| `TreeNumbering.IdsArePermutation` | src/interval_encoding.c:29-43 | the numbers are a permutation of 0..n |
| `TreeNumbering.AncestorTest` | src/interval_encoding.c:182-186 | id[a] <= id[b] < end[a] holds exactly when a is an ancestor of b |
| `IntervalEncodings.New` | src/interval_encoding.c:6-47 | the tables belong to the tree in which each prefix points to the prefix before its last token |
| `IntervalEncodings.DepthIsCount` | src/interval_encoding.c:36-42 | a prefix's depth is the number of tokens of its encoding |
| `IntervalEncodings.AncestorIsPrefix` | src/interval_encoding.c:182-186 | an ancestor's encoding is an initial part of the descendant's |
| `IntervalEncodings.EarlyExit` | src/interval_encoding.c:176-190 | once the range's own encoding meets the text's, adding the difference of depths gives the token count of the whole range |
| `IntervalEncodings.CountRange` | src/interval_encoding.c:160-194 | the count of a range is the number of tokens of encoding that range from scratch |
| `Minimal.EncodeMinimal` | src/bpe_core.c:326-366 | the result decodes to the text, no token sequence that does is shorter, and of the equally short sequences for any initial part of its tokens none ends in a longer token |
| `Minimal.OnlyOne` | src/bpe_core.c:344-349 | at most one sequence of that length meets these conditions, so they leave no choice among the shortest ones |
| `Heaps.PushedHeap` | src/bpe_core.c:211-227 | pushing keeps the heap order and adds exactly the new item |
| `Heaps.PoppedHeap` | src/bpe_core.c:229-247 | popping keeps the heap order, removes exactly the first item, and no other comes before it |
| `Heaps.PushedRises` | src/bpe_core.c:211-227 | a heap is the result of pushing an item if and only if the item has risen from the end past exactly the ancestors it comes before, each of these has moved down by one step, and nothing else has moved |
| `Heaps.PoppedSinks` | src/bpe_core.c:229-247 | a heap is the result of popping if and only if the last item has sunk from the top along children that come before it, each time the child its sibling does not come before, the left one of two equal ones, each of these has moved up by one step, and nothing else has moved |
| `Heaps.MinHeap.Push` | src/bpe_core.c:211-227 | the sift-up loop leaves the heap in which the new item has risen in this way |
| `Heaps.MinHeap.Pop` | src/bpe_core.c:229-247 | the sift-down loop returns the first item and leaves the heap in which the last one has sunk in this way |
| `LowestFirst.LevelJoinIsMerge` | src/bpe_core.c:268-294 | in lowest-first merging two neighbours whose bytes happen to be a token's are always that token's own two halves |
| `LowestFirst.LowestFirstIsBpe` | rust/bpe/src/byte_pair_encoding.rs:489-536 | merging neighbours by bytes, lowest identifier first, until nothing joins gives the encoding, if ties go left or no three copies of a token stand in a row when a rule that doubles it is about to run |
| `LowestFirst.TripleInText` | src/bpe_core.c:221-239 | where three copies of a token stand in a row, the text holds its bytes three times in a row |
| `HeapMerging.RunReaches` | src/bpe_core.c:249-296 | from any state the loop can be in, every merge it performs is the lowest join at its turn (the leftmost of these when ordered by position), the text is kept, and the loop ends when nothing joins |
| `HeapMerging.HeapJoinsLowest` | src/bpe_core.c:249-296 | the same for the whole encoder, seeded with the pairs of bytes; stale candidates are never applied |
| `HeapMerging.HeapIsBpe` | rust/bpe/src/byte_pair_encoding.rs:489-558 | ordered by identifier and position the heap encoder gives the encoding; ordered by identifier it does unless three copies of a token stand in a row when a rule that doubles it is about to run |
| `HeapMerging.HeapIsBpeIffChain` | src/bpe_core.c:298-318 | in either order the result is the encoding if and only if its neighbouring pairs are valid |
| `Ties.RepeatedByte` | src/bpe_core.c:221-239 | ordered by identifier alone, in every vocabulary with the double of a byte but not its triple or quadruple, n copies of the byte get their encoding if and only if n is even or at most 3 |
| `Ties.TieGoesWrong` | src/bpe_core.c:221-239 | in every vocabulary with the double but not the triple, five copies become the double, the byte and the double, which is not the encoding |
| `Ties.DoubleWellFormed` | src/bpe_core.c:221-239 | there is such a vocabulary: the tokens a and aa |
| `TripleRuns.CopiesWithTriple` | src/bpe_core.c:221-239 | ordered by identifier alone, in every vocabulary with the double and the triple of a byte and no longer run of it, n copies of the byte get their encoding if and only if n is at most 6 |
| `TripleTies.FewCopies` | src/bpe_core.c:229-247 | up to six copies become, in widths: n itself up to 3, then 2 2, then 2 3, then 2 2 2 |
| `TripleRuns.ManyCopies` | src/bpe_core.c:229-247 | an odd number of copies above six becomes pairs and exactly one triple, an even number pairs and exactly two; a triple comes first, or second behind a pair |
| `LeftFirst.PopKeeps` | src/bpe_core.c:229-247 | among items of two priorities popping keeps this: the lower ones lie at or above the index they started at, those still in place lie on every level to the right of those that rose, and one of an even index stays in place or below the one of the index before, while both its neighbours are in the heap |
| `LeftFirst.EvenIsLate` | src/bpe_core.c:229-247 | so where the lower item of an even index comes to the top, the one before or behind it has come up earlier |
| `TripleTies.TripleWellFormed` | src/bpe_core.c:221-239 | there is such a vocabulary: the tokens a, aa and aaa |
| `PushOrder.RightComesFirst` | src/bpe_core.c:279-292 | with the tokens b, c, cc, bb and bbb the text bbbbcc becomes b, bbb, cc: of the two equal candidates a merge pushes, the one to the right was pushed first |
| `PushOrder.RightFirstWellFormed` | src/bpe_core.c:279-292 | these tokens form a well-formed vocabulary |
| `HeapEncoder.Turn` | src/bpe_core.c:263-294 | one turn of the loop on bit field and heap is one turn on segments: it applies the candidate if and only if its text is two neighbouring segments, and counts the segments |
| `HeapEncoder.EncodeIntoBitfield` | src/bpe_core.c:249-296 | the loop ends with exactly the segment borders set and count the number of segments |
| `HeapEncoder.EncodeWithTables` | src/bpe_core.c:298-318 | over any bytes map the result is the segments of the heap encoder's run over the tokens that lookups find, each of them looked up |
| `HeapEncoder.EncodeViaBitfield` | src/bpe_core.c:298-318 | on a finished encoder the array read off the borders is filled exactly and is the heap encoding, hence the encoding under the conditions above |
| `SameRuns.AlikeEncodings` | src/bpe_core.c:249-318 | two vocabularies that look up every piece of the text alike cut it into the same segments |
| `SelfCheck.Check` | src/bpe_core.c:573-583 | over any bytes map the loop returns true if and only if every token's bytes become one segment whose lookup finds that token |
| `SelfCheck.PassedTellsApart` | include/bpe.h:63-64 | a passed check proves that the hash tells the tokens apart, that they are distinct and that none is empty |
| `SelfCheck.SelfCheckedIff` | src/bpe_core.c:570-583 | on a trained table the check passes if and only if every token is found by its bytes and its heap encoding is itself |
| `SelfCheck.CheckDecidesHash` | include/bpe.h:63-64 | ordered by position, or where no token's own bytes have three copies of a token in a row when it is doubled, the check on a trained dictionary passes if and only if the hash tells the tokens apart |
| `SelfCheck.FivefoldRejected` | src/bpe_core.c:573-583 | ordered by identifier alone it rejects every trained table with a byte, its double and its fivefold but not its triple, whatever the hash |
| `SelfCheck.FivefoldTrained` | src/bpe_core.c:573-583 | the tokens a, aa, aaaa, aaaaa form such a table |
| `Training.LearnsInstalls` | src/bpe_core.c:650-681 | joining two neighbours of any text, encoded with the rules so far, into a new rule keeps the table one in which no earlier rule reaches across a rule's own border |
| `Training.TrainedIffWellFormed` | src/bpe_core.c:650-681 | the merges that are found again are those of a training run: some run ends in a table if and only if the table is well-formed |
| `Construction.BuildBytesMap` | src/bpe_core.c:606-613 | for any hash the map can be searched and holds identifiers of tokens, and if the hash tells the tokens apart it maps each token's hash to it and nothing else |
| `Construction.FindSplit` | src/bpe_core.c:665-680 | the search for a token's halves finds the trained ones if there are any, and none otherwise |
| `Construction.BuildSplits` | src/bpe_core.c:655-681 | every token with halves gets halves that join to its bytes, are smaller, and are a valid pair for the rules installed before it, and the pair map holds exactly these rules |
| `Construction.FromDictionary` | src/bpe_core.c:589-683 | the finished tables are correct; the encoder is ready if and only if some training run gives a table for these token bytes, and then its rules are that table, the only one |
| `Utf8.EncodeThenDecode` | include/pretok.h:63-93 | decoding the UTF-8 bytes of any code point gives the code point and its length, whatever follows |
| `Utf8.DecodeThenEncode` | include/pretok.h:63-93 | on a well-formed character the decoder returns its length and a code point with exactly these bytes |
| `Utf8.BoundaryIff` | src/tokenizer.c:64-72 | in well-formed text characters start exactly at the bytes that are no continuation bytes |
| `Utf8.DecodeAny` | include/pretok.h:63-93 | in any bytes the decoder takes two to four bytes together if and only if they are a number written in that many bytes, needed or not, and otherwise one byte for itself |
| `Pretokenizer.ContractionMeans` | src/pretok_cl100k.c:42-79 | the matcher finds a contraction exactly if the text there is an apostrophe, straight or typographic, and one of the seven endings in either case, and then its whole length |
| `Pretokenizer.CamelMeans` | src/pretok_o200k.c:83-131 | the alternative matches up to e if and only if after the optional prefix character there lie a maximal upper-class run, a maximal non-empty lower-class run and a contraction, or none where none starts, that ends at e |
| `Pretokenizer.AllCapsMeans` | src/pretok_o200k.c:136-184 | the same with a non-empty upper-class run and a lower-class run that may be empty |
| `Pretokenizer.MatchIsGood` | src/pretok_o200k.c:366-385 | in well-formed text some alternative always matches, every match makes progress and ends between two characters, and one whose last character is given back has at least two |
| `PieceShapes.WhitespaceIs` | include/pretok_ucd.h:99-121 | the code points that count as whitespace and as line breaks, by range |
| `PieceShapes.BreaksAre` | src/pretok_o200k.c:270-271 | the line break bytes are those of the line breaks, for o200k behind symbols also the slash |
| `PieceShapes.WordClasses` | include/pretok_ucd.h:57-93 | modifier letters, other letters and marks lie in both word classes, capital and title-case letters in the upper one alone, small letters in the lower one alone, and nothing else in either |
| `PieceShapes.OneClass` | include/pretok_ucd.h:57-121 | with tables that class no whitespace as letter, mark or number every character is exactly one of letter, number, line break, other whitespace and symbol |
| `PieceShapes.NumbersMean` | src/pretok_cl100k.c:141-163 | the alternative matches up to e if and only if one to three number characters lead there, and fewer than three only if the text ends there or no number follows |
| `PieceShapes.LettersMean` | src/pretok_cl100k.c:100-138 | it matches up to e if and only if a maximal non-empty run of letters ends there that starts behind the character at i, if this is no line break, letter or number and a letter follows it, and at i otherwise |
| `PieceShapes.PunctMeans` | src/pretok_o200k.c:212-249 | if and only if, from behind a space in front of a symbol or else from i, a maximal non-empty run of symbols and a maximal run of line breaks (for o200k also slashes) end there |
| `PieceShapes.NewlinesMean` | src/pretok_cl100k.c:207-243 | if and only if whitespace other than line breaks leads to a line break and the maximal run of line break bytes there ends at e |
| `PieceShapes.SpacesMean` | src/pretok_cl100k.c:246-342 | the other three match if and only if whitespace fills the rest of the text; a maximal run of at least two whitespace characters ends there, for cl100k not as long as the character behind it; a maximal run of at least one does |
| `PieceShapes.MatchMeans` | src/pretok_cl100k.c:350-369 | in any bytes either pretokenizer matches up to e, gives the last character back or not, and reports its pattern, exactly as the first alternative in its list whose description fits says |
| `PieceShapes.ContractionFirst` | src/pretok_cl100k.c:354-354 | cl100k matches a contraction wherever one starts |
| `PieceShapes.PrefixTaken` | src/pretok_cl100k.c:107-121 | where none starts, it takes a character that may stand in front of a word together with the letter behind it |
| `Tokenizer.PieceIsGood` | src/tokenizer.c:57-79 | every piece is non-empty and ends between two characters, also after giving the last character back |
| `Tokenizer.PieceMeans` | src/tokenizer.c:57-79 | in any bytes the piece at i ends at e if and only if the first alternative whose description fits ends there, or, for the one that looks ahead, its last character starts there |
| `Tokenizer.EmptyPieceIff` | src/tokenizer.c:57-79 | for any bytes, a piece is empty if and only if an overlong line break stands there, or a whitespace character with only stray bytes 85 and A0 behind it in front of another character (where cl100k does not give up) |
| `Tokenizer.CutsIffEnds` | src/tokenizer.c:57-79 | for any bytes, the iteration reaches the end of the text if and only if no piece on its way is empty |
| `Tokenizer.NeverEndsIff` | src/tokenizer.c:103-116 | for any bytes, it never ends if and only if it comes to one of the places of `EmptyPieceIff` |
| `Tokenizer.StrayNeverEnds` | src/tokenizer.c:64-72 | on 20 85 61 both pretokenizers stand still at the start |
| `Tokenizer.WellFormedCuts` | src/tokenizer.c:57-79 | on well-formed text the iteration ends |
| `Tokenizer.PiecesCover` | src/tokenizer.c:57-79 | wherever the iteration ends, the pieces are non-empty and joined they are the whole text |
| `Tokenizer.PiecesWellFormed` | src/tokenizer.c:57-79 | the pieces of a well-formed text are well-formed texts |
| `Tokenizer.GivenBackIff` | src/pretok_cl100k.c:273-313 | with Unicode tables that class no whitespace as letter, mark or number, a run of at least two whitespace characters, none a line break, in front of another character gives its last one back if and only if the pretokenizer is not cl100k or the run is not as long in bytes as that character |
| `Tokenizer.TwoSpacesKept` | src/pretok_cl100k.c:293-299 | two spaces in front of a two-byte letter are one piece for cl100k and two for o200k |
| `Tokenizer.PretokIter.Next` | src/tokenizer.c:57-79 | yields the next piece, which ends where the descriptions of the alternatives say, and moves to its end; without a pretokenizer it yields nothing |
| `Tokenizer.EncodingDecodes` | src/tokenizer.c:89-121 | the encodings of the pieces, or of the whole text without a pretokenizer, together decode to the text |
| `Tokenizer.Encode` | src/tokenizer.c:89-121 | on every text on which the cutting ends, gives the pieces' encodings one after the other, without a pretokenizer the encoding of the text, and decoding the result gives the text |
| `Tokenizer.Count` | src/tokenizer.c:159-174 | gives the length of what the encoder returns |
| `Tokenizer.CountTillLimit` | src/tokenizer.c:176-206 | a number returned is the length of what the encoder returns, and there is one unless some piece, or the text without a pretokenizer, gets none with what is left of the limit |
| `Tokenizer.NoNumberIff` | src/tokenizer.c:176-206 | that is so if and only if the whole count is over the limit or the search for some piece holds more than 10 tokens above what the pieces before it leave of the limit |
| `WorkQueues.WorkQueue.Enqueue` | src/threadpool.c:134-144 | the ring buffer's contents grow by the item at the end |
| `WorkQueues.WorkQueue.Dequeue` | src/threadpool.c:99-116 | the ring buffer's contents lose their first item, which is returned |
| `ThreadPool.BalanceKept` | src/threadpool.c:99-144 | every atomic step of any thread keeps a batch's unpushed, queued and in-flight items together equal to its counter |
| `ThreadPool.ConservedKept` | src/threadpool.c:99-144 | every atomic step keeps each pushed item in exactly one place: queued, held by a worker, or run |
| `ThreadPoolProgress.InvKept` | src/threadpool.c:99-237 | every step, shutdown and spurious wake-ups included, keeps the whole invariant |
| `ThreadPoolProgress.CounterIsExact` | src/threadpool.c:118-130 | in every reachable state the counter is the number of unpushed, queued and in-flight items, and the queue is within its capacity |
| `ThreadPoolProgress.RunsAtMostOnce` | src/threadpool.c:99-131 | in every reachable state no item has run twice, nor before it was pushed |
| `ThreadPoolProgress.FinishedBatchIsComplete` | src/threadpool.c:183-237 | when a batch's wait has ended, each of its items has run exactly once and every output slot holds the result for its own text under the batch's own tokenizer, kind of work and limit |
| `ThreadPoolProgress.NoBatchIsStuck` | src/threadpool.c:99-237 | with a worker, in every reachable state, shut down or running: no thread can move by itself if and only if every batch that was started is finished and every worker sleeps on not_empty or, after a shutdown, has left; and then the queue is empty |
| `ThreadPoolProgress.NoWorkerNoResult` | src/threadpool.c:161-170 | without a worker only empty batches finish |
| `ThreadPoolTermination.RunsAreFinite` | src/threadpool.c:99-237 | a run has no more steps than a bound known at its start, plus four per spurious wake-up |
| `ThreadPoolTermination.EveryRunCompletes` | src/threadpool.c:195-237 | every interleaving that runs until no thread can move is within that bound, has finished every batch that was started and left the right result in every slot of it |
| `ThreadPoolTermination.CanFinish` | src/threadpool.c:99-237 | from every state the pool can be in, its own steps lead to one where no thread can move and every batch that was started is finished |
| `ThreadPoolTermination.SomeRunFinishesAll` | src/threadpool.c:195-237 | for all texts and any number of workers some run starts every batch and finishes it with the right results |

## Left out

- HeapMerging.HeapIsBpe: for C's order the condition on the text is sufficient, not necessary.  Which of several equal candidates comes up first depends on every push and pop before it, and a merge at the wrong place can still end in the encoding, because later merges go by bytes (x and xx merge into xxx in either order); so an exact condition on the text in general is a run of the encoder.  `Ties.RepeatedByte` and `TripleRuns.CopiesWithTriple` are exact on two families of texts.
- Utf8 and Pretokenizer: that pieces of ill-formed text end between characters, which has no meaning there; the equality of the hand-written alternatives with the regular expressions in their comments, which the code does not keep (no backing off, first run of line breaks only); the contents of the Unicode tables, which may assign any category to any code point.
- Tokenizer.CountTillLimit: a call on a text on which the cutting never ends, where the limit may stop it before the piece that is empty.
- Construction.FromDictionary: a hash that does not tell the tokens apart; of the construction only the bytes map is modelled for any hash, and the self-check on it.
- The greedy encoder (src/bpe_core.c:145-173), which is documented not to give the encoding.
- The scratch-buffer calls (src/bpe_core.c:498-567): the same steps on reused buffers; the tokenizer here calls the backtracking encoder itself.
- The private copy of the backtracking step in src/interval_encoding.c:65-158 is the same structure as the one in src/bpe_core.c and shares its model; the parent of each prefix is computed once instead of in both loops.
- Allocation and growth of buffers (malloc, realloc, calloc failure) and the widths of size_t, int and 32-bit offsets, except the sentinel, the sum limit + 10 and the start of the reversal; the cast of the batch size to int.
- The arithmetic of the hash functions (include/fnv_hash.h:18-32, include/fnv_hash.h:106-114): hashes are parameters.
- 64-bit words are sequences of 64 bits; shifts and the two bit counts are defined on them.
- Reading precomputed tables from a blob, the Python and Rust bindings, code generation and benchmarks.
- include/lru_cache.h, which no C source includes, and src/ac_bpe_old.c, which is not compiled.
- The other Rust twins of the C files; of the Rust form only the heap order is modelled.
- The destruction of a batch's mutex and condition after its wait has ended, and of the pool after the workers have left; a shutdown while items are still being pushed.
- The work done inside a step: bounds count steps and failure links, not bytes scanned by the longest-match search.
