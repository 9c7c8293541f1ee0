# A verified model of tree, AVI parser and message-block chains

Three parts of the stream framework are modelled here in Dafny, in the form in
which they are written: classes whose fields are reassigned, loops over raw
links and tables, and buffers with read and write positions.

**The n-ary tree** (`Forest`, `Links`, `Edits`, `Tree`, ...). A `Node` has the
five links parent, first and last child, previous and next sibling. A tree is a
list of top-level siblings between the dummies `head` and `feet`. The ghost
field `all` of a `Tree` is that list as a first-child/next-sibling forest, and
the tree is valid if the links of every node are those that the forest
prescribes (`Link`). Every operation is proved to turn `all` into a given
function of the old list, so that links, acyclicity and the set of nodes follow
from what is proved about forests. Node values are an arbitrary type with
equality; iterators, paths, copying, comparing, merging and sorting are proved
against recursive definitions on forests.

**The AVI/RIFF parser** (`Avi*`). The LR tables, the growable stack with its
relocated pointers (modelled as addresses), the deterministic loop, the
semantic actions and the driver fields that they change. `Verdict` says without
tables or stack what result and final driver a token sequence leads to, and
`Parse` is proved to compute it. `AviTheorems` says what that means: language,
sizes, and what the client is told.

**Message-block chains** (`Blocks`, `BlockTools`, `Crunch`, `Wait`). Blocks with
read and write positions into shared data buffers, linked by continuation.
A chain denotes the bytes that `ToString` returns; each operation is proved
against that byte string. `Wait` is the loop that pulls data fragments past
other messages in a queue that other threads may add to.

## Files

| files | content |
|---|---|
| Forest, Links, Surgery, Edits, Tree | forests, links, single edits, the class |
| Inserts, Erase, Flatten, Reparent, Swap | further structural edits |
| Prefix, Copy, Replace, CopyTree | copying subtrees and trees |
| Rows, Tries, Merge | merging |
| Rearrange, Stable, Sort, SortDeep | sorting |
| Traversal, Undo, Queries, FixedDepth, Paths, Compare, MoveOut | iterators, counts, paths, equality, moving between trees |
| AviTables, AviStack, AviDriver, AviParser, AviTheorems | the parser |
| Blocks, BlockTools, Crunch, Wait | message blocks and the waiting driver |

Where the code and its comments differ, the model follows the code. The depths
of the parser stack, 25000 and 200000, are those that
`src/modules/dec/stream_dec_avi_parser.h:79-80` defines before the defaults of
the generated file apply. The loop that looks for data messages returns without
putting a session message back that is not of the expected class; the model
does the same, and `NothingLost` says that this is the only loss. A comment in
sort asks whether std::multiset keeps equivalent elements in insertion order;
the model inserts behind equivalent elements, as the C++11 standard requires of
`multiset::insert`.

## Model

| member | source | states |
|---|---|---|
| TreeLinks.LinksAgree | 3rd_party/tree/tree.hh:2505-2521 | the five links that one forest prescribes agree with each other in both directions: next/prev, parent/first child, parent/last child (the consistency check of the tree, for every pair of nodes) |
| TreeLinks.ReplaceLinks | 3rd_party/tree/tree.hh:1283-1307 | replacing the siblings from a node on by another list changes the links of the new nodes, of the node before and of the parent, exactly as stated, and nobody else's |
| Trees.Tree.constructor | 3rd_party/tree/tree.hh:605-623 | an empty tree is well formed: the two dummies in a row |
| Trees.Tree.Insert | 3rd_party/tree/tree.hh:1283-1307 | the new list is the old one with a fresh childless node in front of the position (of feet if there is none); all nodes, data and links else are kept |
| TreeInserts.InsertAfter | 3rd_party/tree/tree.hh:1400-1419 | the same right behind the position |
| Trees.Tree.AppendChild | 3rd_party/tree/tree.hh:1096-1121 | a fresh last child of the position and nothing else |
| TreeInserts.PrependChild | 3rd_party/tree/tree.hh:1154-1175 | a fresh first child of the position and nothing else |
| TreeInserts.InsertSubtree | 3rd_party/tree/tree.hh:1449-1454 | a dummy and then replace: in front of the position there is a fresh copy of the subtree, shape and labels, also when the source is in the same tree and the position is not below it |
| Trees.Tree.MoveAfter | 3rd_party/tree/tree.hh:1706-1731 | the list with the source subtree taken out and put right behind the target; the two early returns are the cases where that is no change |
| TreeEdits.MoveInPlace | 3rd_party/tree/tree.hh:1712-1715 | if the source already follows the target, taking out and putting back gives the same list |
| TreeInserts.MoveBefore | 3rd_party/tree/tree.hh:1735-1760 | the list with the source subtree taken out and put right in front of the target |
| TreeInserts.StandsBefore | 3rd_party/tree/tree.hh:1741-1744 | if the source already stands before the target, the move gives the same list |
| TreeErase.EraseChildren | 3rd_party/tree/tree.hh:687-704 | everything below the node is freed, each node once, children before their parent, and the node keeps its place |
| TreeErase.Erase | 3rd_party/tree/tree.hh:749-772 | the list without the subtree, the freed nodes are exactly those of the subtree, and the returned iterator is what the pre-order listing goes on with |
| TreeFlatten.Flatten | 3rd_party/tree/tree.hh:1603-1625 | the children become the next siblings of their parent; the pre-order listing of the whole list does not change |
| TreeFlatten.FlattenedListing | 3rd_party/tree/tree.hh:1603-1625 | flattening keeps the pre-order listing of every forest |
| TreeReparent.Reparent | 3rd_party/tree/tree.hh:1631-1675 | the range leaves its place, which closes, and becomes the last children of the new parent; no node is lost |
| TreeReparent.Wrap | 3rd_party/tree/tree.hh:1686-1693 | a fresh node takes the place and has the wrapped subtree as its only child |
| TreeReparent.WrappedListing | 3rd_party/tree/tree.hh:1686-1693 | wrapping inserts the new node into the pre-order listing right in front of the wrapped one and changes nothing else |
| TreeSwap.SwapSiblings | 3rd_party/tree/tree.hh:2335-2352 | a node and its next sibling change places; without a next sibling nothing happens |
| TreeSwap.Swap | 3rd_party/tree/tree.hh:2356-2385 | two nodes, neither below the other, change places with all below them, adjacent or not; every other node stays |
| TreeSwap.ExchangedTwice | 3rd_party/tree/tree.hh:2356-2385 | swapping the same two again restores the list |
| TreeSwap.ExchangedFlip | 3rd_party/tree/tree.hh:2359-2360 | swapping is symmetric, so that either of the two may be the left one |
| TreeCopy.CopyChildren | 3rd_party/tree/tree.hh:1528-1550 | the descend-and-ascend loop over raw links terminates and has copied the whole source when it ends; at every turn the target is the image of the part that was passed |
| TreeReplace.ReplaceSubtree | 3rd_party/tree/tree.hh:1491-1553 | the target subtree is replaced by fresh nodes with the shape and labels of the source; source and all other nodes keep shape, place and data |
| TreeCopyAll.Clear | 3rd_party/tree/tree.hh:679-683 | the trees are freed one by one until only the dummies are left |
| TreeCopyAll.LayHeads | 3rd_party/tree/tree.hh:660-665 | the first pass, which puts each head in front of the last one, leaves one childless node for every top-level tree, with their labels in reverse order |
| TreeCopyAll.FillHeads | 3rd_party/tree/tree.hh:666-674 | the second pass, in lockstep over both rows, turns them into copies in the right order |
| TreeCopyAll.CopyFrom | 3rd_party/tree/tree.hh:658-675 | afterwards the forest has the shape and labels of the source, all copies are fresh and the source is untouched |
| TreeMerge.Find | 3rd_party/tree/tree.hh:2001-2001 | the first sibling of the range with that label, or the end exactly if no sibling has it |
| TreeMerge.MergeRow | 3rd_party/tree/tree.hh:1998-2015 | the recursive merge of a row of one tree into a row of another computes the functional merge of the labels, wherever the rows are and whatever their labels, and only adds nodes |
| TreeMerge.MergeAll | 3rd_party/tree/tree.hh:1998-2015 | for whole trees: the label paths are the union of both path sets, distinct siblings stay distinct, the source is untouched |
| TreeMerge.MergeAllAgain | 3rd_party/tree/tree.hh:1998-2015 | merging the same tree a second time leaves shape and labels as they are if and only if the first result covers the source, for example whenever siblings of the source have distinct labels |
| Tries.TrieUnion | 3rd_party/tree/tree.hh:2000-2014 | the root-to-node label paths of a merge are exactly those of the two forests together |
| Tries.MergeTwice | 3rd_party/tree/tree.hh:2000-2014 | merging a forest again changes nothing if and only if all of it is found along the first matches in the first result; a source that covers itself, or has distinct siblings, always is |
| Tries.MergeTwiceAlways | 3rd_party/tree/tree.hh:2000-2014 | merging a forest again changes nothing for any target if and only if the forest covers itself |
| Tries.MergeTwiceDiffers | 3rd_party/tree/tree.hh:2000-2014 | a forest with two equal siblings for which merging again does change something |
| Tries.MergedDistinct | 3rd_party/tree/tree.hh:2000-2014 | merging keeps sibling labels distinct |
| TreeSort.Collect | 3rd_party/tree/tree.hh:2047-2052 | the nodes of the range in ascending order of what they hold: for a strict weak `less` no node stands before one whose data is less, and two of which the second is not less keep their order |
| TreeSort.Reassemble | 3rd_party/tree/tree.hh:2056-2084 | the relinking loop gives each node the right neighbours and closes both borders of the range, with or without a parent or outer siblings |
| TreeRearrange.RearrangedRoot | 3rd_party/tree/tree.hh:2056-2084 | the links of a moved sibling after its range was put in another order |
| TreeRearrange.RearrangedOther | 3rd_party/tree/tree.hh:2056-2084 | the links of every node that is not such a sibling, inside and outside the range |
| TreeSort.SortRow | 3rd_party/tree/tree.hh:2042-2084 | without deep: the range is the stable ascending sort of the range by `less` on the data, the rest of the list is the same |
| TreeSortDeep.Sort | 3rd_party/tree/tree.hh:2042-2096 | with or without deep, for any range of siblings: the range is stably sorted, ascending by `less` on the data; with deep so is every list of children in it, without it they are what they were; same nodes, same data, the rest of the list is the same |
| SiblingOrder.SortedShuffled | 3rd_party/tree/tree.hh:2042-2084 | sorting permutes the sibling trees and moves each with all that is below it |
| SiblingOrder.SortedStable | 3rd_party/tree/tree.hh:2042-2084 | no sibling comes before one whose value is less, and those of which the second is not less keep their order |
| SiblingOrder.SortedAscends | 3rd_party/tree/tree.hh:504-510 | the same for the sequence of siblings and the values that `less` is called with: first the smaller, then the greater |
| SiblingOrder.DeepAscends | 3rd_party/tree/tree.hh:2086-2095 | the same for the row of a deep sort |
| SiblingOrder.DeepFrom | 3rd_party/tree/tree.hh:2086-2095 | below every node at any depth a deep sort leaves the deep sort of what was there |
| SiblingOrder.DeepTidy | 3rd_party/tree/tree.hh:2086-2095 | with deep, every sibling list in the range is in order |
| SiblingOrder.DeepKeeps | 3rd_party/tree/tree.hh:2086-2095 | with deep, below each node there is the deep sort of what was below it |
| SiblingOrder.DeepStable | 3rd_party/tree/tree.hh:2086-2095 | with deep, the siblings are a stable permutation, too |
| SiblingOrder.DeepEither | 3rd_party/tree/tree.hh:2086-2095 | sorting the lists below before or after their own row makes no difference, which is what the recursion over the sorted row needs |
| TreeCompare.CodeInjective | 3rd_party/tree/tree.hh:2117-2131 | the pre-order sequence of (label, number of children) determines the forest |
| TreeCompare.NoEarlyEnd | 3rd_party/tree/tree.hh:2136-2142 | as long as the two sequences agree, the second iterator cannot leave its subtree before the first one does |
| TreeCompare.EqualSubtree | 3rd_party/tree/tree.hh:2136-2142 | true if and only if the two subtrees are structurally equal, also when the second is in the same tree |
| Traversals.PreOrderIterator.Increment | 3rd_party/tree/tree.hh:2702-2717 | one step through the pre-order listing, or past the whole subtree when children are skipped |
| Traversals.PreOrderIterator.Decrement | 3rd_party/tree/tree.hh:2721-2734 | one step back |
| Traversals.PostOrderIterator.Increment | 3rd_party/tree/tree.hh:2818-2835 | one step through the post-order listing; with the skip flag, on to the next sibling itself |
| Traversals.PostOrderIterator.Decrement | 3rd_party/tree/tree.hh:2839-2851 | one step back |
| TreeUndo.PreForthAndBack | 3rd_party/tree/tree.hh:2702-2734 | -- undoes ++ at every position but the last |
| TreeUndo.PreBackAndForth | 3rd_party/tree/tree.hh:2702-2734 | ++ undoes -- at every position but the first |
| TreeUndo.PostForthAndBack | 3rd_party/tree/tree.hh:2818-2851 | the same in post-order |
| TreeUndo.PostBackAndForth | 3rd_party/tree/tree.hh:2818-2851 | the same in post-order, the other way round |
| TreeQueries.Size | 3rd_party/tree/tree.hh:2166-2174 | begin() to end() visits exactly the recursive pre-order listing, and the count is its length |
| TreeQueries.SizeOf | 3rd_party/tree/tree.hh:2178-2188 | the count from a node to the next one outside its subtree is the number of nodes of the subtree |
| TreeQueries.VisitPostOrder | 3rd_party/tree/tree.hh:799-812 | begin_post() to end_post() visits exactly the recursive post-order listing |
| TreeFixedDepth.NextAtSameDepth | 3rd_party/tree/tree.hh:3022-3058 | one step through the nodes of one depth, over any number of levels up and down; null exactly behind the last |
| TreeFixedDepth.VisitLevel | 3rd_party/tree/tree.hh:999-1005 | from the leftmost node of a depth on, repeated steps visit exactly the nodes of that depth in the whole forest, left to right |
| TreePaths.PathFromIterator | 3rd_party/tree/tree.hh:906-924 | the path is made of the sibling positions from top down to the node |
| TreePaths.IteratorFromPath | 3rd_party/tree/tree.hh:928-946 | walks down a path and reports an invalid one |
| TreePaths.PathRoot | 3rd_party/tree/tree.hh:906-924 | the path of a sibling is its position, counted from 0 |
| TreePaths.PathChild | 3rd_party/tree/tree.hh:906-924 | the path of a child is that of its parent and then its position, counted from 0 |
| TreePaths.PathRoundTrip | 3rd_party/tree/tree.hh:906-946 | iterator_from_path(path_from_iterator(n, top), top) is n for every node from top on |
| TreePaths.WalkPath | 3rd_party/tree/tree.hh:906-946 | the path of a node leads to it |
| TreePaths.PathWalk | 3rd_party/tree/tree.hh:906-946 | each valid path is recovered from the node that it reaches |
| TreeMoveOut.MoveOut | 3rd_party/tree/tree.hh:1857-1892 | the subtree leaves for a new well-formed tree of its own; the two trees share the old nodes between them |
| TreeMoveOut.MoveInAsNthChild | 3rd_party/tree/tree.hh:1937-1991 | all trees of the donor become children from position n on, the first n old children stay before and the others come behind, and the donor is empty; an empty donor and a position out of range change nothing |
| TreeMoveOut.Index | 3rd_party/tree/tree.hh:2464-2479 | the position of a node among its siblings, counted from 0, at the top without the dummies |
| TreeMoveOut.PutBack | 3rd_party/tree/tree.hh:2464-2479 | removing a child and putting it back at its index gives the same forest |
| TreeMoveOut.MoveOutAndBack | 3rd_party/tree/tree.hh:1857-1991 | out and in again at the old index restores exactly the tree, and the donor ends empty and well formed |
| AviTables.TokenCodes | src/modules/dec/stream_dec_avi_parser.cpp:423-466 | the symbols of the token codes: 258, 259 and 260 and nothing else are RIFF, LIST and CHUNK, all codes up to 0 are the end |
| AviTables.ActionTable | src/modules/dec/stream_dec_avi_parser.cpp:1507-1532 | what each non-defaulted state does with each symbol: the automaton read off the tables |
| AviTables.GotoTable | src/modules/dec/stream_dec_avi_parser.cpp:1539-1546 | the goto of each state for each nonterminal |
| AviTables.DefaultTable | src/modules/dec/stream_dec_avi_parser.cpp:479-493 | the rule by which each defaulted state reduces |
| AviTables.NoConflicts | src/modules/dec/stream_dec_avi_parser.cpp:563-573 | the conflict list of every table entry is empty, so the stack is never split |
| AviTables.NoRecovery | src/modules/dec/stream_dec_avi_parser.cpp:2737-2825 | no state shifts the error token |
| AviStack.GLRStack.Expand | src/modules/dec/stream_dec_avi_parser.cpp:1672-1729 | relocating every pointer keeps the sequence of states and values, every predecessor pointer and a null split point, and frees at least two items; it fails exactly when the maximum leaves no room for two more |
| AviStack.GLRStack.Shift | src/modules/dec/stream_dec_avi_parser.cpp:1808-1823 | pushes one item; used items and free space add up to the capacity, which never exceeds the maximum |
| AviStack.GLRStack.Drop | src/modules/dec/stream_dec_avi_parser.cpp:1885-1910 | the items of a right-hand side are given back and can still be read by the action |
| AviStack.GLRStack.Recover | src/modules/dec/stream_dec_avi_parser.cpp:2737-2825 | error recovery pops everything and fails |
| AviStack.GLRStack.Cleanup | src/modules/dec/stream_dec_avi_parser.cpp:3040-3072 | at the end the stack is empty and all its items are free |
| AviDriver.Driver.Initialize | src/modules/dec/stream_dec_avi_parser_driver.cpp:83-128 | a second initialize forgets everything about the run before, the offset included; a first one changes only the mode |
| AviDriver.Driver.ActionChunk | src/modules/dec/stream_dec_avi_parser.cpp:1248-1325 | the action behind a chunk field by field: what is recorded, what the client is told, when frames have begun, and that the driver is finished exactly by a header-only frame or by reaching the end of a file of known size, unless the client refuses the frame |
| AviDriver.Driver.ActionList | src/modules/dec/stream_dec_avi_parser.cpp:1331-1337 | the action behind a list |
| AviDriver.FrameOnDisk | src/modules/dec/stream_dec_avi_parser.cpp:1279-1291 | a chunk is a frame exactly if the four characters of its name on disk are two digits and two letters, given as byte ranges |
| AviDriver.TakenStops | src/modules/dec/stream_dec_avi_parser.cpp:1248-1325 | whether an action ends the parse does not depend on what came before |
| AviParser.ReducePhase | src/modules/dec/stream_dec_avi_parser.cpp:1935-1999 | in every phase of a run the reduction takes the stack to that of the next phase |
| AviParser.Heights | src/modules/dec/stream_dec_avi_parser.cpp:1808-1823 | the stack is 5 + 2n items high after the action of the n-th chunk or list, and only the 99997th finds it full |
| AviParser.UserAction | src/modules/dec/stream_dec_avi_parser.cpp:1190-1362 | the value that each rule computes from the items it reads, the sizes modulo 2^32, and what it does to the driver |
| AviParser.Reduce | src/modules/dec/stream_dec_avi_parser.cpp:1935-1999 | pop, act, goto: the new stack and the new driver for every rule, early ends included |
| AviParser.Turn | src/modules/dec/stream_dec_avi_parser.cpp:2884-2936 | one turn of the deterministic loop keeps the run on its one stack and gets nearer to the end, or ends it with the specified result |
| AviParser.Parse | src/modules/dec/stream_dec_avi_parser.cpp:2844-3072 | the result and the final driver are those of the specification for every token sequence and mode; the whole input is consumed exactly if it is complete, and then the size of the root is 20 plus what the chunks and lists weigh, modulo 2^32, hence that sum itself below 2^32 |
| AviTheorems.Results | src/modules/dec/stream_dec_avi_parser.cpp:2844-3072 | which of the results 0, 1 and 2 a parse has, and how far the driver got, in closed form |
| AviTheorems.AcceptsGrammar | src/modules/dec/stream_dec_avi_parser.cpp:479-537 | without an early end by an action, result 0 means that the codes are 258, 259, fewer than 99997 of 260 or 259 and then the end, which are the derivable inputs that fit on the stack, and result 2 exactly that there are 99997 or more; all else is result 1 |
| AviTheorems.PlainResult | src/modules/dec/stream_dec_avi_parser.cpp:2844-3072 | result, progress and completeness of every parse whose header is in order, in token codes, chunk names and offsets; any other code ends the parse at its place with result 1 |
| AviTheorems.PlainError | src/modules/dec/stream_dec_avi_parser.cpp:2844-3072 | a wrong header token is an error at its place, with only what came before it recorded |
| AviTheorems.PlainTokens | src/modules/dec/stream_dec_avi_parser.cpp:1279-1325 | the chunks that end a parse, by code, name, offset and the answer of the client |
| AviTheorems.Unambiguous | src/modules/dec/stream_dec_avi_parser.cpp:528-537 | a token sequence has only one derivation |
| AviTheorems.TreeOf | src/modules/dec/stream_dec_avi_parser.cpp:528-537 | the derivation of an accepted input |
| AviParser.FoldTotal | src/modules/dec/stream_dec_avi_parser.cpp:1327-1345 | the sizes that are summed up right to left in 32 bits are the sum modulo 2^32 |
| AviParser.WholeSize | src/modules/dec/stream_dec_avi_parser.cpp:1244-1246 | the size of a whole file is 20 plus 8 and its payload for each chunk and 12 for each further list, modulo 2^32, hence that number itself below 2^32 |
| AviTheorems.ReportedAll | src/modules/dec/stream_dec_avi_parser.cpp:1236-1337 | after any prefix of a run the recorded chunks are the consumed tokens in order, and each token from the first frame on was reported once |
| AviTheorems.HistoryAt | src/modules/dec/stream_dec_avi_parser.cpp:1294-1317 | frames are reported as frames and all later others as between frames, in order, none twice |
| AviTheorems.SilentHeader | src/modules/dec/stream_dec_avi_parser.cpp:1294-1305 | in header-only mode nothing is reported before the first frame |
| AviTheorems.HeaderOnce | src/modules/dec/stream_dec_avi_parser.cpp:1294-1305 | a header-only parse, also after others, calls header once if it meets a frame and never otherwise, with exactly the tokens before that frame, and calls nothing else |
| AviTheorems.FullReport | src/modules/dec/stream_dec_avi_parser.cpp:1236-1337 | a full parse of a driver just initialized reports exactly what it consumed, behind whatever was reported before |
| AviTheorems.FinishedAtEnd | src/modules/dec/stream_dec_avi_parser.cpp:1294-1323 | when a driver just initialized is finished after a parse: the last token reached is a chunk at or behind the end of a file of known size and no refused frame, or the frame of a header-only parse |
| AviTheorems.InitializeAndParse | src/modules/dec/stream_dec_avi_parser_driver.cpp:83-128 | initialize and then parse, on a new or a used driver: result, chunks, calls and whether it is finished are those of this run alone |
| MessageBlocks.ToString | src/stream_tools.cpp:41-54 | the bytes of all blocks in order |
| MessageBlocks.Append | src/stream_tools.cpp:57-69 | the chain is the first chain followed by the second, and so are the bytes |
| StreamTools.Get | src/stream_tools.cpp:72-136 | the first part has exactly the first n bytes, the remainder the others, also for a cut inside a block, for n = 0 and for n beyond the end |
| StreamTools.GetThenAppend | src/stream_tools.cpp:57-136 | appending the remainder to the first part restores the bytes |
| StreamTools.SkipBytes | src/stream_tools.cpp:311-335 | the bytes behind the first n stay; the result says exactly when the loop ended inside the chain |
| StreamTools.Skip | src/stream_tools.cpp:311-361 | the same with release: the emptied blocks in front are dropped, the others stay, the bytes are those of get's remainder |
| StreamTools.SkippedFlat | src/stream_tools.cpp:311-335 | emptying the first blocks and a part of the next one drops just that many bytes |
| StreamCrunch.CrunchInPlace | src/stream_tools.cpp:160-197 | the head block ends up with what the copies in order produce, on its own, and neither the space assertion nor a copy can fail; the bytes are preserved if and only if every block that lies where earlier bytes are put is found again there in the whole byte string |
| StreamCrunch.CrunchedKeeps | src/stream_tools.cpp:160-197 | copying the parts one behind the other, each as it is found when its turn comes, gives their concatenation if and only if each covered part recurs where it lies |
| StreamCrunch.BehindKeeps | src/stream_tools.cpp:160-197 | so it always does for a head buffer that is not shared, and for views that lie behind the place that they are copied to |
| StreamCrunch.CrunchAnew | src/stream_tools.cpp:199-254 | copying into a new block preserves the bytes |
| StreamCrunch.Crunch | src/stream_tools.cpp:139-254 | one block without continuation in both branches; in a new block always the same bytes, in place if and only if the covered blocks recur; null exactly if a new block is needed and there is none |
| StreamCrunch.CrunchShared | src/stream_tools.cpp:160-197 | a run of crunch on two blocks that share a buffer in the wrong order, which changes the bytes 1, 0 to 1, 1 |
| DriverWait.WaitingDriver.Rotate | src/modules/dec/stream_dec_avi_parser_driver.cpp:285-345 | the loop takes out the first decisive message of the queue and of all that arrives while it runs, also if the queue is empty or the message is not there yet, and puts every other one back behind; the end of the session is put back last; if nothing arrives, s before the message and r behind it become r, s and then the end of the session |
| DriverWait.WaitingDriver.Wait | src/modules/dec/stream_dec_avi_parser_driver.cpp:272-365 | if data or an object comes first the fragment chain is extended by it; if the end of the session comes first the queue is only rotated, the chain stays and finished is set; the queue is as for the loop |
| DriverWait.WaitingDriver.AppendFragment | src/modules/dec/stream_dec_avi_parser_driver.cpp:348-364 | the block goes to the end of the chain |
| DriverWait.WaitingDriver.SwitchBuffer | src/modules/dec/stream_dec_avi_parser_driver.cpp:220-269 | on to the next fragment, waiting for one if there is none; the count goes up exactly on success |
| DriverWait.QuietEnd | src/modules/dec/stream_dec_avi_parser_driver.cpp:285-345 | if nothing arrives meanwhile, what is before the message goes behind the rest |
| DriverWait.EndedWoven | src/modules/dec/stream_dec_avi_parser_driver.cpp:285-345 | if the message is in the queue at the start, the rest of the queue is followed by the arrivals in their order, with what was before the message put back between them in its order |
| DriverWait.EndedLog | src/modules/dec/stream_dec_avi_parser_driver.cpp:285-345 | in general: the wait ends with the first decisive message of all that is ever put into the queue, put back or arriving, and leaves what was put in behind it, in that order |
| DriverWait.RoundAgain | src/modules/dec/stream_dec_avi_parser_driver.cpp:285-345 | messages that go round together before a decisive one arrives need not stay in the order in which they arrived |
| DriverWait.EndedFirst | src/modules/dec/stream_dec_avi_parser_driver.cpp:285-345 | the message that ends the rotation is the first decisive one of the queue followed by all arrivals |
| DriverWait.EndedKeeps | src/modules/dec/stream_dec_avi_parser_driver.cpp:285-345 | rotation neither loses nor duplicates a message, arrivals included |
| DriverWait.NothingLost | src/modules/dec/stream_dec_avi_parser_driver.cpp:310-345 | the whole wait loses nothing if and only if the message that ends it is not an unreadable session message, which the code drops |

## Left out

The tree:

- Merging with `duplicate_leaves`, the overload for two single nodes and merging a tree into itself.
- replace when source and target overlap, the sibling-range replace, and assigning a value to a node.
- reparent, wrap and flatten for empty ranges or for a range given by two iterators; value-less append_child and prepend_child; move_in, move_in_below, move_ontop, insert_subtree_after, subtree and the sibling-erasing members.
- Moving or swapping the dummies and swapping a node with one below it, after which the links no longer form a tree; swapping a node with itself, which assigns every link the value it has.
- Sorting a range that contains head. `std::less` stands for any strict weak order; exceptions thrown by it are not modelled.
- TreeRows.AppendDummy: insertion at the end iterator of a sibling range (`3rd_party/tree/tree.hh:1346-1350`) is modelled by append_child, which assigns the same links.
- The overload of move_before for sibling iterators, which also takes an end iterator.
- Breadth-first and leaf iterators, max_depth, is_in_subtree, lca, and printing.
- Node allocation, its failure, and the release of freed nodes: a freed node is one that is in the returned sequence and no longer in the tree.
- TreeMerge.MergeRow: the two ranges are whole rows, all children of a node or all top-level trees; for a part of a row the code searches and adds in that part only.
- TreeMerge.MergeAllAgain: not unconditional, because merging again does change the result for some sources with equal siblings (Tries.MergeTwiceDiffers); the exact condition is proved.
- TreeMoveOut.MoveOut: not for top-level nodes, for which the code dereferences their null parent (`3rd_party/tree/tree.hh:1873`).
- TreeCompare.EqualSubtree: not for feet, the end iterator, which has no value of its own.

The parser:

- The nondeterministic half of the GLR machinery. Parse is proved to stay on one stack; the functions for split stacks are not part of this model.
- AviStack.GLRStack.Recover: without the branch for an error state of 3, which the parser is never in when it fails, and without error locations.
- AviDriver.Driver.Initialize: without releasing the fragments, the fragment counters and the frame size.
- AviDriver.Driver.ActionChunk: without looking up the frame size in strh and strf chunks.
- AviParser.Parse: without what the scanner does to the driver meanwhile, such as waiting for data, which may set finished.
- The scanner: tokens are arbitrary, with their offset and the answer of the client. The unused size in the value of a token is taken to be 0.
- Logging, locations, error texts and the destructors of symbols.
- Failing allocations, and the address arithmetic of the host: addresses are positive integers.

The message blocks:

- Reference counts, locking, and failing allocations apart from the one that Crunch is told about; the `goto allocate` retry is one attempt.
- Copying, moving to the front and duplicating belong to ACE and are modelled after their documented effect; the allocator of a duplicate is not.
- StreamCrunch.Crunch: preserves the bytes in place only under the exact condition `Recurs`, which a caller can check on the blocks beforehand; every chain with an unshared head buffer meets it, and StreamCrunch.CrunchShared is a chain that does not. No block of the chain may straddle the place that it is copied to in its own buffer, since the effect of copying onto itself from behind is not defined; copies are made byte by byte in ascending order.
- StreamTools.Skip: with release only if less than everything is skipped; otherwise the code asserts.
- DriverWait.WaitingDriver.Wait: data, the end of the session or an unreadable message is in the queue or arrives, and something arrives if the queue is empty; otherwise the loop spins or blocks. The time that dequeuing blocks is not modelled.
- DriverWait.WaitingDriver.SwitchBuffer: without the two bytes that the code writes behind the write position, the assertion about the capacity, and the calls into the generated scanner; whether the scanner begins is a parameter.
- The parse method around waiting and buffer switching.
