# lightquery: the radix tree with disabled prefixes, and the actor dataflow

This project models two parts of lightquery and proves what they are for.

**The adaptive radix tree** (`src/util/art.cc`) is an ordered index over byte strings. Inner nodes come in four
layouts, change layout in place, and store only the first ten bytes of a compressed path. A prefix can be disabled:
its subtree is replaced by a tag, and from then on every longer key is answered "disabled". The tree is modelled on
the heap, with arrays for the node buffers, and each operation is proved to be a simple operation on a finite map
from keys to values or tags.

**The dataflow** (`src/dataflow.cc` and the actor and operator files) is a single-threaded scheduler. It routes
messages to child actors that it creates on demand, runs them in slices, and ends them through tags in the tree and a
counter. It is modelled with its loops, over the tree's wrapper, with a clock that may say anything; it is proved to
end, to leave nothing behind, to print exactly the first results of its plan in order, however it is sliced, and to keep
cancelled scopes empty.

The layers, from the bottom:

| file | what it holds |
|---|---|
| `Bytes.dfy`, `PartialPaths.dfy` | byte strings; the ten-byte path buffer and what splits and merges leave in it |
| `Tries.dfy`, `TrieOrder.dfy`, `TrieMaps.dfy`, `PrefixWalks.dfy` | the tree with its paths in full, its order, the map it stands for, and the walk that looks for a prefix |
| `Nodes.dfy`, `RadixTrees.dfy`, `Traversals.dfy`, `Disabling.dfy`, `ArtTrees.dfy` | the heap: layouts, the path invariant, insert, delete, disable, traversals, and the tree object |
| `TreeHistories.dfy`, `Witnesses.dfy`, `RadixIndexes.dfy`, `Scopes.dfy` | whole histories of calls, and two at which a promise fails; the wrapper that appends a NUL to addresses |
| `Operators.dfy`, `Pipelines.dfy` | OUT and LIMIT; a chain of them, and why slicing does not matter |
| `Flows.dfy`, `FlowInvariants.dfy`, `FlowViews.dfy`, `FlowRuns.dfy`, `Dataflows.dfy` | the dataflow's state, its invariant, its meaning, and its loops |

How to read it. `Tries.Entry` is the walk that looks at branching bytes only; `TrieMaps.EntriesOf` is the map a tree
stands for (`Some` for an active key, `None` for a tag), and `TreeHistories.Index` splits it into active keys and
tags. `RadixTrees.Valid(p, d)` is the path invariant of a node whose slot lies `d` bytes from the root. A method that
the original gives a slot `ref` to overwrite returns the pointer to be written there. `FlowInvariants.Inv` is the
invariant of the scheduler, `FlowRuns.Meaning` what a state has printed and will still print, and
`FlowRuns.Left` how often an operator will still work. `FlowRuns.Foretold` is the meaning of a state with
cancellations in its mail: each scope whose cancellation is due loses its stages from the start.

Where the code and its comments differ, the code is followed: `art_lookup` answers -1, 0 or 1 (its header says 0 or
1); `art_disable` never answers 0 (its comment says it may); `add_urgent_task` would append at the tail.

Five promises hold only under a condition, and the condition is proved to be the exact one:

- A disable is remembered exactly when something is stored (`TreeHistories.ForbidShuts`); on an empty tree it answers
  1 and forgets (`TreeHistories.ForbidForgotten`).
- Prefix iteration is right for every tree and prefix unless the prefix strays and regains, that is, unless it leaves
  the compressed path of a node midway and its remaining bytes then lead to a path that agrees with its end
  (`PrefixWalks.MisledExactly`). `Witnesses.MisledWalk` is a history of three inserts at which that happens. It never
  happens to a prefix that something starts with, to one of up to three bytes, or to a whole address
  (`ArtTrees.ArtTree.RightUnder`, `ArtTrees.ArtTree.RightWhole`), so never in the dataflow.
- The size is the number of active keys exactly when no disable of the history dropped a tag
  (`TreeHistories.SizeExactly`, part of `TreeHistories.Replay`). `Witnesses.DriftedSize` is a history of three calls
  after which no active key is left and the size is 2^64-1.
- A cancelled scope is covered from then on exactly when anything is stored when its turn comes (`FlowRuns.CutKeeps`,
  `Dataflows.Dataflow.ProcessMessage`): when the tree held something at the start of the run or a message for a child
  came before. Otherwise the message has no effect, and the next one can create the very child it was to cancel
  (`Dataflows.ForgottenCancel`).
- After a query its operators have ended and their addresses are covered, with one exception: a LIMIT of zero is at its
  limit from the start and never asks to be cancelled, not even at the end of its stream (`FlowRuns.QueryEnds`, part of
  `Dataflows.Query`).

## Model

| member | source | states |
|---|---|---|
| PartialPaths.MergeExact | src/util/art.cc:791-806 | for every pair of path lengths, the collapsed buffer holds the first ten bytes of parent path, edge byte and child path, and the length is exact |
| PartialPaths.SplitLowerShort | src/util/art.cc:630-634 | shifting a path that is stored in full leaves the lower part of the path |
| PartialPaths.SplitLowerLong | src/util/art.cc:635-641 | refilling the buffer of a longer path from any leaf below gives the lower part of the path |
| Nodes.LaidUnique | include/lightquery/util/art.hh:48-79 | the buffers of each layout determine the map from edge bytes to children |
| Nodes.AtMost48Kids | include/lightquery/util/art.hh:67-71 | key map and slots being inverse, a NODE48 has at most 48 children |
| Nodes.FreeSlot | src/util/art.cc:418-419 | below 48 children the search for an empty slot ends inside the array |
| Nodes.ArtNode.constructor | src/util/art.cc:29-49 | a new node is empty in every layout |
| Nodes.ArtNode.FindChild | src/util/art.cc:140-225 | the slot of exactly the child stored under the byte, or none if there is none, in all four layouts |
| Nodes.ArtNode.AddChild4 | src/util/art.cc:505-535 | the map with one child more, in order, the header kept; the node is replaced by a NODE16 exactly when four are there |
| Nodes.ArtNode.AddChild16 | src/util/art.cc:437-503 | the map with one child more, in unsigned order, the header kept; the node is replaced by a NODE48 exactly when sixteen are there |
| Nodes.ArtNode.AddChild48 | src/util/art.cc:416-435 | the map with one child more, the header kept; the node is replaced by a NODE256 exactly when forty-eight are there |
| Nodes.ArtNode.AddChild256 | src/util/art.cc:410-414 | the map with one child more; the 8-bit count is the true count modulo 256 even at 256 children |
| Nodes.ArtNode.AddChild | src/util/art.cc:537-550 | the map with one child more, whatever the layout; the node stays exactly while its child buffer has room |
| Nodes.ArtNode.RemoveChild16 | src/util/art.cc:764-779 | the map without the child; the node is replaced by a NODE4 exactly when three are left |
| Nodes.ArtNode.RemoveChild48 | src/util/art.cc:739-762 | the map without the child; the node is replaced by an ordered NODE16 exactly when twelve are left |
| Nodes.ArtNode.RemoveChild256 | src/util/art.cc:715-737 | the map without the child; the node is replaced by a NODE48 with inverse key map exactly when 37 are left |
| Nodes.ArtNode.RemoveChildLarge | src/util/art.cc:815-828 | the map without the child, whatever the layout; the node is replaced exactly when 3, 12 or 37 are left |
| Nodes.ArtNode.TakeAt | src/util/art.cc:781-786 | the map without the child in a NODE4 or NODE16, still in order |
| Nodes.ArtNode.Edit | src/util/art.cc:404-828 | one add or remove: the new map and layout; an add replaces the node exactly when its child buffer is full, a remove exactly at 3, 12 or 37 children left |
| Nodes.ArtNode.EditAll | src/util/art.cc:404-828 | after any sequence of adds and removes, through every growth and shrinking, the node holds the map the sequence makes, in the layout its thresholds give |
| Nodes.ArtNode.Absorb | src/util/art.cc:791-806 | the child's header stands for parent path, edge byte and its own path |
| Nodes.ArtNode.FirstChild | src/util/art.cc:326-344 | the child under the least edge byte |
| Nodes.ArtNode.LastChild | src/util/art.cc:352-370 | the child under the greatest edge byte |
| Nodes.ArtNode.InByteOrder | src/util/art.cc:1055-1090 | all children, each once, by ascending edge byte |
| Tries.EntryIffKey | src/util/art.cc:289-318 | descending by branching bytes alone and comparing at the leaf finds exactly the stored keys |
| Tries.HolderIff | src/util/art.cc:1013-1043 | the leaf such a walk reaches is the one stored entry that is the query or a prefix of it |
| Tries.KeysAntichain | src/util/art.cc:899-1003 | no stored key or tag is a proper prefix of another |
| Tries.TrieUnique | src/util/art.cc:576-870 | trees with the same entries are the same tree, whatever inserts, deletes and disables built them |
| Tries.InsertWellFormed | src/util/art.cc:595-660 | after an insert every child still lies below its edge byte, and every inner node has two children or more |
| Tries.InsertEntry | src/util/art.cc:576-661 | after an insert every other key has the entry it had |
| Tries.DeleteWellFormed | src/util/art.cc:781-813 | the same after a delete, across merges |
| Tries.DeleteEntry | src/util/art.cc:830-870 | after a delete every other key has the entry it had |
| Tries.DisableWellFormed | src/util/art.cc:925-1001 | the same after a disable |
| Tries.DisableEntry | src/util/art.cc:899-1003 | after a disable nothing under the prefix is left but the tag, and every other key has the entry it had |
| TrieMaps.InsertRefines | src/util/art.cc:576-661 | insert is a map update |
| TrieMaps.DeleteRefines | src/util/art.cc:830-870 | delete is a map removal; the tree vanishes exactly with its last entry |
| TrieMaps.DisableRefines | src/util/art.cc:899-1003 | disable drops all entries under the prefix and adds the tag |
| TrieMaps.DisabledParts | src/util/art.cc:899-1003 | the active keys lose the extensions of the prefix, the tags lose them and gain the prefix |
| TrieMaps.HolderAnswers | src/util/art.cc:263-279 | the leaf reached decides all three answers of a lookup: disabled exactly when a tag is a proper prefix of the query |
| TrieMaps.TraversalRefines | src/util/art.cc:1046-1092 | a traversal lists every entry once, in strictly increasing unsigned order |
| TrieMaps.ListingUnique | src/util/art.cc:1046-1092 | that order leaves only one possible listing |
| TrieOrder.LessMeans | src/util/art.cc:1046-1092 | the order of a traversal: a proper prefix comes first, otherwise the first byte that differs decides, unsigned |
| TrieOrder.CallsUntil | src/util/art.cc:1046-1092 | the calls of an iteration are the first entries of the traversal; all but the last were answered 0, and the last too only if the traversal is over |
| TrieOrder.ActiveOne | src/util/art.cc:1095-1139 | what is handed out for a traversal of one leaf: its value if it is active, nothing for a tag; concatenation extends this to all |
| PrefixWalks.LandsOnPrefix | src/util/art.cc:1260-1314 | when some entry starts with the prefix, the walk ends at the subtree of everything that does |
| PrefixWalks.RightWhenStored | src/util/art.cc:1260-1314 | the same in terms of the map: the subtree lists exactly the entries under the prefix |
| PrefixWalks.MisledExactly | src/util/art.cc:1278-1311 | for every tree and prefix the walk finds exactly what starts with the prefix, and hands out exactly the active values, unless the prefix leaves a path midway and then agrees with the end of a path below |
| PrefixWalks.StraysFromAll | src/util/art.cc:1299-1305 | a prefix that leaves a path midway is the start of nothing stored |
| PrefixWalks.ShortNeverMisled | src/util/art.cc:1299-1311 | a prefix of up to three bytes is never misled |
| PrefixWalks.WholeNeverMisled | include/lightquery/util/radix_tree_index.hh:20-37 | where all keys are addresses with a NUL, a whole address is never misled and never read beyond its end |
| PrefixWalks.MatchingLists | src/util/art.cc:1174-1180 | the part of a listing whose keys start with the prefix lists exactly those entries, in order |
| RadixTrees.PathInvariant | src/util/art.cc:555-574 | any leaf below a node, tag or not, is longer than the path, agrees with it and with its stored bytes, and goes on to a child |
| RadixTrees.Minimum | src/util/art.cc:321-344 | the leaf that comes first in the traversal |
| RadixTrees.Maximum | src/util/art.cc:347-370 | the leaf that comes last |
| RadixTrees.CheckPrefix | src/util/art.cc:236-244 | the agreement of at most ten stored bytes; stopping early refutes the whole path |
| RadixTrees.PrefixMismatch | src/util/art.cc:555-574 | the exact length of the agreement with the whole path, also beyond the stored bytes |
| RadixTrees.LongestCommonPrefix | src/util/art.cc:394-402 | the exact point where two leaves part |
| RadixTrees.SkipPath | src/util/art.cc:304-309 | skipping a path after at most ten comparisons loses no entry on the way to the query |
| RadixTrees.Step | src/util/art.cc:303-315 | one step of the optimistic walk keeps the entry that the query can reach |
| RadixTrees.Chop | src/util/art.cc:629-641 | a node hung further down its own path is valid there, whatever the path's length |
| RadixTrees.SplitNode | src/util/art.cc:623-646 | the fork above a node with the new leaf is the split of the tree where key and path part |
| RadixTrees.SplitLeaf | src/util/art.cc:595-611 | the same above a leaf |
| RadixTrees.AddKid | src/util/art.cc:657-660 | a new child under an unused byte, across every growth |
| RadixTrees.InsertInto | src/util/art.cc:576-661 | refines the insert on full paths and returns the old value, whatever it splits |
| RadixTrees.RemoveSmall | src/util/art.cc:781-813 | removing from a NODE4: the sole survivor takes the node's place with a valid path |
| RadixTrees.RemoveLarge | src/util/art.cc:715-779 | removing from the larger layouts, across every shrinking |
| RadixTrees.DeleteAtNode | src/util/art.cc:830-870 | refines the delete on full paths and returns the removed value |
| Traversals.Destroy | src/util/art.cc:62-125 | the count of destroyed leaves is the number of entries below, tags included |
| Traversals.Iterate | src/util/art.cc:1046-1092 | the callback sees the entries in order up to the first that says stop, whose answer is returned |
| Traversals.IterateActive | src/util/art.cc:1095-1139 | the values of the active entries, in order |
| Disabling.DisableAtLeaf | src/util/art.cc:667-697 | cuts the leaf, refuses under a tag, or forks, exactly as the full prefix demands |
| Disabling.DisableInto | src/util/art.cc:899-1003 | refines the disable on full paths, or answers -1 unchanged under a shorter tag; counts the entries removed |
| ArtTrees.ArtTree.constructor | src/util/art.cc:55-59 | an empty tree |
| ArtTrees.MatchLeaf | src/util/art.cc:263-279 | -1 for a tag that is a proper prefix, 1 with the value for the exact active key, 0 otherwise |
| ArtTrees.ArtTree.Search | src/util/art.cc:289-318 | the value of an active key, nothing for any other |
| ArtTrees.ArtTree.Lookup | src/util/art.cc:1013-1043 | -1 exactly when a tag of the tree is a proper prefix of the query, 1 exactly for an active key, 0 otherwise; the value of an active key, none for any other |
| ArtTrees.ArtTree.Insert | src/util/art.cc:708-713 | a map update, with the old value returned and the size counted |
| ArtTrees.ArtTree.Delete | src/util/art.cc:880-890 | a map removal, with the old value returned and the size counted |
| ArtTrees.ArtTree.Disable | src/util/art.cc:899-1003 | code, entries and size after a disable, on empty trees, under tags and otherwise |
| ArtTrees.ArtTree.NoneCovers | src/util/art.cc:899-1003 | in every valid tree active keys and tags are an antichain |
| ArtTrees.ArtTree.Listed | src/util/art.cc:1046-1092 | a traversal of the whole tree lists every entry once, in order |
| ArtTrees.ArtTree.Iter | src/util/art.cc:1151-1153 | the calls made on the sorted listing of all entries: its first part up to the first answer that is not 0, which is returned |
| ArtTrees.ArtTree.IterActive | src/util/art.cc:1165-1167 | the active values of a sorted listing of all entries |
| ArtTrees.ArtTree.First | src/util/art.cc:375-377 | the entry with the least key, if there is any |
| ArtTrees.ArtTree.Last | src/util/art.cc:382-384 | the entry with the greatest key, if there is any |
| ArtTrees.ArtTree.FindPrefix | src/util/art.cc:1260-1314 | the loop ends where the walk on full paths ends, whatever bytes it reads beyond the end of the prefix |
| ArtTrees.ArtTree.RightUnder | src/util/art.cc:1260-1314 | no prefix that something starts with is misled, and none of up to three bytes |
| ArtTrees.ArtTree.RightWhole | src/util/art.cc:1260-1314 | nor is a whole address where all keys are addresses with a NUL; nothing beyond its end is read |
| ArtTrees.ArtTree.ListedUnder | src/util/art.cc:1260-1314 | the part of the traversal under a prefix lists exactly the entries under it, and is what the walk finds exactly when the prefix is not misled |
| ArtTrees.ArtTree.IterActivePrefix | src/util/art.cc:1260-1314 | for every prefix: the active values of the subtree the walk ends at; they are those under the prefix, in order, each once, exactly when it is not misled |
| ArtTrees.ArtTree.IterPrefix | src/util/art.cc:1194-1246 | the same for the calls made, until a callback says stop; right when the prefix is not misled |
| TreeHistories.StepGood | src/util/art.cc:899-1003 | fixed lengths and the antichain of tags and keys are kept by every call |
| TreeHistories.ShutForever | src/util/art.cc:899-1003 | over any history, a query once covered stays covered |
| TreeHistories.ForbiddenForever | src/util/art.cc:1013-1043 | after a disable every longer key is answered "disabled", at once and ever after, and is not active |
| TreeHistories.ForbidShuts | src/util/art.cc:904 | a disable covers the longer keys exactly when anything is stored |
| TreeHistories.ForbidForgotten | src/util/art.cc:904 | on an empty tree it answers 1 and covers nothing |
| TreeHistories.StoredIsLastPut | src/util/art.cc:576-890 | after any history what is stored under a key is the value of the last insert there that no later delete or disable undid |
| TreeHistories.ShutIsHeeded | src/util/art.cc:899-1043 | after any history a key is covered exactly if a disable of a proper prefix of it found anything stored |
| TreeHistories.AnswerLaw | src/util/art.cc:289-1043 | every answer in terms of the calls before it: insert, delete and search return the value put last and not undone, lookup and disable say whether a heeded disable covers the key |
| TreeHistories.ForbidCount | src/util/art.cc:62-125 | a disable subtracts the active keys it removes and the tags it removes |
| TreeHistories.NoDrift | src/util/art.cc:708-713 | histories without a disable set no tag and never drift |
| TreeHistories.DriftWhen | src/util/art.cc:944 | the size drifts exactly when a disable that is not refused finds a tag under its prefix |
| TreeHistories.SizeExactly | src/util/art.cc:944 | after any history of fewer than 2^64 calls the size is the number of active keys exactly if no call dropped a tag |
| TreeHistories.SizeIsListed | src/util/art.cc:708-713 | after inserts, deletes and searches the size is the number of keys a traversal yields, in order, all active |
| TreeHistories.Perform | include/lightquery/util/radix_tree_index.hh:42-70 | one call on a tree answers, and changes what the tree stands for, as the index says |
| TreeHistories.Replay | src/util/art.cc:289-1043 | every history of calls on a new tree: each insert, delete and search replies with the value put last and not undone, each lookup and disable with -1 exactly under a heeded disable; the size is exact if and only if no call dropped a tag |
| Witnesses.MisledWalk | src/util/art.cc:1299-1311 | three inserts and a prefix that nothing starts with, for which the iteration hands out two values |
| Witnesses.DriftedSize | src/util/art.cc:944 | an insert and two disables after which no active key is left and the size is 2^64-1 |
| RadixIndexes.CancelledIsShut | include/lightquery/util/radix_tree_index.hh:20-37 | with the NUL appended, a tag covers an address exactly when it is a prefix of it, the address itself included |
| RadixIndexes.VisitsOnce | include/lightquery/util/radix_tree_index.hh:72-75 | the listing under a prefix is the bound addresses under it, each once |
| RadixIndexes.AddressesAscend | include/lightquery/util/radix_tree_index.hh:20-37 | the NUL appended to addresses of one length does not change their order, so a sorted listing names them in ascending order |
| RadixIndexes.RadixIndex.Insert | include/lightquery/util/radix_tree_index.hh:52-55 | one address is bound, nothing else changes |
| RadixIndexes.RadixIndex.Remove | include/lightquery/util/radix_tree_index.hh:42-45 | one address is unbound |
| RadixIndexes.RadixIndex.Get | include/lightquery/util/radix_tree_index.hh:47-50 | the value bound to the address |
| RadixIndexes.RadixIndex.Lookup | include/lightquery/util/radix_tree_index.hh:67-70 | -1 exactly when a tag is a prefix of the address, else 1 with the value if it is bound, else 0 |
| RadixIndexes.RadixIndex.Disable | include/lightquery/util/radix_tree_index.hh:62-65 | addresses and tags after a disable, and its code |
| RadixIndexes.RadixIndex.Visit | include/lightquery/util/radix_tree_index.hh:72-75 | every bound address under the prefix is visited once, in ascending order, nothing else is: for whole addresses, for up to three bytes, and whenever something is stored under the prefix |
| Operators.FlatMapOne | src/operators.cc:16-22 | one node contributes exactly its neighbours, in order; `FlatMapConcat` extends this to every input |
| Operators.OutData | src/operators.cc:13-27 | what was buffered and all neighbours of the nodes, in order, are in the batches sent and the rest buffered; every batch has exactly 100 nodes, the rest fewer; for one node these are its neighbours |
| Operators.FillExact | src/operators.cc:16-27 | batches sent are exactly full, the buffer is not, nothing is lost or reordered |
| Operators.ExactUnique | src/operators.cc:16-27 | those facts leave only one result |
| Operators.DoOut | src/operators.cc:11-44 | data: neighbours buffered or sent in batches of 100, the operator goes on; end of stream: counted, the buffer and the end sent, and the operator asks to be cancelled exactly at the first; anything else: an error, nothing changed |
| Operators.Batching | src/operators.cc:11-53 | for any inputs ended by EOS: the flat map in order, batches of 100 but the last, which is shorter, N/100+1 of them, then EOS |
| Operators.DoLimit | src/operators.cc:55-79 | data: the first nodes up to the limit are printed and counted, and the operator asks to be cancelled exactly when the limit is reached; end of stream: exactly at the first, if it is the last operator; at its limit it does nothing and goes on |
| Operators.PrintsStream | src/operators.cc:55-79 | LIMIT prints exactly the first nodes of a stream, as many as its limit leaves |
| Pipelines.PendingWorked | src/operators.cc:46-53 | a stage that works does not change what any later stage will be given |
| Pipelines.PrintedWorked | src/actor_implementation.cc:16-20 | printed and still to be printed together are the same after every `do_work` |
| Pipelines.WorkLeftWorked | src/actor_implementation.cc:13-31 | every `do_work` uses up work |
| Pipelines.ClosingWorked | src/actor_implementation.cc:13-21 | no `do_work` takes the end of its stream from a stage that will end, and none ends a LIMIT of zero |
| Pipelines.InitialEnding | src/operators.cc:29-35 | before any work every stage will end, except a LIMIT of zero |
| Pipelines.PipelineResult | include/lightquery/op_code_tree.hh:51-56 | a stream through any number of OUT stages and a LIMIT: the first results of all hops in order |
| Flows.AddressStage | include/lightquery/op_code_tree.hh:31-38 | the operator id read from an address is the one written into it |
| Flows.AddressBytes | include/lightquery/operator_base.hh:34-39 | four bytes: the two of the dataflow, then the operator id, least byte first |
| Flows.StageAddress | include/lightquery/operator_base.hh:34-39 | an address is its scope and its operator id |
| FlowInvariants.EnqueueInv | include/lightquery/actor_core.hh:65-71 | delivering mail keeps the scheduler's invariant: queued once, active exactly when queued or running |
| FlowInvariants.CreateInv | src/dataflow.cc:66-91 | so does creating a child, which is never created under a cancelled scope |
| FlowInvariants.StopAllHalts | src/actor_implementation.cc:46-55 | stopping children one by one: each is on its way out, without mail, queued once and counted once |
| FlowInvariants.StopAllOrder | src/actor_implementation.cc:46-55 | those that were neither queued nor running are queued behind all others, in the order in which they are stopped |
| FlowInvariants.CancelInv | src/dataflow.cc:153-160 | stopping all children under a prefix and disabling it keeps the invariant; the tree knows exactly the children that go on |
| FlowInvariants.StartInv | src/dataflow.cc:127-128 | the task taken from the queue exists, is active and is queued no more |
| FlowInvariants.AbsorbInv | src/actor_implementation.cc:14-17 | `do_work` keeps the invariant; no covered actor works |
| FlowInvariants.FinishInv | src/actor_implementation.cc:34-38 | so does the deletion of a terminating actor, which leaves the counter exact |
| FlowInvariants.RestInv | src/actor_implementation.cc:40-43 | so does the end of a slice |
| FlowInvariants.CutForGood | src/dataflow.cc:100-111 | after a scope was cancelled, whatever is left under it is on its way out and unknown to the tree |
| FlowViews.EnqueueViews | src/dataflow.cc:96-98 | moving a message to a child's mailbox changes nothing that will happen to it |
| FlowViews.CreateViews | src/dataflow.cc:66-91 | neither does creating the child |
| FlowViews.FinishViews | src/actor_implementation.cc:34-38 | nor deleting a stopped one |
| FlowViews.RestViews | src/actor_implementation.cc:40-43 | nor where a slice ends |
| FlowViews.AbsorbViews | src/operator_base.cc:10-26 | `do_work` moves one payload through one stage, its messages to the next stage in order |
| FlowViews.LastWorkViews | src/dataflow.cc:138-147 | a `do_work` that ends the actor removes exactly its stage, for good |
| FlowViews.CancelViews | src/dataflow.cc:153-160 | cancelling a scope removes exactly the stages under it, if anything is stored |
| FlowRuns.DeliverKeeps | src/dataflow.cc:56-99 | delivering the first message keeps the invariant, the meaning and the counter |
| FlowRuns.WorkKeeps | src/actor_implementation.cc:14-21 | one `do_work` with the termination it asks for keeps invariant and meaning, uses up work, leaves the task queue as it is, and takes no stage its end |
| FlowRuns.CutKeeps | src/dataflow.cc:100-111 | cancelling any scope keeps the invariant; the scope is covered from then on exactly when anything is stored, otherwise nothing changes |
| FlowRuns.OnwardWork | src/actor_implementation.cc:14-21 | what was covered stays covered through `do_work` and the termination it asks for |
| FlowRuns.ScopeProcessed | src/dataflow.cc:100-111 | a cancellation keeps invariant and what is foretold, and is recorded exactly when it takes effect |
| FlowRuns.ForetoldMeans | src/dataflow.cc:52-120 | without cancellations in the mail what is foretold is the meaning |
| FlowRuns.CutsHold | src/dataflow.cc:100-111 | in an idle state every address under a recorded cancellation is covered, and no child under it is left |
| FlowRuns.Quiescent | src/dataflow.cc:132-134 | in an idle state no actor has mail or is terminating, the counter is zero, every stopped actor was deleted once, all is printed |
| FlowRuns.StagesEnded | src/actor_implementation.cc:18-38 | in an idle state every stage that was going to end is covered and unbound |
| FlowRuns.QueryMeans | include/lightquery/op_code_tree.hh:51-56 | what a new dataflow with a stream of inputs means |
| FlowRuns.QueryEnds | src/dataflow.cc:138-147 | what a query leaves behind: every OUT has ended, its address covered, its actor gone; the LIMIT likewise exactly if its limit is not zero |
| Dataflows.NotExpired | src/actor_core.cc:44-50 | nine checks in ten go on without asking the clock |
| Dataflows.Dataflow.constructor | include/lightquery/dataflow.hh:20-22 | a dataflow without mail, tasks or children |
| Dataflows.Dataflow.Activate | include/lightquery/actor_core.hh:65-71 | an actor that is not active goes to the tail of the task queue; an active one is not queued again |
| Dataflows.Dataflow.EnqueMessage | src/actor_core.cc:19-23 | the message goes to the tail of the child's mail, and the child, unless it is active, to the tail of the task queue |
| Dataflows.Dataflow.HandleStopFromParent | src/actor_implementation.cc:46-55 | terminating, without mail, active, queued at the tail unless it was active; once only |
| Dataflows.Dataflow.HandleChildTerminated | src/dataflow.cc:149-151 | the counter goes down and the child is deleted |
| Dataflows.Dataflow.CreateChild | src/dataflow.cc:66-91 | a new child with the operator its address names, bound in the tree |
| Dataflows.Dataflow.HandleChildTermination | src/dataflow.cc:138-147 | the child is found active, as the assertion says, counted, disabled and stopped |
| Dataflows.Dataflow.StopTargets | src/dataflow.cc:154-158 | each child visited is counted and stopped |
| Dataflows.Dataflow.HandleScopeCancellation | src/dataflow.cc:153-160 | for every prefix of up to a whole address: exactly the children under it are stopped, each once, by ascending address, and it is disabled |
| Dataflows.Dataflow.DeliverMessage | src/dataflow.cc:56-99 | to the tail of the child's mail, to a new child, or dropped without effect if the address is disabled |
| Dataflows.Dataflow.CancelNow | src/dataflow.cc:100-111 | the scope is covered and recorded exactly when anything is stored, otherwise nothing changes; the children under it that were not waiting are queued behind all others by ascending address |
| Dataflows.Dataflow.ProcessMessage | src/dataflow.cc:53-118 | any message processed keeps the invariant and what is foretold; a user message is delivered, a cancellation of more than two bytes covers its scope exactly when anything is stored, every other message is just dropped |
| Dataflows.Dataflow.ProcessMailbox | src/dataflow.cc:52-120 | ends with an empty mailbox, the invariant and the same foretold; every cancellation that was due is recorded, what was covered stays covered |
| Dataflows.Dataflow.DoWork | src/actor_implementation.cc:14-17 | the head of the mailbox is worked on, its messages are appended to the dataflow's mail |
| Dataflows.Dataflow.WorkOnce | src/actor_implementation.cc:14-21 | the same with the termination it may ask for; the mailbox is one message shorter, or empty if the actor ends; the task queue is as it was |
| Dataflows.Dataflow.RunActor | src/actor_implementation.cc:11-44 | a slice works on the oldest messages one after another, makes progress, keeps the invariant and the meaning; if it leaves mail, it has worked on nine messages at least and the actor is queued behind all others |
| Dataflows.Dataflow.EndSlice | src/actor_implementation.cc:33-43 | a terminating actor is counted down and deleted, any other keeps its mail and is queued at the tail if it has any |
| Dataflows.Dataflow.Deactivate | src/actor_implementation.cc:40-43 | active again only if there is mail left |
| Dataflows.Dataflow.RunTasks | src/dataflow.cc:126-131 | the inner loop ends; it makes progress, finds no task, or resets the count of checks; it leaves tasks only when the clock was asked |
| Dataflows.Dataflow.RunFirst | src/dataflow.cc:127-130 | the head of the task queue is run; all others keep their places, and it comes back, if it has mail, behind them |
| Dataflows.Dataflow.RunAndDispose | src/dataflow.cc:122-136 | ends for every mail and every clock; then all is idle, the counter zero, each stopped actor deleted once, exactly what was foretold is printed, and every cancellation that was due holds: its addresses are covered, no child under it is left, none was created or worked after it; without cancellations in the mail every stage that was going to end is covered and unbound |
| Dataflows.Dataflow.Enque | src/dataflow.cc:179-181 | mail from outside goes to the tail and keeps the invariant |
| Dataflows.Dataflow.EnqueUrgent | src/dataflow.cc:183-185 | urgent mail goes to the head and keeps the invariant |
| Dataflows.Query | tests/test_operator.cc:26-52 | any batches of input and EOS through any number of hops: exactly the first results in order are printed, for one vertex and one hop its first neighbours; every OUT stage has ended, and nobody is left exactly if the limit is not zero |
| Dataflows.ForgottenCancel | src/dataflow.cc:100-111 | a cancellation before anything is stored is forgotten: the next message creates the child it was to cancel |

## Left out

- Disabling.DisableInto: `art_disable` is a loop that carries the slot to overwrite; here each turn is a call that returns what goes into the slot, because the nodes above must be seen to stay whole. Branches and effects are the same.
- RadixTrees.InsertInto: the slot `ref` is the returned pointer; the NULL case is `ArtTrees.ArtTree.Insert` on an empty tree.
- RadixTrees.DeleteAtNode: a leaf at the root is handled by `ArtTrees.DeleteFrom`; that a freed leaf or node is not used again is not stated, memory is never reused.
- ArtTrees.ArtTree.Search: keys of the tree are no longer than the query, as for the wrapper's keys of one length; a shorter query would read beyond its end.
- ArtTrees.ArtTree.Lookup: the same.
- ArtTrees.ArtTree.Delete: the same.
- ArtTrees.ArtTree.Insert: keys and tags of the tree neither cover the new key nor are covered by it, as the wrapper's keys of one length and the dataflow's lookup before each insert ensure; the original would read beyond the end of a key otherwise.
- ArtTrees.ArtTree.Disable: not for the empty prefix, and what is stored above the prefix is a tag, for the same reason. The count of destroyed leaves is not cut to 32 bits.
- ArtTrees.ArtTree.FindPrefix: a byte that the original reads beyond the end of the prefix is any byte here; that such a read can fault is not modelled. `PrefixWalks.Landing` says when it happens (`Astray`); it does not for whole addresses (`ArtTrees.ArtTree.RightWhole`) and for prefixes that something starts with.
- RadixIndexes.RadixIndex.Visit: for a prefix of more than three bytes that is not a whole address, with the premise that something is stored under it; without it `ArtTrees.ArtTree.IterActivePrefix` says what is visited.
- Dataflows.Dataflow.HandleScopeCancellation: the children are visited first and stopped then, in the same order; the callback does not touch the tree.
- Dataflows.NotExpired: the clock is arbitrary, and start times and slice lengths are not modelled.
- Dataflows.Dataflow.CreateChild: the operator codes are a chain of OUT stages with a LIMIT at the end, of which the built-in plan is the one with one hop; the limit is a number, `string_to_unsigned_int` is not modelled. Addresses carry the dataflow's own two-byte address and one operator id.
- Dataflows.Dataflow: actors are records in a map under their pointers, not objects of their own, so that a deleted actor is a missing key and a dangling pointer can be spoken of; update through two references to one actor is not modelled.
- Child mailboxes hold payloads of user messages only, as nothing else is ever routed to a child; the other branches of `stateless_actor::run_and_dispose` are unreachable and left out.
- `art_delete_prefix`: its depth handling differs from the other walks and nothing in the dataflow calls it.
- The SSE branches of `find_child` and `add_child16` (the portable branches are modelled; the signed comparison orders bytes from 128 on differently), the bit field with `__builtin_ctz` (modelled as the first such index), and the tag bit of leaf pointers (a datatype instead).
- `art_tree_destroy`, copying by `loadKey` and `loadPrefix`, allocation failure, and leaks of messages.
- Widths: `partial_len`, `key_len`, the counters of operators and the 64-bit terminating counter are unbounded numbers; the 8-bit child count and the 64-bit size wrap as in the original.
- The graph: `GetOutV` is any function from a node to a finite sequence, with label, time weight and latest arrival fixed.
- FLOW_CONTROL, CREATE_CHILD, CONFIGURATION and ACKNOWLEDGE messages are all `Other` and skipped; `schedule`, `dataflow::handle_stop_from_parent`, `add_urgent_task` and several shards are left out.
