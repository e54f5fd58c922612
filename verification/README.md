# Proofs about the Mozart/Oz virtual machine

This project models the parts of the Mozart/Oz emulator and of two contributed
libraries in which state is changed step by step under an invariant nobody
writes down, and proves that the steps add up to what they are for. Check it with
`dafny verify dfyconfig.toml` (Dafny 4.11).

| file | what it models |
|---|---|
| `CollectorHeap.dfy`, `CollectorGraph.dfy`, `Collector.dfy` | the copying garbage collector: from-space with reference chains, list pairs, records, optimized and plain variables; the work stack, forward marks, the list walk, the fix stack |
| `Runs.dfy`, `CollectorMachine.dfy`, `LostCollection.dfy`, `SelfHeadedTail.dfy` | the same code as a machine on raw memory, and the collections that it never completes |
| `SuspensionList.dfy` | compressing suspension lists during collection |
| `DictTable.dfy` | collecting and compacting the hash table of a dictionary |
| `Trail.dfy`, `Boards.dfy` | the tree of computation spaces: trail, scripts, switching between spaces |
| `RealInterval.dfy`, `RealWidths.dfy`, `SumWidths.dfy`, `RealPropagators.dfy` | the propagators for x+y=z, x\*y=z and integer bounds over real intervals |
| `Reflection.dfy` | exploring the graph of variables and propagators |
| `VirtualString.dfy` | the resumable length of a virtual string |
| `ArityList.dfy` | the arity extractor with its half-speed pointer |
| `ByteTransport.dfy` | byte strings cut into fragments for buffers of any size |
| `PickleBuffer.dfy` | the chunked buffer between marshaler, sink and source |
| `LocationCache.dfy` | the hashed cache of operand locations |
| `Opcodes.dfy`, `CodeCopy.dfy` | the instruction table and the bytecode copier |
| `Base64.dfy` | the base64 encoder and decoder |

Code that changes state is a class with methods, or a method with loops; each
method states its result or new state in full, through a specification function or
predicate of the same module, and lemmas prove what that specification is good for.
The invariants that carry the main results are `CollectorHeap.Inv` (what holds
between any two steps of a collection), `Boards.Machine.Valid`,
`RealInterval.During`, `Reflection.Explored` and `CodeCopy.Progress`.

Where the code does not do what one would expect:

- The list walk of the collector copies a head before it marks the pair, so a
  list tail that is an unmarked pair with itself for its head is copied twice
  (platform/emulator/cac.cc:2149-2151). When that pair is visited later, the head
  of its first copy is copied once more, the second copy goes on the stack, and the
  code reads that cell's tail, which was never written. `Collector.Collector.Collect`
  says that a collection is lost in exactly this case and a copy of the heap
  otherwise; `LostCollection.NeverFinished` that a lost one never drains the stack,
  and `SelfHeadedTail.SelfHeadedTailFails` follows it on the list 1|X with X = X|nil.
  The class stops where such a pair is visited; what the code does from there on is
  described by the machine of `CollectorMachine`, which needs no invariant and which
  the methods of the class follow step by step up to there. The entry pair of a walk
  is treated specially by the source and causes no loss.
- The width that the product propagator remembers for an argument can stay far
  above the real one when z is also a factor, since tightening z does not touch it
  (contrib/ri/propagators.cc:229-240). `RealWidths.WidthsExact` says that this is
  the only case. The sum propagator does the same when its bounds are rounded
  (`SumWidths.SumWidthsExact`), but not with exact arithmetic
  (`SumWidths.ExactEndsNear`).
- The last symbol of the base64 alphabet is `-`, where section 4 of RFC 4648 has
  `/` (platform/emulator/base64.cc:46).
- The step from 1 to 3 in the table of hash sizes is larger than 5/2; it does no
  harm, as tables below size 4 are never compacted
  (`DictTable.PrimesAreSizes`, `DictTable.CompactionSettles`).
- A dictionary with a single entry that is compacted gets a table of size 1, of
  which by the load limit no slot may be filled; the next insertion resizes it
  (platform/emulator/cac.cc:775-802, dictionary.hh:313-317). `DictTable.NoRoomForOne` gives the case,
  `DictTable.RoomExact` the condition for all sizes.
- The destructor of a code area knows ten opcodes that the copier does not
  (`Opcodes.UnknownToCopier`).
- The destructor gives back the operand locations of instructions that call builtins
  (platform/emulator/codearea.cc:1421-1428), which a copied code area shares with the
  original (`Opcodes.LocationsShared`). A location for at most 8 registers is cached and
  stays (`LocationCache.CachedStay`); a larger one is given back with each of the two.
- A variable whose kind the reflection switch does not handle gets an identifier
  but no record; `Reflection.MentionHasRecord` states both directions.

## Model

The main result of each component comes first; what leads up to it, and the operations it rests on, follow component by
component.

| member | source | states |
|---|---|---|
| `Collector.Collector.Collect` | platform/emulator/cac.cc:2216-2420 | Collecting a block of roots, draining the work stack and fixing the deferred references, on any heap. Unless the collection is lost, to-space ends isomorphic to from-space: exactly the reachable cells are copied, one copy each, no other to-space cell exists except one per variable moved alone, sharing and cycles are kept. It is lost if and only if the tail walk met a pair that is its own head and copied it twice, and if and only if the machine of `CollectorMachine` never drains the stack of this heap; from where it stops, no number of steps drains the stack or makes to-space a copy of the heap. A heap with a closed set of cells free of tails that are their own heads is never lost |
| `LostCollection.NeverFinished` | platform/emulator/cac.cc:2161-2207 | From the visit to a pair that was copied twice on, after any number of steps, the stack is not drained and to-space is no copy of the heap |
| `SelfHeadedTail.SelfHeadedTailFails` | platform/emulator/cac.cc:2110-2156 | On the list of 1 and X, where X has itself for its head and nil for its tail, the run is followed step by step: X is copied twice, its first copy gets a third cell for its head, and the run gets to the tail of the second copy, a slot that was never written, where no step is possible; the collection does not complete |
| `CollectorGraph.VariableIdentityKept` | platform/emulator/cac.cc:1238-1283 | After fixing, two copied slots lead to the same variable if and only if their originals did, and what they lead to is the copy of that variable |
| `CollectorGraph.SharingKept` | platform/emulator/cac.cc:1010-1054 | Two access paths lead to the same copy if and only if they led to the same cell |
| `Boards.Machine.Install` | platform/emulator/board.cc:555-617 | From any valid machine: a current or dead target changes nothing; otherwise exactly the spaces below the nearest common ancestor are undone, exactly those down to the target are told, all marks are clear again, there is one trail frame per installed space but the root, and the machine ends in the target, or in the parent of the first space whose script fails; only that space is flagged failed, and the spaces below it keep their scripts. It succeeds if and only if some store that extends what is left of the old one satisfies all scripts on the way down; the new store satisfies those of the spaces installed and assumes nothing they do not demand, and where the switch stops no store satisfies one script more |
| `Boards.Machine.SwitchAndReturn` | platform/emulator/board.cc:555-617 | Switching from a living space to any other and back restores current space, trail and store exactly, whether or not the way out succeeds; no failure flag changes but that of one space on the way out, if a script there fails |
| `RealPropagators.PropagateSum` | contrib/ri/propagators.cc:146-183 | For all boxes, shared variables included, and any monotone outward rounding: the solutions of x+y=z in the boxes are exactly those before, failure only if there are none, at the fixpoint each value left to an argument is, up to rounding, one that goes with values of the other two at most the precision outside their boxes, the passes made are those the rules prescribe, at most 1 + (sum of widths)/precision of them. Every remembered width is within the precision of the real one if z shares its variable with neither x nor y, and without rounding in any case; if z shares its variable and bounds are rounded, that holds of an argument that shares its variable with none |
| `SumWidths.SumWidthsExact` | contrib/ri/propagators.cc:146-183 | The remembered widths of x+y=z end within the precision of the real ones for all monotone outward roundings, boxes, precisions and successful runs if and only if z shares its variable with neither x nor y: there is a run of three passes that ends far for each of z=x, z=y and x=y=z |
| `SumWidths.ExactEndsNear` | contrib/ri/propagators.cc:146-183 | Without rounding the remembered widths of x+y=z end within the precision for all boxes, precisions and successful runs, whichever arguments are one variable |
| `RealPropagators.PropagateProduct` | contrib/ri/propagators.cc:207-326 | The same for x*y=z over exact reals: at the fixpoint each value left to z goes with values of x and y at most the precision outside their boxes, and each value left to x or y likewise, if the other factor, its box as much wider, cannot be zero; passes and remembered widths as for the sum, the latter near for all arguments if z shares its variable with neither factor |
| `RealWidths.WidthsExact` | contrib/ri/propagators.cc:207-326 | The remembered widths of x*y=z end within the precision of the real ones for all boxes, precisions and successful runs if and only if z shares its variable with neither factor |
| `RealPropagators.IntBounds` | contrib/ri/propagators.cc:348-389 | Succeeds if and only if the finite domain and the interval share an integer; then the domain is exactly the shared integers and the interval runs exactly from the least to the greatest of them; the retry loop ends |
| `Reflection.ReflectSpace` | contrib/reflect/reflect_space.cc:391-453 | For every finite graph of variables and propagators: ends; the numbered variables and propagators are exactly those reachable through the variables found in parameters and the propagators alive on suspension lists; each live propagator and each variable of a handled kind has one record, the records list the numbers of precisely the parameters and live suspensions, last one first; numbers are unique per table |
| `Reflection.ParamsRecorded` | contrib/reflect/reflect_space.cc:391-453 | If all variables are of the handled kinds, every number in a propagator record is the number of a variable record |
| `VirtualString.Run` | platform/emulator/builtins.cc:1311-1324 | Resumed after every one of any sequence of bindings, the call answers as one call on the fully bound term would; if no variable is left, with the length of the text the term stands for |
| `VirtualString.GroundLength` | platform/emulator/builtins.cc:1226-1308 | On a term without variables the result is the length of the text it stands for, its parts in sequence with integers in decimal, or failure exactly if it stands for none |
| `ArityList.GetArity` | platform/emulator/builtins.cc:1911-1972 | Ends on every finite heap list, cyclic or not, with the verdict at the first position that is not a feature, or rejection of an endless list; the i-th result is the i-th element, or its first component if pairs are expected |
| `ArityList.RejectsCyclic` | platform/emulator/builtins.cc:1945-1971 | Of the lists whose elements are all features, exactly the cyclic ones are rejected; of the others the features are returned, all and in order |
| `SuspensionList.Collector.CacLists` | platform/emulator/cac.cc:1968-2013 | Any sequence of lists can be treated one after the other, sharing copies |
| `DictTable.DictHashTable.Collect` | platform/emulator/cac.cc:714-823 | In both branches the new table holds the same keys with their copied values and the same entry count; a table filled enough keeps its size and its slots, another gets the smallest size that is not below entries/0.7 rounded down, which is strictly smaller, and may be filled to 0.9 of it; it has room for its entries if and only if it is empty or has more slots than entries; the next collection does not compact |
| `ByteTransport.Transfer` | platform/emulator/bytedata.cc:243-314 | For every string and every sequence of buffers with room for a payload byte: sender and receiver agree after each fragment whether more follows, what is received is the sent prefix, and when done it is the string |
| `PickleBuffers.SaveAndLoad` | platform/emulator/components.cc:250-300 | Every non-empty byte string, exact multiples of the chunk size included, comes back unchanged from marshaling, writing out and loading, for every checksum function, and whether the source gives the checksum or not |
| `LocationCache.Run` | platform/emulator/codearea.cc:1625-1684 | Over every run of register settings, requests and releases, starting from the identity mapping: every location ever returned still has on its first n entries the mapping it was asked for, unless it was given back and was too large for the cache; precisely those are freed |
| `CodeCopy.CopyCode` | platform/emulator/copycode.cc:205-488 | The copy stops exactly at the end of the definition; opcodes, registers and labels are unchanged; a constant, a feature of an arity, the name of a method call, a literal of a match table, an abstraction entry on the list has become its new name or entry, and is the same if not on the list; if the new names are new, no operand has a name or an entry of the list left in it; exactly the listed names and entries are renamed, to fresh and distinct ones; the definition's own entry becomes the given one, every other predicate entry and every method call is a fresh copy, and each copied entry points behind its last definition |
| `CodeCopy.CopyAndWalk` | platform/emulator/codearea.cc:1159-1437 | The walkers of the garbage collector and of the destructor go over every copied definition from start to end |
| `Base64.RoundTrip` | platform/emulator/base64.cc:57-139 | Decoding an encoding gives back the bytes, for all lengths and any alphabet of 64 distinct symbols without the fill character |
| `Collector.Collector.Drain` | platform/emulator/cac.cc:2161-2207 | On every heap the loop ends with the invariant: with an empty stack and no pair copied twice, or at a stack whose top is a pair that was copied twice. It has made exactly the steps of the machine, and no forward is ever changed |
| `Collector.Collector.Step` | platform/emulator/cac.cc:2161-2207 | Continuing the top entry, unless it is a pair that was copied twice, keeps the invariant; forwards, copies and deferred references only grow; the machine gets from the memory before to the memory after |
| `Collector.Collector.Pop` | platform/emulator/cac.cc:2164-2166 | Exactly the top entry goes; its cell already has a copy, and precisely the unfilled slots of that copy are now owed; for an entry that is not a pair copied twice |
| `Collector.Collector.TopTwice` | platform/emulator/cac.cc:2110-2124 | The top entry is a pair that was copied twice if and only if the head of its copy refers to a cell outside from-space |
| `Collector.Collector.CopyTerm` | platform/emulator/cac.cc:2223-2403 | Copying one term fills exactly its slot with the image of what the source slot means, whatever the reference chain ends in (number, atom, pair, record, mark, optimized or plain variable), and changes memory as one copying step of the machine does; the term must not lead to the pair whose mark is missing |
| `Collector.Collector.Deref` | platform/emulator/cac.cc:2250-2275 | Following references stops at a term that is the end of the source chain, or at the forward mark of a copy that means the same |
| `Collector.Collector.CopyPair` | platform/emulator/cac.cc:1010-1032 | The result is the one copy of the pair: the old copy if it is marked, else a new cell that is marked at once and pushed |
| `Collector.Collector.CopyRecord` | platform/emulator/cac.cc:1034-1054 | The same for records, marked through the header field |
| `Collector.Collector.CopyOptVar` | platform/emulator/cac.cc:2304-2328 | An optimized variable met directly is placed in the slot and its old slot forwarded there; met through a reference the slot refers to it and is deferred, unless it lies unaligned in to-space already; the invariant is kept |
| `Collector.Collector.CopyVar` | platform/emulator/cac.cc:2330-2347 | A plain variable whose body is marked is referenced where the mark says; otherwise it is placed in the slot if met directly, in a new cell if not, and the body is marked with that place; the invariant is kept |
| `Collector.Collector.CopyBlock` | platform/emulator/cac.cc:2216-2226 | Copying a block owes the slots of the block and pays each of them exactly once, word by word as the machine does |
| `Collector.Collector.ContinueRecord` | platform/emulator/cac.cc:2101-2107 | Continuing a record fills the label and all arguments of its copy, step by step as the machine does |
| `Collector.Collector.CopyHead` | platform/emulator/cac.cc:2114-2124 | The head of the entry pair is copied correctly even when it leads to the pair itself, as the machine copies it |
| `Collector.Collector.CopyTailPair` | platform/emulator/cac.cc:2144-2151 | The tail walk allocates the next pair, links it, copies its head and only then stores the forward: on every unmarked pair the invariant holds again, and memory is as the machine leaves it |
| `Collector.Collector.CopyTailHead` | platform/emulator/cac.cc:2149-2151 | Copying the head of the open pair and storing the forward keeps the invariant in both cases: the pair counts as copied twice if and only if its head leads to the pair itself |
| `Collector.Collector.WalkTail` | platform/emulator/cac.cc:2126-2153 | One round of the tail walk: a tail that is no pair or a marked pair ends it with every slot filled, an unmarked pair is copied and becomes the next one; it is one step of the machine |
| `Collector.Collector.ContinuePair` | platform/emulator/cac.cc:2110-2156 | On every heap, on open, closed and cyclic lists, the tail walk ends with the invariant, all slots of the pairs it copied filled but the heads of those copied twice; it is a run of the machine |
| `Collector.Collector.FixVariable` | platform/emulator/cac.cc:1252-1269 | A deferred variable nobody placed gets one new place, and its old slot forwards to it |
| `Collector.Collector.Fix` | platform/emulator/cac.cc:1238-1283 | The fix stack runs empty; each deferred slot refers to the one copy of its variable |
| `Collector.Collector.Complete` | platform/emulator/cac.cc:1238-1283 | Fixing after a drained collection establishes the isomorphism, with the cell forwards unchanged |
| `Collector.TailHeadExact` | platform/emulator/cac.cc:2144-2151 | In the tail walk the head pointer comes out right if and only if the head does not lead to the very pair being copied; otherwise a second copy of it is made |
| `CollectorMachine.StepUnique` | platform/emulator/cac.cc:2101-2207 | The raw machine, which describes the same code with nothing known about the memory, has at most one next configuration: none when a slot is read that was never written, or when references that are followed run in a circle |
| `CollectorMachine.GetsReaches` | platform/emulator/cac.cc:2161-2207 | That a configuration lies in every set closed under steps is the same as that some number of steps leads to it |
| `LostCollection.FirstVisit` | platform/emulator/cac.cc:2110-2124 | The visit to a pair that was copied twice copies the head of its first copy once more, and leaves the second copy on the stack with nothing but its head filled |
| `LostCollection.StepLost` | platform/emulator/cac.cc:2101-2207 | From then on every step of the machine, whatever memory holds, keeps this: no slot of that cell but the first is written, no mark names it, and it waits on the stack or its tail is next |
| `LostCollection.UnfilledIsNoCopy` | platform/emulator/cac.cc:2144-2151 | As long as such a cell exists, to-space is no copy of the heap, with any forwards, apart from the place of the roots |
| `LostCollection.LostForever` | platform/emulator/cac.cc:2161-2207 | If the run of a heap gets to a configuration from which the stack is never drained, it is never drained: there is only one run |
| `Collector.SecondCopyBreaks` | platform/emulator/cac.cc:2144-2151 | For every heap: if a tail refers to a cell as the copy of a pair that is its own head, and the head of that cell refers to any other cell, to-space is no copy of the heap |
| `CollectorGraph.CollectionCopiesGraph` | platform/emulator/cac.cc:1238-1283 | The invariant with both stacks empty implies the isomorphism between from-space and to-space |
| `CollectorGraph.PathsKept` | platform/emulator/cac.cc:2216-2295 | Every access path from the roots that leads to a cell leads, in to-space, to the copy of that cell |
| `CollectorGraph.FixBegins` | platform/emulator/cac.hh:37-63 | When the work stack is empty, no pair was copied twice, and every still deferred slot holds a one-step reference to an optimized variable that is either untouched or forwarded |
| `CollectorGraph.FixNewStep` | platform/emulator/cac.cc:1252-1269 | Placing a deferred variable keeps the invariant of the fix phase |
| `CollectorGraph.FixRefStep` | platform/emulator/cac.cc:1270-1281 | Redirecting one deferred slot keeps the invariant of the fix phase |
| `CollectorHeap.DeferStep` | platform/emulator/cac.hh:59-63 | Deferring keeps the collection invariant: the slot is settled now and stays on the stack until fixed |
| `CollectorHeap.DirectVariableStep` | platform/emulator/cac.cc:2349-2403 | Placing a variable in the slot where it was met keeps the collection invariant |
| `CollectorHeap.HeapVariableStep` | platform/emulator/cac.cc:2341-2347 | Placing a plain variable in a fresh cell keeps the collection invariant |
| `CollectorHeap.PushStep` | platform/emulator/cac.cc:1018-1031 | Allocating, marking and pushing a pair or record keeps the collection invariant; the saved head survives in the copy |
| `CollectorHeap.TailAllocStep` | platform/emulator/cac.cc:2144-2147 | Allocating the next pair of a tail walk without marking it keeps the invariant with that pair held open |
| `CollectorHeap.StoreForwardStep` | platform/emulator/cac.cc:2151 | Storing the forward closes the pair again |
| `CollectorHeap.RestoreStep` | platform/emulator/cac.cc:2118-2121 | Putting the saved head of the entry pair back reopens the pair without losing the invariant |
| `CollectorHeap.MarksAligned` | platform/emulator/cac.cc:1261-1268 | No forward mark leads to a slot that is not aligned |
| `CollectorHeap.SecondCopyStep` | platform/emulator/cac.cc:2149-2151 | When the head of the open pair leads to it, copying it again and storing the first forward keeps the invariant, with the pair entered as copied twice |
| `Boards.Machine.AchievedAt` | platform/emulator/board.cc:531-552 | What the switch is for, from what it did: how far the scripts can be satisfied, the store satisfying them and assuming nothing else |
| `Boards.Machine.InstallTold` | platform/emulator/board.cc:563-616 | The same switch with trail, store and scripts given by undoing the old frames and replaying the new scripts |
| `Boards.Machine.Switch` | platform/emulator/board.cc:571-616 | Undoing up to the ancestor followed by replaying down to the target |
| `Boards.Machine.FindAncestor` | platform/emulator/board.cc:583-587 | Walking up from the target, the first marked space is the nearest common ancestor |
| `Boards.Machine.MarkPath` | platform/emulator/board.cc:571-581 | Exactly the spaces from the given one up to the root carry the mark |
| `Boards.Machine.ClearMarks` | platform/emulator/board.cc:603-609 | All marks are gone |
| `Boards.Machine.DeinstallTo` | platform/emulator/board.cc:589-601 | The spaces left are undone innermost first, each keeps the script that re-creates its bindings, and the store is the one from before they were entered |
| `Boards.Machine.Deinstall` | platform/emulator/board.cc:589-611 | The same together with clearing the remaining marks up to the root |
| `Boards.Machine.InstallDown` | platform/emulator/board.cc:531-552 | Replaying goes outermost first and stops at the first failing script; the spaces above it stay installed with empty scripts, the spaces below it keep theirs |
| `Boards.Machine.InstallScript` | platform/emulator/board.cc:460-520 | Telling a script unifies its equations in order; new bindings are trailed in the top frame, and the script is emptied. The stores that entail the old store and satisfy the script are exactly those that entail the new one; telling fails if and only if there are none |
| `Boards.Machine.TellEq` | platform/emulator/unify.cc:177-392 | Unifying the two sides of an equation between variables and values: nothing to do, a clash, or one binding of an unbound variable |
| `Boards.Machine.Follow` | platform/emulator/unify.cc:193-194 | Following the references in the store ends at an unbound variable or a value |
| `Boards.Machine.NewSpace` | platform/emulator/board.cc:74-90 | A new space below a space of the tree is alone, unmarked, with an empty script; everything else stays as it is |
| `Boards.Machine.Fail` | platform/emulator/board.cc:438-453 | The failed space is flagged, its frame undone, its parent becomes current |
| `Boards.Machine.DerefBoard` | platform/emulator/board.hh:153-157 | Committed spaces lead to the one space that stands for them |
| `Boards.Machine.GetParent` | platform/emulator/board.hh:158-161 | The parent in the tree of uncommitted spaces |
| `Boards.Machine.IsAlive` | platform/emulator/board.hh:162-167 | A space is alive if and only if neither it nor any space above it has failed (the root's own flag is not consulted) |
| `Boards.Machine.UnwindFrame` | platform/emulator/trail.cc:184-265 | Undoing a frame takes its bindings out of the store and returns them as a script |
| `Boards.Machine.UnwindFailed` | platform/emulator/trail.cc:268-309 | Undoing a failed frame takes its bindings out and keeps nothing |
| `Boards.SharedPrefix` | platform/emulator/board.cc:583-587 | A space on one path to the root lies above another space if and only if it belongs to the common prefix of the two paths |
| `Boards.PathPrefix` | platform/emulator/board.hh:158-161 | The path to a space on a path is the corresponding prefix |
| `Boards.RangesDisjoint` | platform/emulator/board.cc:583-615 | No space is both undone and told by one switch |
| `Trail.UndoneReplayed` | platform/emulator/trail.cc:184-265 | Replaying the script of an undone frame succeeds and gives back the same frame and the same store; a variable that was bound to another one is bound in the same direction again |
| `Trail.Unify` | platform/emulator/unify.cc:196-392 | Equal terms need nothing, different values clash; of two unbound variables the one further down, or of the higher type in the same space, is bound to the other |
| `Trail.Tell` | platform/emulator/unify.cc:193-392 | What unification binds is unbound before, to something that keeps the references free of circles and lets none lead to a variable of a space further down, or of a higher type in the same space |
| `Trail.TellMeans` | platform/emulator/unify.cc:193-392 | For every store: it entails the present bindings and makes both sides of the equation equal if and only if it entails the bindings after telling the equation; no store does if telling it fails |
| `Trail.ReplayMeans` | platform/emulator/board.cc:460-520 | The same for a script: telling it succeeds if and only if it can be satisfied together with the present bindings, satisfies it, and assumes nothing else |
| `Trail.InstallExact` | platform/emulator/board.cc:531-552 | An installation gets past the first n spaces if and only if some store that extends the first one satisfies their n scripts, and then its store satisfies them |
| `Trail.InstallMeans` | platform/emulator/board.cc:531-552 | The scripts of the spaces installed are satisfied by exactly the stores that entail the new one; none of these satisfies the script that failed |
| `Trail.UnwindStore` | platform/emulator/trail.cc:184-265 | Undoing frames takes exactly the variables trailed in them out of the store |
| `Trail.DerefStep` | platform/emulator/unify.cc:193-194 | One reference less leads to the same end |
| `Trail.ReplayUndone` | platform/emulator/board.cc:460-520 | Undoing what a script did, successful or not, restores the store |
| `Trail.InstallUndone` | platform/emulator/board.cc:531-552 | Undoing all frames of an installation restores the store |
| `Trail.UndoneInstalled` | platform/emulator/board.cc:531-552 | Installing the scripts that undoing left rebuilds frames and store |
| `Trail.ThereAndBack` | platform/emulator/board.cc:555-617 | Leaving a path, installing other scripts, undoing these and installing the first ones again is the identity on trail and store |
| `Trail.InstallAppend` | platform/emulator/board.cc:531-552 | Going down one space further is telling one script more, unless an outer one already failed |
| `Trail.UnwindSplit` | platform/emulator/trail.cc:184-265 | Undoing some frames and then the others is undoing all of them |
| `SumWidths.AlwaysRedone` | contrib/ri/propagators.cc:157-183 | Why: if the third argument raises z by between a quarter and a half of the precision and the first pass makes progress, so does every pass, as the excesses of the remembered widths repeat after two passes; such a run can only fail |
| `SumWidths.WideRedone` | contrib/ri/propagators.cc:157-183 | If it raises z by more than half of the precision, every pass makes progress too |
| `SumWidths.SlowEndsNear` | contrib/ri/propagators.cc:157-183 | If it raises z by at most half of the precision, a successful run makes one or two passes and ends near |
| `SumWidths.OneEndsNear` | contrib/ri/propagators.cc:157-183 | x+x=x: a successful run ends near; with positive values it makes one pass |
| `SumWidths.FirstEndsFar` | contrib/ri/propagators.cc:157-183 | z and x in [0, 100], y in [9, 9], precision 10, lower bounds rounded down to at most 19: three successful passes end with 73 remembered for z, which has width 54 |
| `SumWidths.SecondEndsFar` | contrib/ri/propagators.cc:157-183 | z and y in [0, 70], x in [5, 5], precision 5, lower bounds rounded down to at most 8: 57 is remembered for z, which has width 47 |
| `SumWidths.OneEndsFar` | contrib/ri/propagators.cc:157-183 | All arguments one variable in [5, 51], precision 8, both bounds rounded: 27 is remembered for z, which has width 18 |
| `RealInterval.SumPass` | contrib/ri/propagators.cc:157-173 | One pass keeps the solutions, tightens each bound to what the boxes at the start of the pass imply, and asks for another pass exactly when a remembered width dropped by more than the precision |
| `RealWidths.SharedEndsFar` | contrib/ri/propagators.cc:218-242 | Otherwise they do not: z and a factor are one variable from -m to 0, with m above the precision; the rule for z leaves only 0, the quotient rules do not apply, and the width remembered for the factor is still m |
| `RealWidths.ApartEndsNear` | contrib/ri/misc.hh:133-142 | If z is not shared, every run of either propagator ends with all remembered widths within the precision, also when x and y are one variable |
| `RealWidths.PassClose` | contrib/ri/propagators.cc:157-316 | One pass keeps the widths near, and those of x and y equal if they are one variable |
| `RealWidths.SquareSettles` | contrib/ri/propagators.cc:245-314 | x*x=z without zero in x: dividing z by x moves one bound only, and dividing again moves none |
| `RealInterval.ProductPass` | contrib/ri/propagators.cc:218-316 | One pass of the product propagator: solutions kept, every applicable bound tightened |
| `RealInterval.ProductBounds` | contrib/ri/propagators.cc:221-313 | In every solution each argument lies between the corner bounds that the other two boxes give it |
| `RealInterval.ProductExact` | contrib/ri/propagators.cc:221-313 | The bounds of x*y=z are attained: each rule that may be used leaves to its argument exactly the values for which the other two have values in their boxes |
| `RealInterval.CornersReach` | contrib/ri/propagators.cc:221-313 | Every value between the least and the greatest product of the corners is a product |
| `RealInterval.SettledProductTight` | contrib/ri/propagators.cc:218-316 | So the fixpoint of the product rules leaves only values that the other two boxes, wider by the precision, allow |
| `RealInterval.CornersBound` | contrib/ri/propagators.cc:224-240 | A product of values from two intervals lies between the least and the greatest product of the ends |
| `RealInterval.Reciprocals` | contrib/ri/propagators.cc:245-276 | On an interval without zero the reciprocals of the ends bound all reciprocals, in reversed order |
| `RealInterval.ProductGrows` | contrib/ri/propagators.cc:221-313 | Smaller boxes give bounds at least as tight, so one pass cannot undo what another achieved |
| `RealInterval.SumBounds` | contrib/ri/propagators.cc:160-172 | In every solution of x+y=z each argument lies within the rounded bounds that the other two give it |
| `RealInterval.SumExact` | contrib/ri/propagators.cc:160-172 | The bounds of x+y=z are attained: they leave to an argument exactly the values for which the other two have values in their boxes |
| `RealInterval.SettledTight` | contrib/ri/propagators.cc:157-173 | So the fixpoint of the sum rules leaves, up to rounding, only values that the other two boxes, wider by the precision, allow |
| `RealInterval.SolutionsKept` | contrib/ri/misc.hh:127-144 | Narrowing a box to values every solution respects loses no solution |
| `RealInterval.Raise` | contrib/ri/misc.hh:133-142 | Raising a lower bound: box, remembered width and redo flag are what the macro makes of them, failure exactly on an empty box, and no solution is lost if every solution respects the bound |
| `RealInterval.Lower` | contrib/ri/misc.hh:133-142 | The same for an upper bound |
| `RealInterval.BudgetSpent` | contrib/ri/misc.hh:133-142 | A pass that asks for another one has spent at least one precision of the remaining total width |
| `RealInterval.LastPass` | contrib/ri/propagators.cc:157-173 | A pass without recorded progress ends in a precision-wide fixpoint of the sum rules |
| `RealInterval.LastProductPass` | contrib/ri/propagators.cc:218-316 | The same for the product rules |
| `RealInterval.RI.AtMost` | contrib/ri/ri.hh:315-319 | The upper bound becomes the smaller of itself and the argument; the width is returned |
| `RealInterval.RI.AtLeast` | contrib/ri/ri.hh:327-331 | The lower bound becomes the larger of itself and the argument; the width is returned |
| `RealPropagators.SharedInts` | contrib/ri/propagators.cc:356-369 | The integers shared with an interval are those between the rounded-up lower and the rounded-down upper end |
| `Reflection.Reflector.Explore` | contrib/reflect/reflect_space.cc:402-440 | The work list runs empty and the tables hold the least set closed under parameters of propagators and suspensions of variables |
| `Reflection.Reflector.Step` | contrib/reflect/reflect_space.cc:404-440 | Each step keeps the exploration invariant and either records an item not recorded before or shortens the stack |
| `Reflection.Reflector.ReflectParams` | contrib/reflect/reflect_space.cc:31-83 | The parameters are numbered as if the variables occurring in the term had been numbered from left to right |
| `Reflection.Reflector.ReflectSuspList` | contrib/reflect/reflect_space.cc:147-178 | The live propagators of a suspension list, in order, are numbered; threads and dead propagators are passed over |
| `Reflection.LiveInOrder` | contrib/reflect/reflect_space.cc:155-176 | What is taken from a suspension list are the propagators that are alive, wherever they stand on it, in the order of the list and as often as they are on it |
| `Reflection.LiveMember` | contrib/reflect/reflect_space.cc:155-176 | A propagator is taken if and only if it is on the list and alive |
| `Reflection.OccursInOrder` | contrib/reflect/reflect_space.cc:31-83 | What is taken from a term is the variable at every place of the term where there is one, from left to right; the end of a list is not looked at |
| `Reflection.OccursMentioned` | contrib/reflect/reflect_space.cc:31-83 | As a set, these are the variables found in the head and the tail of a pair and in the arguments of a tuple |
| `Reflection.IdsBackwards` | contrib/reflect/reflect_space.cc:31-83 | A list of numbers has the number of the last member first |
| `Reflection.Reflector.ReflectProp` | contrib/reflect/reflect_space.cc:103-142 | A propagator is recorded at most once; its new parameters are numbered and pushed |
| `Reflection.Reflector.ReflectVariable` | contrib/reflect/reflect_space.cc:183-387 | A variable is recorded at most once and only if its kind is handled; the live propagators of all its lists are numbered and pushed |
| `Reflection.Table.Add` | contrib/reflect/reflect_space.hh:92-110 | A known item keeps its number, recorded or preliminary; a new one gets the next number |
| `Reflection.Table.Reflected` | contrib/reflect/reflect_space.hh:112-123 | The preliminary number becomes the recorded one; tables stay consistent |
| `Reflection.AddAllNumbers` | contrib/reflect/reflect_space.hh:92-110 | Numbering a list keeps numbers unique and gapless, keeps old numbers, and puts the numbers of the members in front of the list, last member first |
| `Reflection.AddAllPushes` | contrib/reflect/reflect_space.cc:31-83 | The stack gains entries for precisely the listed items that are not yet recorded |
| `Reflection.PropReflected` | contrib/reflect/reflect_space.cc:103-142 | Recording a propagator and pushing its parameters keeps: everything numbered is recorded or still to do |
| `Reflection.VarReflected` | contrib/reflect/reflect_space.cc:183-387 | The same for a variable and its live suspensions |
| `Reflection.Finished` | contrib/reflect/reflect_space.cc:404-453 | With nothing left to do, what is numbered is exactly what is reachable |
| `Reflection.ReachedUnique` | contrib/reflect/reflect_space.cc:391-453 | The reachable sets are determined by the graph and the argument |
| `Reflection.RecordsDistinct` | contrib/reflect/reflect_space.cc:391-453 | In the result no two variable records and no two propagator records carry the same number |
| `Reflection.SuspensionsRecorded` | contrib/reflect/reflect_space.cc:391-453 | In the result every number in a variable record is the number of a propagator record |
| `Reflection.MentionHasRecord` | contrib/reflect/reflect_space.cc:103-142 | A variable mentioned in a propagator record has a record of its own if and only if its kind is handled |
| `Reflection.SuspensionHasRecord` | contrib/reflect/reflect_space.cc:147-178 | Every propagator mentioned in a variable record has a record of its own |
| `VirtualString.CountLength` | platform/emulator/builtins.cc:1226-1308 | The loop and recursion over a partial virtual string yield count, suspension with rest and variable, or failure as one function of term and count |
| `VirtualString.Suspend` | platform/emulator/builtins.cc:1134-1146 | The rest of an interrupted tuple is the rest of the interrupted argument followed by the arguments not looked at |
| `VirtualString.FinalStays` | platform/emulator/builtins.cc:1226-1308 | A count or failure once reached is not changed by binding variables |
| `VirtualString.Resumes` | platform/emulator/builtins.cc:1226-1308 | For every binding: resuming on the bound rest gives what starting over on the bound term gives |
| `VirtualString.ResumesAll` | platform/emulator/builtins.cc:1311-1324 | The same for every sequence of bindings |
| `VirtualString.SuspendsOn` | platform/emulator/builtins.cc:1226-1308 | A suspension names an unbound variable of the term, which still occurs in the rest; the count never falls below the one it started with, so never below zero |
| `VirtualString.TextExact` | platform/emulator/builtins.cc:1233-1238 | The text of an integer is the one numeral of decimal digits without leading zeros that reads back as it, behind a sign if it is negative |
| `VirtualString.ApplyPlaces` | platform/emulator/builtins.cc:1311-1324 | Binding variables puts their terms in the places of the variables, and leaves everything else in its place |
| `VirtualString.LengthCall.Attempt` | platform/emulator/builtins.cc:1311-1324 | One call either answers or leaves rest and count as the new arguments of the suspended call |
| `ArityList.ElementExact` | platform/emulator/builtins.cc:1925-1943 | On the heap: a position counts as a feature if and only if its element, or the first component of it in a list of pairs, is nil or another feature; the walk waits at exactly the variables that stand in the place of the list, the pair or the feature |
| `ArityList.ExtractedShown` | platform/emulator/builtins.cc:1911-1972 | A result has the features of the list in order up to nil; a suspension names the first variable in the way; a list is rejected only if it is cyclic or shows something else |
| `ArityList.ExtractedOnce` | platform/emulator/builtins.cc:1911-1972 | The specification allows one result |
| `ArityList.CyclicIff` | platform/emulator/builtins.cc:1957-1961 | A list is cyclic, some cell being met twice, if and only if it never ends |
| `ArityList.Caught` | platform/emulator/builtins.cc:1957-1961 | On a cyclic list the half-speed pointer is met before the cycle is completed twice |
| `ArityList.MetOnlyFeatures` | platform/emulator/builtins.cc:1957-1961 | When the pointers meet, the list is cyclic and every element was a feature: nothing else is rejected by the cycle check |
| `ArityList.MeetInTime` | platform/emulator/builtins.cc:1957-1961 | The pointers meet within twice the number of cells |
| `ArityList.NotForever` | platform/emulator/builtins.cc:1922-1963 | The loop cannot go on longer than that |
| `SuspensionList.Collector.CacList` | platform/emulator/cac.cc:1968-2013 | The new list holds the copies of the living suspendables, in order, each at its first occurrence only when compressing; all multi-marks are clear again |
| `SuspensionList.Collector.CacSuspendable` | platform/emulator/cac.cc:1867-1923 | One suspendable has one copy; nothing is returned for a dead one, one of a dead space, or one already marked in this list |
| `SuspensionList.Collector.Extend` | platform/emulator/cac.cc:1985-1996 | The list built so far is the translation of the list seen so far, and its members are exactly the marked copies |
| `SuspensionList.Collector.ResetMarks` | platform/emulator/cac.cc:2004-2010 | Unmarking the new list unmarks every copy |
| `SuspensionList.Collector.InList` | platform/emulator/cac.cc:1871-1880 | A copy is in the list so far if and only if its original is alive and was seen |
| `SuspensionList.FirstsMembers` | platform/emulator/cac.cc:1968-2013 | Compression loses no living suspendable and invents none |
| `SuspensionList.FirstsOnce` | platform/emulator/cac.cc:1968-2013 | No suspendable is kept twice |
| `SuspensionList.FirstsInOrder` | platform/emulator/cac.cc:1968-2013 | Each member stands where it first occurred in the list |
| `SuspensionList.ThoseInOrder` | platform/emulator/cac.cc:1968-2013 | Without compression the living suspendables are taken in the order of the list and as often as they are on it |
| `DictTable.DictHashTable.Rebuild` | platform/emulator/cac.cc:792-820 | Re-inserting every entry into an empty table of another size gives the same contents |
| `DictTable.DictHashTable.CopySlots` | platform/emulator/cac.cc:723-754 | Copying slot by slot keeps every block in order and the whole contents |
| `DictTable.DictHashTable.CacDictEntry` | platform/emulator/cac.cc:662-711 | Inserting into an empty slot, a single entry or a block adds exactly that key |
| `DictTable.DictHashTable.SmallerIndex` | platform/emulator/cac.cc:775-785 | The smallest table size that is not below the wanted one |
| `DictTable.DictHashTable.Find` | platform/emulator/dictionary.hh:275-298 | A search finds exactly the value the contents give the key |
| `DictTable.CompactionSettles` | platform/emulator/cac.cc:775-789 | For increasing sizes with steps of at most 5/2 and the first below 4: compaction strictly shrinks and does not oscillate |
| `DictTable.SmallerSize` | platform/emulator/cac.cc:775-802 | The size chosen, in numbers: the smallest from entries/0.7 on, the load limit 0.9, the room left, and no compaction at the next collection |
| `DictTable.RoomExact` | platform/emulator/cac.cc:775-802 | A table of the size aimed at has room for its entries if and only if it is empty or larger than their number |
| `DictTable.NoRoomForOne` | platform/emulator/cac.cc:775-802 | The case where it has none: a table of size 11 with one entry is replaced by one of size 1, of which no slot may be filled |
| `DictTable.RoomForOthers` | platform/emulator/cac.cc:775-802 | With the emulator's sizes there is room for any other number of entries |
| `DictTable.PrimesAreSizes` | platform/emulator/dictionary.hh:47-94 | The 46 primes form such a size table; the step from 1 to 3 is larger but lies below size 4 |
| `DictTable.HoldsOnce` | platform/emulator/dictionary.hh:275-298 | A slot array represents one map only |
| `DictTable.Inserted` | platform/emulator/cac.cc:662-711 | Extending the right slot by one node extends the map by one key |
| `DictTable.CopyHolds` | platform/emulator/cac.cc:729-754 | Copying values slot by slot maps the copy over the contents |
| `ByteTransport.TransferAll` | platform/emulator/bytedata.cc:676-726 | Given one buffer more than there are bytes, the whole string arrives |
| `ByteTransport.FirstFragment` | platform/emulator/bytedata.cc:676-715 | The first buffer carries the width and a first fragment both ends agree on |
| `ByteTransport.NextFragment` | platform/emulator/bytedata.cc:274-314 | A continuation moves at least one byte and keeps both ends in agreement |
| `ByteTransport.SendCont` | platform/emulator/bytedata.cc:274-288 | What a continuation buffer holds is framed the way the receiver reads it |
| `ByteTransport.ByteStringDesc.Marshal` | platform/emulator/bytedata.cc:243-271 | Writes the fragment's length and bytes, as many as fit; suspends if and only if bytes remain |
| `ByteTransport.ByteStringDesc.Unmarshal` | platform/emulator/bytedata.cc:291-314 | Appends exactly the fragment; complete if and only if all bytes are there; reads nothing beyond |
| `ByteTransport.ByteStringDesc.ReadByte` | platform/emulator/bytedata.cc:301-304 | The next byte of the fragment goes behind those received, and nothing else is consumed |
| `ByteTransport.MarshalSusp` | platform/emulator/bytedata.cc:676-691 | A new descriptor has sent the width and a fragment that is not empty unless the string is |
| `ByteTransport.MarshalCont` | platform/emulator/bytedata.cc:274-288 | The continuation tag, the extension and a fragment of at least one byte |
| `ByteTransport.UnmarshalSusp` | platform/emulator/bytedata.cc:700-715 | Reads what the first buffer holds into a new string of the announced width |
| `ByteTransport.UnmarshalCont` | platform/emulator/bytedata.cc:718-726 | Reads what a continuation buffer holds |
| `ByteTransport.ByteBuffer.MarshalNumber` | platform/emulator/marshalerBase.hh:306-312 | Writes the number in base 128, least digit first, all but the last marked |
| `ByteTransport.EncodeDigits` | platform/emulator/marshalerBase.hh:306-312 | Byte i of a number has the digit of weight 128 to the i in its low seven bits, its high bit says whether more bytes follow, and no number has a needless last byte |
| `ByteTransport.ByteBuffer.UnmarshalNumber` | platform/emulator/marshalerBase.cc:232-243 | Reads back exactly the written number and stops right behind it, whatever follows |
| `ByteTransport.NumberFits` | platform/emulator/marshalerBase.hh:360-362 | A 32-bit number takes at most five bytes |
| `PickleBuffers.PutTerm` | platform/emulator/components.cc:250-300 | The bytes written are the bytes marshaled, and the checksum returned is theirs |
| `PickleBuffers.Checksum` | platform/emulator/components.cc:261-270 | The checksum over the chunks is that of the whole contents, and the count is their length |
| `PickleBuffers.UpdateTwice` | platform/emulator/pickleBase.cc:416-425 | Updating a checksum chunk by chunk is updating it with all bytes |
| `PickleBuffers.UpdateStep` | platform/emulator/pickleBase.cc:416-425 | Each byte changes the checksum once, in order; no bytes leave it as it is |
| `PickleBuffers.WriteOut` | platform/emulator/components.cc:280-300 | The write loop ends with total zero exactly when the last chunk has gone |
| `PickleBuffers.LoadPickleBuffer` | platform/emulator/components.cc:687-735 | All bytes of the source are loaded; an empty source and a checksum other than the one the source gives are refused, and nothing else is |
| `PickleBuffers.Fill` | platform/emulator/components.cc:699-715 | One round of loading appends what was read; a short read means the source is exhausted |
| `PickleBuffers.ByteSinkDatum.PutBytes` | platform/emulator/components.cc:377-383 | Appends exactly the given bytes to the datum |
| `PickleBuffers.ByteSource.GetBytes` | platform/emulator/components.cc:769-783 | Reads the next bytes of the datum, fewer than asked only at its end |
| `PickleBuffers.PickleBuffer.Put` | platform/emulator/componentBuffer.cc:328-340 | Appends one byte to the buffer's contents |
| `PickleBuffers.PickleBuffer.PutNext` | platform/emulator/componentBuffer.cc:328-340 | When the chunk is full, one chunk is linked behind and receives the byte |
| `PickleBuffers.PickleBuffer.MarshalEnd` | platform/emulator/componentBuffer.cc:240-249 | Fixes the size of the last chunk; the contents are what was put |
| `PickleBuffers.PickleBuffer.AccessFirst` | platform/emulator/componentBuffer.cc:171-183 | Shows the first chunk without removing it |
| `PickleBuffers.PickleBuffer.AccessNext` | platform/emulator/componentBuffer.cc:185-203 | Shows the chunk at the cursor with its true size, the last one being shorter |
| `PickleBuffers.PickleBuffer.ChunkDone` | platform/emulator/componentBuffer.cc:205-213 | The cursor moves on by one chunk |
| `PickleBuffers.PickleBuffer.UnlinkFirst` | platform/emulator/componentBuffer.cc:125-137 | Shows the first chunk for writing |
| `PickleBuffers.PickleBuffer.UnlinkNext` | platform/emulator/componentBuffer.cc:139-157 | A next chunk exists exactly when bytes are left |
| `PickleBuffers.PickleBuffer.ChunkWritten` | platform/emulator/componentBuffer.cc:159-169 | Takes away exactly the bytes of the first chunk |
| `PickleBuffers.PickleBuffer.AllocateFirst` | platform/emulator/componentBuffer.cc:72-83 | One empty chunk ready to be filled |
| `PickleBuffers.PickleBuffer.AllocateNext` | platform/emulator/componentBuffer.cc:85-99 | One more chunk behind; the contents stay |
| `PickleBuffers.PickleBuffer.ChunkRead` | platform/emulator/componentBuffer.cc:101-108 | The bytes read become contents |
| `PickleBuffers.PickleBuffer.UnmarshalBegin` | platform/emulator/componentBuffer.cc:251-274 | Reading starts at the first byte |
| `PickleBuffers.PickleBuffer.Get` | platform/emulator/componentBuffer.cc:290-326 | Reads the bytes of the contents in order; beyond them it still returns |
| `PickleBuffers.PickleBuffer.GetNext` | platform/emulator/componentBuffer.cc:290-326 | Crossing into the next chunk, or into a fresh one behind the last, continues the same stream |
| `LocationCache.Perform` | platform/emulator/codearea.cc:1625-1684 | One operation keeps this, and makes the step the history prescribes |
| `LocationCache.CachedStay` | platform/emulator/codearea.hh:563-567 | In the history that Run follows, no location for at most 8 registers is ever freed |
| `LocationCache.Locations.GetLocation` | platform/emulator/codearea.cc:1625-1684 | The result agrees with the requested mapping on its first n entries and is long enough; a hit changes nothing, a miss (only when no entry of the bucket would do) adds one location in front |
| `LocationCache.Locations.Lookup` | platform/emulator/codearea.cc:1647-1667 | The first entry of the bucket with the same sum, sufficient size and the same registers; never reads past a location's size |
| `LocationCache.Locations.WeightedSum` | platform/emulator/codearea.cc:1637-1641 | The loop computes the binary weighted sum of the registers |
| `LocationCache.Locations.SameRegs` | platform/emulator/codearea.cc:1657-1659 | The comparison loop decides equality of the first n registers |
| `LocationCache.Locations.Make` | platform/emulator/codearea.cc:1671-1680 | A new location holds a copy of the mapping, independent of later settings |
| `LocationCache.Locations.Insert` | platform/emulator/codearea.cc:1675-1677 | A new location goes in front of its bucket |
| `LocationCache.Locations.Set` | platform/emulator/codearea.hh:569-571 | Setting a register leaves all cached locations valid |
| `LocationCache.Locations.Release` | platform/emulator/codearea.hh:563-567 | Releasing keeps the cache valid: only locations outside it are freed |
| `LocationCache.Location.Deallocate` | platform/emulator/codearea.hh:563-567 | Frees a location if and only if it is not cached |
| `LocationCache.FingerprintFits` | platform/emulator/codearea.cc:1637-1645 | Fingerprints of at most 8 registers out of 4096 do not overflow 31 bits |
| `LocationCache.FingerprintParts` | platform/emulator/codearea.cc:1651-1655 | A fingerprint splits back into sum and size |
| `LocationCache.SumWeights` | platform/emulator/codearea.cc:1637-1641 | Register i has the weight 2 to the i in the sum |
| `Opcodes.LengthsAgree` | platform/emulator/copycode.cc:255-484 | For every opcode the copier handles, it advances by the same length as the walker of the destructor |
| `Opcodes.UnknownToCopier` | platform/emulator/codearea.cc:1170-1437 | Exactly which opcodes the walker handles and the copier does not |
| `Opcodes.CollectorAgrees` | platform/emulator/g-collect.cc:388-631 | The garbage collector advances by the same lengths as the destructor, for all opcodes |
| `Opcodes.OperandsVisited` | platform/emulator/g-collect.cc:388-631 | For every opcode and offset the copier treats a word as a term, an arity, an abstraction entry, a method call or a match table if and only if the garbage collector does; of the terms it leaves alone exactly numbers and source positions |
| `Opcodes.CachesCopied` | platform/emulator/g-collect.cc:360-386 | The two words from where the garbage collector invalidates a cache are those that the copier resets |
| `Opcodes.CachesVisited` | platform/emulator/g-collect.cc:360-386 | The copier resets no other words |
| `Opcodes.FreedOperands` | platform/emulator/codearea.cc:1351-1428 | What the destructor gives back with a code area are the operands that the copier makes anew for each copy, method calls and match tables, and the locations in the two instructions that call builtins |
| `Opcodes.LocationsShared` | platform/emulator/codearea.cc:1421-1428 | Those locations are given back too, and the copier leaves them as they are |
| `Opcodes.OperandsInside` | platform/emulator/copycode.cc:255-484 | Every operand the copier rewrites lies inside its instruction; a predicate operand is at offset 3 of a six-word instruction |
| `CodeCopy.CopyInstr` | platform/emulator/copycode.cc:255-484 | One instruction is rewritten, nothing behind it is touched, and the next position is again an instruction start |
| `CodeCopy.CopyInstrs` | platform/emulator/copycode.cc:255-484 | The loop ends exactly at the end |
| `CodeCopy.CopyOperand` | platform/emulator/copycode.cc:196-202 | Rewrites one operand and sets the pc of the entry it defines |
| `CodeCopy.CopyWord` | platform/emulator/copycode.cc:48-194 | Each kind of operand is replaced by its image, and repeated operands by the same image |
| `CodeCopy.CopiedRenamed` | platform/emulator/copycode.cc:42-194 | Pointwise and for every kind of operand: what is on the list is replaced by its new name or entry, everything else is kept |
| `CodeCopy.WordClean` | platform/emulator/copycode.cc:42-194 | With new names, no name and no entry of the list is left in a renamed operand |
| `CodeCopy.Memo.CheckArity` | platform/emulator/copycode.cc:84-111 | Renames the features of a record arity, tuple widths unchanged |
| `CodeCopy.Memo.CheckPred` | platform/emulator/copycode.cc:115-126 | An entry has one copy, kept for the rest of the run |
| `CodeCopy.Memo.CheckMethod` | platform/emulator/copycode.cc:57-70 | A method call has one copy, with renamed message and unchanged arity |
| `CodeCopy.Memo.CheckTable` | platform/emulator/copycode.cc:182-194 | Literal keys and arities of a match table are renamed, scalars and labels kept |
| `CodeCopy.MakeNames` | platform/emulator/copycode.cc:212-234 | The list of copyable names and entries gets fresh distinct copies, and nothing else does |
| `CodeCopy.Duplicate` | platform/emulator/codearea.cc:1559-1572 | The new block repeats the instructions and ends in the end-of-file opcode |
| `CodeCopy.CopyParses` | platform/emulator/copycode.cc:255-484 | The copy has instruction starts exactly where the original has, with the same operand kinds |
| `CodeCopy.Walk` | platform/emulator/codearea.cc:1166-1437 | The walker stops exactly at the end-of-file opcode behind the code |
| `CodeCopy.RenamingKeepsApart` | platform/emulator/copycode.cc:212-234 | Different terms stay different under the renaming |
| `CodeCopy.AritiesKeptApart` | platform/emulator/copycode.cc:84-102 | Different feature lists stay different |
| `Base64.EncodeB64` | platform/emulator/base64.cc:57-100 | The loop computes the encoding by groups of section 4 of RFC 4648 |
| `Base64.EncodeGroup` | platform/emulator/base64.cc:64-98 | One round writes four symbols, with one or two fill characters when the data end |
| `Base64.DecodeB64` | platform/emulator/base64.cc:102-139 | The loop computes the decoding of every text over the alphabet, up to a fill character if there is one; a last group of two or three symbols counts as if filled up |
| `Base64.DecodeGroup` | platform/emulator/base64.cc:108-136 | One round yields one, two or three bytes and stops at a fill character |
| `Base64.RoundTripUnfilled` | platform/emulator/base64.cc:102-139 | Decoding an encoding without its fill characters gives back the bytes too |
| `Base64.EncodeAndDecode` | platform/emulator/base64.cc:57-139 | Both loops in sequence, with the alphabet of the source, are the identity |
| `Base64.EncodedLength` | platform/emulator/base64.cc:57-100 | Four symbols for every three bytes begun |
| `Base64.EncodedBits` | platform/emulator/base64.cc:57-100 | Symbol j of an encoding stands for the six bits from 6j on of the bytes with zero bits behind them, and is a fill character if there are none |
| `Base64.SameBits` | platform/emulator/base64.cc:64-98 | The four six-bit numbers and the three bytes are the same 24-bit number |
| `Base64.SextetsUnique` | platform/emulator/base64.cc:64-98 | No other four six-bit numbers are |
| `Base64.BytesBack` | platform/emulator/base64.cc:112-134 | The decoder's shifts recover the three bytes |
| `Base64.Find` | platform/emulator/base64.cc:49-55 | The position of a symbol of the alphabet |
| `Base64.CvtIsAlphabet` | platform/emulator/base64.cc:44-46 | The 64 symbols are distinct and the fill character is none of them |
| `Base64.CvtInOrder` | platform/emulator/base64.cc:46 | The symbols are A to Z, a to z, 0 to 9, + and -, in this order |

## Left out

- Collector.Collector.Collect: whether a heap is lost is stated by what its run meets, not by the shape of the heap: it depends on the order of the visits, since a pair that is its own head is copied once if it is reached through a head first. A variable or record found in a slot that a lost collection fills a second time, and an ordinary variable that is copied a second time, are treated as in the first visit.
- Collector.Collector.CopyTerm: constants, extensions and the bodies of variables are not copied further, and their work-stack entries (boards, variables, constants, extensions, suspension lists) are not modelled; literals are atoms that stay as they are.
- Collector.Collector.Fix: where a new optimized variable lies relative to a double word is a parameter, so both kinds of forward are covered; the boards the variables belong to are not copied.
- Collector.Collector.CopyBlock: the cloning variant, in which terms of outer spaces are not copied, and copying a block onto itself are not part of this model. Tag bits and pointer alignment are datatype constructors.
- Boards.Machine.InstallScript: the two sides of an equation are variables or values; unification of compound terms, suspension inside a script and waking of propagators are not modelled.
- Trail.Unify: variables carry the depth of their space and the rank of their type as numbers; the shortcut for local variables of the current space, whose bindings are not trailed, is not modelled.
- Boards.Machine.UnwindFrame: trail entries for constrained variables and the suspensions added while undoing are not modelled.
- Boards.Machine.Fail: the counter of runnable threads and the status variable are not modelled; neither are merging, committing, stability and cloning of spaces.
- RealPropagators.PropagateProduct: over exact reals; with rounding the quotient rules are not sound for negative values of z.
- RealPropagators.PropagateSum: widths are computed exactly; a rounded width could differ in the last place.
- RealPropagators.IntBounds: the conversion of a rounded bound to a machine integer is exact. The comparison propagators and the strict operators, which rest on neighbouring floating-point numbers, are not modelled.
- Reflection.Reflector.ReflectVariable: names, locations and references in the records, and the domain of a variable, are not modelled; a record holds identifier, kind and one list of identifiers per suspension list.
- Reflection.Reflector.ReflectParams: parameters are finite terms, cyclic ones are not modelled; identifiers do not overflow.
- VirtualString.CountLength: virtual strings are finite terms; the source itself notes that a cycle check is missing. The type check of virtual strings is not modelled.
- ArityList.GetArity: chains of references are followed beforehand; of a pair only the first component is looked at, as in the source.
- SuspensionList.Collector.CacList: list cells are a sequence; the contents of copied threads and propagators and their spaces are not modelled.
- DictTable.DictHashTable.Collect: keys are features that keep their identity and hash value; the quotient entries/0.7 is exact. Insertion, resizing and weak dictionaries are not modelled.
- ByteTransport.Transfer: the receiver's tag dispatch is a read of the expected tag; collection of the string between two fragments and numbers that no sender writes are not modelled. Bit strings are not modelled.
- PickleBuffers.LoadPickleBuffer: the checksum is any function that takes byte after byte; the header of a file, compression, text mode and failing writes are not modelled.
- PickleBuffers.PickleBuffer.Get: what is read behind the contents is left open, as in the source.
- LocationCache.Locations.GetLocation: registers are indices instead of addresses.
- CodeCopy.CopyCode: the switch over the opcodes is written as two tables, one for lengths and one for kinds of operands; generated copies of names are numbers not used before.
- CodeCopy.Memo.CheckTable: a match table is the sequence of its entries; where entries end up by hashing is not modelled.
- CodeCopy.Memo.CheckArity: that renamed features are still sorted is not claimed, and interning of arities is equality.
- Base64.DecodeB64: texts with characters outside the alphabet before the first fill character, and texts whose last group is a single symbol, for which the source reads behind the end, are not modelled. Memory sizes are not modelled, bit operations are written as arithmetic.
- Start-up, signals, scheduling, input and output, distribution, the assembler, the large type-dispatching built-ins, range distribution and liveness of registers are not modelled.
