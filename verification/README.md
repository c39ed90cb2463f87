# Descriptor index, arena allocator and packet codec

A Dafny model of three parts of the server, with proofs of what they promise.  `dafny verify dfyconfig.toml` checks all
of it.

**The descriptor index** stores dotted symbol names in sorted order and finds the file that defines a name, or one of
its ancestors, by looking at a single neighbour.  `Names`, `Ordered` and `SymbolTable` hold the search argument;
`Files` holds what a file contributes and the plain index - three maps searched key by key - that serves as the
specification; `SimpleIndex` and `SimpleDatabase` the one-level index; `SymbolKeys`, `EncodedIndex`, `EncodedRuns`,
`EncodedTheorems` and `EncodedDatabase` the two-level index with its package/symbol comparator; `TwoLevel` and
`EncodedTables` what a tree over a flat vector finds after any insertions and flattenings, and with it the file and
extension lookups; `AddedFiles` what adding a file does to every lookup, told from what the file declares;
`MergedDatabase` the search over several databases.

**The arena allocator** carves objects upward and cleanup nodes downward in a list of blocks, one list per thread.
`Arena`, `AlignMask`, `ArenaCleanup` and `SerialArena` cover one thread; `ArenaRelease` how all memory is given back,
as a trace of single uses and calls; `ArenaThreads` an arena that threads join and use in any order; `ThreadSafeArena`
the class over their SerialArenas; and `ArenaProtocol` how any number of threads find their own SerialArena through
cache, hint, list and compare-and-swap, as a state machine over single steps, with `ArenaProgress` on what becomes of a
thread that is left alone.

**The codec and packet dispatch** turn game messages into bytes and back and route packets to handlers.  `Varint`,
`VarintCode`, `Wire` and `WireCode` model the Protocol Buffers encoding (sections "Base 128 Varints", "Message
Structure" and "Last One Wins"); `Messages` the messages as values, `MessageBytes` what each is on the wire; `PlayerMessage` and `LoginMessage` two generated
classes with their buffers and cached sizes; `PacketIds` the id generator, `ProtoText` the text it reads; `Dispatch` the handler tables and packets;
`Framing` how a session cuts received bytes into packets: PacketSession::OnRecv, lines 350 to 375 of
Server/ServerCore/Session.cpp.  That file is not UTF-8 text, so the rows about it below cite the callback it calls,
GameSession::OnRecvPacket.  `Connection` joins the two: from messages sent to handlers run.

In each part a specification on values comes first.  The classes and loops that follow the source are proved against
it, and the theorems over all runs are about the specification.

The main results, each over every input, every run or every reachable state:

- `SymbolTable.LookupsCorrectIffPrefixFree`, `SymbolTable.AddSymbolAccepts`, `EncodedTheorems.SymbolsRefinePlain`,
  `EncodedTheorems.LookupsCorrectIffNoneMissed`, `EncodedTables.FirstAlwaysFoundIffNoneShadowed`,
  `EncodedTables.FilesAndExtensionsRefinePlain`, `EncodedTables.NumbersAscendIffNotShadowed`,
  `SimpleIndex.SimpleRefinesPlain`, `AddedFiles.SimpleAddFollows`, `AddedFiles.EncodedAddFollows`,
  `MergedDatabase.NestingIsCoherent`
- `Arena.NothingOverlaps`, `ArenaCleanup.CleanupsRunInReverse`, `ArenaThreads.ArenaIsGivenBack`,
  `ArenaThreads.ThreadsNeverOverlap`, `ArenaProtocol.ThreadsUseTheirOwn`, `ArenaProtocol.NoPushLosesAnother`,
  `ArenaProtocol.LifecycleIdsDistinct`, `ArenaProgress.EveryThreadGetsItsOwn`
- `Messages.ConcatenationMerges`, `MessageBytes.MessageWrites`, `Messages.SizeIsBytesWritten`, `LoginMessage.SLogin.InternalParse`,
  `Dispatch.PacketReachesItsHandler`, `Framing.DeliveredIffAlikePerCall`, `Connection.SentIsHandled`

Where the code does less than its documentation says, the code is modelled and the exact condition is proved:

- The child check of AddSymbol looks one key too far when the new name precedes all stored keys, so a parent of
  exactly one stored key is accepted; lookups are right if and only if this never happened (`SmallestKeyCase`).
- The comparator's shortcut confuses a package with that package followed by an empty symbol.
- A duplicate file or extension is inserted in the tree before the flat vector is consulted; although rejected, it
  shadows the accepted one from then on, and a shadowed extension number is listed twice.  A lookup finds who came
  first if and only if its key was not put again in this way, over every run.
- CleanupList measures a block by its size rounded down to 8, growth by the size as it is: a later block whose size is
  not a multiple of 8 and that holds one cleanup node never runs it.
- A string or nested message longer than INT_MAX - 16 bytes can be written but not read back.
- A payload of 65532 to 65535 bytes makes the 16-bit packet size wrap.
- OnRecv hands over the start of its buffer instead of the packet it has reached (the comment at the top of
  Server/ServerCore/RecvBuffer.h asks for packets to be reassembled): when several packets arrive together the handlers
  get the right ones if and only if they are all equal.
- The comment above IsSubSymbol (descriptor_database.cc:184-186) gives its two parameters each other's role; the model
  follows the code.

Lemmas are declared without automatic induction; every inductive proof is spelled out.

## Model

| member | source | states |
|---|---|---|
| Names.BetweenIsBelow | Server/Libraries/Include/google/protobuf/descriptor_database.h:242-255 | Steps 5 to 8 of the lookup argument: a valid name that sorts between a name and anything under it lies under that name too, because a dot sorts before every other legal character |
| Names.AncestorsConflict | Server/Libraries/Include/google/protobuf/descriptor_database.h:216-222 | Two different stored names that are both equal to or above one query lie above one another, so a prefix-free set has at most one match |
| Names.LessTransitive | Server/Libraries/Include/google/protobuf/descriptor_database.cc:164-173 | String comparison, defined by the first place where two strings differ, is transitive; with totality this is what makes the sorted containers well defined |
| Names.ValidIffInAlphabet | Server/Libraries/Include/google/protobuf/descriptor_database.cc:153-161 | A name is valid if and only if all its characters are among the 26 small and 26 capital letters, the ten digits, the underscore and the dot |
| Names.SubSymbolIsCut | Server/Libraries/Include/google/protobuf/descriptor_database.cc:184-191 | A name lies above another if and only if the other is the name, a dot and some rest |
| SymbolTable.NeighbourIsTheMatch | Server/Libraries/Include/google/protobuf/descriptor_database.h:224-265 | On a sorted prefix-free table of valid names, if any stored name is the query or an ancestor of it, the last key not above the query is that name and no other stored name matches; the query is any string, valid or not |
| SymbolTable.LookupsCorrectIffPrefixFree | Server/Libraries/Include/google/protobuf/descriptor_database.cc:297-305 | Looking at one neighbour answers every query as a scan over all names does if and only if no stored name lies above another |
| SymbolTable.ConflictHidesAName | Server/Libraries/Include/google/protobuf/descriptor_database.cc:297-305 | As soon as one stored name lies above another, some valid name under both gets the wrong answer |
| SymbolTable.NeighboursDecide | Server/Libraries/Include/google/protobuf/descriptor_database.cc:208-240 | The two neighbour checks find a conflict exactly when any stored name is equal to, above or below the new one, except when the new name precedes all keys and exactly one key lies under it |
| SymbolTable.AddSymbolAccepts | Server/Libraries/Include/google/protobuf/descriptor_database.cc:196-250 | AddSymbol accepts a name if and only if it is valid and either conflicts with no stored name at all or is the smallest-key case |
| SymbolTable.AddSymbolKeeps | Server/Libraries/Include/google/protobuf/descriptor_database.cc:242-249 | An accepted name is added once, nothing else changes, order and validity are kept, and the set stays prefix-free if and only if this was not the smallest-key case |
| SymbolTable.AddSymbolGrows | Server/Libraries/Include/google/protobuf/descriptor_database.cc:196-250 | On any table, prefix-free or not, an accepted name was not stored before, and a conflict once made never disappears |
| SimpleIndex.LookupsCorrectIffNoneMissed | Server/Libraries/Include/google/protobuf/descriptor_database.cc:116-147 | After any sequence of files, accepted or rejected, all symbol lookups are right if and only if no add along the way met the smallest-key case |
| SimpleIndex.SimpleRefinesPlain | Server/Libraries/Include/google/protobuf/descriptor_database.cc:252-328 | Without that case the whole index behaves as three plain maps searched key by key: same files kept, same answer for every symbol and every extension, including what rejected files left behind |
| SimpleIndex.AddRefines | Server/Libraries/Include/google/protobuf/descriptor_database.cc:116-147 | One file is accepted or rejected as by the plain maps, and both sides stay related |
| SimpleIndex.SmallestKeyWitness | Server/Libraries/Include/google/protobuf/descriptor_database.cc:167-173 | "foo" is accepted beside "foo.bar", and "foo.baz", which lies under "foo", is not found afterwards |
| SimpleIndex.FoundFileIsStored | Server/Libraries/Include/google/protobuf/descriptor_database.cc:116-147 | After any run of adds, a file found by symbol or extension is the very file the name table holds under its name |
| SimpleIndex.NumbersExact | Server/Libraries/Include/google/protobuf/descriptor_database.cc:314-328 | The numbers listed for a type ascend without repeats and are exactly the non-negative numbers for which an extension lookup hits |
| SimpleDatabase.DescriptorIndex.AddFile | Server/Libraries/Include/google/protobuf/descriptor_database.cc:116-147 | The mutable index, with its four early exits, leaves exactly the state of the specification, on acceptance and on rejection; AddedFiles says what that state answers |
| SimpleDatabase.DescriptorIndex.AddSymbol | Server/Libraries/Include/google/protobuf/descriptor_database.cc:195-250 | The iterator steps with the hint-position insertion give the state and verdict of the specification |
| SimpleDatabase.DescriptorIndex.AddNestedExtensions | Server/Libraries/Include/google/protobuf/descriptor_database.cc:252-264 | Nested messages first, then own extensions, stopping at the first rejection |
| SimpleDatabase.DescriptorIndex.AddExtension | Server/Libraries/Include/google/protobuf/descriptor_database.cc:266-289 | Only fully qualified extendees are indexed; a taken key rejects; nothing else changes |
| SimpleDatabase.DescriptorIndex.FindSymbol | Server/Libraries/Include/google/protobuf/descriptor_database.cc:297-305 | Reads the neighbour and answers as specified |
| SimpleDatabase.DescriptorIndex.FindExtension | Server/Libraries/Include/google/protobuf/descriptor_database.cc:307-312 | Finds something exactly when the key is stored, and then the very value stored with it |
| SimpleDatabase.DescriptorIndex.FindAllExtensionNumbers | Server/Libraries/Include/google/protobuf/descriptor_database.cc:314-328 | Appends, ascending and without repeats, exactly the non-negative numbers whose extension is found, and reports whether there were any |
| SymbolKeys.CompareIsOrder | Server/Libraries/Include/google/protobuf/descriptor_database.cc:485-520 | The fast package/symbol comparison equals string order on the joined full names if and only if the two sides are not a plain name and that same name as a package with an empty symbol |
| SymbolKeys.CompareWitness | Server/Libraries/Include/google/protobuf/descriptor_database.cc:510-518 | "p" and package "p" with symbol "" compare as equal although their full names differ |
| SymbolKeys.SearchByName | Server/Libraries/Include/google/protobuf/descriptor_database.cc:175-182 | With non-empty symbols, binary search under the fast comparison ends where a search on full names ends |
| SymbolKeys.InsertByName | Server/Libraries/Include/google/protobuf/descriptor_database.cc:721-725 | With non-empty symbols, insertion under the fast comparison is insertion by full name |
| SymbolKeys.MergeByName | Server/Libraries/Include/google/protobuf/descriptor_database.cc:803-811 | With non-empty symbols, merging under the fast comparison is merging by full name |
| EncodedIndex.EnsureFlatConserves | Server/Libraries/Include/google/protobuf/descriptor_database.cc:813-819 | Flattening keeps the multiset of entries of all three tables, leaves each vector sorted and each tree empty, and flattening again changes nothing |
| EncodedIndex.InsertJoint | Server/Libraries/Include/google/protobuf/descriptor_database.cc:663-728 | Checked against tree and vector separately, an accepted name keeps the two together prefix-free if and only if it is the smallest-key case in neither |
| EncodedIndex.MergedPrefixFree | Server/Libraries/Include/google/protobuf/descriptor_database.cc:813-819 | The merged vector is prefix-free if and only if tree and vector together were |
| EncodedRuns.StepRefines | Server/Libraries/Include/google/protobuf/descriptor_database.cc:691-768 | One symbol or extension is accepted as by the plain maps and keeps the relation to them, values included while all adds are accepted |
| EncodedRuns.AddRefines | Server/Libraries/Include/google/protobuf/descriptor_database.cc:623-661 | The same for a whole file, with the invalid-package and duplicate-name exits |
| EncodedRuns.FlattenRefines | Server/Libraries/Include/google/protobuf/descriptor_database.cc:813-819 | Flattening anywhere in a run does not change what the index stands for |
| EncodedTheorems.LookupsCorrectIffNoneMissed | Server/Libraries/Include/google/protobuf/descriptor_database.cc:770-786 | After any run of adds and lookups, accepted or rejected, all symbol lookups answer as a scan if and only if no accepted name met the smallest-key case in the tree or in the vector |
| EncodedTheorems.SymbolsRefinePlain | Server/Libraries/Include/google/protobuf/descriptor_database.cc:663-728 | Over every run without that case, each file gets the verdict of the plain index and each symbol lookup its answer |
| TwoLevel.FirstFoundIffNotShadowed | Server/Libraries/Include/google/protobuf/descriptor_database.cc:803-819 | For any sequence of insertions and flattenings: a key is found if and only if it was inserted, with its first offset if and only if it was never inserted again while flattened and not in the tree, and the merged vector holds it once more for each time it was |
| EncodedTables.FirstFileFoundIffNotShadowed | Server/Libraries/Include/google/protobuf/descriptor_database.cc:636-643 | After every run of adds and lookups, accepted or rejected, a file lookup finds the first file of that name if the name was not put again after it had been flattened; with values that all differ, only then |
| EncodedTables.FirstExtensionFoundIffNotShadowed | Server/Libraries/Include/google/protobuf/descriptor_database.cc:748-761 | The same for every extension, against the extensions each file offers up to its first rejected item |
| EncodedTables.FirstAlwaysFoundIffNoneShadowed | Server/Libraries/Include/google/protobuf/descriptor_database.cc:788-863 | Over every run with values that all differ, all file and extension lookups find who came first if and only if nothing was put again after it had been flattened |
| EncodedTables.FilesAndExtensionsRefinePlain | Server/Libraries/Include/google/protobuf/descriptor_database.cc:788-863 | Over every run of accepted adds, file and extension lookups answer as plain lists of all that the files declare, searched key by key, wherever lookups flattened the tables and whatever the symbol checks missed; where they missed nothing, as the plain index |
| EncodedTables.DuplicateShadows | Server/Libraries/Include/google/protobuf/descriptor_database.cc:636-643 | In any state a run can reach, a second file of a known name is rejected, and yet its value is what the name finds afterwards if and only if the tree no longer holds the name |
| EncodedTables.DuplicateExtensionShadows | Server/Libraries/Include/google/protobuf/descriptor_database.cc:748-761 | The same for an extension number declared twice |
| EncodedTables.EveryRunTabled | Server/Libraries/Include/google/protobuf/descriptor_database.cc:623-661 | Every run leaves sorted tables whose offsets are those of pushed files: the states the two rows above speak of |
| EncodedTables.NumbersAscendIffNotShadowed | Server/Libraries/Include/google/protobuf/descriptor_database.cc:821-837 | After every run the numbers listed for a type are exactly the non-negative ones whose extension is found, and they ascend without repeats if and only if none of these extensions was put again after it had been flattened |
| TwoLevel.MergeLookup | Server/Libraries/Include/google/protobuf/descriptor_database.cc:803-811 | After a merge a key is found in the entry that came from the tree, if there is one |
| EncodedTheorems.EncodedAgreesWithSimple | Server/Libraries/Include/google/protobuf/descriptor_database.cc:770-786 | Given the same files, the encoded and the simple database find the same value for every symbol |
| EncodedDatabase.MergeIntoFlat | Server/Libraries/Include/google/protobuf/descriptor_database.cc:803-811 | The merged vector holds exactly the entries of both and the tree ends empty |
| EncodedDatabase.DescriptorIndex.AddFile | Server/Libraries/Include/google/protobuf/descriptor_database.cc:623-661 | The mutable two-level index leaves exactly the state of the specification, and pushes the value even for a rejected file; AddedFiles says what that state answers |
| EncodedDatabase.DescriptorIndex.AddSymbol | Server/Libraries/Include/google/protobuf/descriptor_database.cc:691-728 | Both containers are checked, the tree alone is changed |
| EncodedDatabase.DescriptorIndex.CheckForMutualSubsymbols | Server/Libraries/Include/google/protobuf/descriptor_database.cc:663-689 | Passes exactly when the entry at the position is not above the name and the next one is not below it, and hands the advanced position back |
| EncodedDatabase.DescriptorIndex.AddExtension | Server/Libraries/Include/google/protobuf/descriptor_database.cc:742-768 | A key already flattened is rejected only after it has been inserted in the tree |
| EncodedDatabase.DescriptorIndex.EnsureFlat | Server/Libraries/Include/google/protobuf/descriptor_database.cc:813-819 | Merges all three tables in place |
| EncodedDatabase.DescriptorIndex.FindSymbol | Server/Libraries/Include/google/protobuf/descriptor_database.cc:770-786 | Flattens, then answers from the vector alone |
| EncodedDatabase.DescriptorIndex.FindFile | Server/Libraries/Include/google/protobuf/descriptor_database.cc:853-863 | Flattens, then answers with the first entry of that name |
| EncodedDatabase.DescriptorIndex.FindExtension | Server/Libraries/Include/google/protobuf/descriptor_database.cc:788-801 | Flattens, then answers with the first entry of that key |
| MergedDatabase.SimpleIsCoherent | Server/Libraries/Include/google/protobuf/descriptor_database.cc:291-312 | Every simple database, whatever was added to it, can find each file it answers with under that file's own name |
| MergedDatabase.MergedIsCoherent | Server/Libraries/Include/google/protobuf/descriptor_database.cc:963-1005 | Over coherent sources, a file answered for a symbol or an extension is the file the merged database answers for that file's name, so a file shadowed by an earlier source is never returned |
| MergedDatabase.NestingIsCoherent | Server/Libraries/Include/google/protobuf/descriptor_database.cc:963-1005 | Simple databases with any files added, merged in any nesting, stay coherent: a file found by symbol or extension is the file found under its own name |
| MergedDatabase.FindsIsUnique | Server/Libraries/Include/google/protobuf/descriptor_database.cc:963-982 | The answer - first source that knows the key, unless an earlier one has a file of that name - is determined |
| MergedDatabase.MergedDescriptorDatabase.FindFileByName | Server/Libraries/Include/google/protobuf/descriptor_database.cc:953-961 | The first source that has the file supplies it |
| MergedDatabase.MergedDescriptorDatabase.FindFileContainingSymbol | Server/Libraries/Include/google/protobuf/descriptor_database.cc:963-982 | The two nested loops return the first source's file, or nothing if an earlier source hides its name |
| MergedDatabase.MergedDescriptorDatabase.FindFileContainingExtension | Server/Libraries/Include/google/protobuf/descriptor_database.cc:984-1005 | The same for extensions |
| MergedDatabase.MergedDescriptorDatabase.FindAllExtensionNumbers | Server/Libraries/Include/google/protobuf/descriptor_database.cc:1007-1027 | Appends the union of the numbers of all sources that report any, ascending and without repeats |
| AddedFiles.SimpleAddFollows | Server/Libraries/Include/google/protobuf/descriptor_database.cc:116-147 | What adding a file does to every lookup of the simple database, told from the lists the file declares: if it is accepted, its name, every symbol equal to or under a top-level message, enum, extension or service name (with the package in front), and every qualified extension declared at top level, in a message or in messages nested at any depth find its value, and everything else finds what it found before; if it is rejected, each lookup finds what it did or, if declared, its value |
| AddedFiles.EncodedAddFollows | Server/Libraries/Include/google/protobuf/descriptor_database.cc:623-661 | The same for the encoded database and its next lookups; names and extensions after any run at all |
| AddedFiles.ItemsAreDeclared | Server/Libraries/Include/google/protobuf/descriptor_database.cc:116-147 | The items a file is added by are exactly the symbols and extensions it declares |
| AddedFiles.OrderOfItems | Server/Libraries/Include/google/protobuf/descriptor_database.cc:126-142 | The order of the items, on a file with one of each: a message before the extensions inside it, nested ones first, then enums, extensions with their names, services |
| AddedFiles.SimpleAcceptsIff | Server/Libraries/Include/google/protobuf/descriptor_database.cc:195-289 | A file is accepted if and only if its name is new, its symbols are valid and conflict with no symbol known nor with one another, and its qualified extensions are new and differ |
| AddedFiles.EncodedAcceptsIff | Server/Libraries/Include/google/protobuf/descriptor_database.cc:623-661 | The same in the encoded database, where the package has to be valid by itself |
| AddedFiles.SimpleLeaves | Server/Libraries/Include/google/protobuf/descriptor_database.cc:116-147 | A rejected file with a new name leaves exactly the items before the first rejected one; with a known name, nothing |
| AddedFiles.EncodedLeaves | Server/Libraries/Include/google/protobuf/descriptor_database.cc:623-661 | The same in the encoded database, where the rejected item may still leave a duplicate extension in the tree |
| Arena.NothingOverlaps | Server/Libraries/Include/google/protobuf/arena_impl.h:149-199 | From a fresh arena, after any plain, over-aligned and with-cleanup requests, all block headers, the embedded SerialArena, user regions and cleanup nodes are pairwise disjoint and inside the block they came from |
| Arena.RegionAsAsked | Server/Libraries/Include/google/protobuf/arena.h:517-537 | Each region is as large as asked, starts at a multiple of its alignment, and costs at most one new block |
| Arena.OneGrowthSuffices | Server/Libraries/Include/google/protobuf/arena.cc:53-77 | A block made for a request always has room for it |
| Arena.NewBlockSize | Server/Libraries/Include/google/protobuf/arena.cc:53-69 | A new block is twice the size of the last one up to the maximum of the policy, exceeds that only when the request needs it, and is then exactly as large as needed |
| Arena.DefaultSizes | Server/Libraries/Include/google/protobuf/arena_impl.h:93-99 | Without a policy the first block has 256 bytes and blocks double up to 8192 |
| Arena.CarvedIsTight | Server/Libraries/Include/google/protobuf/arena.h:717-728 | No fewer bytes could be taken from the bump pointer: for some address the region ends exactly where the carved bytes do |
| Arena.AlignToFits | Server/Libraries/Include/google/protobuf/arena.h:717-728 | Rounding an 8-byte aligned address up to a multiple of a larger power of two costs at most align - 8 bytes |
| AlignMask.MaskIsAlignTo | Server/Libraries/Include/google/protobuf/arena.h:96-100 | For every 64-bit address and power of two, (p + align - 1) & (~align + 1), taken bit by bit on 64-bit words, is the least multiple not below the address if and only if the sum does not wrap around |
| AlignMask.MaskIsAlignUpTo8 | Server/Libraries/Include/google/protobuf/arena_impl.h:54-57 | The same for (n + 7) & -8 |
| AlignMask.AlignToIsLeast | Server/Libraries/Include/google/protobuf/arena.h:96-100 | Among all multiples of the alignment that are not below the address, the result is the least |
| Arena.ServeInv | Server/Libraries/Include/google/protobuf/arena_impl.h:151-199 | No request breaks the separation of everything carved so far |
| Arena.RunAccounts | Server/Libraries/Include/google/protobuf/arena.cc:171-177 | Over any run SpaceUsed grows by exactly the user bytes carved and SpaceAllocated is the sum of all block sizes |
| ArenaCleanup.CleanupRunsAllIffNoneLost | Server/Libraries/Include/google/protobuf/arena.cc:179-194 | For any arena, CleanupList runs every registered cleanup once and in reverse order if and only if no block but the oldest has a size that is not a multiple of 8 and holds a single node |
| ArenaCleanup.CleanupsRunInReverse | Server/Libraries/Include/google/protobuf/arena.cc:134-169 | The same after any run of requests from a fresh arena, against the list of addresses returned to the user with their destructors, and of the objects and functions passed in |
| ArenaCleanup.EvenSizesLoseNothing | Server/Libraries/Include/google/protobuf/arena.cc:53-69 | With a maximal block size divisible by 8 and a first block divisible by 4 nothing is ever lost |
| ArenaCleanup.LostCleanupWitness | Server/Libraries/Include/google/protobuf/arena.cc:164-190 | A first block of 86 bytes leads to one of 172 whose only cleanup never runs |
| ArenaCleanup.NodeHoldsRegistration | Server/Libraries/Include/google/protobuf/arena.h:523-535 | The node, the top 16 bytes of what was free, holds the address returned to the user and the destructor given, or the object and function given |
| SerialArena.SerialArena.AllocateNewBlock | Server/Libraries/Include/google/protobuf/arena.cc:149-169 | The field updates amount to one growth step of the specification |
| SerialArena.SerialArena.AllocateAligned | Server/Libraries/Include/google/protobuf/arena_impl.h:151-163 | Moves the bump pointer, growing at most once through the fallback |
| SerialArena.SerialArena.MaybeAllocateAligned | Server/Libraries/Include/google/protobuf/arena_impl.h:166-177 | Allocates only if the current block has room, and then exactly as the plain path |
| SerialArena.SerialArena.AllocateAlignedWithCleanup | Server/Libraries/Include/google/protobuf/arena_impl.h:179-192 | Takes the region from below and the node from above |
| SerialArena.SerialArena.AddCleanup | Server/Libraries/Include/google/protobuf/arena_impl.h:194-199 | Fills a node with the object and the function, without taking user space |
| SerialArena.SerialArena.AllocateInternal | Server/Libraries/Include/google/protobuf/arena.h:517-537 | Fills the node with the very address it returns, aligned or not, and the destructor |
| SerialArena.SerialArena.CleanupList | Server/Libraries/Include/google/protobuf/arena.cc:179-194 | Walks the blocks and calls, one by one, what the specification lists; each block header is read before its nodes are run and before the next block is followed; the newest block's start is synced |
| SerialArena.SerialArena.Free | Server/Libraries/Include/google/protobuf/arena.cc:122-132 | Use by use and call by call: the successor of each block is tested and followed before the block is handed over, newest first; the oldest is returned |
| ArenaRelease.FreeBlocksObeys | Server/Libraries/Include/google/protobuf/arena.cc:122-132 | In that sequence all blocks but the oldest go back, in order, and none is used once it went back, if all blocks are different |
| ArenaRelease.ReleaseGivesAllBack | Server/Libraries/Include/google/protobuf/arena.cc:288-352 | Destruction and Reset first call every cleanup of every thread, thread by thread; then every block goes back exactly once in list order, except a user-owned initial block; after a block went back nothing in it - header, SerialArena, policy - is used, it is not given back again, and no cleanup runs; and the sizes add up to SpaceAllocated |
| ArenaRelease.CleanupObeys | Server/Libraries/Include/google/protobuf/arena.cc:427-429 | The cleanup pass calls exactly the cleanups listed for each thread, in list order, and gives nothing back |
| ArenaRelease.ObeysIsOrderly | Server/Libraries/Include/google/protobuf/arena.cc:309-317 | A trace that never uses, frees or runs anything after what it gave back satisfies this for every pair of its events |
| ArenaRelease.FreeGivesBack | Server/Libraries/Include/google/protobuf/arena.cc:309-317 | The blocks handed over by Free, with the one it returns, are all blocks of all threads in order, and each goes back only after the last use of it and of the SerialArena in it |
| ArenaThreads.ArenaIsGivenBack | Server/Libraries/Include/google/protobuf/arena.cc:288-352 | However threads join an arena and whatever they ask of it, in any order, starting with or without a user's block and a policy: destruction gives all blocks back as above, the user keeps exactly the block passed in, and the cleanups called are each thread's registrations in reverse if and only if no block lost its only node |
| ArenaThreads.ThreadsNeverOverlap | Server/Libraries/Include/google/protobuf/arena.cc:431-456 | In every such arena everything carved for any thread - headers, SerialArenas, the policy, user regions, cleanup nodes - is apart from everything else, given an allocator whose live blocks do not overlap |
| ArenaThreads.ActInUse | Server/Libraries/Include/google/protobuf/arena.cc:431-456 | A thread that joins and a request of any thread keep all blocks of all threads apart, accounted for, and their cleanup nodes in place |
| ArenaThreads.StartInUse | Server/Libraries/Include/google/protobuf/arena.cc:217-259 | So does every start of an arena, with the policy stored behind the SerialArena |
| ArenaThreads.SoundIsReleased | Server/Libraries/Include/google/protobuf/arena.cc:288-352 | A list whose blocks are apart consists of different blocks, so everything said of its release holds |
| ArenaThreads.SmallRelease | Server/Libraries/Include/google/protobuf/arena.cc:288-317 | Every single use and call, in order, when an arena of one thread with two blocks, one cleanup and a policy is destroyed |
| ArenaThreads.FirstAddresses | Server/Libraries/Include/google/protobuf/arena.cc:105-120 | The first addresses in a block of 256 bytes, with and without a policy, where its first cleanup node lies, and the sizes of first blocks |
| ArenaThreads.EmptyRelease | Server/Libraries/Include/google/protobuf/arena.cc:288-307 | An arena that was never used hands a null to the deallocator |
| ThreadSafeArena.ResetUsesNothing | Server/Libraries/Include/google/protobuf/arena.cc:319-352 | After Reset SpaceUsed is zero whatever was allocated before, the stored policy not counted |
| ThreadSafeArena.ThreadSafeArena.CleanupList | Server/Libraries/Include/google/protobuf/arena.cc:427-429 | Goes through the list and has each SerialArena run its cleanups; each is left as it was, its newest block synced |
| ThreadSafeArena.ThreadSafeArena.Free | Server/Libraries/Include/google/protobuf/arena.cc:309-317 | The list walk makes its uses and calls one at a time, in exactly the specified order, and returns the oldest block of the last SerialArena |
| ThreadSafeArena.ThreadSafeArena.Release | Server/Libraries/Include/google/protobuf/arena.cc:288-307 | Cleanups, reading the policy, Free, and the decision about the returned block; the space counted is SpaceAllocated |
| ThreadSafeArena.ThreadSafeArena.Reset | Server/Libraries/Include/google/protobuf/arena.cc:319-352 | Does the same first, returns SpaceAllocated, and leaves a valid arena with the same policy that starts from the user's block, a new one, or none |
| ThreadSafeArena.ThreadSafeArena.GetSerialArenaFallback | Server/Libraries/Include/google/protobuf/arena.cc:431-456 | Returns the thread's own SerialArena: the one on the list if there is one, and then nothing changes, else a new one at the head in front of all others |
| ThreadSafeArena.ThreadSafeArena.Ask | Server/Libraries/Include/google/protobuf/arena_impl.h:285-298 | A request served from one thread's SerialArena changes that one as specified, changes no other, and keeps the arena valid |
| ThreadSafeArena.ThreadSafeArena.SpaceAllocatedNow | Server/Libraries/Include/google/protobuf/arena.cc:409-416 | The sum over the list |
| ThreadSafeArena.ThreadSafeArena.InitializeFrom | Server/Libraries/Include/google/protobuf/arena.cc:217-226 | A user block becomes the initial block if and only if it can hold the header and the SerialArena; otherwise it is ignored |
| ThreadSafeArena.ThreadSafeArena.InitializeWithPolicy | Server/Libraries/Include/google/protobuf/arena.cc:228-259 | The first block, the user's if it is large enough and a new one otherwise, always has room for the stored policy, so the fatal branch is never taken |
| ThreadSafeArena.ThreadSafeArena.Initialize | Server/Libraries/Include/google/protobuf/arena.cc:332-349 | What a caller finds: a valid arena with one SerialArena of the calling thread in the block kept, or in a new block large enough for the policy if there is one, or none; and the policy fits between the SerialArena and the first free byte |
| ArenaProtocol.StepInv | Server/Libraries/Include/google/protobuf/arena.cc:431-456 | No step of any thread, in any order with the others, breaks the invariant over list, hint, caches and ids |
| ArenaProtocol.ThreadsUseTheirOwn | Server/Libraries/Include/google/protobuf/arena_impl.h:365-392 | In every interleaving a thread only comes to allocate from a SerialArena that it owns and that is on the arena's list, and a cache that names the arena's id holds such a one |
| ArenaProtocol.NoPushLosesAnother | Server/Libraries/Include/google/protobuf/arena.cc:441-452 | In every interleaving, following the pointers from the head visits exactly what was pushed since initialisation, newest first, with at most one SerialArena per thread |
| ArenaProtocol.RunOnlyPushes | Server/Libraries/Include/google/protobuf/arena.cc:441-452 | What is on an arena's list stays there in the same order until that arena is reset or destroyed |
| ArenaProtocol.OnlyLiveSerialsRead | Server/Libraries/Include/google/protobuf/arena_impl.h:362-378 | In every reachable state the hint and the list position a thread is about to read point to SerialArenas that have not been freed |
| ArenaProtocol.LifecycleIdsDistinct | Server/Libraries/Include/google/protobuf/arena.cc:261-279 | Over every interleaving of threads drawing batches of 256 from the shared counter, the ids handed out are pairwise distinct |
| ArenaProtocol.DrawnIdIsNew | Server/Libraries/Include/google/protobuf/arena_impl.h:423-435 | The id drawn was never issued, and no other thread is inside its batch |
| ArenaProtocol.CompareExchangeInv | Server/Libraries/Include/google/protobuf/arena.cc:447-452 | A push that succeeds puts the thread's own new SerialArena on top; one that fails, also spuriously, leaves it private |
| ArenaProtocol.InitializeInv | Server/Libraries/Include/google/protobuf/arena.cc:281-286 | Making or resetting a quiescent arena keeps the invariant although stale caches and hints of the old life remain |
| ArenaProgress.LostPushIsRetried | Server/Libraries/Include/google/protobuf/arena.cc:447-452 | In every reachable state, a thread whose exchange failed, spuriously or because the head had changed, has pushed its own SerialArena on top when it has set its pointer again and tried once more undisturbed |
| ArenaProgress.EveryThreadGetsItsOwn | Server/Libraries/Include/google/protobuf/arena.cc:431-456 | After every interleaving, a thread inside an allocation that is left alone comes to its SerialArena within the length of the list plus nine steps: the one it has on the list, and then all lists stay as they are; or, exactly if it has none, a new one that is then on top |
| ArenaProgress.Remembered | Server/Libraries/Include/google/protobuf/arena_impl.h:355-363 | A thread that found or pushed its SerialArena has it in its cache and in the hint of the arena afterwards, with the list unchanged |
| ArenaProgress.CacheIsTaken | Server/Libraries/Include/google/protobuf/arena_impl.h:381-392 | A cache that names the arena is used at once |
| ArenaProgress.HintIsTaken | Server/Libraries/Include/google/protobuf/arena_impl.h:365-379 | A hint to the own SerialArena is used without walking the list |
| ArenaProgress.RecordedFirst | Server/Libraries/Include/google/protobuf/arena.cc:374-386 | Where allocations are recorded, a tagged request never passes the cache check before it was recorded, in every reachable state |
| ArenaProgress.FirstIsRemembered | Server/Libraries/Include/google/protobuf/arena.cc:281-286 | The SerialArena in the initial block is the whole list, the hint, and in the cache of the thread that made the arena |
| ArenaProgress.FirstIds | Server/Libraries/Include/google/protobuf/arena.cc:261-279 | A thread draws 0 and then 2; another thread opens its own batch at 512 |
| Varint.EncodeThenDecode | Server/Libraries/Include/google/protobuf/io/coded_stream.h:905-932 | Whatever follows, decoding an encoded varint gives the value back and stops right behind it |
| Varint.RoundTrip64 | Server/Libraries/Include/google/protobuf/parse_context.h:518-533 | Every 64-bit value survives in at most ten bytes |
| Varint.RoundTripSize | Server/Libraries/Include/google/protobuf/parse_context.h:609-619 | A written size is read back if and only if it is at most INT_MAX - 16 |
| Varint.VarintSizeIsLength | Server/Libraries/Include/google/protobuf/io/coded_stream.h:1678-1696 | The multiply-and-shift size formula counts the bytes written, for every 64-bit value |
| VarintCode.VarintParse | Server/Libraries/Include/google/protobuf/parse_context.h:518-533 | The unrolled parse with its borrow trick equals the format's definition, cut to 64 bits and ten bytes |
| VarintCode.VarintParseSlow64 | Server/Libraries/Include/google/protobuf/parse_context.cc:387-397 | The loop that adds (byte - 1) << 7i modulo 2^64 computes the value of the groups |
| VarintCode.ReadTag | Server/Libraries/Include/google/protobuf/parse_context.h:542-557 | A tag is the varint value modulo 2^32, or none beyond five bytes |
| VarintCode.ReadTagFallback | Server/Libraries/Include/google/protobuf/parse_context.cc:399-408 | The same for three to five bytes |
| VarintCode.ReadSize | Server/Libraries/Include/google/protobuf/parse_context.h:609-619 | A size is the varint value if it takes at most five bytes and is at most INT_MAX - 16 |
| VarintCode.ReadSizeFallback | Server/Libraries/Include/google/protobuf/parse_context.cc:410-431 | The fifth byte is refused from 8 on, and nothing smaller is refused wrongly |
| VarintCode.UnsafeVarint | Server/Libraries/Include/google/protobuf/io/coded_stream.h:905-932 | Writes exactly the encoding in place, fixing up continuation bits behind itself, and touches nothing else |
| Wire.WriteThenRead | Server/Libraries/Include/google/protobuf/io/coded_stream.h:721-731 | A declared field is read back whole, whatever follows, if and only if its length fits the size reader |
| Wire.ParseOfWritten | Server/GameServer/Protocol.pb.cc:407-453 | Parsing what any list of declared fields was written as is taking the fields in one by one |
| Wire.ParseOfTwo | Server/GameServer/Protocol.pb.cc:407-453 | Two written lists in one buffer parse as the first, then the second on top of it |
| Messages.EnumSurvives | Server/Libraries/Include/google/protobuf/wire_format_lite.h:1745-1747 | A negative enum value takes ten bytes and comes back as itself |
| MessageBytes.PlayerWrites | Server/GameServer/Struct.pb.cc:203-238 | The bytes of a player: tag 8 and the id, tag 18, length and name, tag 24 and the type sign-extended to 64 bits, in this order, each only if set |
| MessageBytes.PlayerWitness | Server/GameServer/Struct.pb.cc:203-238 | A player with all three fields set, in its seven bytes |
| MessageBytes.MessageWrites | Server/GameServer/Protocol.pb.cc:455-481 | The bytes of all six messages, with literal tags, in field order, unset fields left out, each player behind its length |
| MessageBytes.EncodeShort | Server/Libraries/Include/google/protobuf/io/coded_stream.h:905-932 | The one, two and three bytes of a small varint: low group first, top bit on all but the last |
| MessageBytes.TravelsExactly | Server/Libraries/Include/google/protobuf/parse_context.cc:410-431 | A message travels if and only if its strings are valid UTF-8 and its strings and players are at most 2147483631 bytes long |
| MessageBytes.PlayerRejects | Server/GameServer/Struct.pb.cc:150-201 | A zero tag, the end of a group and input that stops inside a field fail; an undeclared field does not count as one of these |
| MessageBytes.TooLong | Server/Libraries/Include/google/protobuf/parse_context.cc:387-431 | No tag or size takes more than five bytes, no varint more than ten |
| Messages.ConcatenationMerges | Server/GameServer/Protocol.pb.cc:407-538 | For every message type, parsing serialize(a) then serialize(b) gives a after MergeFrom(b), with repeated nested players; it fails if and only if one of them holds a string or player that is not valid UTF-8 or too long for the size reader |
| Messages.RoundTrip | Server/GameServer/Protocol.pb.cc:1284-1370 | parse(serialize(m)) is m if and only if its strings and players travel; otherwise the parse fails |
| Messages.PlayerMerges | Server/GameServer/Struct.pb.cc:150-238 | A serialized player parsed onto any other gives the merge of the two |
| Messages.SizeIsBytesWritten | Server/GameServer/Protocol.pb.cc:483-510 | ByteSizeLong equals the number of bytes serialization writes, unless both exceed INT_MAX and nothing is written |
| Messages.PlayerSize | Server/GameServer/Struct.pb.cc:240-275 | The same for a nested player, whose size becomes its length prefix |
| PlayerMessage.Player.InternalParse | Server/GameServer/Struct.pb.cc:150-201 | The parse loop ends as the specification of the message says, for every input, failing exactly where it does |
| PlayerMessage.Player.InternalSerialize | Server/GameServer/Struct.pb.cc:203-238 | Writes exactly the serialization, whose bytes are MessageBytes.PlayerWrites, in place and nothing else |
| PlayerMessage.Player.ByteSizeLong | Server/GameServer/Struct.pb.cc:240-275 | Returns the size, caches it, changes nothing else |
| PlayerMessage.Player.MergeFrom | Server/GameServer/Struct.pb.cc:292-308 | Set fields of the other replace, unset ones do not |
| PlayerMessage.Player.Clear | Server/GameServer/Struct.pb.cc:137-148 | Back to the message with no field set; the cached size stays |
| LoginMessage.SLogin.InternalParse | Server/GameServer/Protocol.pb.cc:407-453 | The parse loop with its inner loop over players equals the plain field-by-field parse, wherever the buffer ends make the inner loop stop |
| LoginMessage.SLogin.ParsePlayers | Server/GameServer/Protocol.pb.cc:420-432 | The do-while over tag 18 does what the outer loop would do |
| LoginMessage.SLogin.InternalSerialize | Server/GameServer/Protocol.pb.cc:455-481 | With current cached sizes, writes exactly the serialization |
| LoginMessage.InternalWriteMessage | Server/Libraries/Include/google/protobuf/wire_format_lite.h:1690-1698 | A length prefix taken from the cached size equals the nested bytes written after it |
| LoginMessage.SLogin.ByteSizeLong | Server/GameServer/Protocol.pb.cc:483-510 | Returns the size and leaves every nested cached size current |
| LoginMessage.SLogin.SerializeToArray | Server/Libraries/Include/google/protobuf/message_lite.cc:479-494 | Succeeds if and only if the message is at most INT_MAX bytes and fits the room given, and then writes exactly its serialization |
| LoginMessage.SLogin.MergeFrom | Server/GameServer/Protocol.pb.cc:527-538 | Appends copies of the other's players and takes over a true success flag |
| PacketIds.ProtoParser.ParseProto | Server/Tools/PacketGenerator/ProtoParser.py:13-32 | The loop over lines fills the three lists and the counter as specified, and stops with an error exactly when a message line has no second word; whatever upper-casing does |
| PacketIds.SwappedSidesAgree | Server/Tools/PacketGenerator/ProtoParser.py:21-30 | Two sides with swapped prefixes share one id table, and send and receive lists are exchanged if and only if no name has both prefixes |
| PacketIds.OneIdPerName | Server/Tools/PacketGenerator/ProtoParser.py:29-30 | Distinct names get distinct ids, one each |
| PacketIds.IdsAreConsecutive | Server/Tools/PacketGenerator/ProtoParser.py:29-30 | The i-th packet has id start + i |
| PacketIds.PrefixesApart | Server/Tools/PacketGenerator/ProtoParser.py:22-27 | If neither prefix starts the other, no name has both |
| ProtoText.BlankCharacters | Server/Tools/PacketGenerator/ProtoParser.py:21 | The characters a line is split at, listed; letters, digits, underscores and all other visible ASCII characters are not among them |
| ProtoText.SplitsIntoWords | Server/Tools/PacketGenerator/ProtoParser.py:21 | Every string is its words in order, none of which holds a blank, with only blanks around them and at least one between two |
| ProtoText.OnlyTheseWords | Server/Tools/PacketGenerator/ProtoParser.py:21 | And there is only one such way to split it |
| ProtoText.LineDeclares | Server/Tools/PacketGenerator/ProtoParser.py:18-21 | "message", at least one blank, a name, and then the end or a blank: the line declares that name in upper case |
| ProtoText.FileDeclares | Server/Tools/PacketGenerator/ProtoParser.py:17-21 | A file of such lines and lines that do not start with "message" declares exactly these names, in order |
| ProtoText.PacketsInOrder | Server/Tools/PacketGenerator/ProtoParser.py:22-30 | All names with one of the prefixes get a packet, in the order of the file, and no other name does |
| ProtoText.GameIds | Server/GameServer/ClientPacketHandler.h:7-15 | The six game messages get the ids 1000 to 1005 of the generated headers and the lists of the server |
| Dispatch.Init | Server/Tools/PacketGenerator/Templates/PacketHandler.h:24-32 | Every entry of the table is the handler registered last for its id, or the invalid one |
| Dispatch.OthersAreInvalid | Server/Tools/PacketGenerator/Templates/PacketHandler.h:26-27 | An id leads to the invalid handler if and only if no received packet has it |
| ProtoText.GameNames | Server/GameServer/ClientPacketHandler.h:24-32 | Which message type each registered handler parses |
| Dispatch.LastRegistered | Server/Tools/PacketGenerator/Templates/PacketHandler.h:28-31 | A later registration replaces the handler of its own id and of no other |
| Dispatch.MakeSendBuffer | Server/Tools/PacketGenerator/Templates/PacketHandler.h:55-69 | Makes the packet - size, id, payload - if and only if the payload is at most 65531 bytes; 65532 to 65535 bytes overrun a buffer whose size wrapped, more crash |
| Dispatch.PacketLayout | Server/Tools/PacketGenerator/Templates/PacketHandler.h:55-69 | The bytes of a packet: size and id, two bytes each and low byte first, then the message |
| Dispatch.HandlePacket | Server/Tools/PacketGenerator/Templates/PacketHandler.h:34-53 | The payload goes to the handler of the packet whose id the header carries, if no other name has that id; an id of no packet is rejected |
| Dispatch.PacketReachesItsHandler | Server/GameServer/ClientPacketHandler.h:18-69 | For any list of names of which none has both prefixes, a packet made by one side makes exactly its own handler run on the other with an equal message, if and only if its strings and players travel |
| Dispatch.WrongSideRejects | Server/DummyClient/ServerPacketHandler.h:26-39 | A packet of the sender's own receive list runs no handler on the other side |
| Framing.OnRecv | Server/GameServer/GameSession.cpp:26-32 | What OnRecvPacket is called with: for each whole packet at the front of the received bytes, the first bytes of the buffer at that packet's length; exactly those packets are consumed, and a size of zero keeps the loop going for ever |
| Framing.CutOne | Server/GameServer/GameSession.cpp:26-32 | How one packet is cut off: its size is the first two bytes, low byte first; it must be all there and not zero |
| Framing.RightIffAlike | Server/GameServer/GameSession.cpp:26-32 | One call hands over the packets it reached if and only if they all equal the first one |
| Framing.ChunkingIsInvisible | Server/GameServer/GameSession.cpp:26-32 | The packets reached over a connection do not depend on how the stream is chopped |
| Framing.StreamIsCutBack | Server/GameServer/GameSession.cpp:26-32 | A stream of packets with right size fields is cut back into them with nothing left over |
| Framing.DeliveredIffAlikePerCall | Server/GameServer/GameSession.cpp:26-32 | Over a whole connection the handlers get the packets sent, in order, if and only if no single call reached two packets that differ |
| Framing.SecondPacketLost | Server/GameServer/GameSession.cpp:26-32 | Two different packets arriving together: the first is handed over twice, the second never |
| Connection.SentIsHandled | Server/GameServer/GameSession.cpp:26-32 | From messages to handlers: for any messages sent, packed with their ids, and any chopping of the byte stream in which no call reaches two packets that differ, the receiving side's handlers run exactly for these messages, in order, each with an equal message; those that do not travel are rejected |
| Connection.HandledRightIsOneHandler | Server/GameServer/GameSession.cpp:26-32 | Conversely, if all messages travel and were handled as sent, no call reached packets of two different handlers |

## Left out

- EncodedTheorems.LookupsCorrectIffNoneMissed: for files whose symbols are non-empty, or whose package is empty; with an empty symbol in a package the comparator is no order and what the standard containers then do is not defined.
- EncodedTheorems.SymbolsRefinePlain: same restriction to non-empty symbols.
- EncodedTables.FilesAndExtensionsRefinePlain: over accepted adds; runs with rejected ones are FirstFileFoundIffNotShadowed and FirstExtensionFoundIffNotShadowed, where a file offers its extensions up to its first rejected item.
- EncodedTables.FirstAlwaysFoundIffNoneShadowed: for values that all differ; where two files have the same value, a shadowed key may still find the right one.
- AddedFiles.SimpleAddFollows: after runs without the smallest-key case, which is where symbol lookups are right at all.
- AddedFiles.EncodedAddFollows: for symbols the same, with the restriction to non-empty symbols above.
- ArenaProgress.EveryThreadGetsItsOwn: a thread that is disturbed for ever need not finish, as the loop around the weak compare-and-swap does not promise more.
- EncodedTheorems.EncodedAgreesWithSimple: for valid package names, since only the encoded database checks the package by itself.
- SymbolKeys.SearchByName: the package text is kept in the key instead of being read through the file's offset; PackagesMatch, kept by every run, says the two are equal.
- EncodedDatabase.DescriptorIndex.AddSymbol: the std::set and the sorted vector are both sorted sequences; balancing of the tree and the insertion hint have no counterpart, and the hint changes no result.
- Arena.NothingOverlaps: a new block is assumed to overlap no block of the same arena and to be 8-byte aligned, as operator new or the policy's allocator provide; the 64-bit overflow check on sizes is not modelled.
- Arena.AlignToFits: over-aligned sizes are multiples of 8, as the debug assertions in AllocateAligned demand; addresses are unbounded, and AlignMask says when the 64-bit mask agrees.
- Arena.RunAccounts: for over-aligned requests the padding counts as user space, as it does in SpaceUsed.
- SerialArena.SerialArena.AllocateNewBlock: the linked list of blocks is a sequence and the memory of cleanup nodes a map by address, so pointer updates inside block headers are not captured.
- ThreadSafeArena.ThreadSafeArena.Reset: the caller's cache and hint, the lifecycle ids and the compare-and-swap of a push are ArenaProtocol's; here calls come one after the other.
- ThreadSafeArena.ThreadSafeArena.CleanupList: that a cleanup is called is recorded; what its function does is not modelled.
- ArenaThreads.ThreadsNeverOverlap: the block allocator is assumed to hand out 8-byte aligned memory that overlaps no live block of the arena, and a user's block to be 8-byte aligned, as the debug assertion demands.
- ArenaProtocol.StepInv: single steps are sequentially consistent; the memory orders given to the atomics are not modelled.
- ArenaProtocol.InitializeInv: an arena is made, reset or destroyed only while no thread is inside a call on it, as the class demands of its users.
- ArenaProtocol.LifecycleIdsDistinct: the 64-bit counter does not wrap.
- VarintCode.VarintParse: bytes past the end of the input make the read fail, where the code reads into a padded copy and fails at the next check of the limit.
- Wire.ParseOfWritten: fields a message does not declare end the parse with an outcome of their own; the unknown-field set that collects them is not part of this model, nor are groups and input in several chunks.
- Messages.ConcatenationMerges: whether bytes are valid UTF-8 is a parameter; the recursion limit of 100 is never reached by messages nested once.
- Messages.SizeIsBytesWritten: sizes are unbounded numbers; wrap-around of a 64-bit size is not modelled.
- LoginMessage.SLogin.MergeFrom: merging a message into itself is excluded, as the debug assertion does.
- The classes of C_LOGIN, C_ENTER_GAME, S_ENTER_GAME, C_CHAT and S_CHAT: modelled on values only; they repeat the loops proved for Player and S_LOGIN.
- PacketIds.ProtoParser.ParseProto: upper-casing is any function on strings; lines are given, reading the file is not modelled.
- Dispatch.MakeSendBuffer: the send buffer pool is not modelled; a buffer has exactly the size asked for.
- Dispatch.HandlePacket: a buffer shorter than its header, and a packet type without a modelled message, have an outcome of their own.
- Dispatch.Init: ids below 65535, since the table has no entry for 65535.
- Dispatch.PacketReachesItsHandler: the same bound on ids, and payloads of at most 65531 bytes, which is exactly when MakeSendBuffer makes a packet.
- Framing.RightIffAlike: for sizes that count their own header of 4 bytes, as all packets made by MakeSendBuffer do.
- Connection.SentIsHandled: one direction; handlers can also come out right by accident when packets differ, because a packet cut short may hold another one's message.
- The receive buffer's cursors and its compaction, sockets, sessions, job queues and memory pools.
- Name listings of the databases, the descriptor-pool database and FindNameOfFileContainingSymbol.
- Allocation metrics, sanitizer hooks and cleanups that allocate on their own arena; reading the metrics collector counts as a use of the policy.
- Reflection, text format, CopyFrom and Swap.
