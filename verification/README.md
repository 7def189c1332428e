# Telegram Desktop: hashes, request protocols, trace reader and updaters

A Dafny model of the parts of Telegram Desktop whose behaviour is an algorithm or a protocol, with proofs
about every input, every run and every interleaving. One module a component:

- `Sha1`: the hand-written SHA-1 of the update packer over its arrays, against FIPS 180-4 (sections 4.1.1,
  4.2.1, 5.1.1, 5.2.1, 5.3.1 and 6.1.2).
- `TraceReader`, `TraceMeaning`: the allocation trace reader, its record parser and the refill loop with carry-over.
  Any chunking of a file gives what one parse of the whole file gives, and that follows from the records alone.
- `ResultHash`: the 64-bit hash of result lists and the loops that compute it for sticker sets.
- `DialogsLoading`, `MessageData`, `WebPages`, `StickerSave`, `Forwarding`, `Albums`: the request protocols
  and algorithms of `ApiWrap`.
- `InviteLinks`: the cache of a peer's invite links under edits and late replies.
- `MergedSearch`: two search streams merged into one list.
- `UpdatePlan`, `UpdateInstall`: the tree walk of the two updaters and the writing that follows it.

`dafny verify dfyconfig.toml` checks everything.

## How protocols are modelled

An object that the source changes in place is a class with the source's fields. The server is whatever may
answer: `outstanding` maps the ids of owed requests, which are fresh and positive, to what was asked. Handlers
run one at a time, never inside a send; an answer or a failure takes its id out of `outstanding`, and so does a
cancel, after which the handlers of that request never run. Each class has an invariant `Valid()`; each handler
and each call keeps it and says what it does, and `AnyRun` drives an object with any sequence of events (an event
that cannot happen in a state is skipped). Ghost fields only record history: what was started, posted, sent,
registered, fired or lost.

Results of the kind "if and only if" name the exact condition under which the code does what is wanted, where it
does not always do so:

- `Sha1.PackerPaddingIsFips`: the digest is the standard's below 2^29 bytes, because the length is cut to 32 bits.
- `Forwarding.ChargeIsExact`, `Forwarding.TotalIsRightIff`, `Forwarding.MessageTotal`: when the stars charged for a
  batch, for all batches and for a whole message with saved music are right. The conditions are on the sizes of the
  batches, which `Forwarding.RunsAreUnique` shows to follow from the draft, on the price and on the approval.
- `InviteLinks.ReloadKeeps`, `InviteLinks.EditKeeps`, `InviteLinks.ExternalUpdateKeeps`: what a server must keep to
  for the cache to be right.
- `MergedSearch.SearchIsRightIff`: `clear` does not reset `_isFull`, and `disableMigrated` does not reset
  `_waitingForTotal`, so a second search on the same object can go wrong; the search panel reuses its object
  (Telegram/SourceFiles/history/view/controls/history_view_compose_search.cpp:928-929).
- `MergedSearch.HangsExactlyWhen`, `WebPages.HangsExactlyWhenFailed`, `DialogsLoading.NotModifiedHangs`: when
  nothing more will happen; the contracts of `DialogsLoading.Dialogs.Happen` and `WebPages.Resolver.Happen` say that
  it stays so.
- `UpdatePlan.TargetsApartIff`, `UpdateInstall.InstalledIff`: when two files of an update are copied to one place, and
  when a finished update is installed all the same.
- `UpdateInstall.AllThereIff`: when forcing the directories leaves one out.

## Assumptions

- `DialogsLoading`, `MessageData`, `WebPages`, `StickerSave`: the environment above, and nothing about what the
  server answers.
- `InviteLinks`: none for the protocol. The cache is promised while `faithful` holds: no answer and no update broke
  the conditions that `ReloadKeeps`, `EditKeeps` and `ExternalUpdateKeeps` show to be exact.
- `MergedSearch`: the pages of each search partition its answer, none is empty but the only page of an empty
  answer, and the caller asks for more only while the list and the total differ, as the search panel does.
  The error SEARCH_QUERY_EMPTY is no failure: its handler answers with an empty result of total 0
  (Telegram/SourceFiles/api/api_messages_search.cpp:135-137), as a search whose only page is empty does.
- `UpdatePlan`, `UpdateInstall`: names of entries are non-empty and without separators, siblings differ (on Windows by
  more than letter case, which its file system does not tell apart), no file and directory have one name, no
  file is below another one, the update tree does not change while it is copied and lies outside the places written,
  and the target root exists. Letter case is folded for ASCII letters. The name of the binary has no separators, as
  both programs see to (Telegram/SourceFiles/_other/updater_linux.cpp:401-403,
  Telegram/SourceFiles/_other/updater_win.cpp:375-388). What the system makes of the calls is an input, `World`: how
  each directory reads, which cannot be made, what cannot be removed, how each try to write a file goes and how often
  the user asks for more.
- `Albums`: an item that is not cancelled is uploaded once at most, and is cancelled once at most.

## Model

| member | source | states |
|---|---|---|
| `Sha1.OrChIsCh` | Telegram/SourceFiles/_other/packer.cpp:78-79 | the or-form of Ch is the xor-form of section 4.1.1 |
| `Sha1.OrMajIsMaj` | Telegram/SourceFiles/_other/packer.cpp:81 | the or-form of Maj is the xor-form of section 4.1.1 |
| `Sha1.TopBitClear` | Telegram/SourceFiles/_other/packer.cpp:56-58 | turning a word by one doubles it when the top bit is clear |
| `Sha1.TopBitSet` | Telegram/SourceFiles/_other/packer.cpp:56-58 | and puts the top bit at the bottom when it is set |
| `Sha1.RotlTurns` | Telegram/SourceFiles/_other/packer.cpp:56-58 | turning by 5 is turning by one five times, and turning by 30 needs two more to come round |
| `Sha1.RoundSumAdds` | Telegram/SourceFiles/_other/packer.cpp:64 | the sum of a round has each of its five terms once |
| `Sha1.ParityIs` | Telegram/SourceFiles/_other/packer.cpp:80 | a bit of the parity is set if and only if one or three of the bits are |
| `Sha1.NextWordTurns` | Telegram/SourceFiles/_other/packer.cpp:74 | the next word of the schedule is the four earlier words, each turned by one, together |
| `Sha1.BigEndianIs` | Telegram/SourceFiles/_other/packer.cpp:103-106 | the first byte of a word is its highest |
| `Sha1.ScheduleStep` | Telegram/SourceFiles/_other/packer.cpp:74 | the word that the in-place `temp` update computes is the next word of the message schedule |
| `Sha1.ShiftSwap` | Telegram/SourceFiles/_other/packer.cpp:63-71 | one round moves the five registers as section 6.1.2 does |
| `Sha1.ShiftShiftSwap` | Telegram/SourceFiles/_other/packer.cpp:73-76 | a round of the later loops keeps the schedule in `temp` and the registers in step with the standard |
| `Sha1.RunRounds` | Telegram/SourceFiles/_other/packer.cpp:78-82 | the five loops compute all 80 rounds, starting from a block in `temp[0..15]` that they leave as it was |
| `Sha1.PartHash` | Telegram/SourceFiles/_other/packer.cpp:60-92 | one call is one block compression of section 6.1.2 |
| `Sha1.LoadBlock` | Telegram/SourceFiles/_other/packer.cpp:102-107 | the bytes of a block are packed as big-endian words |
| `Sha1.ShiftInWord` | Telegram/SourceFiles/_other/packer.cpp:115-117 | or-ing a byte into a zero-filled block puts it at its place in its word |
| `Sha1.OtherWordsKept` | Telegram/SourceFiles/_other/packer.cpp:115-117 | or-ing a byte in leaves all other words alone |
| `Sha1.FillTail` | Telegram/SourceFiles/_other/packer.cpp:111-117 | the tail buffer is the remaining bytes, the one bit and zeros |
| `Sha1.PaddedLength` | Telegram/SourceFiles/_other/packer.cpp:111-123 | a padded message is a whole number of blocks |
| `Sha1.PaddedTail` | Telegram/SourceFiles/_other/packer.cpp:118-123 | the padding of section 5.1.1 takes one block below 56 remaining bytes and two from 56 on, as `end >= 56` decides |
| `Sha1.LastBlockWords` | Telegram/SourceFiles/_other/packer.cpp:122 | the length written to `temp[15]` alone makes the last block of the padding |
| `Sha1.HashLast` | Telegram/SourceFiles/_other/packer.cpp:122-123 | the last compression folds the block with the length |
| `Sha1.HashTail` | Telegram/SourceFiles/_other/packer.cpp:111-123 | all that follows the block loop folds the padded rest of the message |
| `Sha1.PaddingCommutes` | Telegram/SourceFiles/_other/packer.cpp:101-109 | taking a full block off the front of a message commutes with padding it |
| `Sha1.FoldNext` | Telegram/SourceFiles/_other/packer.cpp:101-109 | one turn of the block loop leaves the hash of the whole padded message unchanged |
| `Sha1.HashBlocks` | Telegram/SourceFiles/_other/packer.cpp:101-109 | the block loop consumes exactly the full blocks |
| `Sha1.WriteDigest` | Telegram/SourceFiles/_other/packer.cpp:125-129 | the output loop writes the five words as big-endian bytes |
| `Sha1.HashSha1` | Telegram/SourceFiles/_other/packer.cpp:96-132 | for every input shorter than 2^29 bytes the output is the FIPS 180-4 digest; for longer ones, the digest of the padding with the bit length modulo 2^32 |
| `Sha1.PackerPaddingIsFips` | Telegram/SourceFiles/_other/packer.cpp:122 | the 32-bit length field gives the padding of the standard if and only if the message is shorter than 2^29 bytes |
| `TraceReader.DecodeLosesNothing` | cmake/linux_allocation_tracer/linux_allocation_trace_reader.cpp:120-163 | decoded records, written back, are exactly the bytes consumed, and what is left over follows them |
| `TraceReader.FirstOfEncoded` | cmake/linux_allocation_tracer/linux_allocation_trace_reader.cpp:120-163 | a record written in front of anything is read back, and the rest is left |
| `TraceReader.DecodeOfEncoded` | cmake/linux_allocation_tracer/linux_allocation_trace_reader.cpp:120-163 | any records written one after another are decoded as they were, whatever incomplete follows |
| `TraceReader.DecodeSplit` | cmake/linux_allocation_tracer/linux_allocation_trace_reader.cpp:120-163 | decoding a file is decoding any prefix, then what that left over with the rest, unless garbage stopped it |
| `TraceReader.ParseInTwoSteps` | cmake/linux_allocation_tracer/linux_allocation_trace_reader.cpp:120-202 | one parse of a file has the effect of a parse of any prefix and one of the leftover with the rest, also when garbage stops it |
| `TraceReader.SumOf` | cmake/linux_allocation_tracer/linux_allocation_trace_reader.cpp:46-49 | the total over the map is the sum of all live sizes modulo 2^64, whatever the order of the hash map |
| `TraceReader.Reader.PrintState` | cmake/linux_allocation_tracer/linux_allocation_trace_reader.cpp:41-67 | a snapshot is printed unless the time is still zero |
| `TraceReader.Reader.Add` | cmake/linux_allocation_tracer/linux_allocation_trace_reader.cpp:69-82 | an address already there is refused with a warning, and the old entry stays |
| `TraceReader.Reader.ParseMalloc` | cmake/linux_allocation_tracer/linux_allocation_trace_reader.cpp:84-89 | the entry is offered and counted |
| `TraceReader.Reader.ParseRealloc` | cmake/linux_allocation_tracer/linux_allocation_trace_reader.cpp:91-107 | the three branches agree with: an unknown old address adds, a known one moves the entry and gets the new size |
| `TraceReader.Reader.ParseFree` | cmake/linux_allocation_tracer/linux_allocation_trace_reader.cpp:109-118 | a known entry goes, an unknown one is counted as such |
| `TraceReader.Reader.Tick` | cmake/linux_allocation_tracer/linux_allocation_trace_reader.cpp:142-153 | a later time prints the state before it is stored; an earlier one is only warned about |
| `TraceReader.Reader.ParseOne` | cmake/linux_allocation_tracer/linux_allocation_trace_reader.cpp:140-160 | one record has the effect of that record on the map, the counters, the time and the output |
| `TraceReader.Reader.Parse` | cmake/linux_allocation_tracer/linux_allocation_trace_reader.cpp:120-163 | the loop has the effect of all complete records in order, reports garbage as -1, and else returns the bytes consumed |
| `TraceReader.CarryOverIsShort` | cmake/linux_allocation_tracer/linux_allocation_trace_reader.cpp:181-202 | what a refill carries over is under 29 bytes, so there is always room to read into |
| `TraceReader.RefillStep` | cmake/linux_allocation_tracer/linux_allocation_trace_reader.cpp:193-201 | a refill of any size and a parse keep: what was parsed, then a parse of the buffer and the unread rest, is one parse of the file |
| `TraceReader.ReadTrace` | cmake/linux_allocation_tracer/linux_allocation_trace_reader.cpp:181-213 | for every file and every way `fread` splits it, the map, counters, time and output are those of one parse of the whole file |
| `TraceReader.TickConserves` | cmake/linux_allocation_tracer/linux_allocation_trace_reader.cpp:142-153 | the time check keeps the conservation law, and the time never goes down |
| `TraceReader.EffectConserves` | cmake/linux_allocation_tracer/linux_allocation_trace_reader.cpp:84-118 | every record is counted once and keeps live entries, frees and refused entries in balance |
| `TraceReader.RunConserves` | cmake/linux_allocation_tracer/linux_allocation_trace_reader.cpp:69-163 | after any records: live + frees + repeated-entry warnings = mallocs + unknown reallocs, the five counters sum to the number of records, and the time is the latest seen |
| `TraceReader.WholeFileConserves` | cmake/linux_allocation_tracer/linux_allocation_trace_reader.cpp:165-213 | the same for the totals printed for any file, with the records counted being all complete records in it |
| `TraceMeaning.OfferedIsAlive` | cmake/linux_allocation_tracer/linux_allocation_trace_reader.cpp:69-118 | an address that was offered and not ended since has an entry |
| `TraceMeaning.PutByOneMore` | cmake/linux_allocation_tracer/linux_allocation_trace_reader.cpp:84-118 | one record more puts an entry if and only if it offers an address without one, or one it ends itself; it ends the entries of its own |
| `TraceMeaning.ApplyMeans` | cmake/linux_allocation_tracer/linux_allocation_trace_reader.cpp:140-160 | one record: which entries it leaves, how it is counted and what it prints |
| `TraceMeaning.RunMeans` | cmake/linux_allocation_tracer/linux_allocation_trace_reader.cpp:69-163 | after any records the live addresses are exactly those offered and not ended since, each with the size of the first record that offered it then, a realloc to the same address being both; each record is counted by whether its address was live |
| `TraceMeaning.LogOneMore` | cmake/linux_allocation_tracer/linux_allocation_trace_reader.cpp:41-82 | each record prints the state before it, with the sum of exactly those sizes modulo 2^64, if its time is later than all before; a warning if earlier; and a warning if it offers an address that stays live |
| `TraceMeaning.FileMeans` | cmake/linux_allocation_tracer/linux_allocation_trace_reader.cpp:165-213 | the same for the end of any file: what could not be parsed, the last state and the totals |
| `ResultHash.UnmixedIsLeftInverse` | Telegram/SourceFiles/api/api_hash.h:41-43 | the three xorshifts lose nothing: doubling shifts undo them |
| `ResultHash.UnmixedIsRightInverse` | Telegram/SourceFiles/api/api_hash.h:41-43 | every 64-bit state is reached by the xorshifts |
| `ResultHash.UpdateIsBijective` | Telegram/SourceFiles/api/api_hash.h:40-45 | for a fixed value the update is a bijection of states, and for a fixed state a bijection of values |
| `ResultHash.MixedIsLinear` | Telegram/SourceFiles/api/api_hash.h:41-43 | the three xorshifts are linear over the bits |
| `ResultHash.MixedOfBits0To15` | Telegram/SourceFiles/api/api_hash.h:41-43 | in numbers, what they make of bits 0 to 15, each alone |
| `ResultHash.MixedOfBits16To31` | Telegram/SourceFiles/api/api_hash.h:41-43 | of bits 16 to 31 |
| `ResultHash.MixedOfBits32To47` | Telegram/SourceFiles/api/api_hash.h:41-43 | of bits 32 to 47 |
| `ResultHash.MixedOfBits48To63` | Telegram/SourceFiles/api/api_hash.h:41-43 | and of bits 48 to 63; being linear, they are determined by this |
| `ResultHash.PlusRegroups` | Telegram/SourceFiles/api/api_hash.h:44 | the value is added as 64-bit numbers are: in any order |
| `ResultHash.PlusOfBits` | Telegram/SourceFiles/api/api_hash.h:44 | numbers without common bits give the bits of both |
| `ResultHash.PlusCarries` | Telegram/SourceFiles/api/api_hash.h:44 | equal ones carry, and the top bit is lost |
| `ResultHash.FoldIsInjective` | Telegram/SourceFiles/api/api_hash.h:63-70 | two states that differ never meet by folding the same list |
| `ResultHash.OneDifferenceShows` | Telegram/SourceFiles/api/api_hash.h:63-70 | lists of one length that differ in exactly one place have different hashes |
| `ResultHash.UnfoldInverts` | Telegram/SourceFiles/api/api_hash.h:63-70 | from a final hash and the list after it the state before is recovered |
| `ResultHash.EveryHashIsReached` | Telegram/SourceFiles/api/api_hash.h:63-70 | whatever stands around one value, exactly one choice of it gives any wanted hash |
| `ResultHash.TwoDifferencesCanCancel` | Telegram/SourceFiles/api/api_hash.h:63-70 | two differences can cancel: a pair of lists with one hash |
| `ResultHash.HashUpdate` | Telegram/SourceFiles/api/api_hash.h:40-45 | the statement sequence computes the update that is proved bijective |
| `ResultHash.CountHash` | Telegram/SourceFiles/api/api_hash.h:63-70 | the loop is the left fold of the update from zero |
| `ResultHash.CountStickersOrderHash` | Telegram/SourceFiles/api/api_hash.cpp:38-61 | the hash of the hashes of the known, non-special, non-archived sets in order, or 0 when the default set is found and the check is on |
| `ResultHash.CountedOfOne` | Telegram/SourceFiles/api/api_hash.cpp:38-61 | a set is counted if and only if it is known, not the default one, not special and not archived |
| `ResultHash.CountedHashesSplit` | Telegram/SourceFiles/api/api_hash.cpp:38-61 | the sets of an order are counted in that order |
| `ResultHash.CountFeaturedHash` | Telegram/SourceFiles/api/api_hash.cpp:63-78 | the hash of the list of ids in which each unread known set is followed by a 1 |
| `ResultHash.FlattenedOfOne` | Telegram/SourceFiles/api/api_hash.cpp:63-78 | an id is hashed, and a 1 after it if the set is known and unread |
| `ResultHash.FlattenedSplit` | Telegram/SourceFiles/api/api_hash.cpp:63-78 | the ids of an order are hashed in that order |
| `ResultHash.CountSpecialStickerSetHash` | Telegram/SourceFiles/api/api_hash.cpp:18-36 | the hash of the documents of the set, or 0 without it |
| `ResultHash.OneChangedSetShows` | Telegram/SourceFiles/api/api_hash.cpp:38-61 | if one counted set gets another hash and all else stays, the order hash changes |
| `DialogsLoading.FindOffset` | Telegram/SourceFiles/apiwrap.cpp:955-988 | the loop from the end, which leaves the date and the top message in different variables, finds the next offset |
| `DialogsLoading.FindTopDate` | Telegram/SourceFiles/apiwrap.cpp:975-983 | the inner loop finds the date of the last message that is the top of the dialog |
| `DialogsLoading.NoOffsetWithoutDate` | Telegram/SourceFiles/apiwrap.cpp:955-999 | a slice ends the list if and only if none of its dialogs has a dated top message |
| `DialogsLoading.OffsetIsOfOneDialog` | Telegram/SourceFiles/apiwrap.cpp:962-994 | if the last dialog with a top message is dated, date, id and peer of the offset are all its own |
| `DialogsLoading.OffsetIsMixed` | Telegram/SourceFiles/apiwrap.cpp:970-994 | otherwise the offset takes its date from a dialog that stands earlier in the slice than the one of its id and peer |
| `DialogsLoading.NextOffsetIs` | Telegram/SourceFiles/apiwrap.cpp:955-1000 | the offset found is the date of the last dialog whose top message is in the slice and dated, with peer and top message of the last dialog that has both; none is found if and only if no dialog is dated |
| `DialogsLoading.AfterListIs` | Telegram/SourceFiles/apiwrap.cpp:874-900 | an answer leaves the load as it was, ends its list, or sets the offset where the slice ended |
| `DialogsLoading.HistoryGrows` | Telegram/SourceFiles/apiwrap.cpp:849-1000 | a load begun, a page answered or a list asked for keep: the offset of each load is where its last page ended |
| `DialogsLoading.RequestKeeps` | Telegram/SourceFiles/apiwrap.cpp:849-921 | asking for a list, with the pinned part when it is needed, keeps the invariant of all load states |
| `DialogsLoading.AnswerKeeps` | Telegram/SourceFiles/apiwrap.cpp:874-913 | every answer and failure of either request keeps the invariant |
| `DialogsLoading.OneRequestOfAKind` | Telegram/SourceFiles/apiwrap.cpp:849-921 | at most one list and one pinned request are owed for a folder, and its load state exists while one is |
| `DialogsLoading.NoLoadHangs` | Telegram/SourceFiles/apiwrap.cpp:849-1060 | a load has the part it waits for owed, or the next call asks for it unless all are blocked by date, but for one answered with not-modified |
| `DialogsLoading.NotModifiedHangs` | Telegram/SourceFiles/apiwrap.cpp:876-879 | after a not-modified answer the load waits for a list that is not owed, and nothing of it is owed but a pinned part |
| `DialogsLoading.BlockedByItsPage` | Telegram/SourceFiles/apiwrap.cpp:923-933 | while the main list is blocked by date, its last page ended at or before the limit, and none of it is owed |
| `DialogsLoading.Dialogs.RequestDialogs` | Telegram/SourceFiles/apiwrap.cpp:842-847 | a folder gets a load state if it has none, and then what a call for more sends |
| `DialogsLoading.Dialogs.RequestMoreDialogs` | Telegram/SourceFiles/apiwrap.cpp:849-921 | one list request, from the offset of the load and of 20 or 500 dialogs, and, if needed, one pinned request are sent; nothing happens without a state, with a request owed or while blocked |
| `DialogsLoading.Dialogs.SendList` | Telegram/SourceFiles/apiwrap.cpp:859-921 | the list request sent names the offset of the load, and 20 dialogs at the beginning or 500; the pinned request goes with it where it is needed |
| `DialogsLoading.Dialogs.RequestPinnedDialogs` | Telegram/SourceFiles/apiwrap.cpp:1029-1060 | the pinned part is asked for if it is neither there nor owed, and nothing else changes |
| `DialogsLoading.Dialogs.LoadFinish` | Telegram/SourceFiles/apiwrap.cpp:1010-1027 | a state with both parts goes and is posted as done; no other does |
| `DialogsLoading.Dialogs.ListAnswered` | Telegram/SourceFiles/apiwrap.cpp:874-910 | the state of the answered folder exists; its new value, or its end, is that of the answer; a dated slice is where the next page starts |
| `DialogsLoading.Dialogs.ListFailed` | Telegram/SourceFiles/apiwrap.cpp:911-913 | the unchecked dereference is safe: the state of a failed list request exists |
| `DialogsLoading.Dialogs.PinnedAnswered` | Telegram/SourceFiles/apiwrap.cpp:1035-1059 | either handler records the pinned part, and ends the load if the list was there |
| `DialogsLoading.Dialogs.ListDone` | Telegram/SourceFiles/apiwrap.cpp:874-910 | a list answer posts its folder exactly when it ends the load, whatever is asked for next |
| `DialogsLoading.Dialogs.RequestMoreDialogsIfNeeded` | Telegram/SourceFiles/apiwrap.cpp:935-953 | the main list goes on, or the archive when the main one is done and the archive is needed |
| `DialogsLoading.Dialogs.SetLoadTill` | Telegram/SourceFiles/apiwrap.cpp:1062-1072 | the new limit blocks exactly when no list is owed and the last page ended at or before it |
| `DialogsLoading.Dialogs.Happen` | Telegram/SourceFiles/apiwrap.cpp:842-1072 | each event keeps the invariant and posts one folder at most; a load answered with not-modified stays so and is never posted |
| `DialogsLoading.AnyRun` | Telegram/SourceFiles/apiwrap.cpp:842-1072 | over every run the invariant holds, with each load posted exactly once or still going on; the first list of a load is asked for from nothing and with 20 dialogs, each further one from where the last dated slice answered ended, with 500 |
| `MessageData.CollectMessageIds` | Telegram/SourceFiles/apiwrap.cpp:582-593 | exactly the ids of the entries not sent |
| `MessageData.MarkSent` | Telegram/SourceFiles/apiwrap.cpp:630-635 | the request id goes to exactly the entries not sent, and all sent ones keep theirs |
| `MessageData.TakeAnswered` | Telegram/SourceFiles/apiwrap.cpp:675-691 | exactly the entries of the answered request go, and each of their callbacks is taken once |
| `MessageData.SendKeeps` | Telegram/SourceFiles/apiwrap.cpp:617-636 | sending all unsent entries of a chat under a fresh id keeps: each id is in one owed request of its map |
| `MessageData.AnswerKeeps` | Telegram/SourceFiles/apiwrap.cpp:668-694 | removing the entries of an answered request keeps the same |
| `MessageData.RegisterKeepsCallbacks` | Telegram/SourceFiles/apiwrap.cpp:567-576 | registering a callback keeps: registered is pending plus fired |
| `MessageData.RegisterKeepsBatches` | Telegram/SourceFiles/apiwrap.cpp:567-580 | a new entry keeps the batches once a resolve is queued |
| `MessageData.FiringKeeps` | Telegram/SourceFiles/apiwrap.cpp:675-697 | firing the callbacks of an answered request moves exactly them from pending to fired |
| `MessageData.Messages.RequestMessageData` | Telegram/SourceFiles/apiwrap.cpp:567-580 | the callback joins its entry, and a resolve is queued exactly when the entry is not sent yet |
| `MessageData.Messages.ResolvePlace` | Telegram/SourceFiles/apiwrap.cpp:617-665 | one map is sent for with one request, or dropped when it is an empty channel |
| `MessageData.Messages.ResolveMessageDatas` | Telegram/SourceFiles/apiwrap.cpp:612-666 | after a resolve every entry is in an owed request, and no older request was touched |
| `MessageData.Messages.FinalizeMessageDataRequest` | Telegram/SourceFiles/apiwrap.cpp:668-698 | exactly the callbacks that waited for this answer fire, and the other chats keep their entries |
| `MessageData.OneRequestAMessage` | Telegram/SourceFiles/apiwrap.cpp:612-666 | in every run a message id is in at most one owed request of its chat |
| `MessageData.RegisteredIsPendingPlusFired` | Telegram/SourceFiles/apiwrap.cpp:567-698 | in every run each registered callback is pending or has fired, never both, and fires once |
| `MessageData.PendingWillBeAnswered` | Telegram/SourceFiles/apiwrap.cpp:567-698 | a pending callback has a resolve queued or an owed request that asks for its message |
| `MessageData.Messages.Happen` | Telegram/SourceFiles/apiwrap.cpp:567-698 | no event takes a fired callback back |
| `MessageData.AnyRun` | Telegram/SourceFiles/apiwrap.cpp:567-698 | the invariant holds after every run of calls, resolves, answers and failures |
| `WebPages.Collect` | Telegram/SourceFiles/apiwrap.cpp:2350-2370 | a due page joins the group of its channel or the common list, and its placeholder names that group |
| `WebPages.AddToGroup` | Telegram/SourceFiles/apiwrap.cpp:2352-2364 | a new channel gets the next index, so indices stay dense |
| `WebPages.CollectAll` | Telegram/SourceFiles/apiwrap.cpp:2345-2374 | the loop collects what grouping by channel gives, and the least wait of the others |
| `WebPages.AskedForWhenDue` | Telegram/SourceFiles/apiwrap.cpp:2349-2370 | the message of every due page is among those asked for in its chat |
| `WebPages.AskedForOnlyWhenDue` | Telegram/SourceFiles/apiwrap.cpp:2349-2370 | and each message asked for is of a due page of that chat |
| `WebPages.NonePassedOver` | Telegram/SourceFiles/apiwrap.cpp:2337-2413 | a page shown in a message and not in flight is asked for if its time has come, and else waits with the timer no later |
| `WebPages.GroupsOneMore` | Telegram/SourceFiles/apiwrap.cpp:2351-2365 | adding one page to a channel keeps the groups equal to the grouping of all pages walked |
| `WebPages.ReplacePlaceholders` | Telegram/SourceFiles/apiwrap.cpp:2397-2408 | each placeholder is replaced by the id it stands for, and no other id changes |
| `WebPages.PlaceholdersInBounds` | Telegram/SourceFiles/apiwrap.cpp:2405 | every negative placeholder is -1 or an index inside `reqsByIndex` |
| `WebPages.PageGrouped` | Telegram/SourceFiles/apiwrap.cpp:2337-2408 | a page sent for ends with the id of the request that asks for its message in its chat |
| `WebPages.RequestGrouped` | Telegram/SourceFiles/apiwrap.cpp:2376-2396 | each new request asks for exactly the messages of the due pages of one chat |
| `WebPages.AllPagesGrouped` | Telegram/SourceFiles/apiwrap.cpp:2337-2408 | all pages at once: the due ones are grouped, those in flight or waiting keep their value |
| `WebPages.AllRequestsGrouped` | Telegram/SourceFiles/apiwrap.cpp:2376-2396 | there is one new request a chat with due pages, never an empty one, and older ones are untouched |
| `WebPages.DropAnswered` | Telegram/SourceFiles/apiwrap.cpp:2653-2664 | exactly the pages of this request go, and those still pending are marked failed |
| `WebPages.Resolver.ResolveWebPages` | Telegram/SourceFiles/apiwrap.cpp:2337-2413 | the whole call equals direct grouping, leaves no negative id, sets the timer to the least wait, a day at most, and passes no page over |
| `WebPages.Resolver.RequestWebPageDelayed` | Telegram/SourceFiles/apiwrap.cpp:2314-2323 | a page that is wanted is added once, and the timer becomes the earlier of what it was and the time of the page |
| `WebPages.Resolver.ClearWebPageRequest` | Telegram/SourceFiles/apiwrap.cpp:2325-2330 | the page goes, and the timer with the last one |
| `WebPages.Resolver.GotWebPages` | Telegram/SourceFiles/apiwrap.cpp:2648-2666 | an answer removes its own pages only, and those it left pending are failed |
| `WebPages.Resolver.RequestFails` | Telegram/SourceFiles/apiwrap.cpp:2378-2395 | a failed request changes no page: there is no handler |
| `WebPages.HangsExactlyWhenFailed` | Telegram/SourceFiles/apiwrap.cpp:2378-2395 | a page in flight waits for an owed request if and only if its request did not fail |
| `WebPages.LostStayGrouped` | Telegram/SourceFiles/apiwrap.cpp:2345-2348 | a resolve leaves every page of a failed request waiting for it |
| `WebPages.Resolver.Happen` | Telegram/SourceFiles/apiwrap.cpp:2314-2413 | a page whose request failed keeps waiting for it whatever happens, until it is cleared |
| `WebPages.AnyRun` | Telegram/SourceFiles/apiwrap.cpp:2314-2413 | in every run no negative id survives a call |
| `StickerSave.KnownMembers` | Telegram/SourceFiles/apiwrap.cpp:1652-1686 | the rebuilt order has exactly the ids of the local order that survived removal |
| `StickerSave.OrderedSetsExist` | Telegram/SourceFiles/apiwrap.cpp:1652-1700 | every set of the new order is there after the sweep, and installed |
| `StickerSave.InstalledIsOrdered` | Telegram/SourceFiles/apiwrap.cpp:1639-1700 | a remaining non-archived set of the type is installed if and only if it is in the order |
| `StickerSave.ArchivedWasArchived` | Telegram/SourceFiles/apiwrap.cpp:1658-1680 | a set that ends archived was archived, and in the order only if it was removed too |
| `StickerSave.GoneSetsWereRemovable` | Telegram/SourceFiles/apiwrap.cpp:1557-1700 | what is gone was dropped with the cloud recent set or was plain and removed or unordered |
| `StickerSave.RecentLosesExactlyRemoved` | Telegram/SourceFiles/apiwrap.cpp:1596-1603 | the recent pack loses exactly the stickers of removed sets |
| `StickerSave.SavedIs` | Telegram/SourceFiles/apiwrap.cpp:1557-1700 | what a save makes of each set, flag by flag: whether it is gone, installed, archived, and its date |
| `StickerSave.KnownSplits` | Telegram/SourceFiles/apiwrap.cpp:1652-1686 | the rebuilt order keeps the order of the ids |
| `StickerSave.RecentSplits` | Telegram/SourceFiles/apiwrap.cpp:1596-1603 | and the recent pack that of the stickers |
| `StickerSave.RemoveOneMore` | Telegram/SourceFiles/apiwrap.cpp:1557-1637 | the turns of the removal loop add up to the sets that survive all removals |
| `StickerSave.RecentOneMore` | Telegram/SourceFiles/apiwrap.cpp:1569-1603 | the turns add up to the recent pack without all removed stickers, or to nothing |
| `StickerSave.PhasesMakeSave` | Telegram/SourceFiles/apiwrap.cpp:1557-1700 | removal, clearing, installing and sweeping make up the saved sets |
| `StickerSave.CancelKeeps` | Telegram/SourceFiles/apiwrap.cpp:1481-1486 | after the cancels only requests to clear recent stickers can be owed |
| `StickerSave.SentOneMore` | Telegram/SourceFiles/apiwrap.cpp:1504-1509 | one reorder more of a save that has sent none keeps the protocol |
| `StickerSave.EraseRecent` | Telegram/SourceFiles/apiwrap.cpp:1596-1603 | the erasing loop keeps the other stickers in order |
| `StickerSave.ClearInstalled` | Telegram/SourceFiles/apiwrap.cpp:1639-1650 | the flag goes from exactly the non-archived sets of the type |
| `StickerSave.Sweep` | Telegram/SourceFiles/apiwrap.cpp:1688-1700 | exactly the sets that nothing keeps are erased |
| `StickerSave.CancelAll` | Telegram/SourceFiles/apiwrap.cpp:1481-1483 | exactly the given requests are cancelled |
| `StickerSave.Saver.CancelOlder` | Telegram/SourceFiles/apiwrap.cpp:1481-1486 | a new save cancels the installs, uninstalls, reorder and clears it knows of |
| `StickerSave.Saver.RemoveSet` | Telegram/SourceFiles/apiwrap.cpp:1557-1637 | one removed set: the sets, the recent pack, the order and the one request it sends |
| `StickerSave.UninstallOneMore` | Telegram/SourceFiles/apiwrap.cpp:1593-1620 | the turns of the removal loop add up to the uninstalls of exactly the removed sets that were not archived; for custom stickers, only if removed before a cloud recent set |
| `StickerSave.ClearsOneMore` | Telegram/SourceFiles/apiwrap.cpp:1558-1591 | the turns add up to one kind of clear request for each kind of cloud recent set removed |
| `StickerSave.ClearsAskedAre` | Telegram/SourceFiles/apiwrap.cpp:1569-1591 | the attached stickers are cleared if and only if the set of recent attached ones is removed, the others with the other |
| `StickerSave.UnarchiveOneMore` | Telegram/SourceFiles/apiwrap.cpp:1653-1680 | the turns of the order loop add up to the installs of exactly the archived sets that were not removed |
| `StickerSave.UnarchivedIs` | Telegram/SourceFiles/apiwrap.cpp:1652-1680 | in terms of the sets before the save: the installs are of the archived sets of the order that were not removed and not dropped |
| `StickerSave.Saver.InstallSet` | Telegram/SourceFiles/apiwrap.cpp:1653-1686 | one set of the local order: its flags, date, place in the order and install request |
| `StickerSave.Saver.RemoveSets` | Telegram/SourceFiles/apiwrap.cpp:1557-1637 | an uninstall is sent for exactly the removed sets that were not archived (custom stickers: and not dropped before), a clear for each kind of cloud recent set removed |
| `StickerSave.Saver.InstallSets` | Telegram/SourceFiles/apiwrap.cpp:1652-1686 | an install is sent for exactly the archived sets of the order that were not removed |
| `StickerSave.Saver.ApplySave` | Telegram/SourceFiles/apiwrap.cpp:1557-1700 | sets, recent pack, order and all requests of one save |
| `StickerSave.Saver.SaveOrder` | Telegram/SourceFiles/apiwrap.cpp:1488-1522 | the captured order is sent at most once, and not at all below two sets |
| `StickerSave.Saver.Disenabled` | Telegram/SourceFiles/apiwrap.cpp:1524-1534 | a reorder follows exactly the last answered install or uninstall, with the order of that very save |
| `StickerSave.Saver.SaveStickerSets` | Telegram/SourceFiles/apiwrap.cpp:1465-1739 | the whole call: the saved state, and a reorder at once exactly when nothing was asked |
| `StickerSave.Saver.OtherTypeSaves` | Telegram/SourceFiles/apiwrap.cpp:1485-1486 | a save of another type cancels exactly the two clear requests that are stored, and may send others |
| `StickerSave.Saver.Happen` | Telegram/SourceFiles/apiwrap.cpp:1465-1739 | a reorder is sent only when every install and uninstall of its own save is answered |
| `StickerSave.AnyRun` | Telegram/SourceFiles/apiwrap.cpp:1465-1739 | in every interleaving each reorder has the order of its save, there is one a save at most, and none of a save overtaken while requests of it were owed |
| `Forwarding.RunsAreUnique` | Telegram/SourceFiles/apiwrap.cpp:3521-3636 | a list of items has only one division into maximal runs of one chat |
| `Forwarding.LastRunsAgree` | Telegram/SourceFiles/apiwrap.cpp:3521-3636 | the last runs of two such divisions are the same |
| `Forwarding.ForwardBatches` | Telegram/SourceFiles/apiwrap.cpp:3521-3637 | for every draft and price the batches are the maximal runs and carry the items in order with one random id each; each is charged from what the ones before left; in all min(approved, price times items) if and only if each batch fits an `int` or the converted prices leave nothing of the approval |
| `Forwarding.SendAccumulated` | Telegram/SourceFiles/apiwrap.cpp:3526-3540 | one batch is charged what the approval allows, and the approval goes down by it |
| `Forwarding.DropSavedMusic` | Telegram/SourceFiles/apiwrap.cpp:3432-3440 | saved music leaves the draft, each charged on a copy of the action |
| `Forwarding.WithoutMusicSplits` | Telegram/SourceFiles/apiwrap.cpp:3432-3440 | what is left of a draft keeps its order |
| `Forwarding.WithoutMusicOfOne` | Telegram/SourceFiles/apiwrap.cpp:3432-3440 | an item is left if and only if it is no saved music |
| `Forwarding.SendTexts` | Telegram/SourceFiles/apiwrap.cpp:4011-4130 | the text parts are charged min(approved, price times parts), and the approval stays non-negative |
| `Forwarding.SendMessage` | Telegram/SourceFiles/apiwrap.cpp:4009-4222 | for every message, with or without saved music, the total is min(approved, price times messages) if and only if `MessageIsRight`: the songs decide while each batch fits an `int`, otherwise the batches have to leave exactly what the songs took |
| `Forwarding.TextsThenForwards` | Telegram/SourceFiles/apiwrap.cpp:4123-4130 | charging forwards after texts is charging all at once |
| `Forwarding.ChargeIsExact` | Telegram/SourceFiles/apiwrap.cpp:3533-3535 | the `int` conversion of the product is harmless if and only if it fits or exceeds the approval after wrapping |
| `Forwarding.ToIntWraps` | Telegram/SourceFiles/apiwrap.cpp:3533-3535 | the conversion gives the `int` that differs by whole multiples of 2^32 |
| `Forwarding.ChargeCanBeNegative` | Telegram/SourceFiles/apiwrap.cpp:3533-3538 | a product that does not fit can make the charge negative |
| `Forwarding.ExactBatchesAddUp` | Telegram/SourceFiles/apiwrap.cpp:3533-3538 | batches each charged right add up to min(approved, price times items) |
| `Forwarding.ApprovalStays` | Telegram/SourceFiles/apiwrap.cpp:3533-3538 | whatever the price, what is left of the approval is never negative |
| `Forwarding.LeftIsAtMost` | Telegram/SourceFiles/apiwrap.cpp:3533-3538 | what charging in turn leaves is decided by the sizes of the batches, the price and the approval: at most x if and only if the converted prices of any last batches and x are not below zero together, and those of all and x reach the approval |
| `Forwarding.UnfitIsLarge` | Telegram/SourceFiles/apiwrap.cpp:3533-3535 | one batch that does not fit an `int` makes the whole price larger than any approval |
| `Forwarding.TotalIsRightIff` | Telegram/SourceFiles/apiwrap.cpp:3533-3538 | the total of all batches is min(approved, price times items) if and only if each batch fits an `int` or the converted prices leave nothing of the approval |
| `Forwarding.PairChargesLess` | Telegram/SourceFiles/apiwrap.cpp:3533-3538 | an input where it goes wrong: two items of one chat at the largest price, with 10 approved, charge -2 |
| `Forwarding.PairThenOneIsRight` | Telegram/SourceFiles/apiwrap.cpp:3533-3538 | and one where it does not, though a batch does not fit: the same two, then an item of another chat, charge 10 |
| `Forwarding.MessageTotal` | Telegram/SourceFiles/apiwrap.cpp:4009-4222 | texts, songs and batches of a message come to min(approved, price times messages) if and only if `MessageIsRight` |
| `Forwarding.MusicOvercharges` | Telegram/SourceFiles/apiwrap.cpp:3432-3440 | songs charged on copies keep the total of one forward right if and only if the approval covers everything, or it is a single song, or nothing is charged |
| `Forwarding.MessageTotalIsRightIff` | Telegram/SourceFiles/apiwrap.cpp:4009-4222 | the same for a whole message, where the songs are charged on copies of what the texts left |
| `Forwarding.TwoSongsTakeTooMuch` | Telegram/SourceFiles/apiwrap.cpp:3432-3440 | an input where it goes wrong: two songs at 5 with 5 approved take 10 |
| `Forwarding.SharedCallback.constructor` | Telegram/SourceFiles/apiwrap.cpp:3448-3457 | an answer is awaited from each batch that was sent |
| `Forwarding.SharedCallback.Done` | Telegram/SourceFiles/apiwrap.cpp:3562-3570 | the callback runs with the last success, if none failed |
| `Forwarding.SharedCallback.Fail` | Telegram/SourceFiles/apiwrap.cpp:3578-3586 | after a failure it never runs |
| `Forwarding.AnyAnswers` | Telegram/SourceFiles/apiwrap.cpp:3562-3586 | for any order of answers the success callback runs exactly once when every batch was answered with success, and never while one was not |
| `Forwarding.ForwardMessages` | Telegram/SourceFiles/apiwrap.cpp:3425-3637 | a forward with a callback: it runs at once for a draft that is all saved music, and otherwise once if every batch of the draft succeeds and never if one does not |
| `Albums.FindItem` | Telegram/SourceFiles/storage/localimageloader.cpp:380 | the first item of the message |
| `Albums.CheckReady` | Telegram/SourceFiles/apiwrap.cpp:4702-4716 | ready means every item has media; a sample is found if any message is loaded |
| `Albums.EraseCancels` | Telegram/SourceFiles/storage/localimageloader.cpp:400-405 | erasing an item leaves the original items without the cancelled ones, in order |
| `Albums.FilledIs` | Telegram/SourceFiles/storage/localimageloader.cpp:376-385 | filling changes the matching item only |
| `Albums.RemovedIs` | Telegram/SourceFiles/storage/localimageloader.cpp:400-405 | removing takes the matching item only |
| `Albums.WaitingIsThere` | Telegram/SourceFiles/apiwrap.cpp:4668-4671 | an item neither cancelled nor uploaded has its album there, unsent, with a place for its media: the first assertion holds |
| `Albums.UncancelledIsThere` | Telegram/SourceFiles/apiwrap.cpp:4688-4689 | an item not cancelled is in its album as long as that is there |
| `Albums.FillKeeps` | Telegram/SourceFiles/storage/localimageloader.cpp:376-385 | filling an item keeps: the uploaded ones have their media, and the rest is what remained |
| `Albums.RemoveKeeps` | Telegram/SourceFiles/storage/localimageloader.cpp:400-405 | removing an item keeps the same |
| `Albums.ReadyIsDone` | Telegram/SourceFiles/apiwrap.cpp:4705-4712 | an album where every item has media has nothing left to upload |
| `Albums.LogGrows` | Telegram/SourceFiles/apiwrap.cpp:4693-4785 | one sending more, of an album not sent yet, keeps all that is promised of the log |
| `Albums.SendingSettles` | Telegram/SourceFiles/apiwrap.cpp:4693-4785 | a ready album is sent or dropped, and dropped only when no remaining message is loaded |
| `Albums.ChangeUnsettles` | Telegram/SourceFiles/apiwrap.cpp:4660-4691 | an upload or a cancellation changes nothing of what was sent, dropped or answered |
| `Albums.Sender.Start` | Telegram/SourceFiles/apiwrap.cpp:3875-3881 | a new album of all its messages, none with media |
| `Albums.Sender.SendAlbumIfReady` | Telegram/SourceFiles/apiwrap.cpp:4693-4785 | sent exactly when all remaining items have media and one message is loaded; dropped unsent when nothing is left |
| `Albums.Sender.Uploaded` | Telegram/SourceFiles/apiwrap.cpp:4660-4673 | the assertions of the source hold; an upload fills its item and may send the album |
| `Albums.Sender.Cancelled` | Telegram/SourceFiles/apiwrap.cpp:4675-4691 | a cancellation removes its item, may send or drop the album, and is ignored for an album that is gone |
| `Albums.Sender.Answered` | Telegram/SourceFiles/apiwrap.cpp:4644-4657 | an answered album is gone, but a paid one that failed stays |
| `Albums.UnsentAlbumsWait` | Telegram/SourceFiles/apiwrap.cpp:4693-4785 | in every run an unsent album has an item without media and was never sent |
| `Albums.NoneIsLost` | Telegram/SourceFiles/apiwrap.cpp:4660-4785 | in every run each album waits for an upload, or was sent, or was dropped when no message that remained was loaded |
| `Albums.SentIsKept` | Telegram/SourceFiles/apiwrap.cpp:4725-4785 | one that was sent is kept until its answer, but for a single item without a price |
| `Albums.SentIsWhatRemained` | Telegram/SourceFiles/apiwrap.cpp:4693-4785 | what was sent is exactly what was not cancelled by then |
| `Albums.AnyRun` | Telegram/SourceFiles/apiwrap.cpp:4660-4785 | in every interleaving each album is sent once at most, complete, as the remaining items in their order |
| `InviteLinks.BringPermanentToFront` | Telegram/SourceFiles/api/api_invite_links.cpp:28-36 | the first live permanent link comes first, and the others keep their order |
| `InviteLinks.RemovePermanent` | Telegram/SourceFiles/api/api_invite_links.cpp:38-43 | no live permanent link is left, and the others keep their order |
| `InviteLinks.ParseSlice` | Telegram/SourceFiles/api/api_invite_links.cpp:721-741 | the link that is already first is left out |
| `InviteLinks.Reload` | Telegram/SourceFiles/api/api_invite_links.cpp:426-451 | the new list of an answer, with and without a link already first |
| `InviteLinks.RemovalsSplit` | Telegram/SourceFiles/api/api_invite_links.cpp:38-43 | removing links keeps the order of the others |
| `InviteLinks.RemovalsOfOne` | Telegram/SourceFiles/api/api_invite_links.cpp:38-43 | a link is removed if and only if it is permanent and not revoked, or has the url |
| `InviteLinks.BroughtIs` | Telegram/SourceFiles/api/api_invite_links.cpp:28-36 | bringing a link to the front takes the first live one, and moves no other |
| `InviteLinks.PrependedIs` | Telegram/SourceFiles/api/api_invite_links.cpp:162-205 | a new link joins the others, after the live permanent one or in its stead |
| `InviteLinks.ReloadedIs` | Telegram/SourceFiles/api/api_invite_links.cpp:438-448 | a reload keeps the live permanent link first and takes all of the answer but live permanent links and that url |
| `InviteLinks.WithPermanentIs` | Telegram/SourceFiles/api/api_invite_links.cpp:633-665 | a permanent link comes first, in the stead of the old one; the same one only gets its usage |
| `InviteLinks.EditedKeepsOthers` | Telegram/SourceFiles/api/api_invite_links.cpp:288-304 | an edit answer leaves the links of other urls, in their order |
| `InviteLinks.EditedIs` | Telegram/SourceFiles/api/api_invite_links.cpp:295-302 | the link of its url is replaced, or erased when the answer revokes it |
| `InviteLinks.WithMoreIs` | Telegram/SourceFiles/api/api_invite_links.cpp:76-90 | callbacks that wait stay, and new ones come after those of their key |
| `InviteLinks.PrependKeeps` | Telegram/SourceFiles/api/api_invite_links.cpp:162-205 | prepending any link keeps: the live permanent link is first, unique, and the one stored on the peer |
| `InviteLinks.SetPermanentKeeps` | Telegram/SourceFiles/api/api_invite_links.cpp:633-665 | so does setting the permanent link |
| `InviteLinks.ClearPermanentKeeps` | Telegram/SourceFiles/api/api_invite_links.cpp:678-707 | so does clearing it, and none is left |
| `InviteLinks.BroughtHolds` | Telegram/SourceFiles/api/api_invite_links.cpp:28-36 | after bringing one to the front no other is live if and only if the server listed one at most |
| `InviteLinks.ReloadKeeps` | Telegram/SourceFiles/api/api_invite_links.cpp:426-451 | a reload keeps the invariant if and only if a permanent link was first already or the server lists one at most |
| `InviteLinks.EditKeeps` | Telegram/SourceFiles/api/api_invite_links.cpp:288-304 | an edit answer keeps it if and only if a live permanent answer is for the first link and names the stored one |
| `InviteLinks.ExternalUpdateKeeps` | Telegram/SourceFiles/api/api_invite_links.cpp:522-531 | an external update keeps it if and only if a live permanent update names no link but the first, stored one |
| `InviteLinks.FaithfulEditKeeps` | Telegram/SourceFiles/api/api_invite_links.cpp:288-304 | an edit that renames nothing and makes no other link permanent keeps it |
| `InviteLinks.InviteLinks.PrependMyToFirstSlice` | Telegram/SourceFiles/api/api_invite_links.cpp:162-205 | the list and the stored link after a prepend |
| `InviteLinks.InviteLinks.PerformCreate` | Telegram/SourceFiles/api/api_invite_links.cpp:76-122 | callbacks of one peer share one request |
| `InviteLinks.InviteLinks.Created` | Telegram/SourceFiles/api/api_invite_links.cpp:111-118 | the new link is prepended and the callbacks run, or nothing but the request goes |
| `InviteLinks.InviteLinks.PerformEdit` | Telegram/SourceFiles/api/api_invite_links.cpp:237-323 | edits of one link share one request, and none starts while it is deleted |
| `InviteLinks.InviteLinks.EditAnswered` | Telegram/SourceFiles/api/api_invite_links.cpp:279-319 | whatever the server answers, the callback entry is there to be dereferenced; the list, the stored link and the callbacks run follow the answer; a faithful one keeps the list |
| `InviteLinks.InviteLinks.EditFailed` | Telegram/SourceFiles/api/api_invite_links.cpp:320-322 | a failure forgets the callbacks |
| `InviteLinks.InviteLinks.Destroy` | Telegram/SourceFiles/api/api_invite_links.cpp:348-385 | deletions of one link share one request |
| `InviteLinks.InviteLinks.Destroyed` | Telegram/SourceFiles/api/api_invite_links.cpp:370-384 | the callbacks run on success and are forgotten either way |
| `InviteLinks.InviteLinks.RequestMyLinks` | Telegram/SourceFiles/api/api_invite_links.cpp:415-456 | one request a peer at a time |
| `InviteLinks.InviteLinks.MyLinksReceived` | Telegram/SourceFiles/api/api_invite_links.cpp:426-451 | the list becomes the reload, and a link brought first is stored on the peer; the list can be asked for again; it holds if one was first or the server lists one at most |
| `InviteLinks.InviteLinks.StoreMyLinks` | Telegram/SourceFiles/api/api_invite_links.cpp:428-451 | the list and the stored link after an answer |
| `InviteLinks.InviteLinks.MyLinksFailed` | Telegram/SourceFiles/api/api_invite_links.cpp:452-454 | after a failure the list can be asked for again |
| `InviteLinks.InviteLinks.WaitedIsOwedOnce` | Telegram/SourceFiles/api/api_invite_links.cpp:76-456 | a creation, an edit, a deletion or a list is waited for if and only if exactly one request for it is owed |
| `InviteLinks.InviteLinks.Processed` | Telegram/SourceFiles/api/api_invite_links.cpp:476-507 | an approval without a known link prunes the list of the peer |
| `InviteLinks.InviteLinks.ApplyExternalUpdate` | Telegram/SourceFiles/api/api_invite_links.cpp:522-531 | every listed link of that url is replaced; a faithful update keeps the list |
| `InviteLinks.InviteLinks.SetMyPermanent` | Telegram/SourceFiles/api/api_invite_links.cpp:620-676 | only a permanent link is set: the same one gets its usage, another one replaces the first |
| `InviteLinks.InviteLinks.ClearMyPermanent` | Telegram/SourceFiles/api/api_invite_links.cpp:678-707 | the first link goes if it is live and permanent, and nothing else |
| `InviteLinks.InviteLinks.Answered` | Telegram/SourceFiles/api/api_invite_links.cpp:111-514 | any answer at all keeps the protocol, and a faithful one the cache |
| `InviteLinks.InviteLinks.Happen` | Telegram/SourceFiles/api/api_invite_links.cpp:69-707 | each event keeps the protocol; the cache holds as long as every answer and update was faithful |
| `InviteLinks.AnyRun` | Telegram/SourceFiles/api/api_invite_links.cpp:69-707 | after every run, whatever the server did, each creation, edit, deletion or list that is waited for has exactly one request owed, and each owed one is waited for; if the server was faithful, each list has its live permanent link first, alone and as stored |
| `MergedSearch.FullExactlyAtTheEnd` | Telegram/SourceFiles/api/api_messages_search_merged.cpp:31-36 | the list of the chat is as long as its total exactly when all its pages have come |
| `MergedSearch.FirstMainKeeps` | Telegram/SourceFiles/api/api_messages_search_merged.cpp:45-48 | the first page of the chat, before or after that of the other one, keeps the invariant |
| `MergedSearch.NextMainKeeps` | Telegram/SourceFiles/api/api_messages_search_merged.cpp:40-43 | so does a further page, and the last one brings what the other chat gave |
| `MergedSearch.FirstMigratedKeeps` | Telegram/SourceFiles/api/api_messages_search_merged.cpp:54-62 | so does the first page of the other chat |
| `MergedSearch.NextMigratedKeeps` | Telegram/SourceFiles/api/api_messages_search_merged.cpp:54-62 | so does a further one |
| `MergedSearch.MoreKeeps` | Telegram/SourceFiles/api/api_messages_search_merged.cpp:99-105 | so does scrolling on, which never asks for a page past the end |
| `MergedSearch.RunKeeps` | Telegram/SourceFiles/api/api_messages_search_merged.cpp:38-105 | for every interleaving of pages, failures and scrolling: the list is what came, the chat first, the total is the sum, and each event fired as often as it should |
| `MergedSearch.SearchIsRightIff` | Telegram/SourceFiles/api/api_messages_search_merged.cpp:85-97 | a search on cleared fields goes right in all interleavings and for all answers if and only if no flag of an earlier search was left |
| `MergedSearch.StaleFullMixesPages` | Telegram/SourceFiles/api/api_messages_search_merged.cpp:85-88 | `clear` keeps the full flag: a run where a message of the other chat comes before the second page |
| `MergedSearch.StaleWaitHidesResults` | Telegram/SourceFiles/api/api_messages_search_merged.cpp:67-69 | a search left waiting by `disableMigrated`: the results of the next one are never announced |
| `MergedSearch.CompleteIsWhole` | Telegram/SourceFiles/api/api_messages_search_merged.cpp:71-83 | a list as long as the total is all of the chat, then all of the other one |
| `MergedSearch.HangsExactlyWhen` | Telegram/SourceFiles/api/api_messages_search.cpp:75-147 | a search is stuck if and only if the first page of the other chat failed, with an error other than SEARCH_QUERY_EMPTY, and the chat itself is done |
| `MergedSearch.MoreBringsMore` | Telegram/SourceFiles/api/api_messages_search_merged.cpp:99-105 | while the list is short, scrolling asks for a page that makes it longer |
| `MergedSearch.MessagesSearchMerged.AddFound` | Telegram/SourceFiles/api/api_messages_search_merged.cpp:71-75 | the messages are appended in order |
| `MergedSearch.MessagesSearchMerged.CheckFull` | Telegram/SourceFiles/api/api_messages_search_merged.cpp:31-36 | the full flag and the held page of the other chat |
| `MergedSearch.MessagesSearchMerged.CheckWaitingForTotal` | Telegram/SourceFiles/api/api_messages_search_merged.cpp:19-29 | the totals are added once, when both are known |
| `MergedSearch.MessagesSearchMerged.MainFound` | Telegram/SourceFiles/api/api_messages_search_merged.cpp:38-49 | the handler of the stream of the chat |
| `MergedSearch.MessagesSearchMerged.MigratedFound` | Telegram/SourceFiles/api/api_messages_search_merged.cpp:51-64 | the handler of the stream of the other chat |
| `MergedSearch.MessagesSearchMerged.Clear` | Telegram/SourceFiles/api/api_messages_search_merged.cpp:85-88 | both results are forgotten, no flag is |
| `MergedSearch.MessagesSearchMerged.DisableMigrated` | Telegram/SourceFiles/api/api_messages_search_merged.cpp:67-69 | the search of the other chat is dropped, and no flag is reset |
| `MergedSearch.MessagesSearchMerged.Search` | Telegram/SourceFiles/api/api_messages_search_merged.cpp:90-97 | both streams start |
| `MergedSearch.MessagesSearchMerged.SearchMore` | Telegram/SourceFiles/api/api_messages_search_merged.cpp:99-105 | the other chat is asked once the first is full |
| `MergedSearch.MessagesSearchMerged.Happen` | Telegram/SourceFiles/api/api_messages_search_merged.cpp:38-105 | the object does what the step function says |
| `MergedSearch.MessagesSearchMerged.AnyRun` | Telegram/SourceFiles/api/api_messages_search_merged.cpp:38-105 | a search of the object, started clean, keeps the invariant, and a complete one has everything in order |
| `UpdatePlan.Scan` | Telegram/SourceFiles/_other/updater_linux.cpp:254-288 | one directory: its files join the plan, its directories wait, and the updater in it stops the walk |
| `UpdatePlan.UpdaterFound` | Telegram/SourceFiles/_other/updater_win.cpp:203-206 | the updater in a directory read is the updater in the tree |
| `UpdatePlan.TurnCovers` | Telegram/SourceFiles/_other/updater_linux.cpp:237-290 | planned and waiting files, and forced and waiting directories, add up to those of the tree; the work left goes down |
| `UpdatePlan.TurnKnows` | Telegram/SourceFiles/_other/updater_win.cpp:168-229 | every waiting directory has its parent among those already forced |
| `UpdatePlan.Walk` | Telegram/SourceFiles/_other/updater_win.cpp:163-229 | the walk ends for every tree; it gets through if and only if every directory outside the top `tdata` reads and the updater is in none; then the plan has each file of the tree once, and the directories stand after their parents; else the stage says what stopped it |
| `UpdatePlan.WaitingIsThere` | Telegram/SourceFiles/_other/updater_linux.cpp:237-252 | a directory that waits is one of the tree, so one that does not read is one of the tree |
| `UpdatePlan.AllWereRead` | Telegram/SourceFiles/_other/updater_linux.cpp:237-290 | when nothing waits any more, every directory outside the top `tdata` was read |
| `UpdatePlan.EqualIs` | Telegram/SourceFiles/_other/updater_linux.cpp:197-201 | names are compared letter by letter, but for the case of ASCII letters |
| `UpdatePlan.WhereUpdatesAre` | Telegram/SourceFiles/_other/updater_linux.cpp:219-230 | the folders of the two layouts, the ready file and the name of the binary |
| `UpdatePlan.TopTdata` | Telegram/SourceFiles/_other/updater_linux.cpp:260 | the prefix test skips exactly the top entry `tdata` |
| `UpdatePlan.VisitedExactly` | Telegram/SourceFiles/_other/updater_win.cpp:194 | nothing outside that entry is skipped, however deep and however named |
| `UpdatePlan.ReadyExactly` | Telegram/SourceFiles/_other/updater_win.cpp:212 | the ready file is skipped only at the top of the new layout, in any letter case on Windows |
| `UpdatePlan.TargetExactly` | Telegram/SourceFiles/_other/updater_linux.cpp:267-276 | a file goes to the target root plus its relative path, and only the binary at the top is renamed |
| `UpdatePlan.FilesAre` | Telegram/SourceFiles/_other/updater_linux.cpp:254-288 | a file is in the recursive plan if and only if names lead to it past no skipped entry |
| `UpdatePlan.PlanIs` | Telegram/SourceFiles/_other/updater_win.cpp:192-219 | the plan is exactly the files outside the top `tdata` but for the ready file, each with its target |
| `UpdatePlan.DirsAreExactly` | Telegram/SourceFiles/_other/updater_win.cpp:173-175 | the forced directories are exactly those outside the top `tdata` |
| `UpdatePlan.UpdaterInExactly` | Telegram/SourceFiles/_other/updater_linux.cpp:268-271 | the walk stops if and only if some file outside `tdata` would land on the updater itself |
| `UpdatePlan.FilesOnce` | Telegram/SourceFiles/_other/updater_win.cpp:215-216 | no file is planned twice |
| `UpdatePlan.TwoTargets` | Telegram/SourceFiles/_other/updater_linux.cpp:272-276 | exactly when one planned file lands on or below the place of another; on Windows letter case makes no difference |
| `UpdatePlan.TargetsApartIff` | Telegram/SourceFiles/_other/updater_win.cpp:207-211 | no copy gets in the way of another, as the file system tells names apart, if and only if nothing else in the update claims the name the binary gets |
| `UpdatePlan.PlanIsApart` | Telegram/SourceFiles/_other/updater_win.cpp:207-216 | then the copies of a whole plan keep out of the way of each other |
| `UpdatePlan.FreeIsHarmless` | Telegram/SourceFiles/_other/updater_win.cpp:207-211 | an update where nothing else claims the name of the binary is harmless |
| `UpdatePlan.HarmlessAgrees` | Telegram/SourceFiles/_other/updater_win.cpp:207-216 | in a harmless update, copies that meet have one place and one content |
| `UpdateInstall.AllPlacedIs` | Telegram/SourceFiles/_other/updater_linux.cpp:302-341 | copies that agree wherever they meet all arrive, and change nothing else |
| `UpdateInstall.PlacedIsInstalled` | Telegram/SourceFiles/_other/updater_linux.cpp:302-341 | so every file of a harmless update is in its place and every other file is as before |
| `UpdateInstall.OnePlaceHoldsOne` | Telegram/SourceFiles/_other/updater_win.cpp:207-211 | an update with two different files for one place is never installed |
| `UpdateInstall.HarmfulIsNotInstalled` | Telegram/SourceFiles/_other/updater_linux.cpp:272-276 | nor is an update where the binary gets the name of a file with another content, or of a directory with files in it |
| `UpdateInstall.InstalledIff` | Telegram/SourceFiles/_other/updater_linux.cpp:302-341 | a plan copied to the end is the update installed if and only if files that get in the way of each other have one place and one content |
| `UpdateInstall.ClashIsNotInstalled` | Telegram/SourceFiles/_other/updater_win.cpp:207-211 | so it is with the binary and any other file that claims its name |
| `UpdateInstall.ClashOnWindows` | Telegram/SourceFiles/_other/updater_win.cpp:207-211 | a tree where it goes wrong: `Telegram.exe`, installed as `tg.exe`, and `TG.exe` |
| `UpdateInstall.ClashOnLinux` | Telegram/SourceFiles/_other/updater_linux.cpp:272-276 | a tree where it goes wrong: `Telegram` and `telegram` |
| `UpdateInstall.AllThereIff` | Telegram/SourceFiles/_other/updater_win.cpp:231-244 | success means that every directory is there if and only if no file had the name of one |
| `UpdateInstall.UnderHasParent` | Telegram/SourceFiles/_other/updater_win.cpp:231-244 | the parent of a directory is made before it, unless a file has the name of a directory |
| `UpdateInstall.CanPlaceStill` | Telegram/SourceFiles/_other/updater_linux.cpp:302-341 | a file copied elsewhere, neither above nor below, leaves the place of another free |
| `UpdateInstall.InstallableCopies` | Telegram/SourceFiles/_other/updater_linux.cpp:302-341 | when every file of the update can be written as the disk was, each can when its turn comes |
| `UpdateInstall.DirsWorkIff` | Telegram/SourceFiles/_other/updater_linux.cpp:292-300 | the directories of the tree can be made if and only if those of the list can |
| `UpdateInstall.BinaryIsInstallable` | Telegram/SourceFiles/_other/updater_linux.cpp:302-341 | an update that can be installed: a new binary over the old one, with every call succeeding |
| `UpdateInstall.Install.MkPath` | Telegram/SourceFiles/_other/updater_linux.cpp:175-195 | every level of the path is made; it fails if and only if a level is missing and a file has its name or the system refuses |
| `UpdateInstall.Install.ForceDirs` | Telegram/SourceFiles/_other/updater_win.cpp:231-244 | no file is touched; it succeeds when every directory can be made, on Linux only then; on success all directories are there if and only if no file had the name of one, which happens on Windows only; a parent is missing only because of such a file |
| `UpdateInstall.Install.CopyTries` | Telegram/SourceFiles/_other/updater_linux.cpp:326-335 | it succeeds if and only if the place can be written and one of the tries works; then the content is there; a failure leaves anything, but only in that place |
| `UpdateInstall.Install.CopyOnLinux` | Telegram/SourceFiles/_other/updater_linux.cpp:305-340 | it succeeds if and only if what is in the way can be removed, the place can be written and one of the first 30 tries works; what is in the way goes first, and only it |
| `UpdateInstall.Install.CopyOnWindows` | Telegram/SourceFiles/_other/updater_win.cpp:246-270 | it succeeds if and only if the place can be written and one of the 100 tries works, or of 100 more each time the user asks |
| `UpdateInstall.Install.CopyAll` | Telegram/SourceFiles/_other/updater_win.cpp:246-271 | all files in order; it succeeds if and only if each copy works when its turn comes; on failure those before are copied and those after untouched |
| `UpdateInstall.Install.Update` | Telegram/SourceFiles/_other/updater_linux.cpp:216-346 | an update that can be installed is: when its directories read and can be made, the updater is not in it and each place can be cleared and written, it ends in success; how far any other gets is said exactly; no file is created, overwritten or removed unless the whole tree was walked without the updater and all directories were forced; a finished update is installed if and only if it is harmless |

## Left out

- Sha1.HashSha1: requires fewer than 2^32 - 64 bytes, because from there on `block + 64` wraps and the loop does not end.
- Sha1: RSA, LZMA, file formats and the command line of the packer.
- TraceReader.Reader.PrintState: prints the time as a number and the amounts without digit grouping; the usage and open errors of `main` are left out, and counters are unbounded.
- ResultHash: the overloads of `HashUpdate` for signed and 32-bit values, which only convert, and the exported wrappers, which only pass an order or a set id.
- DialogsLoading.Dialogs.Happen: applying dialogs, users, chats and pinned order to the session, and the contacts and shortcuts asked for afterwards, are left out; the exceptions of chat filters are a parameter.
- MessageData.Messages.FinalizeMessageDataRequest: a callback that requests more data is a later event of the run.
- WebPages.Resolver.ResolveWebPages: the timer counts seconds; the scaling to milliseconds and the one added to it are left out.
- WebPages: `clearWebPageRequests`, and what an answer changes in the pages, which is a parameter.
- StickerSave.Saver.OtherTypeSaves: one object is one type of sets; a save of another type may change the sets and the recent pack in any way.
- StickerSave: writing to local storage, and the refresh after a failed reorder; a set is stored under its own id.
- Forwarding.SendAccumulated: the approval is unbounded; after a negative charge, which a product that does not fit can give, the addition could overflow an `int`.
- Forwarding: flags, topics and local messages of a forward; how texts are cut into parts (the number of parts is a parameter); errors found before sending.
- Albums: the caption that moves to the next item, the uploads themselves, and what is charged for an album.
- InviteLinks.InviteLinks.Processed: the first pages of joined users, the participant counts and the callbacks of a join request are not modelled.
- InviteLinks: `count`, which `setMyPermanent` does not raise; the updates stream; dropping doubled join requests; further slices; `destroyAllRevoked`.
- MergedSearch.MessagesSearchMerged.Search: the first-page cache of the streams, and a late reply to an earlier search, which is taken as dropped.
- MergedSearch: an empty page resets the offset of its stream; no further page is asked for after one under the assumptions.
- UpdateInstall.Install.CopyOnWindows: the user asks for more tries any number of times, but not forever, which has no end to state anything about.
- UpdateInstall: version and registry values, the log, restarting the program, file owners and permissions, and clearing the update folder, of which only the fact is kept.
- UpdatePlan.Walk: the order in which a directory lists its entries is the order of the tree; the entries `.` and `..` are not in it; a listing that breaks off on Windows counts as a directory that does not read.
- Cloud password, credits, peer colours, privacy, authorizations and other calls of `ApiWrap` that send one request and set one field.
- Widgets, windows, logs, settings, scripts and vendored libraries.
