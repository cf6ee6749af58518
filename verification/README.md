# Verified models of a replicated store, a lock, a wire codec and their tools

This project models the parts of the repository whose correctness is not visible from any one function, and
proves what they promise:

- **Roshi's last-writer-wins store** (`SortedSets`, `LwwStore`, `CappedStore`, `RangeRead`, `Cursors`, `Paging`,
  `FarmMerge`, `Repair`): the insert and delete script and exactly when it converges, with and without a cap that
  binds, the range reader with its retries, cursors and paging, the merge of several clusters' answers, and the
  repair pass.
- **The lingering read** (`Linger`): goroutines, a shared channel, a WaitGroup and a timer, as a step machine.
- **hiredis** (`Resp`, `RespReader`, `ReplyFormat`, `CommandFormat`, `Sds`, `SdsArgs`, `SdsForms`, `Dict`): the
  incremental reply reader against a plain recursive parser, and both against the reply format, the command
  formatter, string quoting and splitting, and the hash table.
- **Redlock** (`Redlock`, `RedlockClient`): clients, servers with clocks of their own, connections that break
  and commands that arrive late, as a step machine; and the client class whose loops take its steps.
- **The protocol buffer codec** (`Wire`, `Messages`, `WireFormat`, `MessageRoundTrip`, `MessageDecoding`,
  `WireEncoder`, `WireDecoder`): encoding, sizes and decoding under an explicit schema, the bytes themselves, and
  the buffers that do it in place.
- **The connection pool** (`ConnectionPool`), **the turn-taking replay** of operation files and its counter
  (`Replay`), and **the exhaustive interleaving generator** (`Dfs`).

A stateful component is a class with the program's fields and loops, proved against a function, a parser or a
step machine; where goroutines or processes interleave, the step machine is the model. The main results are
lemmas about these, for all inputs, runs or schedules. Where encoder and decoder, or two loops, share a definition,
a lemma of its own says in literal numbers what the definition is: `ReplyFormat`, `WireFormat` and `SdsForms` do so
for the formats.

## Conventions

- A byte is 0 to 255, a byte string a sequence of bytes. A score is an integer: the position of a double that is
  not NaN in the order of the doubles, with zero at 0. Where only the order counts nothing more is needed;
  `Cursors` fixes the bits.
- The scripts run on a server as one atomic step each. What a program leaves to chance (which waiter a signal
  wakes, which key a map yields first, whether a command or its reply is lost, how far a clock runs) is left
  open in the step machines, so that the results hold however it turns out.
- Runs in which clients of Redlock hold live claims exist: `ValidityIsNotExclusive` constructs one, and
  `RedlockClient` shows the calls taking the machine's steps. The lingering read's result holds in both
  directions, so it too speaks of schedules that do end and of schedules that do not.
- Arithmetic that wraps or truncates is written out where the program relies on it: 64-bit words, the lengths
  that are negative as an `int`, the tenth byte of a varint. Shifts and masks are written as the multiplications
  and divisions they are; the xor in zigzag coding is with all ones or all zeros, hence a complement.
- In the message model a field that is not repeated holds a list of at most one value, a number is the unsigned
  word stored in the struct, and types refer to each other by index, so that they may be recursive.

## Where the code does less than it appears to

- An insert and a delete of one member at the same score are decided by arrival order (`ConvergesIffNoTopTie`,
  `TieExample`). With a cap that binds a mixed history can depend on its order without any tie (`CapExample`);
  `ConvergesIffOrderFree` says, for every cap, exactly which sets of operations do not depend on it.
- The repair's "inserted" flag is sticky: it can turn the newest delete into an insert. Repairs converge all the
  same; `StickyIff` says exactly when they disagree with last-writer-wins. The walk starts its maximum at zero,
  so key-members known only at negative scores are not repaired (`ConvergesIff`). A full cluster rejects or evicts
  what is written below its top (`TakesEffectIff`), and a member lost that way can come back at a lower score
  (`LostThenLower`).
- A range read can fail although the answer exists; `PipelineRangeByScore` gives the exact condition, and
  `ReadPages` that for reading page by page: a page must not start deep inside a group of equal scores.
- An offset read with limit 0 at offset 0 reads everything (`OffsetReadExact`).
- Redlock reads its clock in whole seconds. The claim is good until `startTime + ttl - drift`; the reported
  validity, counted from the return, runs up to a second past it, and another client can then hold the resource
  (`ValidityOverrun`, `ValidityIsNotExclusive`). Counted from the start of the second of the return it is exclusive
  (`ValidFromTheSecond`). With an empty server list every call succeeds
  (`ExclusionNeedsServers`).
- A lingering read that asked one cluster, with no timer, never returns unless that cluster answers every key
  (`EndsCleanlyIff`).
- The decoder's count of required fields is imprecise above tag 64, as its comment says; `RequiredSoundIff`
  gives exactly the types, of any schema, for which success still means that all of them were set.
- The interleaving generator compares prefixes by their text, so an event with a comma in it can make it lose an
  order (`CommaLoses`).

## Model

| member | source | states |
|---|---|---|
| LwwStore.KeyStore.Script | RDL-Libraries/roshi/cluster/cluster.go:80-108 | The script on the two sorted sets is one atomic step to the state `Apply` gives, whichever of its exits it takes. |
| LwwStore.KeyStore.Insert | RDL-Libraries/roshi/cluster/cluster.go:110-119 | An insert is the script with "+" to add to and "-" to remove from. |
| LwwStore.KeyStore.Delete | RDL-Libraries/roshi/cluster/cluster.go:110-119 | A delete is the script with the two sets exchanged. |
| LwwStore.AlwaysDisjoint | RDL-Libraries/roshi/cluster/cluster.go:93-104 | In every reachable state no member is in both sets, whatever the history and the cap. |
| LwwStore.ScoreReadNeverBad | RDL-Libraries/roshi/cluster/cluster.go:675-721 | A score read of a reachable state never finds a member in both sets. |
| LwwStore.ScoreReadTells | RDL-Libraries/roshi/cluster/cluster.go:695-713 | Over every history, while the cap leaves room: the score read of a member gives the kind and score of a top operation on it, and absent exactly if there was none. |
| LwwStore.ScoreReadAfter | RDL-Libraries/roshi/cluster/cluster.go:695-713 | At any cap, the score read straight after an operation gives its kind and score exactly if the operation was not outdated and has a place below the cap. |
| LwwStore.RunHoldsWinners | RDL-Libraries/roshi/cluster/cluster.go:80-108 | While the cap does not bind, a run ends with each member in the set of a top-scored operation on it, at that score, and with nothing else. |
| LwwStore.ConvergesIffNoTopTie | RDL-Libraries/roshi/cluster/cluster.go:80-108 | With no more members than the cap, all orders and duplications of the same operations end in one state if and only if no member has an insert and a delete tied at its top score. |
| LwwStore.LastTopWins | RDL-Libraries/roshi/cluster/cluster.go:95-99 | Among operations tied at the top the one that arrives last decides. |
| LwwStore.TieExample | RDL-Libraries/roshi/cluster/cluster.go:95-99 | Two operations that tie, in the two orders, end differently. |
| LwwStore.CapExample | RDL-Libraries/roshi/cluster/cluster.go:84-103 | With a cap that binds there are mixed histories that end differently in another order, without any tie: one at a cap of 1. |
| CappedStore.ConvergesIffOrderFree | RDL-Libraries/roshi/cluster/cluster.go:80-108 | At every cap, and for every set of inserts and deletes: all orders and duplications end in one state if and only if the set is order-free. That is read off the best scores: whoever has an insert and a delete in play is on top of one side at the higher score, and no entry moves up into a top when the overruled ones are taken out. |
| CappedStore.OrderFreeSettles | RDL-Libraries/roshi/cluster/cluster.go:80-108 | Order-free operations end, in whatever order and however often repeated, with each side holding the top of its best scores without those the other side overrules. |
| CappedStore.SureStays | RDL-Libraries/roshi/cluster/cluster.go:84-108 | A top insert that no delete reaches is in "+" at its best score in every run in which it has arrived: it is never rejected, evicted or removed. |
| CappedStore.DeletesThenInserts | RDL-Libraries/roshi/cluster/cluster.go:84-108 | With all deletes first, "+" ends with the top of what the top of the deletes does not overrule. |
| CappedStore.UndecidedDiffers | RDL-Libraries/roshi/cluster/cluster.go:95-99 | A top insert that a delete reaches but does not overrule is held after one order and not after another. |
| CappedStore.OrderFreeBelowCap | RDL-Libraries/roshi/cluster/cluster.go:80-108 | Where the cap does not bind, order-free means that no member has a tie at its top score. |
| LwwStore.BestIsMaximum | RDL-Libraries/roshi/cluster/cluster.go:93-104 | `Best`, the reference for insert-only histories, holds exactly the maximum score seen of each member. |
| LwwStore.BoundedStoreKeepsTop | RDL-Libraries/roshi/cluster/cluster.go:84-103 | For any insert-only history and any cap, "+" is exactly the top of the per-member maxima, despite eviction and the early return at capacity. |
| LwwStore.BoundedStoreConverges | RDL-Libraries/roshi/cluster/cluster.go:84-103 | Hence any two insert-only histories with the same operations end alike, for every cap. |
| LwwStore.LowerScoreRejected | RDL-Libraries/roshi/cluster/cluster.go:84-92 | At capacity an operation scored below everything held changes nothing. |
| SortedSets.ListingCorrect | RDL-Libraries/roshi/cluster/cluster.go:459-504 | The descending listing of a sorted set holds each entry once, by score and then member. |
| SortedSets.ListingTopK | RDL-Libraries/roshi/cluster/cluster.go:100-103 | The first entries of the listing are those of the top, so trimming by rank keeps the top. |
| SortedSets.DescendingUnique | RDL-Libraries/roshi/cluster/cluster.go:459-504 | A descending order of given entries is unique. |
| RangeRead.BetweenIs | RDL-Libraries/roshi/cluster/cluster.go:523-536 | The range is exactly the entries of the set that rank below the start and above the stop, neither of them included, highest first. |
| SortedSets.AboveIs | RDL-Libraries/roshi/cluster/cluster.go:459-504 | A higher score ranks above; at equal scores the member with the higher byte at the first difference, or the longer one. |
| Bytes.LexAtFirstDifference | RDL-Libraries/roshi/cluster/cluster.go:523-536 | Byte strings are ordered by the first byte in which they differ, and a proper prefix comes first. |
| RangeRead.Scan | RDL-Libraries/roshi/cluster/cluster.go:588-604 | The inner loop collects the wanted elements up to the limit and says truthfully whether it met the stop, the end or too few. |
| RangeRead.ScanDecides | RDL-Libraries/roshi/cluster/cluster.go:581-617 | One read of a key at a select size succeeds exactly when it is not starved at that size, and then gives the first wanted elements. |
| RangeRead.ReadKey | RDL-Libraries/roshi/cluster/cluster.go:575-617 | The scan of one reply, as the answer for its key or a request to retry. |
| RangeRead.SelectOnce | RDL-Libraries/roshi/cluster/cluster.go:554-618 | One pipelined round answers each key asked exactly as its own read decides. |
| RangeRead.KeepAnswers | RDL-Libraries/roshi/cluster/cluster.go:620-630 | Answers move to the results, the other keys are asked again. |
| RangeRead.PipelineRangeByScore | RDL-Libraries/roshi/cluster/cluster.go:506-646 | The call fails for a negative limit; otherwise it succeeds if and only if no key is starved at the fourth select size. Per key it then gives entries that rank below the start and above the stop, highest first, at most the limit; if one is left out, the limit is reached and all that are given rank above it. |
| RangeRead.LastSelection | RDL-Libraries/roshi/cluster/cluster.go:630-640 | The fourth select size as a number: 100 for limits below 10, then 8, 4 and 2 times the limit plus 0, 50 and 100, and the limit plus 150 from 100 on. |
| Cursors.Base64RoundTrip | RDL-Libraries/roshi/common/cursor.go:29-74 | Base64url (section 5 of RFC 4648) decodes what it encoded, for every byte string. |
| Cursors.LettersAre | RDL-Libraries/roshi/common/cursor.go:32-32 | The 64 letters are A to Z, a to z, 0 to 9, minus and underscore. |
| Cursors.GroupsOfSix | RDL-Libraries/roshi/common/cursor.go:32-32 | The values of a group's letters in base 64 are its bytes in base 256, filled up with zero bits. |
| Cursors.TextIs | RDL-Libraries/roshi/common/cursor.go:20-44 | A cursor's text is the bits of its score in decimal, from 2^63 on below zero, the letter A and its member's letters. |
| Cursors.CursorObject.Parse | RDL-Libraries/roshi/common/cursor.go:54-74 | Parsing assigns the receiver exactly the cursor the text stands for, line breaks in its base64 part being read past as the library does, and refuses every other text. |
| Cursors.ParsesIff | RDL-Libraries/roshi/common/cursor.go:54-74 | A text is accepted exactly if the first A in it separates the decimal digits of a number below 2^64 from base64 letters, with line breaks left out, in a multiple of four with at most two = at the end. |
| Cursors.DecodesIff | RDL-Libraries/roshi/common/cursor.go:65-68 | Base64 is decoded exactly if it is letters in a multiple of four with at most two = at the end. |
| Cursors.FoldedRoundTrip | RDL-Libraries/roshi/common/cursor.go:54-74 | A cursor's text is parsed back also with carriage returns and line feeds anywhere in its base64 part. |
| Cursors.CursorRoundTrip | RDL-Libraries/roshi/common/cursor.go:29-74 | Every cursor, of any double score and any member bytes, is parsed back from its own text. |
| Paging.RestartedRange | RDL-Libraries/roshi/common/key_score_member.go:22-27 | The range that starts at an element's cursor is the range after that element. |
| Paging.NextCursor | RDL-Libraries/roshi/common/key_score_member.go:22-27 | The cursor of a page's last element survives being printed and parsed. |
| Paging.ReadPage | RDL-Libraries/roshi/cluster/cluster.go:506-646 | One page is read if and only if its range is not starved at the fourth select size, and it is then the first elements of what is left. |
| Paging.ReadPages | RDL-Libraries/roshi/cluster/cluster.go:506-646 | All pages can be read if and only if none of the places at which a page starts (each full page's end, and the end of the range) is starved; the pages then are full but for the last and concatenated list the whole range once, without gap or repeat. The reading ends in either case. |
| FarmMerge.UnionDifference | RDL-Libraries/roshi/farm/farm.go:159-202 | The loops over scores and counts give, per key-member, the best tuple held anywhere, and exactly the key-members whose best tuple some set lacks. |
| FarmMerge.UnionIs | RDL-Libraries/roshi/farm/farm.go:159-202 | The union is the tuples that some set holds and whose key-member no set holds at a higher score. |
| FarmMerge.DifferenceIs | RDL-Libraries/roshi/farm/farm.go:159-202 | A key-member is in the difference exactly if some set holds it at a score at which another one does not. |
| FarmMerge.NoDifferenceIffEqual | RDL-Libraries/roshi/farm/farm.go:159-202 | Nothing is to be repaired if and only if all answering sets were equal. |
| FarmMerge.OrderedLimitedSlice | RDL-Libraries/roshi/farm/farm.go:237-249 | The sort by score and the cut give distinct tuples in descending order of score, none below one left out. |
| FarmMerge.SelectionScores | RDL-Libraries/roshi/farm/farm.go:237-249 | All such slices of one set have the same scores: ties leave only the members open. |
| FarmMerge.MergeIsMaximum | RDL-Libraries/roshi/farm/farm.go:159-202 | Merging sorted sets keeps each member at its maximum score. |
| FarmMerge.MergedTops | RDL-Libraries/roshi/farm/read_strategies.go:108-183 | The top of the merged tops is the top of the merged sets. |
| FarmMerge.OffsetReadExact | RDL-Libraries/roshi/cluster/cluster.go:459-504 | An offset read is the window of the listing, except that limit 0 at offset 0 reads everything. |
| FarmMerge.OffsetReadRanks | RDL-Libraries/roshi/cluster/cluster.go:459-504 | The i-th entry read at an offset has exactly offset plus i entries of the set above it. |
| FarmMerge.OffsetReadIsTop | RDL-Libraries/roshi/cluster/cluster.go:459-504 | At offset 0 and limit at least 1 it is the top. |
| FarmMerge.Gather | RDL-Libraries/roshi/farm/read_strategies.go:138-149 | The gathering loop files each answer without error under its key, in order. |
| FarmMerge.SendAllReadAll | RDL-Libraries/roshi/farm/read_strategies.go:108-183 | The read returns, for every key answered, the cut of the union, and asks to repair the differences. |
| FarmMerge.UnionIsMergedTops | RDL-Libraries/roshi/farm/read_strategies.go:152-163 | The union of what the clusters answered is the merge of their tops. |
| FarmMerge.DistributedTopK | RDL-Libraries/roshi/farm/read_strategies.go:108-183 | When all clusters answer, the result has the size and the descending scores of the top of the per-member maxima over the full sets. |
| FarmMerge.RepairIffTopsDiffer | RDL-Libraries/roshi/farm/read_strategies.go:152-172 | A read asks for no repair of a key if and only if all clusters hold the same top. |
| Repair.Decide | RDL-Libraries/roshi/farm/repair_strategies.go:118-141 | The walk over the presences decides the top score found from zero up, and "inserted" if a record on the way up was an insert. |
| Repair.DecisionUnique | RDL-Libraries/roshi/farm/repair_strategies.go:118-148 | The decision is a function of the presences. |
| Repair.TopInsertSurvives | RDL-Libraries/roshi/farm/repair_strategies.go:126-132 | An insert at the top score is never turned into a delete. |
| Repair.StickyIff | RDL-Libraries/roshi/farm/repair_strategies.go:130-130 | The decision differs from last-writer-wins exactly when an insert set an earlier maximum and every presence at the top is a delete. |
| Repair.StickyExample | RDL-Libraries/roshi/farm/repair_strategies.go:130-130 | An older insert met before a newer delete turns the repair into an insert. |
| Repair.NeverLowered | RDL-Libraries/roshi/cluster/cluster.go:93-104 | While the cap leaves room for the members concerned, no run of repairs and client writes lowers a stored score or loses it. |
| Repair.NeverLoweredWhileHeld | RDL-Libraries/roshi/cluster/cluster.go:84-104 | At any cap, no run of repairs and client writes lowers the score of a member that is held throughout the run. |
| Repair.LostThenLower | RDL-Libraries/roshi/cluster/cluster.go:84-104 | That the member is held throughout matters: evicted, it can come back at a lower score. |
| Repair.Score | RDL-Libraries/roshi/cluster/cluster.go:675-721 | A score request answers each key-member with the score in "+" as inserted, the one in "-" as deleted, and absent if it is in neither; one found in both is left out. |
| Repair.TakesEffectIff | RDL-Libraries/roshi/cluster/cluster.go:80-108 | At any cap, a repairing write brings its member to the decided state if and only if the cluster holds a higher score already or fewer members than the cap rank above it in the set written to. |
| Repair.ReadPresences | RDL-Libraries/roshi/farm/repair_strategies.go:88-112 | The score reads give each cluster's presence, absent where the cluster could not be read. |
| Repair.Schedule | RDL-Libraries/roshi/farm/repair_strategies.go:114-166 | The writes scheduled per cluster are exactly those that differ from the decision. |
| Repair.WriteAllEffect | RDL-Libraries/roshi/farm/repair_strategies.go:168-180 | While the cap does not bind, the scripts run on a cluster have their effect on the key-members they target and on no others. |
| Repair.CarryOut | RDL-Libraries/roshi/farm/repair_strategies.go:168-180 | At any cap, each cluster ends as the scripts scheduled for it, in their order, make it, and no other cluster is touched. |
| Repair.AllRepairs | RDL-Libraries/roshi/farm/repair_strategies.go:81-182 | At any cap, exactly the scripts that the decisions call for are run, inserts before deletes; while it does not bind, every key-member of every cluster is left as the decision says, or as it was. |
| Repair.ConvergesIff | RDL-Libraries/roshi/farm/repair_strategies.go:118-148 | The clusters agree after an error-free pass if and only if one of them held the key-member at a score of at least zero, or they agreed before. |
| Repair.SecondPassIdle | RDL-Libraries/roshi/farm/repair_strategies.go:150-166 | After an error-free pass no cluster needs a write. |
| Repair.RepairTwice | RDL-Libraries/roshi/farm/repair_strategies.go:81-182 | Two passes in a row, while the cap does not bind: the first makes the clusters agree on every key-member found, the second schedules nothing. |
| Resp.TokenExtends | redlock-cpp/hiredis/hiredis.c:252-508 | A token once read is not changed by bytes that come later. |
| Resp.ResumeInside | redlock-cpp/hiredis/hiredis.c:333-356 | Finishing an element in the middle of nested arrays is what the recursive parser does with the rest. |
| Resp.OpenArray | redlock-cpp/hiredis/hiredis.c:445-508 | Pushing a task for an array is descending into its elements. |
| RespReader.Reader.Feed | redlock-cpp/hiredis/hiredis.c:588-618 | Feeding appends to what is unread, and the compaction of the buffer drops only what was read. |
| RespReader.Reader.SeekNewline | redlock-cpp/hiredis/hiredis.c:263-289 | The search finds the first CR LF of the unread bytes, or says that there is none. |
| RespReader.Reader.ReadLongLong | redlock-cpp/hiredis/hiredis.c:291-316 | The digit loop reads the number as the protocol does, trailing garbage giving -1. |
| RespReader.Reader.ReadLine | redlock-cpp/hiredis/hiredis.c:318-331 | A line is taken with its terminator, or nothing is taken. |
| RespReader.Reader.MoveToNextTask | redlock-cpp/hiredis/hiredis.c:333-356 | The task stack, as a list of open arrays, moves to the next element, popping what is complete; its assertions hold. |
| RespReader.Reader.ProcessLineItem | redlock-cpp/hiredis/hiredis.c:358-390 | A line item is the token of the specification, or the reader has not moved. |
| RespReader.Reader.ProcessBulkItem | redlock-cpp/hiredis/hiredis.c:392-443 | Likewise a bulk item, including nil and one not complete yet. |
| RespReader.Reader.ProcessMultiBulkItem | redlock-cpp/hiredis/hiredis.c:445-508 | Likewise an array header, including nil, empty and too deeply nested ones. |
| RespReader.Reader.ProcessItem | redlock-cpp/hiredis/hiredis.c:510-557 | One item: the type byte if it is not known yet, then the item; each success consumes at least one byte. |
| RespReader.Reader.GetReply | redlock-cpp/hiredis/hiredis.c:620-668 | A call returns the first complete reply of what is unread, keeps a partial one on the stack, or reports the error of the specification. |
| RespReader.ReadStream | redlock-cpp/hiredis/hiredis.c:588-668 | For every stream and every way of cutting it into feeds, the replies and the first error are those of the recursive parser on the whole stream. |
| ReplyFormat.StatusReads | redlock-cpp/hiredis/hiredis.c:518-520 | A line after "+" is a status of that text, whatever follows it and at any level. |
| ReplyFormat.ErrorReads | redlock-cpp/hiredis/hiredis.c:515-517 | A line after "-" is an error of that text. |
| ReplyFormat.IntegerReads | redlock-cpp/hiredis/hiredis.c:521-523 | The decimal text of any number, with its sign, after ":" is that number. |
| ReplyFormat.BulkReads | redlock-cpp/hiredis/hiredis.c:392-443 | After "$" and a length, that many bytes, of any value, are the bulk. |
| ReplyFormat.NilReads | redlock-cpp/hiredis/hiredis.c:405-411 | "$-1", like any negative length, and "*-1" are nil. |
| ReplyFormat.ArrayReads | redlock-cpp/hiredis/hiredis.c:445-508 | After "*" and a count, that many items one level down are the array; "*0" is the empty one. |
| ReplyFormat.Refused | redlock-cpp/hiredis/hiredis.c:452-456 | An array in eight others is refused, and so is every byte that starts no reply. |
| ReplyFormat.ReplyReads | redlock-cpp/hiredis/hiredis.c:510-557 | Whatever reply a server writes in that format, arrays in arrays included, the parser reads it back and leaves the rest. |
| ReplyFormat.ReadReplies | redlock-cpp/hiredis/hiredis.c:588-668 | The reader gives exactly the replies written, in whatever pieces their text arrives. |
| CommandFormat.IntLen | redlock-cpp/hiredis/hiredis.c:671-683 | The loop counts the decimal digits of a number. |
| CommandFormat.CommandLen | redlock-cpp/hiredis/hiredis.c:949-953 | The precomputed length is the length of the command text. |
| CommandFormat.FormatCommandArgv | redlock-cpp/hiredis/hiredis.c:942-974 | The buffer holds exactly the command text and is filled to the length computed, so the assertion at line 969 holds. |
| CommandFormat.BulksFit | redlock-cpp/hiredis/hiredis.c:960-968 | Every prefix of the arguments fits the buffer. |
| CommandFormat.CommandReads | redlock-cpp/hiredis/hiredis.c:942-974 | The command, followed by anything, is read as the array of its arguments, and the rest is left. |
| CommandFormat.PipelineReads | redlock-cpp/hiredis/hiredis.c:942-974 | The recursive parser reads a pipeline of commands as the arrays of their arguments and nothing else. |
| CommandFormat.FormatThenRead | redlock-cpp/hiredis/hiredis.c:1253-1327 | Commands appended one after the other, fed to the reader in whatever pieces the text arrives, give for each command one array of exactly its binary arguments. |
| Sds.SdsString.MakeRoomFor | redlock-cpp/hiredis/sds.c:129-147 | Room is made without changing the contents: none if there is enough, else for twice the new length below 1 MB and 1 MB more from there on. |
| Sds.SdsString.CatLen | redlock-cpp/hiredis/sds.c:237-249 | The bytes are appended. |
| Sds.SdsString.Range | redlock-cpp/hiredis/sds.c:387-415 | What is kept are the positions from start to end, negative ones counted from the end. |
| Sds.CatRepr | redlock-cpp/hiredis/sds.c:552-575 | What is appended is the quoted form. |
| SdsArgs.RoundInQuotes | redlock-cpp/hiredis/sds.c:644-678 | One step inside quotes is the step of the specification, escapes and unterminated quotes included. |
| SdsArgs.RoundInApostrophes | redlock-cpp/hiredis/sds.c:679-693 | One step inside apostrophes likewise. |
| SdsArgs.RoundPlain | redlock-cpp/hiredis/sds.c:694-713 | One step outside quotes likewise. |
| SdsArgs.GetToken | redlock-cpp/hiredis/sds.c:642-715 | The loop over the characters reads the token of the specification or reports bad quoting. |
| SdsArgs.SplitArgs | redlock-cpp/hiredis/sds.c:627-735 | The whole line splits as the specification says, errors included. |
| SdsArgs.QuoteRoundTrip | redlock-cpp/hiredis/sds.c:552-735 | For every list of byte strings, the quoted forms joined by spaces split into exactly that list. |
| SdsArgs.QuoteThenSplit | redlock-cpp/hiredis/sds.c:552-735 | The same of the in-place operations. |
| SdsForms.EscapeLetter | redlock-cpp/hiredis/sds.c:655-668 | Between quotes a backslash and n, r, t, b or a is the control byte, and with another letter that letter. |
| SdsForms.HexDigits | redlock-cpp/hiredis/sds.c:580-608 | Hex digits are 0 to 9, a to f and A to F, with their values. |
| SdsForms.WrittenAs | redlock-cpp/hiredis/sds.c:555-570 | Quoting writes quotes and backslashes with a backslash, five control bytes by their letters, other bytes that do not print as two lower-case hex digits, and the rest as they are. |
| SdsForms.ApostrophesRead | redlock-cpp/hiredis/sds.c:679-693 | Between apostrophes only an apostrophe is escaped, and everything else stands for itself. |
| SdsForms.Closing | redlock-cpp/hiredis/sds.c:669-690 | A closing quote or apostrophe ends the argument if a space or nothing follows, and is an error otherwise. |
| SdsForms.LineSplits | redlock-cpp/hiredis/sds.c:627-735 | For every list of arguments, each written bare, between quotes or between apostrophes, the line splits into exactly their bytes. |
| SdsForms.BlanksSkipped | redlock-cpp/hiredis/sds.c:638-639 | Blanks in front of a line do not matter. |
| Redlock.AcceptedExactly | redlock-cpp/redlock-cpp/redlock.cpp:86-87 | A command is answered OK exactly when its time to live is positive and the resource is free, or is held by the value it replaces; it touches no other resource, and a delete leaves its own value nowhere. |
| Redlock.OnlyTheTokenOpens | redlock-cpp/redlock-cpp/redlock.cpp:86-87 | A live key is changed by no command that does not name its value. |
| Redlock.KeyOutlivesClaim | redlock-cpp/redlock-cpp/redlock.cpp:145-149 | On a clock at most one per cent fast a key set within an attempt outlives `startTime + ttl - drift`, with one millisecond of precision lost. |
| Redlock.GrantIsBacked | redlock-cpp/redlock-cpp/redlock.cpp:140-144 | A server that grants an attempt holds its value until the attempt's time. |
| Redlock.TickKeeps | redlock-cpp/redlock-cpp/redlock.cpp:145-149 | The passage of time cannot take a granted server from a claim before its time. |
| Redlock.SendKeeps | redlock-cpp/redlock-cpp/redlock.cpp:229-292 | A command, answered or lost in any way, takes no server from a claim whose value it does not name. |
| Redlock.SendOutcomes | redlock-cpp/redlock-cpp/redlock.cpp:229-292 | Over a working connection a command is executed and answered, executed with its answer lost, not executed, or held up until later, each of which but the first ends the connection; over a broken one nothing is sent. |
| Redlock.ActKeeps | redlock-cpp/redlock-cpp/redlock.cpp:127-224 | Every step of every client keeps the invariant. |
| Redlock.QuorumsMeet | redlock-cpp/redlock-cpp/redlock.cpp:112-112 | Two quorums of one server list share a server. |
| Redlock.VerdictIff | redlock-cpp/redlock-cpp/redlock.cpp:112-112 | With servers in the list, an attempt that has asked all of them succeeds exactly if more than half granted it and the time to live less the time taken and the drift is positive, and otherwise it can only be given up. |
| Redlock.TimeLeft | redlock-cpp/redlock-cpp/redlock.cpp:148-149 | The drift is one per cent of the time to live and two milliseconds. |
| Redlock.DriftTruncates | redlock-cpp/redlock-cpp/redlock.cpp:148-148 | For a negative time to live as well, the drift is a hundredth of it plus two, truncated toward zero. |
| Redlock.AttemptSucceedsIff | redlock-cpp/redlock-cpp/redlock.cpp:136-153 | A whole attempt to which nobody else does anything, whatever becomes of its commands: its grants come from exactly the servers that are reached, answer, and have the resource free or, for an extension, at the value remembered; it succeeds exactly if they are more than half. |
| Redlock.MutualExclusion | redlock-cpp/redlock-cpp/redlock.cpp:127-224 | Over every interleaving of clients, servers, lost and late commands and time, no resource has two live claims; a claim lives from a successful return to `startTime + ttl - drift`, an unlock, or the `ContinueLock` that replaces it. |
| Redlock.ClaimEnds | redlock-cpp/redlock-cpp/redlock.cpp:169-224 | A claim ends, before its time, exactly by the unlock of its value or by the extension that replaces its value, both of its own client. |
| Redlock.ExclusionNeedsServers | redlock-cpp/redlock-cpp/redlock.cpp:90-112 | Runs exclude if and only if the server list is not empty: without servers the quorum keeps its initial zero and every call succeeds. |
| Redlock.ValidityOverrun | redlock-cpp/redlock-cpp/redlock.cpp:138-153 | Counted from the return, the reported validity runs past the claim by the part of a second the clock reading dropped, less than 1000 ms. |
| Redlock.ValidFromTheSecond | redlock-cpp/redlock-cpp/redlock.cpp:138-153 | After any run and before any other, the returned validity is exclusive when counted from the start of the second of the return; so it is from the return itself if that is on a whole second. |
| Redlock.ValidityIsNotExclusive | redlock-cpp/redlock-cpp/redlock.cpp:138-153 | A run in which a caller still counts on its reported validity while another client holds a live claim. |
| RedlockClient.CRedLock.AskOne | redlock-cpp/redlock-cpp/redlock.cpp:140-144 | The counter goes up exactly if the connection works, the answer arrives and the server, as it is then, has the resource free or, for an extension, at the value remembered. |
| RedlockClient.CRedLock.Lock | redlock-cpp/redlock-cpp/redlock.cpp:127-164 | The retry loop takes only steps of the machine. The call succeeds exactly if its last attempt has more than half of the servers and time left, in the state of that verdict, and fails after exactly as many attempts as the retry count says, at least one; true means that a claim is held, good for the validity reported, false that none is. |
| RedlockClient.CRedLock.ContinueLock | redlock-cpp/redlock-cpp/redlock.cpp:169-213 | The same of the extension, which replaces the value remembered from the last call and then remembers its own, whether it succeeds or not. |
| RedlockClient.CRedLock.Settle | redlock-cpp/redlock-cpp/redlock.cpp:191-206 | With servers in the list the verdict is that more than half of them granted the attempt and that the time left, read in the state of the verdict, is positive; it is the validity reported. `ContinueLock` records its value before it. |
| RedlockClient.CRedLock.Unlock | redlock-cpp/redlock-cpp/redlock.cpp:218-224 | After an unlock there is no claim and no reachable server holds the value. |
| RedlockClient.ForeignKeepsFreed | redlock-cpp/redlock-cpp/redlock.cpp:218-224 | Nobody else can put a released value back on a server. |
| ConnectionPool.Safety | RDL-Libraries/roshi/pool/connection_pool.go:46-115 | In every state of every run the idle and outstanding connections are within the maximum, each connection is in one place, and, while anyone is blocked, the woken waiters cover the free slots. |
| ConnectionPool.StepKeeps | RDL-Libraries/roshi/pool/connection_pool.go:46-115 | Each section under the mutex keeps these. |
| ConnectionPool.NobodyStranded | RDL-Libraries/roshi/pool/connection_pool.go:51-53 | While someone is blocked, someone woken or holding can move. |
| ConnectionPool.EveryoneServed | RDL-Libraries/roshi/pool/connection_pool.go:46-105 | Without newcomers every schedule ends within a bound, and where it ends nobody waits or holds: starvation needs newcomers. |
| ConnectionPool.EmptyPoolBlocks | RDL-Libraries/roshi/pool/connection_pool.go:51-53 | A maximum of zero or less blocks every caller for good. |
| ConnectionPool.QueueOrder | RDL-Libraries/roshi/pool/connection_pool.go:46-105 | Idle connections are a queue: the one idle longest is given out, a working one comes back at the end, and nothing else but closing touches them. |
| ConnectionPool.PoolObject.GetPass | RDL-Libraries/roshi/pool/connection_pool.go:46-80 | A pass of `get` is the machine's step, in which taking a connection always counts it: the guard at line 73 is never false. |
| ConnectionPool.PoolObject.Put | RDL-Libraries/roshi/pool/connection_pool.go:82-105 | `put` is the machine's step, which has none of the defensive outcomes of lines 88, 95 and 101. |
| ConnectionPool.PoolObject.CloseAll | RDL-Libraries/roshi/pool/connection_pool.go:107-115 | Every idle connection is closed once and the queue emptied. |
| Dfs.JoinInjective | RDL-Libraries/roshi/cluster/DFS.go:23-25 | The text of a path of comma-free events determines the path. |
| Dfs.Generator.Search | RDL-Libraries/roshi/cluster/DFS.go:10-30 | The recursion leaves the visited texts and the printed lines that the function `Explored` gives, for every path, events and earlier trail. |
| Dfs.GenerateAll | RDL-Libraries/roshi/cluster/DFS.go:10-30 | For any events the search ends, prints no line twice and only lines of orders; it prints those of all orders whenever prefixes of orders with the same text consist of the same events. |
| Dfs.LinesOnce | RDL-Libraries/roshi/cluster/DFS.go:23-28 | No line is printed twice, whatever the events. |
| Dfs.LinesAreOrders | RDL-Libraries/roshi/cluster/DFS.go:10-30 | Every line printed is that of an order of all the events. |
| Dfs.AllOrdersPrinted | RDL-Libraries/roshi/cluster/DFS.go:10-30 | Pruning loses no line where the text of a prefix tells which events it consists of. |
| Dfs.CommaFreeTells | RDL-Libraries/roshi/cluster/DFS.go:23-25 | So it is for events without commas, repeated ones included, and each order then has a line of its own. |
| Dfs.CommaLoses | RDL-Libraries/roshi/cluster/DFS.go:23-28 | For any two different comma-free events a and b, a third event "a,b" makes the search lose the order "a,b", b, a. |
| Replay.Counter.Merge | RDL-Libraries/Go_RDL/Library/pncounter.go:33-40 | A received list changes the value by its net count and is not passed on. |
| Replay.Counter.ToMarshal | RDL-Libraries/Go_RDL/Library/pncounter.go:105-115 | The message carries the updates since the last one, and the list starts anew. |
| Replay.NetCounts | RDL-Libraries/Go_RDL/Library/pncounter.go:33-56 | The net count is the increments less the decrements. |
| Replay.TurnsKeep | RDL-Libraries/Go_RDL/Library/server.go:64-134 | Every step keeps the turns: whoever left polling is the replica the file names, at its action. |
| Replay.BusyIsOwner | RDL-Libraries/Go_RDL/Library/server.go:84-96 | Whoever asks for the lock is on turn, and the lock is free. |
| Replay.OthersPoll | RDL-Libraries/Go_RDL/Library/server.go:76-96 | While one replica is past polling all others poll. |
| Replay.ReplayIsSerial | RDL-Libraries/Go_RDL/Library/server.go:64-134 | Over every interleaving the actions done are a prefix of the file, one at a time, and the lock is never refused, even if it expires early. |
| Replay.NoDeadlock | RDL-Libraries/Go_RDL/Library/server.go:76-131 | Until everything is done and merged, some step gets the replay on. |
| Replay.ReplayIsBounded | RDL-Libraries/Go_RDL/Library/server.go:64-134 | The steps other than polls in vain are at most the file's length times five plus the number of replicas. |
| Replay.FinishesIffOwned | RDL-Libraries/Go_RDL/Library/server.go:73-73 | The file can be finished if and only if every action names a replica that exists. |
| Replay.PublishedSnoc | RDL-Libraries/Go_RDL/Library/pncounter.go:105-115 | A broadcast publishes exactly the pending updates of its replica, as an independent count over the history has it. |
| Replay.ReplayIsDeterministic | RDL-Libraries/Go_RDL/Library/pncounter.go:28-75 | Where a run can go no further the whole file was done, and each value is the replica's own net count plus the others' net counts before their last broadcasts. |
| Linger.ReceiveKeeps | RDL-Libraries/roshi/farm/read_strategies.go:305-349 | A hand-over in the loop or after it keeps the counts and the phase. |
| Linger.LeaveOneKeeps | RDL-Libraries/roshi/farm/read_strategies.go:400-407 | If one cluster answered every key it has sent all it had, and the signals given for the others complete the count. |
| Linger.TimeoutKeeps | RDL-Libraries/roshi/farm/read_strategies.go:331-343 | The promotion asks each other cluster once, for the keys that remain. |
| Linger.PromotionAsksUnanswered | RDL-Libraries/roshi/farm/read_strategies.go:331-343 | The timer starts requests at exactly the clusters not asked yet, for keys without a response only. |
| Linger.EndsCleanlyIff | RDL-Libraries/roshi/farm/read_strategies.go:242-452 | Every schedule is bounded; all of them end with one signal per cluster, one close and every element received if and only if the permit was granted, the timer set, the cluster the only one, or its answer complete. |
| Linger.AnswersFromFirst | RDL-Libraries/roshi/farm/read_strategies.go:305-349 | In every state of every run the call waits only while some key has no response, it has its outcome as soon as it waits no more, and later responses do not change it. |
| Linger.OutcomeTellsResponses | RDL-Libraries/roshi/farm/read_strategies.go:367-435 | A full result has a response for every key, a partial one lacks some key, a complete failure had no response at all; never more than one close. |
| Wire.VarintReadsBack | RDL-Libraries/roshi/_vendor/src/code.google.com/p/goprotobuf/proto/decode.go:81-104 | A varint is read back, whatever follows. |
| Wire.VarintIsWord | RDL-Libraries/roshi/_vendor/src/code.google.com/p/goprotobuf/proto/decode.go:87-104 | Whatever is read fits in 64 bits. |
| Wire.SizeVarintExact | RDL-Libraries/roshi/_vendor/src/code.google.com/p/goprotobuf/proto/encode.go:108-117 | The shift count is the number of bytes. |
| Wire.FixedRound | RDL-Libraries/roshi/_vendor/src/code.google.com/p/goprotobuf/proto/encode.go:119-149 | The low bytes of a word, least significant first, give its value modulo the word size. |
| Wire.ZigzagRound | RDL-Libraries/roshi/_vendor/src/code.google.com/p/goprotobuf/proto/encode.go:155-173 | Zigzag is a bijection on the words, in both directions. |
| Wire.RawBytesReadBack | RDL-Libraries/roshi/_vendor/src/code.google.com/p/goprotobuf/proto/decode.go:178-204 | Counted bytes are read back, whatever follows. |
| Wire.SkipLocal | RDL-Libraries/roshi/_vendor/src/code.google.com/p/goprotobuf/proto/decode.go:246-280 | Skipping an item, groups included, depends only on the bytes of the item. |
| Messages.ScalarReadsBack | RDL-Libraries/roshi/_vendor/src/code.google.com/p/goprotobuf/proto/encode.go:286-377 | Every number of a field's type is read back from each of its encodings, sign-extended or not. |
| Messages.SizeScalarExact | RDL-Libraries/roshi/_vendor/src/code.google.com/p/goprotobuf/proto/encode.go:301-377 | The size of a number is the number of its bytes. |
| WireFormat.FixedBytes | RDL-Libraries/roshi/_vendor/src/code.google.com/p/goprotobuf/proto/encode.go:122-149 | Byte i of a fixed word is its value divided by 256 to the i, modulo 256. |
| WireFormat.VarintBytes | RDL-Libraries/roshi/_vendor/src/code.google.com/p/goprotobuf/proto/encode.go:99-106 | Byte i of a varint is the i-th group of seven bits, with 128 added in all but the last, and there is no empty last group. |
| WireFormat.Zigzagged64 | RDL-Libraries/roshi/_vendor/src/code.google.com/p/goprotobuf/proto/encode.go:158-161 | A zigzag number x is the varint of 2x, and of -2x-1 if it is negative. |
| WireFormat.Zigzagged32 | RDL-Libraries/roshi/_vendor/src/code.google.com/p/goprotobuf/proto/encode.go:170-173 | Likewise with 32 bits. |
| WireFormat.Signed | RDL-Libraries/roshi/_vendor/src/code.google.com/p/goprotobuf/proto/encode.go:310-332 | A negative int32 alone is the varint of its 64-bit word, in a list of its 32-bit word. |
| WireFormat.Kept | RDL-Libraries/roshi/_vendor/src/code.google.com/p/goprotobuf/proto/decode.go:454-487 | What a struct field keeps of any number read: the low 32 bits, whether it is zero, the number folded back, or the word as it is. |
| WireFormat.NumberField | RDL-Libraries/roshi/_vendor/src/code.google.com/p/goprotobuf/proto/properties.go:51-58 | A field with one number is the varint of 8 times its tag plus 0, 1 for eight bytes or 5 for four, and the number; one byte for tags below 16. |
| WireFormat.BytesField | RDL-Libraries/roshi/_vendor/src/code.google.com/p/goprotobuf/proto/properties.go:51-58 | A field with bytes is the varint of 8 times its tag plus 2, the length and the bytes. |
| WireFormat.NestedField | RDL-Libraries/roshi/_vendor/src/code.google.com/p/goprotobuf/proto/encode.go:412-430 | A field with a message likewise, with the message's own encoding. |
| WireFormat.PackedField | RDL-Libraries/roshi/_vendor/src/code.google.com/p/goprotobuf/proto/encode.go:512-528 | A packed list likewise, with the numbers one after the other. |
| WireFormat.RepeatedField | RDL-Libraries/roshi/_vendor/src/code.google.com/p/goprotobuf/proto/encode.go:486-511 | A list that is not packed is its values, each with the key in front. |
| WireFormat.OneFieldSet | RDL-Libraries/roshi/_vendor/src/code.google.com/p/goprotobuf/proto/encode.go:880-910 | A message of which one field is set is the bytes of that field and nothing else. |
| WireFormat.FieldsInOrder | RDL-Libraries/roshi/_vendor/src/code.google.com/p/goprotobuf/proto/encode.go:880-910 | A message is its fields in the order of their tags and then its unknown fields; a field without values is not there. |
| WireFormat.Skipped | RDL-Libraries/roshi/_vendor/src/code.google.com/p/goprotobuf/proto/decode.go:252-258 | Skipping leaves what follows eight bytes for wire type 1 and four for 5; types 4, 6 and 7 are refused. |
| WireFormat.SkippedBytes | RDL-Libraries/roshi/_vendor/src/code.google.com/p/goprotobuf/proto/decode.go:256-257 | For type 2 it leaves what follows the counted bytes. |
| WireFormat.SkippedGroup | RDL-Libraries/roshi/_vendor/src/code.google.com/p/goprotobuf/proto/decode.go:260-276 | For type 3 it goes on item by item up to a key of type 4. |
| MessageRoundTrip.SizeExact | RDL-Libraries/roshi/_vendor/src/code.google.com/p/goprotobuf/proto/encode.go:912-927 | For every message of the schema the size computed beforehand is the number of bytes written. |
| MessageRoundTrip.PackedFieldReads | RDL-Libraries/roshi/_vendor/src/code.google.com/p/goprotobuf/proto/decode.go:521-611 | A packed list is read back, Booleans counted by elements and other numbers by bytes. |
| MessageRoundTrip.UnknownReadBack | RDL-Libraries/roshi/_vendor/src/code.google.com/p/goprotobuf/proto/decode.go:219-243 | Kept unknown fields are read and kept again as they are. |
| MessageRoundTrip.RoundTrip | RDL-Libraries/roshi/_vendor/src/code.google.com/p/goprotobuf/proto/decode.go:344-437 | For every message over scalar, repeated, packed, bytes and nested fields, decoding the encoding gives the message back with its unknown fields, and the error of a missing required field exactly if one is missing at some depth. |
| MessageDecoding.DecodeFits | RDL-Libraries/roshi/_vendor/src/code.google.com/p/goprotobuf/proto/decode.go:344-437 | Whatever decodes fits the schema, its unknown bytes being well-formed unknown fields. |
| MessageDecoding.DecodedSurvives | RDL-Libraries/roshi/_vendor/src/code.google.com/p/goprotobuf/proto/decode.go:344-437 | What was decoded from any input, for any type of any schema, is decoded again from its own encoding, unknown fields included, with the error exactly if a required field is missing in it. |
| MessageDecoding.DecodeSame | RDL-Libraries/roshi/_vendor/src/code.google.com/p/goprotobuf/proto/decode.go:344-437 | Whether an input decodes, and whether a required field counts as missing, does not depend on the message it is merged into. |
| MessageDecoding.RequiredSoundIff | RDL-Libraries/roshi/_vendor/src/code.google.com/p/goprotobuf/proto/decode.go:403-420 | For every type of every schema: success means that all its required fields were set if and only if the type has fewer than two required fields, or each one tagged above 64 is a nested message of a type that no input decodes to without a missing field. |
| MessageDecoding.Fooled | RDL-Libraries/roshi/_vendor/src/code.google.com/p/goprotobuf/proto/decode.go:413-419 | For every other type, an input that repeats one required field passes for complete though another one is not set. |
| WireEncoder.VarintSize | RDL-Libraries/roshi/_vendor/src/code.google.com/p/goprotobuf/proto/encode.go:108-117 | The loop gives the number of bytes of the varint. |
| WireEncoder.Encoder.EncodeVarint | RDL-Libraries/roshi/_vendor/src/code.google.com/p/goprotobuf/proto/encode.go:99-106 | The loop appends the varint; within the capacity it leaves the array and everything beyond what it writes alone. |
| WireEncoder.Encoder.EncodeFixed64 | RDL-Libraries/roshi/_vendor/src/code.google.com/p/goprotobuf/proto/encode.go:122-133 | The eight bytes are appended. |
| WireEncoder.Encoder.EncodeRawBytes | RDL-Libraries/roshi/_vendor/src/code.google.com/p/goprotobuf/proto/encode.go:182-186 | The length and the bytes are appended. |
| WireEncoder.Encoder.PutLength | RDL-Libraries/roshi/_vendor/src/code.google.com/p/goprotobuf/proto/encode.go:940-955 | The shift in place, right or left of the four bytes reserved, leaves exactly the varint of the length followed by the body. |
| WireEncoder.Encoder.EncodeLenStruct | RDL-Libraries/roshi/_vendor/src/code.google.com/p/goprotobuf/proto/encode.go:932-957 | What is appended is the counted encoding of the message, with the error exactly if a required field is missing in it. |
| WireEncoder.Encoder.EncodePacked | RDL-Libraries/roshi/_vendor/src/code.google.com/p/goprotobuf/proto/encode.go:512-528 | A packed list is appended with its tag and length. |
| WireEncoder.Encoder.EncodeStruct | RDL-Libraries/roshi/_vendor/src/code.google.com/p/goprotobuf/proto/encode.go:880-910 | The loops over the fields append the encoding of the message and report a missing required field at any depth. |
| WireEncoder.Marshal | RDL-Libraries/roshi/_vendor/src/code.google.com/p/goprotobuf/proto/encode.go:213-229 | The bytes are the encoding, as many as the size says, and decode to the message, with the error of a missing required field exactly if the encoder reported one. |
| WireDecoder.Decoder.DecodeVarint | RDL-Libraries/roshi/_vendor/src/code.google.com/p/goprotobuf/proto/decode.go:81-104 | The shift loop agrees with the parser, overlong and overflowing input included. |
| WireDecoder.Decoder.DecodeRawBytes | RDL-Libraries/roshi/_vendor/src/code.google.com/p/goprotobuf/proto/decode.go:178-204 | The index moves over the counted bytes or the error is the parser's. |
| WireDecoder.Decoder.Skip | RDL-Libraries/roshi/_vendor/src/code.google.com/p/goprotobuf/proto/decode.go:246-280 | The skip loop agrees with the parser. |
| WireDecoder.Decoder.DecodeNested | RDL-Libraries/roshi/_vendor/src/code.google.com/p/goprotobuf/proto/decode.go:647-676 | The buffer is swapped for the nested bytes and put back whatever comes of it. |
| WireDecoder.Decoder.UnmarshalType | RDL-Libraries/roshi/_vendor/src/code.google.com/p/goprotobuf/proto/decode.go:344-437 | The loop over the input gives the decoder's outcome. |
| WireDecoder.Unmarshal | RDL-Libraries/roshi/_vendor/src/code.google.com/p/goprotobuf/proto/decode.go:298-301 | Decoding into a reset message. |
| Dict.NextPower | redlock-cpp/hiredis/dict.c:306-315 | The size is a power of two, at least the size asked and four, less than twice the size asked, and the size asked if that is such a power itself. |
| Dict.HashTable.Find | redlock-cpp/hiredis/dict.c:243-256 | The entry of a key is found exactly if the key is in the map, with the map's value. |
| Dict.HashTable.Expand | redlock-cpp/hiredis/dict.c:88-132 | Relinking every entry keeps the map and the entries, is refused exactly if there are more entries than asked for, and brings the counter to zero, so the assertion at line 126 holds. |
| Dict.HashTable.KeyIndex | redlock-cpp/hiredis/dict.c:320-337 | The bucket for a new key, or -1 exactly if the key is there. |
| Dict.HashTable.Add | redlock-cpp/hiredis/dict.c:135-154 | A new key is added to the map, an old one refused; the table starts with four buckets and doubles exactly when there are as many entries as buckets. |
| Dict.HashTable.Replace | redlock-cpp/hiredis/dict.c:160-179 | The map has the new value in either case, and the result says whether the key was new. |
| Dict.HashTable.Delete | redlock-cpp/hiredis/dict.c:182-210 | Exactly the key is removed, by unlinking exactly its entry, and the result says whether it was there. |
| Dict.CountNodes | redlock-cpp/hiredis/dict.c:126-126 | The entry count is the size of the map. |
| Dict.FlatIsComplete | redlock-cpp/hiredis/dict.c:268-286 | The bucket order lists each entry of the map once. |
| Dict.DictIterator.Next | redlock-cpp/hiredis/dict.c:268-286 | Each call returns the next entry of that order and then null. |
| Dict.DictIterator.DeleteCurrent | redlock-cpp/hiredis/dict.c:279-282 | Deleting the entry just returned does not disturb what is still to come. |
| Dict.DictIterator.VisitAll | redlock-cpp/hiredis/dict.c:268-286 | An iteration that deletes some entries as it goes returns each entry once and leaves the map without the deleted ones. |

## Left out

- Sockets, event loops, `async.c`, `net.c`, HTTP, flags, logging and instrumentation.
- Allocation failure, and overflow of the machine integers in lengths, sizes and `time * 1000`; so also the branch of `_dictNextPower` for sizes of LONG_MAX and more.
- NaN scores, the text form of scores that Redis returns, and negative zero as distinct from zero.
- Reply objects: the reader builds values, not objects linked to their parents, and the custom object functions are not modelled.
- The reader's limit on idle buffer space, which frees memory and changes nothing read.
- The base64 library is taken to be what section 5 of RFC 4648 says, with carriage returns and line feeds read past.
- Cursors.CursorObject.Parse: refuses all text after a padded group, where the library's streaming decoder may go on if a read of its buffer ends just there.
- The printf-like command formatter `redisvFormatCommand`; `sdssplitlen` and `sdsjoinsds`; `dictClear` and the callbacks that copy and free keys and values; key comparison is equality.
- In `Dict` the index is the hash modulo the size, which the mask is because the size is a power of two; the hash function is any function of the key.
- Errors of the connection within a pipelined read or write of one instance, which fail the whole call.
- `Linger` and the turn protocol of `Replay` are step machines over values: the local variables, channels and shared maps are components of the state, not fields of objects, and the order in which Go runs the statements of one step is not captured.
- The quorum of `Farm.write` and the send-one read strategy, which would add only easy members.
- The spread of keys over the instances of one cluster; an instance that fails is a set of unread key-members in `Repair` and error answers in `FarmMerge` and `Linger`.
- Redlock: server restarts, a client clock other than true time, collisions of the random values, float rounding of the drift (it is `ttl / 100 + 2`, rounded down), and a lock handle shared between clients.
- Redlock.MutualExclusion: speaks of claims until `startTime + ttl - drift`, not until the return plus `m_validityTime`, because the latter is not exclusive.
- MessageRoundTrip.RoundTrip: asks for an encoding shorter than 2^63 bytes, because a longer count is negative as an `int`.
- Protocol buffers: reflection, extensions, message sets, groups as declared fields, self-marshalling types, nil elements of repeated fields and the text format. Groups in unknown fields are skipped and kept.
- The decoder's partly filled message after an error other than a missing required field.
- Paging.ReadPages: takes the sorted set not to change between the pages.
- ConnectionPool: fairness; with newcomers a waiter may starve, as the source notes. Each `get` is followed by one `put`.
- Replay: actions other than the three counter operations, which stop the program, errors of the Redis client, and races inside the counter; a merge is one step, and a broadcast reaches all queues at once.
- Linger: which responses a repair is asked for is the merge of `FarmMerge`; the number of answers of a cluster is bounded by a parameter, and a closed channel ends its answers.
- Dfs.GenerateAll: the condition under which no order is lost is sufficient; whether pruning loses a line otherwise depends on which of the prefixes of one text the search meets first.
- Repair.AllRepairs: says what becomes of each presence only while the cap does not bind; otherwise it says which scripts run, and `TakesEffectIff` what one of them does.
- Repair.RepairTwice: says nothing of a cap that binds, where a write that a full cluster rejects is scheduled again by every pass.
- Repair.NeverLowered: asks for room under the cap; `NeverLoweredWhileHeld` is the form for any cap.
- Repair.ReadPresences: a member found in both sets of a key, which `ScoreReadNeverBad` excludes, leaves only itself unread, where the program leaves all it asked of that instance unread.
