# Verified models of memstashed and its vendored libmemcached

memstashed is a small memcached server (`src/`): worker threads take connections from a queue, cut the byte
stream into commands, and keep items in ten LRU buckets. The vendored libmemcached adds a load generator with its
own scatter/gather and UDP layer (`libmemcached/clients/ms_conn.c`) and a hashing library with AES, MD5 and the
Jenkins hash (`libmemcached/libhashkit/`). This project models the parts of both where state, arithmetic or
interleaving make correctness hard to see, in Dafny, and proves what they are for.

`dafny verify dfyconfig.toml` checks everything.

## How the model is laid out

| files | what they model |
|---|---|
| `LruModel`, `LruSequential`, `LruStore`, `LruHistory`, `LruRuns`, `LruStatus`, `LruLedger` | the store: its critical sections as functions, its operations run by one thread, the class that updates maps, indexes and counters in place, the events that tell what a key should hold, whole runs of operations, what each operation answers, and its byte count against what it holds |
| `LruConcurrent`, `LruFlush` | any number of worker threads over the store, one step per atomic counter operation or critical section; what a flush hides then |
| `Text`, `Commands`, `CommandErrors`, `LineCommands`, `GetReply` | the string operations the parser uses, storage commands and their error lines, the one-line commands that read numbers, `get` and `gets` |
| `Framing`, `CommandStream` | the receive loop over arbitrary chunks, first with any parser, then with the real one |
| `ThreadPool` | the dispatcher, the descriptor queue and the workers as a state machine |
| `Messages`, `Transmit`, `Udp`, `KeyPrefix` | memaslap's message list, partial sends, datagram reassembly, key prefixes |
| `Gf256`, `Sbox`, `Fips197`, `Rijndael`, `AesVectors` | GF(2^8) and the S-boxes, the ciphers of FIPS 197, the table-driven code, the published key schedule and known answer |
| `HashkitString`, `Aes` | the growable byte string, key folding, whole-message encryption |
| `Md5`, `Jenkins`, `JenkinsVectors` | buffered MD5, the three alignment paths of lookup3, published values of it |
| `Machine`, `Sequences`, `Wrappers` | bytes and words, splicing, an optional value |

Integer widths follow the 32-bit build that `libmemcached/mem_config.h:431` describes: positions are compared with a
32-bit `string::npos`, `unsigned long` and `size_t` wrap at 2^32. Time, random cas tokens, the results of `recv`,
`read` and `sendmsg`, and `MD5Transform` are parameters.

## What the proofs found

- **A set or an add on a flushed key can be lost.** The comments and the `flush_all` command promise that a flush
  hides what was stored before it and nothing else. An insert that overwrites a key still in the map keeps the key's
  old stamp, and so does the branch of add for stale items, so the key stays below the flush stamp: the command
  reports success and the next get misses. `LruRuns.SetFlushSetGetMisses` and `LruRuns.SetFlushAddGetMisses` are the
  concrete runs; `LruRuns.InsertHiddenIff` and `LruRuns.AddHiddenIff` say exactly when it happens: with room for the
  element, if and only if the key was hidden before the call, and otherwise if also no eviction took it.
- **A flush can miss under concurrency.** Its stamp is drawn in one step and published in another. A get between the
  two renews an old item with a stamp that is not below the flush's, and the item stays in service
  (`LruFlush.FlushCanMiss`). And two threads that both pass the test of `gIsFlushAllSet` can publish the later stamp
  first; the earlier one then lowers `gFlushAllTimestamp` and brings back what was swept (`LruFlush.FlushesCanCross`).
  `LruFlush.OnlyNewServedIff` says exactly when a flush does its work: from its publication on, a key that has not
  expired is never again served with a value from before it, however the run goes on, if and only if the key is absent or its stamp is below
  the flush's, and every flush drawn but not yet published has a stamp above the key's.
- **A flush can hide a value stored after it.** A get, or a store that creates the key, whose stamp was drawn before
  the flush and whose map section comes after a later set puts the old stamp on the new value.
  `LruFlush.FlushCanHideLater` is the concrete run. `LruFlush.StaysInSightIff` says when this cannot happen: a key in
  sight at the publication is never hidden by that flush, however the run goes on, if and only if no thread then holds
  an earlier stamp that it can still put on the key.
- **A number that is no number ends the server.** Nothing between `stoul` and the start of the worker thread catches
  `out_of_range`, and incr and decr do not catch `invalid_argument` either. `set k 0 0 1` with data `a`, then
  `incr k 1`, terminates the process (`CommandStream.SetThenIncrEndsServer`); so do `touch`, `flush_all` and
  `verbosity` with a number of more than 32 bits, and a set with such an expiry. `LineCommands.TouchEscapesIff`,
  `FlushEscapesIff` and `ArithmeticEscapesIff` give the exact conditions on the line and the stored value,
  `CommandStream.LineEndsStream` what is done by then: exactly the commands before it.
- **The memory limit can be exceeded.** The byte count follows what the store holds through every eviction
  (`LruLedger.MakeRoomLedger`), but not through the operations: a new item is counted with an expiry that is never
  given back, a deleted or dropped item is never taken off, a renewed key whose old stamp is gone adds an index entry
  that is not counted, and an add over a dead item does not count the new value at all.
  `LruLedger.CountIsWorthAndDrift` is the exact ledger of every run, `LruLedger.DriftsDownIff` names the operations
  that move the count below what is held, `LruLedger.CountCovers` says that it covers it while there are none, and
  `LruLedger.LimitExceeded` is a run of three commands that holds 1822 bytes under a limit of 1000.
- **The short form of append and prepend is never read as written.** The cursor starts one character into the byte
  count: a count of one digit is answered as a malformed full form, a longer one is read without its first digit
  (`CommandErrors.ShortFormNeverRight`). And an expiry date in the past is not refused but wraps to a far one, since
  the test for a negative number compares an unsigned one (`Commands.PastExpiryWraps`).
- **A reply that outgrows the UDP buffer is read from freed memory.** ms_udp_read doubles `rudpbuf` when a datagram
  might not fit, and nobody renews the pointers that ms_sort_udp_packet has entered in `udppkt`.
  `Udp.FreedBytesDelivered` is the concrete run: 749 full datagrams, the first arriving last.
  `Udp.Reader.PrefixIff` is the exact condition of a call: the bytes handed out continue the message, whatever freed
  memory holds, if and only if the copy loop does not come to a packet entered before the last move with bytes left.
  Replies of up to 747 datagrams are safe without condition.
- **The eviction loop of add goes on without looking.** dbAddElement lacks the `continue` of dbInsertElement, so after
  moving past an empty bucket it evicts from the next one even if that is empty too (src/dblru.cpp:493-514), and
  removeLRUElement then works on iterators it never set (src/dblru.cpp:285-303). The same happens to either loop when
  another thread empties the bucket between the look and the eviction. In the model such an eviction changes nothing.
- **The string's overflow test has one blind spot.** `_string_check` compares the wrapped new size with `need`;
  `HashkitString.OverflowTest` shows that this notices every overflow except that of a completely full string of
  2^32 - 1024 bytes asked for a multiple of 1024 more, which then shrinks and reports success.
- **Encrypting an empty message has no room.** `hashkit_string_create(0)` allocates nothing, while the padded form of
  an empty message is one block; `HashkitString.CapacityCoversPadding` shows that length zero is the only such case.
- The repository's README.md (line 16) says that a bucket's only entry is evicted unconditionally, while
  src/dblru.cpp:285-290 reads `valueOne` before anything has set it. The model follows the README.

## Model

| member | source | states |
|---|---|---|
| `LruModel.BucketOf` | src/dblru.cpp:82-99 | every key, short or long, lands in one of the ten buckets |
| `LruModel.InsertStampCorrect` | src/dblru.cpp:15-23 | inserting into the ordered index keeps the order and changes membership by exactly the new stamp; a stamp already present is not replaced |
| `LruModel.EraseStampCorrect` | src/dblru.cpp:15-23 | erasing by stamp keeps the order and removes exactly the entry with that stamp |
| `LruModel.PutItemWrote` | src/dblru.cpp:384-436 | the map section of insert either leaves the map alone or writes the request's value and flags and the right cas under the key, and touches no other key |
| `LruModel.AddItemWrote` | src/dblru.cpp:518-558 | the same for add; that it leaves a live item alone is `LruStatus.AddAnswers` |
| `LruConcurrent.StepInv` | src/dblru.cpp:211-663 | every step of every thread keeps the invariant that links maps, indexes, stamps in flight and their owners |
| `LruConcurrent.MapAndIndexStayLinked` | src/dblru.cpp:211-663 | in every state of every interleaving a key in a bucket's map has an index entry in the same bucket or a thread that still owes it, and no stamp occurs twice in or across indexes or is still held by a thread |
| `LruConcurrent.EraseTouchesOwnKey` | src/dblru.cpp:421-423 | erasing a stamp drawn for a key keeps the entries of all other keys |
| `LruConcurrent.EraseIsPrivate` | src/dblru.cpp:421-423 | in every run, whatever an erase by stamp removes belongs to the key of the erasing thread |
| `LruConcurrent.StepContained` | src/dblru.cpp:211-663 | every step keeps each map a part of the map that never evicts |
| `LruConcurrent.GetsReturnLastWrite` | src/dblru.cpp:384-663 | over every interleaving, each value a get returned is that of the latest successful insert or add on its key with no successful immediate delete since |
| `LruFlush.StepSweeps` | src/dblru.cpp:211-663 | every step keeps a swept key absent, hidden under its old stamp, or written since, and fetches only what was written since; a publication does so if it is past that stamp |
| `LruFlush.SweptIsNotServed` | src/dblru.cpp:55-72 | in every interleaving and every later state, a key absent at a flush's publication, or with a stamp below the flush's then, is served only with values written after it, unless a later publication falls back to that stamp |
| `LruFlush.SweptWhileRaising` | src/dblru.cpp:55-72 | in particular through all publications that do not lower the flush stamp |
| `LruFlush.PublicationSweepsIff` | src/dblru.cpp:68-69 | the step behind that condition: a publication leaves a key swept if and only if it is past the key's stamp |
| `LruFlush.StepFlushesPast` | src/dblru.cpp:55-72 | once all flushes drawn but not published are past a stamp below the clock, so are all later draws and publications |
| `LruFlush.OnlyNewServedIff` | src/dblru.cpp:55-72 | at any publication in any run: a key that has not expired is never again served with a value from before it in any continuation, if and only if it is swept and every pending flush is past its stamp |
| `LruFlush.SurvivorIsServed` | src/dblru.cpp:55-72 | and a live key with a stamp not below the flush's at that point is served at once with its old value |
| `LruFlush.FlushCanMiss` | src/dblru.cpp:65-71 | a concrete run of two threads in which a get between draw and publication keeps an old value in service |
| `LruFlush.FlushesCanCross` | src/dblru.cpp:57-70 | a concrete run of two flushes published out of order, after which a get returns a value that had been swept |
| `LruFlush.HiddenByStepIff` | src/dblru.cpp:384-651 | the steps that put a key in sight behind a flush are exactly a get that finds it live and a store that creates it, by a thread with a stamp below the flush's |
| `LruFlush.NoneBecomesLate` | src/dblru.cpp:325 | once the clock has reached a flush's stamp, no thread comes to hold an earlier one |
| `LruFlush.StaysInSightIff` | src/dblru.cpp:55-72 | a key absent or in sight at a flush's publication is never hidden by that flush in any continuation of the run, if and only if no thread then holds an earlier stamp that it can still put on the key |
| `LruFlush.FlushCanHideLater` | src/dblru.cpp:626-651 | a concrete run in which a get older than a flush hides a value set after it |
| `LruSequential.EvictionLaw` | src/dblru.cpp:211-306 | an eviction removes exactly one index entry with its key's item: the first stale one of the two oldest, else the one with the larger value, the older on a tie, else the only one |
| `LruSequential.MakeRoomOutcome` | src/dblru.cpp:345-382 | the eviction loop ends with room for the element, or without room and with all ten indexes empty |
| `LruStatus.InsertAnswers` | src/dblru.cpp:384-446 | on the store left by making room, an insert answers MEMORY_FULL, SUCCESS, EXIST or NOT_EXIST each if and only if its condition on room, cas and the item holds; success leaves exactly the request's fields, the token, the old or new stamp and the expiry; no other key changes |
| `LruStatus.AddAnswers` | src/dblru.cpp:518-567 | an add answers EXIST if and only if there is room and the key is live, and then changes nothing; SUCCESS if and only if there is room and it is absent, expired or hidden |
| `LruStatus.AddWithRoom` | src/dblru.cpp:536-554 | with room, read before the call: EXIST if and only if the key is in the map, not below the flush stamp and not expired, and every item stays |
| `LruStatus.InsertWithRoom` | src/dblru.cpp:407-432 | with room, read before the call: when a set or cas succeeds, is refused or finds nothing |
| `LruStatus.DeleteAnswers` | src/dblru.cpp:576-611 | a delete succeeds if and only if the key is live; it removes the item or sets its expiry, and touches nothing else |
| `LruStatus.GetAnswers` | src/dblru.cpp:619-663 | a get returns the item if and only if it is live and renews its stamp, else leaves the key absent; nothing else changes |
| `LruStatus.FlushIsDelayed` | src/dblru.cpp:40-72 | an armed flush fires from now plus its delay on and not before |
| `LruStatus.FlushFiresOnce` | src/dblru.cpp:55-72 | a flush that fires is disarmed, keeps every item and hides each of them |
| `LruStatus.AddSectionLogsIff` | src/dblru.cpp:518-558 | between any steps of other threads, the map section of an add writes if and only if the key is absent, expired or hidden then |
| `LruStatus.InsertSectionLogsIff` | src/dblru.cpp:384-436 | and that of an insert if and only if there is no cas to compare or it matches |
| `LruLedger.EvictLedger` | src/dblru.cpp:233-303 | an eviction takes off the byte count exactly what its victim was worth, item and index entry or a left-over entry alone |
| `LruLedger.MakeRoomLedger` | src/dblru.cpp:345-382 | however much the loop evicts, count and worth move together |
| `LruLedger.PerformLedger` | src/dblru.cpp:315-663 | every operation moves the count away from what is held by exactly its drift, modulo 2^32 |
| `LruLedger.CountIsWorthAndDrift` | src/dblru.cpp:315-663 | in every state of every run the count is what the store holds plus the drifts so far, modulo 2^32 |
| `LruLedger.CountCovers` | src/dblru.cpp:345-352 | so the count covers what is held while no operation has drifted down |
| `LruLedger.DriftsDownIff` | src/dblru.cpp:415-551 | the operations that drift down are exactly writes and fetches of a key whose stamp is not indexed, and adds over a dead item of fewer bytes |
| `LruLedger.CreatedWithinLimit` | src/dblru.cpp:345-352 | an insert that creates its item leaves the count below the limit |
| `LruLedger.LimitExceeded` | src/dblru.cpp:536-552 | a run of two adds and an insert, all successful, that holds 1822 bytes under a limit of 1000 |
| `LruLedger.UsedIsNewest` | src/dblru.cpp:440-659 | the key an operation stored or fetched is the newest entry of its bucket's index |
| `LruRuns.PerformEffect` | src/dblru.cpp:315-663 | what each operation can do to each key, evictions included: write, delete, renew, drop or nothing |
| `LruRuns.RunKeepsInv` | src/dblru.cpp:40-663 | over every sequential run each item in the maps is the latest write of its key, and stamps stay in step with the clock |
| `LruRuns.GetReturnsLastWrite` | src/dblru.cpp:619-663 | a get that succeeds returns value, flags and cas of the latest successful write |
| `LruRuns.FlushHidesEarlierWrites` | src/dblru.cpp:55-72 | once a flush has fired, a get returns only what was written after it |
| `LruRuns.UnhiddenStaysUnhidden` | src/dblru.cpp:55-72 | a key that is absent or visible stays so until the next flush fires, so a key inserted afresh is not hidden by an earlier flush |
| `LruRuns.GetMissesIff` | src/dblru.cpp:630-651 | a get misses if and only if the key is absent, hidden by the last flush or expired |
| `LruRuns.InsertHiddenIff` | src/dblru.cpp:398-425 | a successful insert is hidden by the last flush if and only if the key was hidden before the call and no eviction took it; with room for the element, if and only if it was hidden before |
| `LruRuns.AddHiddenIff` | src/dblru.cpp:531-551 | the same for a successful add |
| `LruRuns.OverwriteStaysHidden` | src/dblru.cpp:398-425 | so a set on a flushed key that needs no eviction succeeds and the next get misses |
| `LruRuns.AddStaysHidden` | src/dblru.cpp:531-551 | and so does an add |
| `LruRuns.SetFlushSetGetMisses` | src/dblru.cpp:40-72 | a concrete run of that family from the empty store: set, flush_all, set, get |
| `LruRuns.SetFlushAddGetMisses` | src/dblru.cpp:536-551 | the same run with add for the second set |
| `LruStore.Cache.HashTblNbrFromKey` | src/dblru.cpp:82-99 | the loop over the last five characters computes the bucket |
| `LruStore.Cache.RemoveLruElement` | src/dblru.cpp:211-306 | the scan and comparison in place is the eviction the law above describes, on one bucket and the size counter |
| `LruStore.Cache.MakeSpace` | src/dblru.cpp:345-382 | the loop leaves room or ten empty indexes, and takes at most one turn per index entry plus ten |
| `LruStore.Cache.InsertElement` | src/dblru.cpp:315-447 | new store and status of an insert, MEMORY_FULL and cas mismatch included |
| `LruStore.Cache.AddElement` | src/dblru.cpp:455-568 | new store and status of an add, of which `LruStatus.AddAnswers` says when a live key refuses it |
| `LruStore.Cache.DeleteElement` | src/dblru.cpp:576-611 | new store and status of a delete, immediate or delayed, and of one on a stale key |
| `LruStore.Cache.GetElement` | src/dblru.cpp:619-663 | the entry found, with its stamp renewed in map and index, or a miss that drops a stale item |
| `LruStore.Cache.SetFlushAll` | src/dblru.cpp:40-47 | a flush is armed for now plus its delay |
| `LruStore.Cache.HandleFlushAll` | src/dblru.cpp:55-72 | an armed flush whose time has come draws a stamp, publishes it and disarms itself |
| `Framing.CutOnTrack` | src/ssock.cpp:90-141 | one cut keeps the loop inside the current command or takes it exactly past it |
| `Framing.RunReceives` | src/ssock.cpp:45-143 | from any point of the stream, after any chunks and whatever is still to come, all commands are done but those left, and less than the first of these is held |
| `Framing.DoneAsReceived` | src/ssock.cpp:45-143 | at any wait for bytes exactly the commands received in full are done, data is the received part of the next, and nothing is set aside |
| `Framing.ChunkingIsIrrelevant` | src/ssock.cpp:45-143 | every way of cutting a stream of well-formed commands into non-empty chunks completes the same commands in the same order and leaves nothing buffered, set aside or waited for |
| `Framing.EndStops` | src/ssock.cpp:123-134 | a quit or an escaping exception cuts any run short exactly where the loop would have completed the buffer |
| `Framing.EndCutsStream` | src/ssock.cpp:45-143 | a stream with such a command in it, however cut, completes exactly the commands before it |
| `Framing.CutAndProcess` | src/ssock.cpp:90-141 | the code after the append: search for CRLF, keep the rest aside, account, ask the parser |
| `Framing.HandleIncomingConn` | src/ssock.cpp:31-157 | the loop over successive receives hands exactly those commands to the parser and closes exactly on quit |
| `CommandStream.StorageWellFormed` | src/scmd.cpp:22-172 | every printed storage command is well formed for the real parser: it asks for the missing bytes at each cut and is satisfied at the end only |
| `CommandStream.OneLineWellFormed` | src/scmd.cpp:1169-1257 | so is every one-line command that is no bare quit and whose handler does not throw at its moment |
| `CommandStream.StreamsParseAlike` | src/ssock.cpp:45-143 | any list of storage and one-line commands, however cut, is completed one by one by the real parser with nothing left over, as long as none is a quit and no handler throws on what the store then holds |
| `CommandStream.StreamsParseAsReceived` | src/ssock.cpp:45-143 | and while the list is still arriving, exactly the commands received in full are done |
| `CommandStream.LineEndsStream` | src/ssock.cpp:45-143 | a list in which one line is a bare quit or makes its handler throw: exactly the commands before it are done, whatever follows, and the loop ends with that result |
| `CommandStream.QuitClosesStream` | src/scmd.cpp:1115-1123 | commands followed by quit, whatever follows that: the commands are done, then the connection closes |
| `CommandStream.SetThenIncrEndsServer` | src/scmd.cpp:732-733 | a set of a value that is no number, then an incr of it, however cut: the set is done and the incr's exception escapes |
| `Text.StoulDecIff` | src/scmd.cpp:140-148 | stoul reads back what to_string printed, and throws out_of_range on exactly the numbers of more than 32 bits |
| `Commands.ProcessCommon` | src/scmd.cpp:22-172 | the two-cursor parser computes every field, error reply, escaping exception and read-more count of the specification |
| `Commands.ProcessBytes` | src/scmd.cpp:86-100 | its part from the bytes field on, with the cas field |
| `Commands.ProcessTail` | src/scmd.cpp:101-139 | its part that tells a noreply from the end of the line |
| `Commands.ProcessData` | src/scmd.cpp:140-171 | its part that reads the count and the data block or asks for the rest |
| `Commands.FullFormParsed` | src/scmd.cpp:22-172 | the full form parses to the printed fields and the data so far; an expiry of at most 30 days is kept, any other below 2^32 becomes what is left until then, modulo 2^32 |
| `Commands.PastExpiryWraps` | src/scmd.cpp:62-71 | an expiry date in the past is kept as one 2^32 seconds later; it is never refused |
| `Commands.ShortFormFails` | src/scmd.cpp:319-338 | on the full form the first attempt of append and prepend always ends in an error reply, so the second one decides |
| `Commands.PrintedCommandParses` | src/scmd.cpp:22-172 | printing any storage command and parsing any prefix that holds its line recovers every field and the data so far; a short block asks for the missing bytes plus two, exactly |
| `Commands.AskPrinted` | src/scmd.cpp:1169-1257 | the same seen from the receive loop, through the command word |
| `Commands.LargeExpTimeThrows` | src/scmd.cpp:58-79 | a storage line with an expiry of more than 32 bits makes the parser throw what it does not catch |
| `Commands.LargeExpTimeEscapes` | src/scmd.cpp:1169-1257 | so a set, add, replace or cas with one ends the server |
| `CommandErrors.KeyMissing` | src/scmd.cpp:25-32 | a line of the word alone is answered with key not found |
| `CommandErrors.FlagsMissing` | src/scmd.cpp:33-42 | a line of word and key with flags not found |
| `CommandErrors.ExpTimeMissing` | src/scmd.cpp:44-54 | a line of word, key and flags with expiry time not found |
| `CommandErrors.ExpTimeInvalid` | src/scmd.cpp:56-79 | an exptime that stoul refuses with invalid expiry time |
| `CommandErrors.BytesMissing` | src/scmd.cpp:80-86 | a line that ends after the exptime with bytes not found, whatever follows the line |
| `CommandErrors.BytesInvalid` | src/scmd.cpp:140-148 | a byte count that stoul refuses with invalid number of bytes |
| `CommandErrors.JunkIff` | src/scmd.cpp:118-138 | what follows the byte count is answered as junk if and only if it is neither nothing nor noreply with or without a space behind |
| `CommandErrors.CasMissingIff` | src/scmd.cpp:88-115 | a cas line without its cas field is refused if and only if a space follows later in the input |
| `CommandErrors.ShortFormRead` | src/scmd.cpp:33-88 | the short form is parsed with the first character of its byte count skipped |
| `CommandErrors.ShortFormNeverRight` | src/scmd.cpp:319-333 | so append and prepend in the short form answer an error for a count of one digit and else take a smaller count, or throw when that is out of range |
| `LineCommands.ReadFields` | src/scmd.cpp:678-715 | the two cursors find key, number and noreply as the line has them, or name the missing field |
| `LineCommands.ProcessArithmetic` | src/scmd.cpp:676-765 | every outcome: which field is missing, not found, a throw exactly on a live key whose amount or stored value is no 32-bit number, a refused zero, and in all other cases an update to the sum modulo 2^32, or to the difference, 0 when the amount is not smaller |
| `LineCommands.ProcessTouch` | src/scmd.cpp:874-954 | every outcome: a missing field, an invalid expiry, a throw exactly on one of more than 32 bits, not found, else the old value under the new expiry |
| `LineCommands.ProcessFlushAll` | src/scmd.cpp:961-1033 | every outcome by the options on the line: the delay armed, 0 without a number, nothing armed on an error; a throw exactly on a delay of more than 32 bits |
| `LineCommands.ProcessVerbosity` | src/scmd.cpp:1057-1108 | every outcome: no level, an invalid one, a throw exactly on one of more than 32 bits, else OK or silence |
| `LineCommands.KeyLineFields` | src/scmd.cpp:678-706 | the fields of a printed line are those printed |
| `LineCommands.KeyLineNoreply` | src/scmd.cpp:700-715 | and a word behind the number asks for silence if and only if it is noreply |
| `LineCommands.BareLineOptions` | src/scmd.cpp:972-978 | a line of the word alone has no option |
| `LineCommands.TwoOptions` | src/scmd.cpp:1007-1027 | a line of word and two tokens has those two options |
| `LineCommands.TouchEscapesIff` | src/scmd.cpp:906-914 | on a printed line touch ends the server if and only if its expiry is out of range |
| `LineCommands.FlushEscapesIff` | src/scmd.cpp:992-1017 | flush_all and verbosity likewise |
| `LineCommands.ArithmeticEscapesIff` | src/scmd.cpp:732-733 | incr and decr do so if and only if the key is live and the amount or the stored value is no 32-bit number |
| `LineCommands.PrintedNumberEscapesIff` | src/scmd.cpp:906-1089 | for printed numbers: if and only if they are 2^32 or more |
| `LineCommands.EscapingLines` | src/scmd.cpp:732-1089 | concrete lines that end the server |
| `GetReply.ParseKeys` | src/scmd.cpp:501-526 | the key loop computes the keys of the line or its error |
| `GetReply.KeysRoundTrip` | src/scmd.cpp:501-526 | the key loop undoes joining the keys with single spaces |
| `GetReply.BuildReply` | src/scmd.cpp:528-548 | a client that decodes the reply gets one block for exactly the positions at which the lookup found something, in request order, each with that key, its flags, value and, for gets, cas, when these are tokens |
| `GetReply.HitsFound` | src/scmd.cpp:528-548 | the hits are exactly the keys found, in strictly increasing order of their positions |
| `GetReply.ReplyText` | src/scmd.cpp:536-545 | the literal text of a reply of one key, without and with its cas |
| `GetReply.ReplyDecodes` | src/scmd.cpp:528-607 | decoding the reply by its length fields recovers exactly the hits in order, whatever bytes the values hold, CRLF and END included |
| `ThreadPool.ClearDescriptor` | src/ssock.cpp:406-415 | clearing removes exactly that descriptor and leaves the largest remaining one as max_sd |
| `ThreadPool.StepInv` | src/ssock.cpp:165-194 | every step of dispatcher and workers keeps the invariant on locks, queue and history |
| `ThreadPool.TakesAreFifo` | src/ssock.cpp:167-194 | in every interleaving the n-th take is of the n-th descriptor pushed, by one worker, and what is left is the queue |
| `ThreadPool.SectionFindsDescriptor` | src/ssock.cpp:175-179 | a worker inside the section never finds the queue empty, so none goes on with sockDescMutex locked |
| `ThreadPool.MaxSdIsMaximum` | src/ssock.cpp:385-415 | whenever masterMutex is free, max_sd is the largest member of master_set |
| `ThreadPool.ClearIsPossible` | src/ssock.cpp:402-417 | after a push the dispatcher can always clear the descriptor; its scan finds a member |
| `ThreadPool.PushedOncePerAccept` | src/ssock.cpp:328-417 | in every run, between two hand-overs of one descriptor to the workers it was accepted anew |
| `ThreadPool.WatchedWasAccepted` | src/ssock.cpp:381-389 | and only accepting brings a descriptor into the watched set |
| `Messages.AppendEntry` | libmemcached/clients/ms_conn.c:2139-2162 | an entry written behind the live ones keeps the list well built and appends its bytes |
| `Messages.AddMessage` | libmemcached/clients/ms_conn.c:2019-2062 | so does a new message header behind the live entries |
| `Messages.Repointed` | libmemcached/clients/ms_conn.c:2091-2095 | pointers recomputed from the entry counts are right again after a reallocation |
| `Messages.Repoint` | libmemcached/clients/ms_conn.c:2091-2095 | the loop that recomputes them gives each message the sum of the counts before it |
| `Messages.Sender.constructor` | libmemcached/clients/ms_conn.c:342-344 | an empty list is well built |
| `Messages.Sender.EnsureIovSpace` | libmemcached/clients/ms_conn.c:2073-2099 | growth doubles the list, makes room, keeps the entries and leaves no message pointing into the old list |
| `Messages.Sender.PutEntry` | libmemcached/clients/ms_conn.c:2139-2162 | one entry appended to the last message, counted in it and in its bytes |
| `Messages.Sender.AddMsghdr` | libmemcached/clients/ms_conn.c:2019-2062 | a new message, with its reserved header slot for UDP |
| `Messages.Sender.AddPart` | libmemcached/clients/ms_conn.c:2120-2164 | one turn of the append loop: a new message exactly when the last is full, one entry of as many bytes as fit, the rest left over exactly when the datagram is full |
| `Messages.Sender.AddIov` | libmemcached/clients/ms_conn.c:2112-2167 | appending any buffer, whatever splits and growth it takes, appends exactly its bytes; every message but the last stays full; no message is started if and only if the last one has an entry free and, for UDP, the bytes, and the buffer is then one more entry of it; the split loop ends |
| `Messages.BuiltFull` | libmemcached/clients/ms_conn.c:2129-2137 | the guard that starts a new message holds if and only if the last one is full: IOV_MAX entries, or MTU bytes for UDP |
| `Messages.Sender.BuildUdpHeaders` | libmemcached/clients/ms_conn.c:2177-2227 | the reserved slot of the only message gets its eight header bytes and nothing else changes; more messages are refused |
| `Messages.Sender.Assembled` | libmemcached/clients/ms_conn.c:2019-2167 | after any appends the slices join to what was appended, each msg_iov sits at the prefix sum of earlier counts in the current list, and a UDP message is a header slot and slices of at most 1400 bytes together |
| `Transmit.Transmitter.Consume` | libmemcached/clients/ms_conn.c:2261-2276 | dropping finished entries and advancing the one written in part removes exactly the bytes sent |
| `Transmit.Transmitter.TransmitOnce` | libmemcached/clients/ms_conn.c:2240-2301 | bytes handed over followed by bytes pending stay the message list; each of the four results comes if and only if its case holds, completion only when nothing is pending |
| `Transmit.AssembledIsSent` | libmemcached/clients/ms_conn.c:2019-2301 | a TCP list the appends assembled can be transmitted, and what will be sent is what was appended, in order |
| `Transmit.UdpRequestIsSent` | libmemcached/clients/ms_conn.c:2177-2301 | a UDP message that the appends assembled, with its slot filled, can be transmitted: eight header bytes, then what was appended, within 1400 bytes, which the reader's macros take for packet 0 of 1 with that payload |
| `Transmit.BuildUdpRequest` | libmemcached/clients/ms_conn.c:2999-3004 | from a fresh list, a UDP request is accepted as one message if and only if it has at most 1023 buffers and 1392 bytes and does not end with an empty buffer behind the 1392nd; it will then be sent as its header and its buffers in order |
| `Udp.CountFromBytes` | libmemcached/clients/ms_conn.c:1441-1450 | the number of datagrams, and whether the last is short, can be told from the number of bytes |
| `Udp.HeaderRead` | libmemcached/clients/ms_conn.c:1461-1490 | what the code reads from a header, and the payload length it infers, are the datagram's own |
| `Udp.ArrivalsBounded` | libmemcached/clients/ms_conn.c:1427-1550 | distinct sequence numbers below the count bound the arrivals |
| `Udp.DeliveredIsPrefix` | libmemcached/clients/ms_conn.c:1493-1546 | what full packets and a part of the next add up to is a prefix of the payloads in sequence order |
| `Udp.Reader.MakeRoom` | libmemcached/clients/ms_conn.c:1574-1585 | the buffer doubles exactly when a datagram might not fit, and may move; no packet pointer changes |
| `Udp.Reader.Read` | libmemcached/clients/ms_conn.c:1572-1604 | a datagram read behind the others keeps the buffer a record of the arrivals; if it moved the buffer, every entered packet with bytes left is stale |
| `Udp.Reader.EnterPacket` | libmemcached/clients/ms_conn.c:1461-1490 | one datagram entered in the table under its sequence number, pointing into the current buffer |
| `Udp.Reader.EnterPackets` | libmemcached/clients/ms_conn.c:1441-1491 | all new datagrams entered, each known once, a short last one again when it has grown |
| `Udp.Reader.CopyPacket` | libmemcached/clients/ms_conn.c:1496-1519 | one copy takes as many bytes as there are and fit from where the packet's pointers point, and moves on only past a full packet |
| `Udp.ExposedIff` | libmemcached/clients/ms_conn.c:1493-1546 | the copy loop comes to stale pointers if and only if some stale packet lies behind packets that have all arrived and leave room for it |
| `Udp.OutputRight` | libmemcached/clients/ms_conn.c:1493-1546 | with no stale packet in reach the bytes are the right ones, whatever freed memory holds |
| `Udp.OutputWrong` | libmemcached/clients/ms_conn.c:1509-1510 | with one in reach freed memory can make them wrong |
| `Udp.RightContinues` | libmemcached/clients/ms_conn.c:1493-1546 | the right bytes continue what has been delivered as a prefix of the message |
| `Udp.Reader.CopyOut` | libmemcached/clients/ms_conn.c:1493-1546 | the second loop hands out exactly these bytes, its index equal to ordcurr at each copy |
| `Udp.Reader.PrefixIff` | libmemcached/clients/ms_conn.c:1427-1550 | the next call continues the message whatever freed memory holds, if and only if no stale packet is in reach |
| `Udp.Reader.SmallMessageSafe` | libmemcached/clients/ms_conn.c:1574-1585 | a message that leaves room for another datagram in the first buffer never has stale packets |
| `Udp.Reader.SortUdpPacket` | libmemcached/clients/ms_conn.c:1427-1550 | over all calls and arrival orders the bytes delivered are a prefix of the payloads joined in sequence order, as long as no call has a stale packet in reach, and without condition for messages of up to 747 datagrams; with everything arrived and room to copy, -1 means that all has been handed out |
| `Udp.FreedBytesDelivered` | libmemcached/clients/ms_conn.c:1572-1622 | a reply of 749 datagrams, the first arriving last, whose bytes come out wrong |
| `KeyPrefix.Counter.Next` | libmemcached/clients/ms_conn.c:173-184 | successive calls return the successive prefixes of which the next two rows speak |
| `KeyPrefix.PrefixesIncrease` | libmemcached/clients/ms_conn.c:173-184 | until the counter wraps, prefixes strictly increase |
| `KeyPrefix.PrefixBytesPrintable` | libmemcached/clients/ms_conn.c:55-63 | none of the eight bytes of any prefix is NUL, LF, CR or space |
| `KeyPrefix.OrMaskBytes` | libmemcached/clients/ms_conn.c:178 | each byte of a prefix is that of the counter with the bit of the mask set |
| `KeyPrefix.OrByteIsOr` | libmemcached/clients/ms_conn.c:178 | which is the bitwise or with 0x10 |
| `Gf256.InvSubSub` | libmemcached/libhashkit/rijndael.cc:68-80 | Si inverts S on all 256 bytes |
| `Gf256.InvMixMixByte` | libmemcached/libhashkit/rijndael.cc:68-80 | the 0e 0b 0d 09 row undoes the 02 03 01 01 matrix, for all column bytes |
| `Sbox.SubIsAffine` | libmemcached/libhashkit/rijndael.cc:68-80 | S is section 5.1.1 of FIPS 197: the affine map of the inverse in GF(2^8), of 0 for 0 |
| `Sbox.ProductsAreMul` | libmemcached/libhashkit/rijndael.cc:68-80 | the six multiples in the tables are products in GF(2^8) |
| `Fips197.InvMixAddRoundKey` | libmemcached/libhashkit/rijndael.cc:865-887 | InvMixColumns passes through the addition of a round key |
| `Fips197.InverseRoundKey` | libmemcached/libhashkit/rijndael.cc:857-887 | which round key, mixed or not, the inverse schedule holds at each round |
| `Fips197.InvRoundsRetrace` | libmemcached/libhashkit/rijndael.cc:1072-1251 | k rounds of the equivalent inverse cipher take the state back k rounds |
| `Fips197.EqInvCipherCorrect` | libmemcached/libhashkit/rijndael.cc:1072-1251 | for every schedule and state, the equivalent inverse cipher of section 5.3.5 of FIPS 197 under the inverse schedule undoes the cipher |
| `Rijndael.EncWordMixes` | libmemcached/libhashkit/rijndael.cc:980-1035 | four Te lookups and a key word are SubBytes, MixColumns and AddRoundKey of one column |
| `Rijndael.TdMixes` | libmemcached/libhashkit/rijndael.cc:1160-1216 | four Td lookups are InvSubBytes and InvMixColumns of one column |
| `Rijndael.InvMixWordMixes` | libmemcached/libhashkit/rijndael.cc:865-887 | reached through Te4, the Td tables mix a schedule word without substituting it |
| `Rijndael.RconTable` | libmemcached/libhashkit/rijndael.cc:744-748 | the ten constants are the powers of x in GF(2^8) |
| `Rijndael.EncRound` | libmemcached/libhashkit/rijndael.cc:980-1035 | the four word expressions of a round are one round of the cipher, rows shifted |
| `Rijndael.DecRound` | libmemcached/libhashkit/rijndael.cc:1160-1216 | the four word expressions of an inverse round are one round of the equivalent inverse cipher |
| `Rijndael.PutU32` | libmemcached/libhashkit/rijndael.cc:1037-1069 | a word stored most significant byte first, nothing else changed |
| `Rijndael.Encrypt` | libmemcached/libhashkit/rijndael.cc:891-1070 | the two-rounds-a-turn loop writes Cipher of the block and no other byte |
| `Rijndael.Decrypt` | libmemcached/libhashkit/rijndael.cc:1072-1251 | the same for the equivalent inverse cipher |
| `Rijndael.LoadKey` | libmemcached/libhashkit/rijndael.cc:769-814 | the first words of the schedule are the key |
| `Rijndael.StoreFirst` | libmemcached/libhashkit/rijndael.cc:775-781 | the word after each multiple of the key length is rotated, substituted and given its round constant |
| `Rijndael.StoreFifth` | libmemcached/libhashkit/rijndael.cc:830-835 | the fifth word of a 256-bit turn continues the expansion, in which by `Rijndael.FilledSchedule` it is substituted without rotation |
| `Rijndael.Expand128` | libmemcached/libhashkit/rijndael.cc:773-790 | 44 words of the recurrence of section 5.2 of FIPS 197 |
| `Rijndael.Expand192` | libmemcached/libhashkit/rijndael.cc:793-812 | 52 words of it |
| `Rijndael.Expand256` | libmemcached/libhashkit/rijndael.cc:815-842 | 60 words of it, the substituted fifth of each turn among them |
| `Rijndael.KeySetupEnc` | libmemcached/libhashkit/rijndael.cc:765-844 | for 128, 192 and 256 bits the array holds the key and then, word by word, the recurrence of section 5.2 of FIPS 197: rotated, substituted and given its constant at multiples of the key length, substituted half-way for 256 bits, else the plain sum; nothing beyond it is written, other sizes give 0 rounds |
| `Rijndael.FilledSchedule` | libmemcached/libhashkit/rijndael.cc:765-844 | the recurrence over the stored words themselves, in its three cases, for each key size |
| `AesVectors.NextTurn` | libmemcached/libhashkit/rijndael.cc:815-842 | eight words of a 256-bit schedule from the eight before them |
| `AesVectors.A3Words56` | libmemcached/libhashkit/rijndael.cc:815-842 | the last words that appendix A.3 of FIPS 197 prints for its 256-bit key; A3Words0, A3Words24 and A3Words40 are those before |
| `AesVectors.C3Answer` | libmemcached/libhashkit/rijndael.cc:891-1070 | the known answer of appendix C.3 of FIPS 197: the cipher of that plaintext under that 256-bit key |
| `Rijndael.ReverseRoundKeys` | libmemcached/libhashkit/rijndael.cc:858-863 | the swapping loop reverses the order of the round keys and keeps each one's words in order |
| `Rijndael.MixRoundKeys` | libmemcached/libhashkit/rijndael.cc:865-887 | InvMixColumns on every round key but the first and the last |
| `Rijndael.KeySetupDec` | libmemcached/libhashkit/rijndael.cc:851-889 | the decryption schedule is the inverse schedule of the encryption one |
| `Rijndael.DecryptUndoesEncrypt` | libmemcached/libhashkit/rijndael.cc:765-1251 | for every key and block, decryption under the one schedule undoes encryption under the other |
| `Rijndael.EncryptThenDecrypt` | libmemcached/libhashkit/rijndael.cc:765-1251 | both setups and both ciphers run in sequence on arrays give the block back |
| `HashkitString.OverflowTest` | libmemcached/libhashkit/string.cc:53-66 | the overflow test is right if and only if the string is not full at 2^32 - 1024 bytes and asked for a multiple of 1024 |
| `HashkitString.GrownToBoundary` | libmemcached/libhashkit/string.cc:57-61 | growth goes to the next multiple of 1024 past the new length |
| `HashkitString.DeceivedShrinks` | libmemcached/libhashkit/string.cc:57-78 | in that case the new size is just the need, no larger than the string already is |
| `HashkitString.CapacityCoversPadding` | libmemcached/libhashkit/string.cc:90-105 | the capacity asked for a source covers its padded form if and only if the source is not empty |
| `HashkitString.ByteString.Check` | libmemcached/libhashkit/string.cc:51-82 | room for need more bytes with the contents kept, false exactly when no size can hold them, no new buffer when there is room; in the case the overflow test misses, a shrunk string and a success |
| `HashkitString.Create` | libmemcached/libhashkit/string.cc:90-105 | an empty string of the capacity asked for, or null exactly when that overflows |
| `HashkitString.ByteString.Append` | libmemcached/libhashkit/string.cc:135-151 | the contents followed by the value, or unchanged on failure |
| `HashkitString.ByteString.SetLength` | libmemcached/libhashkit/string.cc:240-247 | the length set; within the free capacity nothing is reallocated |
| `Aes.FoldKey` | libmemcached/libhashkit/aes.cc:68-83 | each byte of the folded key is the exclusive or of the key bytes at its position modulo 32 |
| `Aes.FoldedShort` | libmemcached/libhashkit/aes.cc:68-83 | a key of at most 32 bytes is extended with zeros |
| `Aes.FoldedLong` | libmemcached/libhashkit/aes.cc:68-83 | a longer key is cut into pieces of 32 bytes which are added byte by byte |
| `Aes.Key.constructor` | libmemcached/libhashkit/aes.cc:63-90 | both schedules come from the folded key, 14 rounds each |
| `Aes.KeyInverse` | libmemcached/libhashkit/aes.cc:85-86 | the two block ciphers of a created key are inverses on every block |
| `Aes.UnpadPad` | libmemcached/libhashkit/aes.cc:132-181 | stripping undoes the padding of section 6.3 of RFC 5652, for every length |
| `Aes.PadBytes` | libmemcached/libhashkit/aes.cc:131-134 | from one to sixteen bytes follow the message and each of them is their number |
| `Aes.EachInverse` | libmemcached/libhashkit/aes.cc:123-166 | block by block, inverse ciphers undo each other |
| `Aes.OpenSeal` | libmemcached/libhashkit/aes.cc:108-185 | for any pair of inverse block ciphers and every message, decryption of the encryption is the message |
| `Aes.EncryptBlocks` | libmemcached/libhashkit/aes.cc:123-135 | the block loop and the made-up last block write the encryption of the padded message, inside the buffer |
| `Aes.DecryptLeading` | libmemcached/libhashkit/aes.cc:161-166 | every block but the last decrypted in turn into the buffer |
| `Aes.DecryptBlocks` | libmemcached/libhashkit/aes.cc:161-180 | the block loop and the stripped last block write the decrypted message, or refuse a pad length above 16 |
| `Aes.Encrypt` | libmemcached/libhashkit/aes.cc:108-140 | the result holds the encrypted padded message in the buffer first created |
| `Aes.Decrypt` | libmemcached/libhashkit/aes.cc:142-185 | null exactly for a missing key, a bad length, a bad pad length or no room; otherwise the message |
| `Aes.SealThenOpen` | libmemcached/libhashkit/aes.cc:63-185 | key creation, encryption and decryption in sequence give back every message that is not empty, whenever its ciphertext has room |
| `Md5.DecodeEncode` | libmemcached/libhashkit/md5.cc:362-391 | decoding the bytes of a list of words gives the words |
| `Md5.EncodeDecode` | libmemcached/libhashkit/md5.cc:362-391 | and the other way round |
| `Md5.Encode` | libmemcached/libhashkit/md5.cc:362-375 | the loop writes the words low-order byte first and nothing else |
| `Md5.Decode` | libmemcached/libhashkit/md5.cc:381-391 | the loop reads them back and writes nothing else |
| `Md5.ZerosLeast` | libmemcached/libhashkit/md5.cc:251-253 | the zeros of section 3.1 of RFC 1321 are the fewest that bring the length to 56 modulo 64 |
| `Md5.PadLength` | libmemcached/libhashkit/md5.cc:251-253 | the pad length the code computes is the marker and those zeros, and the static array holds them |
| `Md5.PadBits` | libmemcached/libhashkit/md5.cc:239-253 | after the message comes a single one bit, high-order bit first, then only zero bits up to the length |
| `Md5.PadLengthField` | libmemcached/libhashkit/md5.cc:246-256 | the last eight bytes are the bit count modulo 2^64, low-order byte first |
| `Md5.InitBytes` | libmemcached/libhashkit/md5.cc:181-190 | the state starts as the sixteen bytes of section 3.3 of RFC 1321 |
| `Md5.PadInjective` | libmemcached/libhashkit/md5.cc:239-256 | two messages with one padded form are the same message |
| `Md5.CountAdds` | libmemcached/libhashkit/md5.cc:209-212 | with the carry noticed by comparison, the two words count bits modulo 2^64 |
| `Md5.CountIndex` | libmemcached/libhashkit/md5.cc:205 | the low word alone tells the number of bytes modulo 64 |
| `Md5.SoundIff` | libmemcached/libhashkit/md5.cc:222 | the exact inputs on which the block loop's index does not wrap: its test then ends the loop at the last start |
| `Md5.NoWrap` | libmemcached/libhashkit/md5.cc:222 | on those the loop goes on exactly while a whole block is left |
| `Md5.Context.constructor` | libmemcached/libhashkit/md5.cc:181-190 | the initialised context stands for the empty message, whatever its buffer holds |
| `Md5.Context.TransformBlocks` | libmemcached/libhashkit/md5.cc:222-223 | every whole block of the input goes through the transform once, in order |
| `Md5.Context.Update` | libmemcached/libhashkit/md5.cc:197-233 | a context that stands for m stands for m followed by the input: bit count, state after its whole blocks, rest in the buffer |
| `Md5.Context.Final` | libmemcached/libhashkit/md5.cc:239-264 | the digest is the encoded state after exactly the blocks of the padded message, and the context is wiped |
| `Md5.Signature` | libmemcached/libhashkit/md5.cc:170-177 | for every key below 2^32 bytes the transform meets exactly the blocks of the padded key |
| `Md5.HashkitMd5` | libmemcached/libhashkit/md5.cc:393-404 | the hash is the first state word of that, for the length truncated to 32 bits |
| `Jenkins.DigestBlock` | libmemcached/libhashkit/jenkins.cc:113-121 | taking one block of three words leaves the digest of the rest |
| `Jenkins.KeepIsWordAt` | libmemcached/libhashkit/jenkins.cc:133-149 | a word read past the end and masked is the zero-extended word, whatever lies past the end |
| `Jenkins.WordTail` | libmemcached/libhashkit/jenkins.cc:133-149 | all thirteen tail cases of the 32-bit path |
| `Jenkins.WordPath` | libmemcached/libhashkit/jenkins.cc:108-151 | the 32-bit path computes the digest of the key's bytes |
| `Jenkins.HalfTail` | libmemcached/libhashkit/jenkins.cc:169-199 | all thirteen tail cases of the 16-bit path |
| `Jenkins.HalfPath` | libmemcached/libhashkit/jenkins.cc:152-201 | the 16-bit path computes the same digest |
| `Jenkins.AddDown` | libmemcached/libhashkit/jenkins.cc:228-245 | falling through the byte cases adds the zero-extended word |
| `Jenkins.ByteTail` | libmemcached/libhashkit/jenkins.cc:228-245 | all thirteen tail cases of the byte-wise path |
| `Jenkins.BytePath` | libmemcached/libhashkit/jenkins.cc:205-245 | the byte-wise path computes the same digest |
| `Jenkins.HashkitJenkins` | libmemcached/libhashkit/jenkins.cc:96-252 | wherever the key lies in memory, the hash depends on its bytes alone |
| `Jenkins.PathsAgree` | libmemcached/libhashkit/jenkins.cc:108-250 | the three paths return one value on three copies of any key |
| `JenkinsVectors.Apple` | libmemcached/tests/hash_results.h:129 | the hash of "apple" is the first value of the library's own table |
| `JenkinsVectors.Mushrooms` | libmemcached/tests/hash_results.h:132 | that of "mushrooms", which reaches the third word, is the thirteenth |
| `JenkinsVectors.Address` | libmemcached/libhashkit/jenkins.cc:57-76 | two mixed blocks and a rest from the initial value 0 give the value lookup3.c publishes for its text of 30 bytes |

## Left out

- Allocation failure everywhere, and the early returns of the store that leave a lock held (src/dblru.cpp:291-294, 391-394, 525-528).
- The wrap-around of the store's clock: stamps are unbounded. The system times a get has read fit an unsigned long in StaysInSightIff. Time is read once per operation in the sequential store.
- Zero-length stored values and values ending in CRLF in the framing results: the loop treats their trailing CRLF differently. Lines whose CRLF comes before index 2 are outside them too.
- Requests of 2^31 bytes and more in the parser's round trip: the read-more count is an int there.
- The bodies of the commands that only call the store and print a status (set, replace, cas, delete, stats, version); of incr, decr and touch what comes after the new value is known. That get, gets, delete, stats and version return, and do not throw on any line, is taken from their text: they read no number.
- The liveness of the thread pool (lost wake-ups), the limit on active threads, and reads of the queue's size outside its lock other than as single steps.
- IOV_MAX is taken as 1024, and pointers into reallocated lists as an allocation number and an index.
- LruStore.Cache.AddElement: an eviction from an empty bucket changes nothing here, while the source goes through iterators it never set.
- Md5.Context.Update: the inputs that SoundIff rules out, within 64 bytes of 2^32 on a context whose buffer is not empty, on which the loop reads past the input; md5_signature never makes such a call.
- HashkitString.ByteString.Append: the request that OverflowTest names, on which the code writes past the shrunk buffer.
- Udp.Reader.Read: duplicate datagrams, and short ones other than the last, for which the reassembly promises nothing.
- The buffer for UDP headers and its growth, which only the header bytes of one message use.
- MD5Transform: the 64 steps of the block transform are a parameter.
- Aes.Encrypt: the empty message, for which the code writes through a null buffer.
- The literal Te and Td tables: they are the columns that rijndael.cc:68-80 says they are. The FULL_UNROLL variant and the functions for intermediate values.
- Big-endian machines in the Jenkins hash.
- Sockets, select, libevent, option parsing, the command-line clients, ratio control and statistics of memaslap, the other hash functions and ketama.
