# A Dafny model of DDS-Record-Replay

This project models the parts of the recorder, the replayer and the converter that are easiest to
get wrong, together with the third-party code they lean on, and proves what each part promises. Run
`dafny verify dfyconfig.toml` to check it all.

- `HandlerModel`, `HandlerInvariant`, `HandlerTheorems`, `HandlerHistory`, `HandlerCleanup`,
  `BaseHandler`, `HandlerProtocol`: the recording handler. The model gives every operation on the stores as a
  function, with the history of samples received, written and dropped; `BaseHandler` is the class
  with its loops, proved against those functions; `HandlerProtocol` is the command thread, the event
  thread and the data threads as atomic steps over `mtx_`, `event_cv_mutex_`, the condition variable
  and the flag, proved to refine the sequential model.
- `Crc32`: the eight-bytes-at-a-time checksum against the bit-serial CRC of section 8 of RFC 1952.
- `OptionModel`, `OptionParser`, `OptionMeaning`, `OptionTheorems`, `OptionGnu`, `OptionPasses`,
  `OptionLists`: the argument parser, in place, what its words mean, the agreement of its two passes,
  and its circular lists with tagged ends.
- `LineWrapper`, `ColumnWidths`: the usage printer's line wrapper and column-width loop.
- `IntervalTree`, `ReadJobQueue`, `KeyValueMap`: the index, the job heap and the map parser of the
  MCAP reader.
- `Partitions`: partition strings and the replayer's filter.
- `SqlBatching`: batches, worker slices and key caches of the MCAP to SQL converter.
- `CommandQueue`: the command queue against the event counter.
- `Common`: an optional value, minimum and maximum.

Concurrency is modelled by state machines whose runs are all interleavings of atomic steps. Foreign
behaviour enters as a parameter: the option parser's `check_arg`, the wildcard match of partition
patterns, serialization, instance handles and keys in the converter, the clock, the centre chosen by
an interval tree, the hardware's thread count. Every lemma carries `{:induction false}` where Dafny
would otherwise try induction by itself, so that the proof is the one that is written.

Some promises do not hold of the code in full. For each, a theorem says exactly when it does and, where
one can be written down, a lemma gives an input for which it does not:

- The counting pass of the option parser reserves one slot more than the storing pass fills only
  below 2^31 - 1 options, which any command line of less than 2^31 characters has
  (`OptionTheorems.PosixPassesAgree`, `ShortCommandLinesAgree`, `LongestGroupHasNoSpare`).
- In GNU mode the second pass can read a reordered word as an argument
  (`OptionGnu.GnuPassesMayDiffer`, `GnuPassesAgreeExactlyWhen`).
- The options array is subscripted with a signed index, which misses it from 2^31 on, and is too small
  if an index comes within two of 2^32 (`OptionPasses.SubscriptsFitExactlyWhen`,
  `HighIndexIsNegative`, `OptionsArraySuffices`, `LargestIndexDoesNotFit`).
- An interval tree over an empty list reads its first element if a bucket size is 0 and the depth is
  not 1 (`IntervalTrees.EmptyListIsReadWhen`).
- The comparison of file positions is not a strict weak order, so neither heap comparator is one on
  every list of jobs (`ReadJobQueues.StrictWeakOrderExactlyWhen`, `AdjacentChunksClash`,
  `ForwardTiesAreNotTransitive`); time order holds all the same (`Drain`). Forward, no such list ever
  waits if the chunks of a file start at different places, and messages then come in the order of the
  file at one time; in reverse that takes a condition on where chunks end (`ReadInFileOrder`).
- A key-value map whose size is within four of 2^32 is parsed as empty, successfully
  (`KeyValueMaps.ParseInvertsEncode`, `LongestKeyIsLost`).
- A run-time filter update can forget a writer of a topic that two channels share
  (`Partitions.SharedTopicForgets`, `UpdateEqualsFreshStartExactlyWhen`).
- A message can get the partitions its writer has in another topic
  (`Partitions.CacheIsInvisibleExactlyWhen`, `SecondTopicGetsFirst`).
- With unequal keys under one instance handle the converted keys depend on the batch size and on the
  number of hardware threads (`SqlBatching.ConversionIsStableExactlyWhen`, `BatchSizeMatters`,
  `ThreadsMatter`).
- The line wrapper can cut a word before a continuation byte, though not in well-formed UTF-8; its
  pieces fit and rebuild the text all the same (`LineWrapping.CutsBetweenCharactersExactlyWhen`,
  `WellFormedIsCutBetweenCharacters`, `StrayByteIsCutOff`).

For the byte 0xFF the line wrapper computes `__builtin_clz(0)`, which is undefined. Its result is a
parameter of the model, and a theorem says on which texts the pieces depend on it
(`LineWrapping.SplitDependsExactlyWhen`, `SplitWithout255`, `SplitWith255`).

## Model

| member | source | states |
|---|---|---|
| HandlerTheorems.Conservation | ddsrecorder_participants/src/cpp/recorder/handler/BaseHandler.cpp:391-550 | After any run of samples, type discoveries, commands, triggers and cleanups, every accepted sample is in exactly one of file, buffer, pending list, paused list and dropped; counted with multiplicity, the five places together are exactly the samples received; lists hold only samples of their own type |
| HandlerTheorems.OrderPerType | ddsrecorder_participants/src/cpp/recorder/handler/BaseHandler.cpp:332-357 | In every run the samples of one type are in the file in the order of reception, none twice, and everything still held of the type comes after them |
| HandlerTheorems.RunningIsKept | ddsrecorder_participants/src/cpp/recorder/handler/BaseHandler.cpp:135-203 | No sample received while RUNNING is ever dropped, unless only_with_schema is set and its type was unknown; once the handler is STOPPED all the others are in the file |
| HandlerTheorems.PausedNeedsTrigger | ddsrecorder_participants/src/cpp/recorder/handler/BaseHandler.cpp:277-367 | A sample received while PAUSED is in the file only if some trigger serviced later found its log time inside the event window |
| HandlerTheorems.TriggerSettlesPause | ddsrecorder_participants/src/cpp/recorder/handler/BaseHandler.cpp:317-357 | What a trigger does to every sample held from the pause: outside the window dropped, inside with a known type written, inside with an unknown type written or kept pending; with only_with_schema kept pending or dropped by overflow, or, if there are no pending lists, left in the paused lists |
| HandlerTheorems.ReachableShape | ddsrecorder_participants/src/cpp/recorder/handler/BaseHandler.cpp:135-242 | In every reachable state: STOPPED has three empty stores; RUNNING has no paused lists and a buffer below its size; pending lists respect max_pending_samples; no known type is held; with only_with_schema every written sample has a known type |
| HandlerHistory.HistoryIsTold | ddsrecorder_participants/src/cpp/recorder/handler/BaseHandler.cpp:391-451 | What the handler has received is exactly what its events say: every sample that comes while the last command is a start or a pause, in order, with its type, log time and phase and whether its type was discovered before; the phase is that of the last command, the known types are those discovered, the triggers those serviced in a pause |
| HandlerHistory.FullBuffersAreWritten | ddsrecorder_participants/src/cpp/recorder/handler/BaseHandler.cpp:453-477 | While RUNNING, samples of known types are written a bufferful at a time: after any number of them what waits is the remainder modulo the buffer size, in order, and everything before it is written |
| HandlerHistory.PendingAreLatest | ddsrecorder_participants/src/cpp/recorder/handler/BaseHandler.cpp:489-519 | While RUNNING, what waits of an unknown type are its latest samples, as many as max_pending_samples allows: the oldest make room, and none before the list is full |
| HandlerHistory.TriggerKeepsLatest | ddsrecorder_participants/src/cpp/recorder/handler/BaseHandler.cpp:331-352 | After a trigger, what waits of a type are the latest of its pending and its paused samples inside the window |
| HandlerHistory.DiscoveryHandsOn | ddsrecorder_participants/src/cpp/recorder/handler/BaseHandler.cpp:521-550 | Discovering a type hands on exactly what waits of it: pending samples to the file and paused ones to the buffer in a pause, pending ones to buffer and file otherwise; other types stay and nothing is dropped |
| HandlerHistory.PauseHolds | ddsrecorder_participants/src/cpp/recorder/handler/BaseHandler.cpp:420-451 | A sample that comes in a pause is held as long as only samples, types, pauses and cleanups of older samples follow |
| HandlerHistory.CleanupTakesOutdated | ddsrecorder_participants/src/cpp/recorder/handler/BaseHandler.cpp:552-576 | A cleanup takes exactly the samples older than the window out of buffer and paused lists, and touches nothing else |
| HandlerHistory.PauseIsGivenUp | ddsrecorder_participants/src/cpp/recorder/handler/BaseHandler.cpp:369-389 | A start or a stop gives up everything the pause holds |
| HandlerInvariant.StepOk | ddsrecorder_participants/src/cpp/recorder/handler/BaseHandler.cpp:93-576 | The invariant behind these theorems (per type, file then buffer then pending then paused is the reception order with nothing missing but the dropped) is kept by every operation |
| HandlerCleanup.CleanupIsUnobservable | ddsrecorder_participants/src/cpp/recorder/handler/BaseHandler.cpp:277-367 | With a clock that never goes back, a run with any cleanups in it ends with the same file, phase, pending lists, known types, received samples and triggers as the run without them, and the same buffer and paused lists unless it is paused |
| HandlerCleanup.RunsAgree | ddsrecorder_participants/src/cpp/recorder/handler/BaseHandler.cpp:552-576 | The simulation behind it: at every point of the two runs the stores agree on all samples a present or later trigger could keep |
| HandlerProtocol.NoDeadlock | ddsrecorder_participants/src/cpp/recorder/handler/BaseHandler.cpp:93-275 | In every interleaving of command thread, event thread and data threads over the two mutexes, the condition variable and the flag, while a command is in progress some thread can take a step, also while the event thread is joined with mtx_ held |
| HandlerProtocol.EveryStepCounts | ddsrecorder_participants/src/cpp/recorder/handler/BaseHandler.cpp:277-389 | No livelock: each step of the two threads lowers a rank of at most 433, and locking and working by data threads never raises it |
| HandlerProtocol.CommandEnds | ddsrecorder_participants/src/cpp/recorder/handler/BaseHandler.cpp:93-389 | A command ends: from any reachable state, without timeouts, spurious wake-ups and new commands, the two threads take at most rank (433) steps, in any order and among any data steps; once they have taken that many, or neither can take one while no data thread holds mtx_, the command is over; and some steps always bring it to its end |
| HandlerProtocol.TriggersAreServiced | ddsrecorder_participants/src/cpp/recorder/handler/BaseHandler.cpp:244-275 | Discipline of the log in every interleaving: a start, a stop, a cleanup and an acceptance come only when no accepted trigger is owed a service, a service only when one is; the flag says triggered exactly in between, and only in PAUSED |
| HandlerProtocol.CommandTakesEffect | ddsrecorder_participants/src/cpp/recorder/handler/BaseHandler.cpp:93-275 | A command takes effect exactly once: issued when none is in progress and followed to its end, among any steps of the other threads, a start, a stop or a pause is done once and leaves its phase; a trigger is accepted once in PAUSED, never outside, and changes no phase |
| HandlerProtocol.TriggerIsServed | ddsrecorder_participants/src/cpp/recorder/handler/BaseHandler.cpp:244-367 | A trigger given in PAUSED is accepted and serviced exactly once: with its command over and the event thread at rest, one service follows the acceptance |
| HandlerProtocol.TimeoutCleansUp | ddsrecorder_participants/src/cpp/recorder/handler/BaseHandler.cpp:277-367 | A timeout while no command is in progress makes the event thread clean up exactly once and sleep again |
| HandlerProtocol.TimesAreCurrent | ddsrecorder_participants/src/cpp/recorder/handler/BaseHandler.cpp:317-326 | The log only grows, and what the event thread does has the time at which it does it |
| HandlerProtocol.DataWorkIsDone | ddsrecorder_participants/src/cpp/recorder/handler/BaseHandler.cpp:391-451 | A data thread that holds mtx_ hands its sample or type to the stores |
| HandlerProtocol.JoinableIffPaused | ddsrecorder_participants/src/cpp/recorder/handler/BaseHandler.cpp:369-389 | Whenever no command holds mtx_, the event thread is joinable exactly if the state is PAUSED |
| HandlerProtocol.StoresAreARun | ddsrecorder_participants/src/cpp/recorder/handler/BaseHandler.cpp:205-242 | Refinement: whoever locks mtx_ finds the stores as some run of the sequential model leaves them, timed by a clock that never goes back, with every sample accounted for once; so the theorems on runs hold of every interleaving |
| HandlerProtocol.MoveOk | ddsrecorder_participants/src/cpp/recorder/handler/BaseHandler.cpp:93-389 | Every lock, unlock, wait, wake-up, notification and join keeps the invariant of locks, flag, wake-ups and stores |
| BaseHandlerClass.BaseHandler.WriteSamples | ddsrecorder_participants/include/ddsrecorder_participants/recorder/handler/BaseHandler.hpp:275-284 | Appends every sample to the file in order and leaves the list empty |
| BaseHandlerClass.BaseHandler.AddSampleToBuffer | ddsrecorder_participants/src/cpp/recorder/handler/BaseHandler.cpp:453-477 | The new state is that of the buffer function: append, and write all when RUNNING and full |
| BaseHandlerClass.BaseHandler.AddSamplesToBuffer | ddsrecorder_participants/src/cpp/recorder/handler/BaseHandler.cpp:479-487 | The popping loop adds the whole list in order and empties it |
| BaseHandlerClass.BaseHandler.AddSampleToPending | ddsrecorder_participants/src/cpp/recorder/handler/BaseHandler.cpp:489-519 | The loop that makes room, by dropping or by writing without schema, then the append |
| BaseHandlerClass.BaseHandler.DumpPendingSamples | ddsrecorder_participants/src/cpp/recorder/handler/BaseHandler.cpp:521-550 | Pending samples of a type are written directly while PAUSED and through the buffer otherwise; paused ones move to the buffer |
| BaseHandlerClass.BaseHandler.ProcessNewSample | ddsrecorder_participants/src/cpp/recorder/handler/BaseHandler.cpp:391-451 | The whole case analysis over state, known types and limits; the object stays at the run along its calls, to which this one is added |
| BaseHandlerClass.BaseHandler.AddSchema | ddsrecorder_participants/src/cpp/recorder/handler/mcap/McapHandler.cpp:85-173 | A type not yet known is recorded and its pending samples are dumped, in one step; the object stays at the run along its calls |
| BaseHandlerClass.BaseHandler.RemoveOutdatedSamples | ddsrecorder_participants/src/cpp/recorder/handler/BaseHandler.cpp:552-576 | Exactly the samples of buffer and paused lists older than the window are removed, the others keep their order |
| BaseHandlerClass.BaseHandler.ServiceEvent | ddsrecorder_participants/src/cpp/recorder/handler/BaseHandler.cpp:317-357 | One pass of the event thread while PAUSED, for a timeout or a trigger: clean up; for a trigger, move the paused lists type by type and write the buffer; the object stays at the run along its calls |
| BaseHandlerClass.BaseHandler.Promises | ddsrecorder_participants/src/cpp/recorder/handler/BaseHandler.cpp:93-576 | After any calls the object itself keeps the theorems on runs: its history is that of its calls, nothing is lost or doubled, order per type, running samples kept, paused ones written only through a trigger |
| BaseHandlerClass.BaseHandler.StartRecording | ddsrecorder_participants/src/cpp/recorder/handler/BaseHandler.cpp:93-133 | The new state of start in every previous state; the object stays at the run along its calls |
| BaseHandlerClass.BaseHandler.StopRecording | ddsrecorder_participants/src/cpp/recorder/handler/BaseHandler.cpp:135-203 | The new state of stop in every previous state; the object stays at the run along its calls |
| BaseHandlerClass.BaseHandler.PauseRecording | ddsrecorder_participants/src/cpp/recorder/handler/BaseHandler.cpp:205-242 | The new state of pause in every previous state; the object stays at the run along its calls |
| Crc32.Update | thirdparty/mcap/mcap/crc32.hpp:74-101 | For every previous value, data and starting address, the prologue, the eight-byte rounds and the epilogue together compute the byte-wise CRC |
| Crc32.BitAtATime | thirdparty/mcap/mcap/crc32.hpp:74-101 | The byte-wise CRC is the bit-serial, reflected CRC of section 8 of RFC 1952, each byte least significant bit first |
| Crc32.SplitUpdate | thirdparty/mcap/mcap/crc32.hpp:69-74 | Data may be split anywhere: updating twice is updating once |
| Crc32.EightBytes | thirdparty/mcap/mcap/crc32.hpp:86-95 | One round of eight table look-ups is the CRC of the eight bytes |
| Crc32.LookupsAreSteps | thirdparty/mcap/mcap/crc32.hpp:91-94 | The eight look-ups add up to eight byte steps on the first word and four on the second |
| Crc32.StepXor | thirdparty/mcap/mcap/crc32.hpp:35-42 | The division step is linear over xor |
| Crc32.ByteStepByTable | thirdparty/mcap/mcap/crc32.hpp:45-48 | Eight division steps are one look-up of the low byte and a shift |
| Crc32.CRC32Table.constructor | thirdparty/mcap/mcap/crc32.hpp:32-49 | Table k holds, for every byte, k + 1 byte steps |
| Crc32.FillFirst | thirdparty/mcap/mcap/crc32.hpp:33-44 | The first 256 entries: eight division steps on each byte |
| Crc32.FillRest | thirdparty/mcap/mcap/crc32.hpp:45-48 | The other seven tables, each from the one before |
| Crc32.UpdateByte | thirdparty/mcap/mcap/crc32.hpp:79 | The one-byte update is a byte step on the xor with the byte |
| Crc32.CrcInjective | thirdparty/mcap/mcap/crc32.hpp:74-101 | Different checksums stay different under the same further data |
| Crc32.BurstsAreDetected | thirdparty/mcap/mcap/crc32.hpp:74-101 | Any change confined to at most 32 consecutive bits, at whatever bit of whatever byte it starts, changes the checksum |
| Crc32.FourBytesAreDetected | thirdparty/mcap/mcap/crc32.hpp:74-101 | Any change confined to four consecutive bytes, anywhere in any data, changes the checksum |
| Crc32.FeedAtOnce | thirdparty/mcap/mcap/crc32.hpp:74-101 | Up to 32 bits may be added to the register at once and shifted through, as feeding them one by one |
| Crc32.ChecksumOfChunks | thirdparty/mcap/mcap/crc32.hpp:61-106 | Started with all ones, updated chunk by chunk at any addresses and finalized, the result is the RFC 1952 checksum of the whole |
| Crc32.ChecksumOfDigits | thirdparty/mcap/mcap/crc32.hpp:32-106 | The check value: the checksum of the nine digits from 1 to 9 is CBF43926 |
| OptionParser.Workhorse | thirdparty/optionparser/optionparser.h:1769-2001 | One pass: the result, the performed options and the rotated vector are those of the parse of the words, and the number of left-over words is exact, also for a count beyond the words; nothing moves in POSIX mode, even when the parse fails |
| OptionParser.Advance | thirdparty/optionparser/optionparser.h:1785-1981 | The loop over the words, with the vector in place |
| OptionParser.ParseShortGroup | thirdparty/optionparser/optionparser.h:1916-1974 | The loop over a group of short options |
| OptionParser.Accept | thirdparty/optionparser/optionparser.h:1935-1972 | One option judged, its detached argument taken by a rotation, the action performed |
| OptionParser.FindLong | thirdparty/optionparser/optionparser.h:1846-1875 | Exact match, else the only abbreviation, else none |
| OptionParser.StrEqual | thirdparty/optionparser/optionparser.h:1482-1494 | Prefix followed by the end or an equals sign |
| OptionParser.StrEqualAbbr | thirdparty/optionparser/optionparser.h:1520-1533 | The same for abbreviations of a minimal length |
| OptionParser.InStr | thirdparty/optionparser/optionparser.h:1541-1550 | Membership of a character |
| OptionParser.Shift | thirdparty/optionparser/optionparser.h:1557-1567 | The swaps rotate the element at hand in front of the given number of elements |
| OptionParser.CorrectCount | thirdparty/optionparser/optionparser.h:1984-1998 | A positive count stays unless the end of the vector is reached, where it becomes 0; an unknown count is counted |
| OptionParser.ActionObject.Do | thirdparty/optionparser/optionparser.h:1632-1642 | Counting refuses beyond 2^31 - 1; storing fills free slots and discards the rest |
| OptionTheorems.SuccessfulParseReorders | thirdparty/optionparser/optionparser.h:1786-1827 | A successful parse interleaves used and left-over words: the vector is a permutation, each group in its original order, and in GNU mode what is left over are the words that are no options and whatever follows the terminator; in POSIX mode the order is kept |
| OptionMeaning.LongWithValue | thirdparty/optionparser/optionparser.h:1846-1966 | --name=value finds first the option of the first row with that name, its argument is exactly the value, and one word is used; the rest is parsed as if alone |
| OptionMeaning.LongThenValue | thirdparty/optionparser/optionparser.h:1846-1966 | --name value: the next word is the argument, and two words are used |
| OptionMeaning.LongAlone | thirdparty/optionparser/optionparser.h:1939-1966 | --name whose check wants no argument: an option without one, and one word is used, whatever follows |
| OptionMeaning.SingleMinusThenValue | thirdparty/optionparser/optionparser.h:1836-1899 | -name is the long option if a single minus may introduce one |
| OptionMeaning.AbbreviationMeans | thirdparty/optionparser/optionparser.h:1520-1533 | A name abbreviates a row exactly if it is a prefix of at least the minimal length, or the whole name |
| OptionMeaning.AbbreviationThenValue | thirdparty/optionparser/optionparser.h:1852-1875 | The only row that a long enough prefix abbreviates is meant by it |
| OptionMeaning.AmbiguousIsUnknown | thirdparty/optionparser/optionparser.h:1857-1875 | A prefix of two names, equal to none, is an unknown option |
| OptionMeaning.ShortWithValue | thirdparty/optionparser/optionparser.h:1901-1959 | -xvalue: the rest of the word is exactly the argument |
| OptionMeaning.ShortThenValue | thirdparty/optionparser/optionparser.h:1901-1959 | -x value: the next word is the argument, and two words are used |
| OptionMeaning.FlagGroup | thirdparty/optionparser/optionparser.h:1901-1974 | A group of flags yields an option for each character, in order, and one word is used |
| OptionMeaning.UnknownLong | thirdparty/optionparser/optionparser.h:1928-1939 | A long option no row knows goes to the first row without names, or is passed over if there is none |
| OptionMeaning.RefusedLong | thirdparty/optionparser/optionparser.h:1942-1945 | An option whose check refuses it ends the parse at once, with nothing found in its word |
| OptionMeaning.PlainWord | thirdparty/optionparser/optionparser.h:1791-1809 | A word that does not start with a minus, or is one, is left over; outside GNU mode so is everything after it |
| OptionMeaning.Terminator | thirdparty/optionparser/optionparser.h:1811-1821 | Two minuses are used up, and everything after them is left over as it is |
| OptionTheorems.UnreadAreLeft | thirdparty/optionparser/optionparser.h:1786-1827 | The words that a successful parse never looks at are the last ones left over |
| OptionTheorems.PosixPassesAgree | thirdparty/optionparser/optionparser.h:1616-1767 | In POSIX mode, with argument checks that ignore the message flag, the counting pass reserves exactly one slot more than the storing pass fills if and only if there are fewer than 2^31 - 1 options, whether or not the parse succeeds; the storing pass never overruns |
| OptionTheorems.ShortCommandLinesAgree | thirdparty/optionparser/optionparser.h:1616-1767 | In POSIX mode, one slot more is reserved than is filled on every command line of at most so many characters, whatever the table and the check, if and only if that bound is below 2^31 |
| OptionTheorems.FewerThanChars | thirdparty/optionparser/optionparser.h:1916-1974 | A command line yields fewer options than it has characters |
| OptionTheorems.LongestGroupHasNoSpare | thirdparty/optionparser/optionparser.h:1632-1642 | One word of 2^31 characters, a group of one flag: both passes stop at 2^31 - 1 and no slot is to spare |
| OptionGnu.GnuPassesAgreeExactlyWhen | thirdparty/optionparser/optionparser.h:1557-1567 | In GNU mode a second pass over the words a successful first pass reordered finds the same options and moves nothing, on every command line, if and only if no option can leave its next word alone and fail on, or use up, one that the reordering may put there |
| OptionGnu.SteadyIsInsensitive | thirdparty/optionparser/optionparser.h:1943-1964 | It suffices that each option leaves either every detached argument alone or none; a required argument qualifies |
| OptionGnu.GnuPassesAgree | thirdparty/optionparser/optionparser.h:1730-1767 | The two passes as they are run, the first without messages |
| OptionGnu.GnuPassesMayDiffer | thirdparty/optionparser/optionparser.h:1947-1957 | The passes part on "a -f" with a greedy optional argument: the second pass gives "a" to -f |
| OptionTheorems.StoredBounded | thirdparty/optionparser/optionparser.h:1687-1710 | With a bounded buffer the first options are stored and the rest discarded without failure |
| OptionPasses.OptionsArraySuffices | thirdparty/optionparser/optionparser.h:1753-1763 | The options array has a place for every index and one more exactly when no index is within two of 2^32 |
| OptionPasses.SubscriptsFitExactlyWhen | thirdparty/optionparser/optionparser.h:1696-1706 | The storing pass reads the unsigned index as an int: every subscript lies in the options array, with one place to spare, if and only if every index is below 2^31 |
| OptionPasses.HighIndexIsNegative | thirdparty/optionparser/optionparser.h:1698 | Index 2^31: the array is large enough and the subscript is -2^31 |
| OptionPasses.LargestIndexDoesNotFit | thirdparty/optionparser/optionparser.h:1753-1763 | A row with the largest 32-bit index: the array gets a single slot |
| OptionPasses.ParseInTable | thirdparty/optionparser/optionparser.h:1920-1940 | Every option found belongs to a row of the usage table |
| OptionPasses.Stats.Add | thirdparty/optionparser/optionparser.h:1745-1767 | The counting pass and the measurement of the table |
| OptionPasses.Parser.Parse | thirdparty/optionparser/optionparser.h:1712-1743 | The storing pass: buffer, error flag, and where and how many the left-over words are, which stay as they were when there are none; a count beyond the words is corrected only if the pass reaches their end |
| OptionPasses.ParseCommandLine | thirdparty/optionparser/optionparser.h:1730-1767 | Both passes over one vector as the tools run them: slots counted and filled, and, with indices below 2^31, every subscript within the options array |
| OptionPasses.ParseIntoLists | thirdparty/optionparser/optionparser.h:1712-1767 | Both passes and the lists: with as many slots as were counted and bufmax -1, the options of the parse end up in the buffer, chained index by index |
| OptionPasses.ParseAndVisit | thirdparty/optionparser/optionparser.h:776-788 | From the command line to what a tool reads back: the loop along the list of a row, its count and its latest option are those of the parse, in order |
| OptionLists.Node.Append | thirdparty/optionparser/optionparser.h:738-747 | From any element, the new node becomes the last of the circular list; tagged ends are kept |
| OptionLists.EndsOnly | thirdparty/optionparser/optionparser.h:584-600 | In a list the tagged links mark the two ends and nothing else |
| OptionLists.Node.First | thirdparty/optionparser/optionparser.h:613-621 | The first element, from any element |
| OptionLists.Node.Last | thirdparty/optionparser/optionparser.h:647-650 | The last element, from any element |
| OptionLists.Node.Count | thirdparty/optionparser/optionparser.h:564-574 | The number of elements from any element, none for an unused slot |
| OptionLists.Node.Next | thirdparty/optionparser/optionparser.h:702-705 | The next element or nothing at the end |
| OptionLists.Node.Prev | thirdparty/optionparser/optionparser.h:668-671 | The previous element or nothing at the front |
| OptionLists.StoreOptionAction.Perform | thirdparty/optionparser/optionparser.h:1687-1710 | Storing keeps all lists: each holds exactly the stored options of its index, in order, with its head in the options array and the rest in the buffer; the index is an int subscript |
| OptionLists.StoreOptionAction.constructor | thirdparty/optionparser/optionparser.h:1668-1685 | The search for the first empty slot starts after whatever earlier passes stored, and keeps the lists |
| OptionLists.StoreOptionAction.Visit | thirdparty/optionparser/optionparser.h:785-788 | Following next from the head visits the stored options of the index in command-line order |
| OptionLists.StoreOptionAction.CountAndLast | thirdparty/optionparser/optionparser.h:564-658 | From any element, count is the number of stored options of the index and last the latest of them |
| OptionLists.StoreAll | thirdparty/optionparser/optionparser.h:1666-1710 | A whole storing pass over any valid lists, until the first refusal: stored options and verdict are those of the abstract pass |
| LineWrapping.LineWrapper.Process | thirdparty/optionparser/optionparser.h:2710-2797 | The pieces of a text join the waiting ones; exactly one line is written if anything waits, or as many as do not fit fifteen slots, each on a line of its own and in order |
| LineWrapping.LineWrapper.Flush | thirdparty/optionparser/optionparser.h:2675-2690 | Everything that waits is written in order, indented, and the buffer is empty |
| LineWrapping.WrapAll | thirdparty/optionparser/optionparser.h:2675-2797 | Any texts processed and flushed: exactly their pieces come out, each once and in order |
| LineWrapping.SplitRebuilds | thirdparty/optionparser/optionparser.h:2714-2791 | The pieces, with one space restored at each cut at a space, are the text |
| LineWrapping.SplitFits | thirdparty/optionparser/optionparser.h:2716-2786 | Every piece is at most width columns wide, by decoded UTF-8 characters |
| LineWrapping.HardCutIsNeeded | thirdparty/optionparser/optionparser.h:2765-2790 | A cut within a word is made only if neither the piece nor the next byte has a space, and before a character that would be one too many |
| LineWrapping.SpaceCutIsLatest | thirdparty/optionparser/optionparser.h:2765-2780 | A text cut at a space does not fit, nor does any part of it up to a later space |
| LineWrapping.WhatFitsStaysWhole | thirdparty/optionparser/optionparser.h:2759-2764 | A text that fits is not cut |
| LineWrapping.TwoWords | thirdparty/optionparser/optionparser.h:2774-2780 | Two words of two letters at width 2 are cut at the space, which is dropped |
| LineWrapping.SomeWidths | thirdparty/optionparser/optionparser.h:2726-2752 | A letter, an accented letter and an ideograph take one, one and two columns |
| LineWrapping.RenderLines | thirdparty/optionparser/optionparser.h:2649-2666 | Every piece has a line of its own, and every line after the first is indented |
| LineWrapping.EmittedIsLeast | thirdparty/optionparser/optionparser.h:2629-2666 | A call writes the least number of pieces that leaves at most fifteen waiting, and one if there is any |
| LineWrapping.WellFormedIsCutBetweenCharacters | thirdparty/optionparser/optionparser.h:2786-2790 | If every continuation byte belongs to a character, no cut within a word, at any width, comes before a continuation byte |
| LineWrapping.CutsBetweenCharactersExactlyWhen | thirdparty/optionparser/optionparser.h:2720-2790 | At no width is a word cut before a continuation byte if and only if no word has a continuation byte that belongs to no character behind two columns or more |
| LineWrapping.StrayByteIsCutOff | thirdparty/optionparser/optionparser.h:2786-2790 | Two letters and a lone continuation byte at width 2 are cut before it |
| LineWrapping.SplitWithout255 | thirdparty/optionparser/optionparser.h:2733-2736 | The undefined leading-bit count of 0xFF changes nothing in texts without that byte |
| LineWrapping.SplitDependsExactlyWhen | thirdparty/optionparser/optionparser.h:2733-2736 | At no width do the pieces of a text depend on that count if and only if the text is as wide with the value 0 as with 0xFF, or has at most one column with the value 0 |
| LineWrapping.SplitWith255 | thirdparty/optionparser/optionparser.h:2733-2736 | Two characters that start with 0xFF stay on one line with one value and are cut apart with another |
| LineWrapping.ColumnsAtMostBytes | thirdparty/optionparser/optionparser.h:2716 | The quick test is right: no text is wider than its bytes |
| LineWrapping.FitProgress | thirdparty/optionparser/optionparser.h:2722-2757 | The splitting loop always makes progress |
| LineWrapping.LeadBitsAreMasked | thirdparty/optionparser/optionparser.h:2733-2736 | The bits of a start byte are what masking by its leading ones leaves |
| LineWrapping.LineWrapper.BufStore | thirdparty/optionparser/optionparser.h:2614-2621 | The ring buffer is a queue: store appends |
| LineWrapping.LineWrapper.BufNext | thirdparty/optionparser/optionparser.h:2624-2627 | The ring buffer is a queue: reading takes the oldest |
| LineWrapping.LineWrapper.HeadSlot | thirdparty/optionparser/optionparser.h:2604-2612 | Empty and full are told apart, with a capacity of fifteen |
| LineWrapping.LineWrapper.MeasureChar | thirdparty/optionparser/optionparser.h:2726-2755 | Bytes and columns of one character |
| LineWrapping.LineWrapper.FindFit | thirdparty/optionparser/optionparser.h:2720-2757 | The longest run of whole characters that fits |
| ColumnWidths.FitColumns | thirdparty/optionparser/optionparser.h:2856-2911 | The loop ends because the threshold falls; the columns fit, and the final threshold is the largest up to 10000 with which they do |
| ColumnWidths.SameLeft | thirdparty/optionparser/optionparser.h:2903-2909 | A threshold between the widest part counted and the one counted with changes nothing |
| ColumnWidths.WidthOfIsMax | thirdparty/optionparser/optionparser.h:2870-2888 | A column is as wide as its widest part that counts |
| ColumnWidths.WidthIsOfTableParts | thirdparty/optionparser/optionparser.h:2870-2888 | Parts below the threshold make their column wide, except in column 0 the first line of a row without a separator; a part that does not count changes no width |
| ColumnWidths.LastColumnIsHighest | thirdparty/optionparser/optionparser.h:2868-2869 | The last column is the highest there is among the first eight |
| ColumnWidths.Measure | thirdparty/optionparser/optionparser.h:2863-2891 | One pass over the table fills the widths and finds the last column |
| IntervalTrees.PruningIsSafe | thirdparty/mcap/mcap/intervaltree.hpp:150-187 | Whatever centres its nodes have, a tree answers both queries with the same multiset as a scan of its contents |
| IntervalTrees.TreeAgreesWithScan | thirdparty/mcap/mcap/intervaltree.hpp:189-209 | find_overlapping and find_contained agree with a linear filter of the list the tree was built from |
| IntervalTrees.OverlappingMeans | thirdparty/mcap/mcap/intervaltree.hpp:172-182 | An interval overlaps a range exactly if some point lies in both, ends included |
| IntervalTrees.ContainedMeans | thirdparty/mcap/mcap/intervaltree.hpp:184-193 | An interval is contained in a range exactly if all its points lie in it |
| IntervalTrees.Build | thirdparty/mcap/mcap/intervaltree.hpp:90-148 | For any depth (also 0, which wraps), bucket sizes and choice of centre, construction terminates, keeps the multiset of intervals, and its assertions never fire |
| IntervalTrees.BuildAndFind | thirdparty/mcap/mcap/intervaltree.hpp:90-209 | Building with the wrapped midpoint of least start and greatest stop, and asking any query, also an inverted one, gives the linear scan |
| IntervalTrees.BuiltTreesAreValid | thirdparty/mcap/mcap/intervaltree.hpp:254-296 | The self check accepts every built tree although its second bound is combined with min; its first bound is the least start |
| IntervalTrees.Partition | thirdparty/mcap/mcap/intervaltree.hpp:124-136 | The three-way partition, each side in order |
| IntervalTrees.SelectAll | thirdparty/mcap/mcap/intervaltree.hpp:124-136 | The three sides together hold every interval exactly as often |
| IntervalTrees.MakeInterval | thirdparty/mcap/mcap/intervaltree.hpp:16-26 | End points are ordered on construction |
| IntervalTrees.EmptyListIsReadWhen | thirdparty/mcap/mcap/intervaltree.hpp:109-121 | An empty list without extents has its first element read exactly when a bucket size is 0 and the depth is not 1 |
| IntervalTrees.LeafMeans | thirdparty/mcap/mcap/intervaltree.hpp:94-106 | A list becomes a leaf when the depth has come down to one or the list is below both bucket sizes; depth 0 wraps |
| ReadJobQueues.Drain | thirdparty/mcap/mcap/read_job_queue.hpp:92-140 | The reading loop: every job, pushed at the start or from a chunk, is popped exactly once, in time order, and so are the messages handed out; if chunks are placed as in a file, also in the exact order of the comparator |
| ReadJobQueues.ReadInFileOrder | thirdparty/mcap/mcap/reader.inl:1882-1968 | From the chunk jobs of a file: each message comes exactly once, by time, at one time by chunk and within a chunk by offset, or all this reversed in reverse; forward if chunks start at different places, in reverse if chunks end after they start and none ends where, at its latest time, the chunk of a message starts |
| ReadJobQueues.TracedIsOrderly | thirdparty/mcap/mcap/reader.inl:1884-1930 | In such a file the comparators are strict weak orders on everything that ever waits, since the messages of a chunk are pushed only after its job is popped |
| ReadJobQueues.PushedFollows | thirdparty/mcap/mcap/reader.inl:1911-1926 | A message pushed for a chunk may follow whatever the job of the chunk may follow |
| ReadJobQueues.MessageTimes | thirdparty/mcap/mcap/read_job_queue.hpp:92-108 | Forward, message times do not decrease; in reverse, they do not increase |
| ReadJobQueues.ReadJobQueue.Push | thirdparty/mcap/mcap/read_job_queue.hpp:113-128 | Keeps the heap and adds exactly one job |
| ReadJobQueues.ReadJobQueue.Pop | thirdparty/mcap/mcap/read_job_queue.hpp:130-140 | Takes a job that no waiting job precedes: by time always, and by the exact comparison, positions included, whenever the comparator is a strict weak order on the jobs |
| ReadJobQueues.SiftUpStep | thirdparty/mcap/mcap/read_job_queue.hpp:113-128 | A swap with the parent moves the only place where the heap may be broken |
| ReadJobQueues.SiftDownStep | thirdparty/mcap/mcap/read_job_queue.hpp:130-140 | A swap with the first child moves the only place where the heap may be broken |
| ReadJobQueues.LeIsPreorder | thirdparty/mcap/mcap/read_job_queue.hpp:92-108 | On jobs on which the comparator is a strict weak order, coming no later is a total preorder; by time it always is |
| ReadJobQueues.StrictWeakOrderExactlyWhen | thirdparty/mcap/mcap/read_job_queue.hpp:92-108 | A comparator is a strict weak order on a list of jobs if and only if, in reverse, no two jobs of one time clash and, forward, no job waits at the start of the chunk of two others of its time |
| ReadJobQueues.ReverseAsymmetricUnlessClash | thirdparty/mcap/mcap/read_job_queue.hpp:101-108 | In reverse, two jobs each come after the other exactly when their times agree and one position lies in a chunk that starts at the other |
| ReadJobQueues.AdjacentChunksClash | thirdparty/mcap/mcap/types.inl:65-84 | It happens where one chunk ends and the next starts |
| ReadJobQueues.ForwardTiesAreNotTransitive | thirdparty/mcap/mcap/types.inl:65-84 | For the forward comparator alone: a chunk job ties with two messages of its chunk that are ordered |
| ReadJobQueues.ForwardTiesBreakExactlyAt | thirdparty/mcap/mcap/types.inl:65-84 | For all jobs, forward: one ties with two others that are ordered if and only if, at one time, it waits at the start of the chunk in which they lie at different offsets |
| KeyValueMaps.ParseInvertsEncode | thirdparty/mcap/mcap/internal.hpp:145-179 | For entries whose size fits 32 bits, parsing the encoding returns the map with the first value of each key, whatever follows, if and only if size plus four fits too; otherwise parsing reports success with an empty map |
| KeyValueMaps.LongestKeyIsLost | thirdparty/mcap/mcap/internal.hpp:156-160 | One entry with a key of 2^32 - 12 bytes and an empty value is read as success and an empty map |
| KeyValueMaps.AcceptedExactlyWhen | thirdparty/mcap/mcap/internal.hpp:145-179 | Bytes are accepted exactly when the size is in bounds and either wraps or covers the encoding of some entries, which are then the output |
| KeyValueMaps.OnlyThePrefixCounts | thirdparty/mcap/mcap/internal.hpp:145-179 | Bytes beyond the announced size change nothing |
| KeyValueMaps.ParseKeyValueMap | thirdparty/mcap/mcap/internal.hpp:145-179 | The loop computes the parse with its error positions, and every access lies within the bytes given |
| KeyValueMaps.ReadString | thirdparty/mcap/mcap/internal.hpp:104-117 | Length-prefixed text, with both errors |
| KeyValueMaps.StringRoundTrip | thirdparty/mcap/mcap/internal.hpp:104-117 | A string is read back from its encoding |
| KeyValueMaps.StringIsEncoded | thirdparty/mcap/mcap/internal.hpp:104-117 | What is read as a string is its encoding |
| KeyValueMaps.Uint32Inverse | thirdparty/mcap/mcap/internal.hpp:75-78 | Little-endian integers are read back |
| KeyValueMaps.Uint32Means | thirdparty/mcap/mcap/internal.hpp:75-78 | Four bytes are read as an integer with the least byte first |
| KeyValueMaps.OneEntryIsRead | thirdparty/mcap/mcap/internal.hpp:145-179 | Fourteen bytes that hold a size, a one-letter key and a one-letter value are read as that entry |
| KeyValueMaps.ErrorsAreLocated | thirdparty/mcap/mcap/internal.hpp:161-175 | An error says where it was met: before it are whole entries, and a key if it is about a value, and what follows is no string |
| KeyValueMaps.FirstWinsMeans | thirdparty/mcap/mcap/internal.hpp:176 | The first value of a repeated key stays |
| KeyValueMaps.KeyValueMapSize | thirdparty/mcap/mcap/internal.hpp:51-57 | The size of the encoded entries, truncated to 32 bits |
| Partitions.SplitInvertsJoin | ddsrecorder_participants/src/cpp/replayer/McapReaderParticipant.cpp:85-110 | Splitting undoes joining non-empty lists exactly when no name has a bar; empty names included |
| Partitions.JoinSplit | ddsrecorder_participants/src/cpp/replayer/McapReaderParticipant.cpp:85-110 | Joining what was split gives the string back |
| Partitions.SplitForUpdate | ddsrecorder_participants/src/cpp/replayer/McapReaderParticipant.cpp:85-110 | The character loop of update and summary computes the split |
| Partitions.SplitForQos | ddsrecorder_participants/src/cpp/replayer/McapReaderParticipant.cpp:414-447 | The character loop for a message computes the same split, the empty string handled apart |
| Partitions.ScanInvertsPrint | ddsrecorder_participants/src/cpp/replayer/McapReaderParticipant.cpp:196-290 | The scanner undoes the printed form exactly for writers without colon and partitions without semicolon |
| Partitions.RecordedPartitionsReturn | ddsrecorder_participants/src/cpp/recorder/handler/mcap/McapHandler.cpp:281-285 | What the recorder prints is read back as the same writer map |
| Partitions.UpdateEqualsFreshStart | ddsrecorder_participants/src/cpp/replayer/McapReaderParticipant.cpp:67-135 | With one channel per topic and type and distinct writers in a channel, a writer is filtered by an update exactly if a fresh start filters it |
| Partitions.UpdateEqualsFreshStartExactlyWhen | ddsrecorder_participants/src/cpp/replayer/McapReaderParticipant.cpp:67-135 | Update and fresh start agree for every filter exactly when every pair of writer and partitions that was read is still remembered: some topic keeps the writer, not as a wildcard, with no partition outside the pair |
| Partitions.UpdateFiltersNoMore | ddsrecorder_participants/src/cpp/replayer/McapReaderParticipant.cpp:67-135 | Without these conditions an update still never filters a writer that a fresh start would not |
| Partitions.FilterMeans | ddsrecorder_participants/src/cpp/replayer/McapReaderParticipant.cpp:196-290 | Of recorded channels a fresh start filters a writer exactly if a channel with a schema records it with partitions of which the list, not being empty, allows none, unless its only partition is "*" |
| Partitions.NothingToFilter | ddsrecorder_participants/src/cpp/replayer/McapReaderParticipant.cpp:75-82 | An empty list filters no writer, at a fresh start and by an update |
| Partitions.TopicFromChannel | ddsrecorder_participants/src/cpp/replayer/McapReaderParticipant.cpp:292 | A topic is that of the last channel with its name and schema |
| Partitions.BarSeparates | ddsrecorder_participants/src/cpp/replayer/McapReaderParticipant.cpp:85-110 | A bar separates names, also an empty last one |
| Partitions.ColonAndSemicolonSeparate | ddsrecorder_participants/src/cpp/replayer/McapReaderParticipant.cpp:199-290 | A colon ends a writer and a semicolon its partitions |
| Partitions.SharedTopicForgets | ddsrecorder_participants/src/cpp/replayer/McapReaderParticipant.cpp:292 | Where two channels share a topic, an update can forget a writer |
| Partitions.UpdateLikeRestart | ddsrecorder_participants/src/cpp/replayer/McapReaderParticipant.cpp:67-295 | When nothing read was forgotten, after any sequence of updates, updating to a list leaves the filter of a reader started with it |
| Partitions.McapReaderParticipant.UpdatePartitionList | ddsrecorder_participants/src/cpp/replayer/McapReaderParticipant.cpp:67-135 | The new filter, from the topics and the list alone; an empty list filters no writer |
| Partitions.McapReaderParticipant.ProcessSummary | ddsrecorder_participants/src/cpp/replayer/McapReaderParticipant.cpp:145-295 | The topics read and the writers filtered; channels without schema are skipped, and an empty list filters no writer |
| Partitions.McapReaderParticipant.ScanChannel | ddsrecorder_participants/src/cpp/replayer/McapReaderParticipant.cpp:199-290 | The scanning loop: the writer map and the rejected writers |
| Partitions.McapReaderParticipant.MatchAny | ddsrecorder_participants/src/cpp/replayer/McapReaderParticipant.cpp:112-126 | The nested loops find a match exactly if there is one |
| Partitions.McapReaderParticipant.MessagePartitions | ddsrecorder_participants/src/cpp/replayer/McapReaderParticipant.cpp:403-451 | One message: the answer and the cache after it; None and no change without partitions |
| Partitions.CacheIsInvisibleExactlyWhen | ddsrecorder_participants/src/cpp/replayer/McapReaderParticipant.cpp:403-451 | Over any run of messages from an empty cache, each gets the partitions it would get without the cache if and only if no writer is met with different partitions in two topics |
| Partitions.AnswerMessages | ddsrecorder_participants/src/cpp/replayer/McapReaderParticipant.cpp:403-451 | The reader, asked message by message, gives the answers of that run |
| Partitions.SecondTopicGetsFirst | ddsrecorder_participants/src/cpp/replayer/McapReaderParticipant.cpp:411-415 | A writer with partition A in one topic and B in another: its message in the second topic gets A |
| SqlBatching.CacheIsInvisibleExactlyWhen | converter/mcap_convert_tool/src/cpp/tool/McapToSqlConverter.cpp:376-452 | A worker hydrates every message as if alone if and only if messages with equal instance handles have equal keys |
| SqlBatching.RangeMeans | converter/mcap_convert_tool/src/cpp/tool/McapToSqlConverter.cpp:425-450 | What a worker computes otherwise: the key of the first message with the handle |
| SqlBatching.ConversionIsStableExactlyWhen | converter/mcap_convert_tool/src/cpp/tool/McapToSqlConverter.cpp:455-600 | What a conversion writes is the same for every batch size and every number of hardware threads if and only if accepted messages with equal instance handles have equal keys; every message is then hydrated as if alone |
| SqlBatching.SlicesMatterExactlyWhen | converter/mcap_convert_tool/src/cpp/tool/McapToSqlConverter.cpp:455-507 | All ways to slice a batch give the same messages if and only if messages with equal instance handles have equal keys |
| SqlBatching.BatchSizeMatters | converter/mcap_convert_tool/src/cpp/tool/McapToSqlConverter.cpp:437-449 | Two types under one handle: with batches of one message each has its own key, with a batch of two both have the first, on any hardware |
| SqlBatching.ThreadsMatter | converter/mcap_convert_tool/src/cpp/tool/McapToSqlConverter.cpp:464-494 | A batch of 513 messages of two types under one handle: a message in the second half has another key with two hardware threads than with one |
| SqlBatching.SlicingIsInvisible | converter/mcap_convert_tool/src/cpp/tool/McapToSqlConverter.cpp:455-514 | However a coherent batch is sliced, the hydrated batch is the single-worker one |
| SqlBatching.CutsCover | converter/mcap_convert_tool/src/cpp/tool/McapToSqlConverter.cpp:484-494 | Every index lies in exactly one slice |
| SqlBatching.Slices | converter/mcap_convert_tool/src/cpp/tool/McapToSqlConverter.cpp:478-494 | Ceiling division cuts any batch for any number of workers into adjacent slices that cover it, which are those of the specification |
| SqlBatching.WorkerCountMeans | converter/mcap_convert_tool/src/cpp/tool/McapToSqlConverter.cpp:464-471 | There are as many workers as threads, at least one, and none beyond the first without 512 messages before its own |
| SqlBatching.HydrateRange | converter/mcap_convert_tool/src/cpp/tool/McapToSqlConverter.cpp:402-451 | One worker changes its range only |
| SqlBatching.HydrateBatch | converter/mcap_convert_tool/src/cpp/tool/McapToSqlConverter.cpp:455-507 | Workers finishing in any order leave the batch as its slices say, each as its own worker made it |
| SqlBatching.Convert | converter/mcap_convert_tool/src/cpp/tool/McapToSqlConverter.cpp:533-600 | For every batch size and number of hardware threads the batches concatenate to what the conversion writes: the accepted messages in file order, hydrated; each is at most the batch size, all but the last exactly; with size 0 there is one batch at the end |
| SqlBatching.RowsAreRecords | converter/mcap_convert_tool/src/cpp/tool/McapToSqlConverter.cpp:402-451 | A conversion writes one row for each record of a known topic and an unfiltered writer, in order: log and publish time each in its own column, payload and raw times unchanged, text and handle of an available type computed from the payload, and the own key if equal handles mean equal keys |
| SqlBatching.SlicedIsWritten | converter/mcap_convert_tool/src/cpp/tool/McapToSqlConverter.cpp:425-450 | Even with shared keys only the key of a message can depend on the batch |
| CommandQueue.TakesInArrivalOrder | ddsrecorder/src/cpp/command_receiver/CommandReceiver.cpp:275-294 | In every interleaving of pushes, notifications, stop events and waits, no wait takes from an empty queue, and commands are returned in the order of arrival |
| CommandQueue.CloseExactlyWhen | ddsrecorder/src/cpp/command_receiver/CommandReceiver.cpp:280-285 | A wait that has the lock makes up a close exactly when stop events outnumber the pushes not yet notified |
| CommandQueue.CloseNeedsStop | ddsrecorder/src/cpp/command_receiver/CommandReceiver.cpp:280-285 | No close without a stop event |
| CommandQueue.NothingIsForgotten | ddsrecorder/src/cpp/command_receiver/CommandReceiver.cpp:347-364 | Once all pushes are notified, a waiting command or event keeps no one asleep, and any stop event closes |
| CommandQueue.StopBeforeNotification | ddsrecorder/src/cpp/command_receiver/CommandReceiver.cpp:356-362 | A stop event between a push and its notification: the command is returned, then the close |
| CommandQueue.StepKeepsInv | ddsrecorder/src/cpp/command_receiver/CommandReceiver.cpp:275-364 | The balance of count, queue, notifications and stop events is kept by every step |
| CommandQueue.CommandReceiver.WaitForCommand | ddsrecorder/src/cpp/command_receiver/CommandReceiver.cpp:275-294 | A wait adds its steps to the history; it returns a close and leaves queue and count, or returns the oldest command and takes one from both |
| CommandQueue.CommandReceiver.OnDataAvailable | ddsrecorder/src/cpp/command_receiver/CommandReceiver.cpp:347-364 | A sample is pushed under the lock, then notified |
| CommandQueue.CommandReceiver.SimulateEventOccurred | ddsrecorder/src/cpp/tool/DdsRecorder.cpp:341-348 | A stop event adds its step to the history and only counts |

## Left out

- HandlerModel: type names are their ranks in the order of `std::string`; only equality and that order are used.
- HandlerModel: `write_samples_` is taken by its contract (append in order, leave the list empty); McapHandler's and SqlHandler's own writing, schemas, write failures and full disks are not modelled.
- BaseHandlerClass.BaseHandler.AddSchema: type discovery is one step that records the type and dumps its pending samples; building the schema is not modelled.
- HandlerProtocol: one thread issues the commands; `enable`, `disable`, logging and the destructor's stop are not modelled. A data thread's work under `mtx_` is one step.
- HandlerProtocol.CommandEnds: counts the steps of the two threads between timeouts, spurious wake-ups and new commands; that the scheduler lets them step is not modelled.
- Crc32: bytes at an address are a sequence and the address a number; only bit 2 of the address is ever tested, as in the source.
- OptionModel: a text is what precedes its terminator, and rows of the usage table have both names set, as the documentation demands; `namelen` and the other argument checks are not modelled.
- OptionParser.Accept: whether an argument is the next word is told by where it was found, not by comparing pointers, so words whose storage overlaps are not covered; a NULL argument vector, which the code treats as an empty one, is not covered either.
- OptionParser.ParseGroup: the long-option step, which the source performs in the first round of its do-while loop, comes before the loop over the group.
- OptionPasses.ParseIntoLists: the options are chained into the lists after the pass that found them, one by one in the same order, not within it.
- OptionLists.StoreOptionAction.constructor: with bufmax below 0 the buffer must have an empty slot, as the code's search has no other end.
- OptionLists: slots of the two arrays are nodes in sequences, since slots never move; a link is a reference and a tag.
- LineWrapping: what the hardware answers for `__builtin_clz(0)` is any constant; a compiler's other freedom with undefined behaviour is not modelled.
- LineWrapping: output is a list of texts, line breaks and indents; the characters of an indent are not modelled.
- ColumnWidths: the parts of a table come as a list; `LinePartIterator`, tab stops and the rest of the layout are display detail.
- IntervalTrees: the value of an interval is a number; `std::sort` is any sorting that permutes; copying, `visit_all` and `extent` are not modelled.
- ReadJobQueues.ReadInFileOrder: chunk slots, decompression and malformed message indexes are not modelled; which messages a chunk yields is a parameter.
- ReadJobQueues.ReadJobQueue.Pop: the library's heap functions are sift-up and sift-down by swaps; their exact order of comparisons is not modelled.
- KeyValueMaps: the other parsers of fixed-width integers and byte arrays, and error texts, are not modelled.
- Partitions: QoS, dynamic types, scheduling and writing of messages are not modelled; SqlReaderParticipant splits differently and is not covered.
- Partitions.McapReaderParticipant.ProcessSummary: models the first summary of a reader, with no topics read before.
- SqlBatching: serialization, JSON and keys are functions of type name and payload; SQLite, topic metadata and the de-duplication by concatenated names are not modelled, nor steps of different workers within one another, since no worker touches another's slice.
- CommandQueue: the event handler's wait returns when its count is positive; statuses, the command loop of the main program and unknown commands are not modelled.
- Resource limits, YAML, time zones, the playback rate and the Qt controller are not modelled.
