# A verified model of BLuEMan

BLuEMan fuzzes a Bluetooth Low Energy stack that runs in a simulator.  A patched radio hands
every packet the target receives to the fuzzer and waits for it to come back; the fuzzer
replays a recorded seed over the live packets, mutates some of them, watches edge coverage,
and keeps the runs that reached something new as further seeds.

The project models these parts and proves properties of them.

- **Coverage** (`CoverageSpec`, `CoverageScan`): the byte-by-byte meaning of the coverage
  maps, and the three word-at-a-time scans over byte buffers, proved equal to it.  Loads are
  little-endian, as on the x86-64 hosts the fuzzer is built for.
- **The campaign** (`Campaign`, `SeedName`): which runs become seeds, as a fold over an
  arbitrary sequence of runs.  A run is its trace, the way it ended and the sizes of its
  record; nothing else is assumed of it.
- **The seed queue and the campaign loop** (`IntrusiveList`, `SeedQueue`, `Fuzzer`): the
  circular doubly linked list with heap nodes and a sentinel, the queue on it, and the loop
  that walks the queue while new seeds are pushed in front.  What a run does is given by an
  arbitrary function of the execution number and of the seed file that is fuzzed.
- **The protocol** (`Mailbox`, `Replay`, `Protocol`, `Completion`, `Lineage`, `Outcome`, `Intercept`,
  `InitCorpus`): the radio and the interceptor as two interleaved processes over one typed
  message queue, what seeds inherit from the seeds they were fuzzed from, how a run that was
  cut short affects the next, and the collection of the initial corpus.
- **The mutators** (`MutateOps`, `MutateBits`, `MutateBytes`, `HavocCases`, `Mutate`, `FieldMutator`,
  `FieldMutate`, `FieldFrames`, `FieldLimits`, `FieldCases`, `RandomMutator`, `PacketMutation`):
  `rand()` is an arbitrary stream, so every statement holds for every sequence of draws.  Packets
  are the packed structure images that the C code writes to, because two of the mutators write
  over the structure itself.
- **What mutation can reach** (`Reach`, `StrategyReach`, `UpperReach`, `RandomReach`,
  `PacketReach`): for every packet and every result within the stated distance, draws that lead
  there; with what the mutators keep for all draws, this bounds them from both sides.
- **Records and logs** (`LittleEndian`, `Packet`, `PktRecord`, `Recorder`, `RecordDump`,
  `CsvTrace`, `CoverageLog`): the two file formats of the packet recorder, the coverage log's
  forward fill, and the log of a whole session.

Code that works in place is modelled by methods on arrays, heap nodes or objects.  Each is
proved against a function on values, and the properties are proved of that function.

Domain conditions, each a `requires` where it is needed: `max_payload_len + 5 <= 255` (the
type `LivePkt`), `len <= max_payload_len + 5` (`Domain`, `InDomain`) with or without
`5 <= len` (`Whole`), a seed directory that is not empty, radio packets that are receptions
(`Receptions`; the hook on transmission is disabled in the patch) and that arrive unmarked
(`Hijacked`).  A seed packet's length is not bounded below, because a mutator can have
overwritten it.

## Where the code and its comments or evident intent differ

The model follows the code.  In each case there is a concrete failing input, and the exact
condition under which the code does what was meant.

- `mutator_full_stack2.c:264-267` announces a mark whenever only the length changed.  The
  length it compares with is read after the length draw: `FieldLimits.LengthChangeUnmarked`
  gives draws under which the length changes and no mark is set.  They exist for every packet
  but those that `FieldLimits.MarksIffLengthSettled` names, and for `mutate_pkt` as a whole for
  every packet that is neither marked nor empty (`PacketMutation.MarksIffMarkedOrEmpty`).
- `ATT_mutator` and `SM_mutator` form their pointers from the structure instead of the packet
  bytes.  `FieldLimits.MetadataKeptIffNotMisrouted`: the metadata survives every sequence of
  draws if and only if the packet is not one that can reach them; `MisroutedOverwrites` gives
  the draws.  The length survives if and only if the packet is not one of those with a
  maximum of 15 or more (`FieldLimits.LengthKeptIff`, `PacketMutation.StaysWholeIff`), and
  `FieldLimits.LengthOverwritten` gives the draws.  Draws that run another mutator keep
  everything (`FieldFrames.StrategyFrame`), and runs and lines of seeds survive it all the same
  (`PacketMutation.FieldRun`, `Lineage.FieldDescendants`).
- `intercept_ble_packet_for_init_corpus` takes the coverage delta as an unsigned difference.
  `InitCorpus.PicksBestIffNeverFalls`: the chosen index is the first largest rise if and only
  if the sampled coverage never falls; `InitCorpus.FallIsTakenForBest` is a fall.
- A run ended by the alarm does not recreate the message queue: `Completion.AlarmLeavesAck`
  gives such runs, one for every ack.  `Outcome.ConcludeRun` says exactly what is handed on to
  the next run, `Completion.StaleAckShifts` and `Completion.StaleStopEnds` what an ack does
  there, and `Completion.CompletionFrom` that every later undisturbed run hands on as many
  messages as it found.

## Model

| member | source | states |
|---|---|---|
| `IntrusiveList.ListAdd` | blueman-main/utils.c:30-37 | on any well-formed ring, the head alone included, the new node becomes the first behind the head and next/prev stay mutually inverse on distinct nodes; no other link is written |
| `IntrusiveList.ListAddTail` | blueman-main/utils.c:39-46 | the new node becomes the last of the ring, also when the head was alone |
| `IntrusiveList.ListDel` | blueman-main/utils.c:48-54 | the remaining nodes form the same ring without that node; the node's own links are left as they were; on a ring of one nothing changes |
| `IntrusiveList.InitListHead` | blueman-main/utils.c:56-59 | the node becomes a ring of one |
| `IntrusiveList.ListDelInit` | blueman-main/utils.c:61-64 | the ring loses the node, and the node becomes a ring of one |
| `IntrusiveList.ListEmpty` | blueman-main/utils.c:66-68 | true if and only if the ring holds the head alone |
| `IntrusiveList.ListLength` | blueman-main/coverage.c:209-219 | the walk from the sentinel ends and counts every node but the sentinel |
| `IntrusiveList.RingUnique` | blueman-main/include/utils.h:18-43 | the links determine the list: two listings of a ring from one node are equal |
| `IntrusiveList.AddThenDel` | blueman-main/utils.c:30-54 | adding a node and deleting it again restores every link of the ring |
| `CoverageSpec.VerdictZeroIffMergeIsIdentity` | blueman-main/coverage.c:51-74 | a verdict of 0 is given exactly to the traces whose merge would change no byte |
| `CoverageSpec.CoverageGrowsIffVerdictTwo` | blueman-main/coverage.c:51-100 | a merge never lowers total coverage, and raises it if and only if the verdict is 2 |
| `CoverageSpec.RunCoverageWithinTotal` | blueman-main/coverage.c:97-151 | once a trace has been merged, its own edge count is at most the total |
| `CoverageSpec.PopCountDropsIffNovel` | blueman-main/coverage.c:51-74 | a merge only clears virgin bits, and clears at least one if and only if the verdict is not 0 |
| `CoverageSpec.VerdictIs` | blueman-main/coverage.c:51-74 | the verdict is 2 exactly if some virgin byte 0xff meets a nonzero trace byte, and 0 exactly if no trace bit is virgin |
| `CoverageSpec.CountsPlaces` | blueman-main/coverage.c:76-124 | the two counts are the numbers of places where a trace is not 0 and where a virgin map is not 0xff |
| `CoverageScan.WordGate` | blueman-main/coverage.c:57 | the two-part guard on a word is open if and only if some byte of the word has a bit still virgin |
| `CoverageScan.MergeWord` | blueman-main/coverage.c:67 | the 64-bit store clears the trace's bits in each of the eight bytes and mixes none of them |
| `CoverageScan.HasNewBits` | blueman-main/coverage.c:51-74 | the scan leaves `virgin & ~trace` in every byte, skipped words included, and returns 2 iff some byte was hit for the first time, 1 iff only partly seen bytes got new bits, else 0 |
| `CoverageScan.CountBytes` | blueman-main/coverage.c:102-124 | the eight-byte scan counts exactly the nonzero bytes |
| `CoverageScan.CountNon255Bytes` | blueman-main/coverage.c:76-95 | the four-byte scan counts exactly the bytes that are not 0xff |
| `CoverageScan.CountWord` | blueman-main/coverage.c:108-119 | the masked tests on a word, with its zero shortcut, count its nonzero bytes |
| `CoverageScan.CountHalfWord` | blueman-main/coverage.c:82-92 | the 64-bit masks on a 32-bit word, with its all-ones shortcut, count the bytes that are not 0xff |
| `SeedName.FieldReads` | blueman-main/coverage.c:166 | a zero-padded number field reads back as the number, however wide it got |
| `SeedName.Injective` | blueman-main/coverage.c:166 | two equal seed names carry the same coverage, execution number and queue length |
| `SeedName.Layout` | blueman-main/coverage.c:166 | where in a name the coverage, the execution number and the queue length stand, in that order, and that each reads back |
| `SeedName.DecimalDigits` | blueman-main/coverage.c:166 | digit k from the right of a printed number is the decimal digit of the number |
| `SeedName.FitsBuffer` | blueman-main/coverage.c:158-166 | a name of 32-bit numbers fits the 300-byte buffer, so it is never cut |
| `Campaign.VirginIsComplement` | blueman-main/coverage.c:51-74 | after any sequence of runs, every byte of the virgin map is the complement of the union of the traces of all runs that did not crash |
| `Campaign.LosslessCorpus` | blueman-main/coverage.c:153-179 | after any sequence of runs, the kept seeds together cover, byte by byte, exactly what all runs that did not crash covered |
| `Campaign.LosslessBits` | blueman-main/btfuzz.c:584-605 | bit by bit: some run that did not end in a crash set it, if and only if some kept seed has it, if and only if it is no longer virgin |
| `Campaign.SurvivesIff` | blueman-main/btfuzz.c:584-605 | a trace is among the surviving ones if and only if some run that did not end in a crash left it |
| `Campaign.StepByFault` | blueman-main/btfuzz.c:584-605 | by how a run ended: a crash leaves map, corpus and queue length alone; any other end, timeout and error included, merges the trace and saves a seed, with its own counts, trace and verdict and under its own name, exactly if the merge changes the map |
| `Campaign.EveryKeptSeedIsNovel` | blueman-main/coverage.c:153-179 | no kept seed is redundant: it had a bit that no seed saved before it had |
| `Campaign.StepNotKept` | blueman-main/btfuzz.c:602-605 | a run that is not kept changes neither map nor corpus and, unless it crashed, has no bit the map had not seen |
| `Campaign.StepKept` | blueman-main/btfuzz.c:602-605 | a kept run did not crash, its trace is merged, and one seed is appended |
| `Campaign.BoundedGrowth` | blueman-main/coverage.c:126-179 | virgin bits left plus seeds saved never exceed the bits of the map; seeds of verdict 2 never outnumber the edges seen; `queued_paths` is what was loaded plus what was saved |
| `Campaign.StepSpends` | blueman-main/coverage.c:153-179 | a single run pays at least one virgin bit per seed, and one uncovered edge per seed of verdict 2 |
| `Campaign.NameCarriesQueueLength` | blueman-main/coverage.c:166-168 | the k-th saved name ends in the length of the queue at that moment, and no two saves share it |
| `Campaign.NamesDistinct` | blueman-main/coverage.c:166-174 | no save of a session overwrites another save of that session, even when the 32-bit execution number wraps |
| `Campaign.NoLoadedOverwritten` | blueman-main/coverage.c:166-201 | no save overwrites a file that was loaded, if the numbers in loaded seed names are below the number of files |
| `Campaign.SessionsStayNumbered` | blueman-main/coverage.c:166-201 | a session leaves a directory of that kind behind, so down any sequence of sessions nothing is overwritten |
| `Campaign.GapIsOverwritten` | blueman-main/coverage.c:166-174 | one loaded file with number 1: the first run with any edge is saved under that number and can take its name |
| `Campaign.MaxTotalIsTotal` | blueman-main/btfuzz.c:731-735 | the maximum that is logged is always the current total, and a surviving run's own coverage is within it |
| `Campaign.TotalMonotone` | blueman-main/btfuzz.c:731-735 | more runs never lower total coverage, and never take a seed away |
| `Campaign.LoggedTotalsRise` | blueman-main/btfuzz.c:731-764 | of two totals logged in a session the later one is at least the earlier |
| `SeedQueue.Queue.constructor` | blueman-main/coverage.c:20-21 | an empty ring around a sentinel, no top entry, nothing queued |
| `SeedQueue.Queue.Add` | blueman-main/coverage.c:126-146 | one entry is pushed in front of an unchanged rest, on the first call as on every other; the counter stays the length |
| `SeedQueue.Queue.MarkTop` | blueman-main/coverage.c:170-172 | the newest entry, and no other, is marked |
| `SeedQueue.Queue.Head` | blueman-main/coverage.c:221-223 | the newest entry of a queue that is not empty, never the sentinel |
| `SeedQueue.Queue.Tail` | blueman-main/coverage.c:225-227 | the oldest entry, never the sentinel |
| `SeedQueue.Queue.Next` | blueman-main/coverage.c:229-231 | from an entry that is not the oldest, the next older one |
| `SeedQueue.Queue.Advance` | blueman-main/btfuzz.c:774-775 | however many entries have been pushed in front since a pass began, the pass stops exactly at the entry that was its tail and otherwise goes on to the entry that followed when it began |
| `SeedQueue.Queue.Length` | blueman-main/coverage.c:209-219 | walking the ring gives the number that `queued_paths` keeps |
| `Fuzzer.Session.constructor` | blueman-main/coverage.c:30-45 | a session starts from the all-ones map and an empty queue |
| `Fuzzer.Session.LoadCorpus` | blueman-main/coverage.c:181-201 | every file of the directory is queued, in listing order, and nothing else changes |
| `Fuzzer.Session.SaveIfInteresting` | blueman-main/coverage.c:153-179 | the trace is merged; exactly on a nonzero verdict one seed is queued behind the others, with the file name made of edge count, execution number and old queue length, with the given count and length, and marked if and only if the verdict is 2; otherwise the queue stays |
| `Fuzzer.Session.Offer` | blueman-main/btfuzz.c:584-605 | a run that ended in a crash leaves map, corpus and queue as they were; a run that ended in any other way is merged and saved as `StepByFault` says |
| `Fuzzer.Session.Execute` | blueman-main/btfuzz.c:711-741 | one execution on heap maps and queue is one step of the campaign, visits the current node, and entries are only pushed in front |
| `Fuzzer.Session.Round` | blueman-main/btfuzz.c:711-764 | an entry is executed ten times in a row, whatever is queued meanwhile, and the total is logged once |
| `Fuzzer.Session.Pass` | blueman-main/btfuzz.c:707-776 | a pass ends, and the nodes it visits and the entries it fuzzes are exactly those present at its start, each ten times, newest to oldest, whatever was inserted; it never visits the sentinel or a new node, and logs once for each |
| `Fuzzer.TenEach` | blueman-main/btfuzz.c:711-776 | those visits and executions one by one: in a pass over n entries execution j visits the node that was at place n - 1 - j / 10, counted from the oldest, and fuzzes the seed file that its entry names; there are 10 * n of them |
| `Fuzzer.StartFuzzer` | blueman-main/btfuzz.c:695-776 | after any number of passes the session is the fold of exactly the executions of those passes, each over what was loaded and what the passes before saved, and the log is theirs; behind the loaded entries the queue carries the name, the count, the length and the mark of every saved seed in order; growth is bounded, `queued_paths` is the length, the logged maximum is the total |
| `LittleEndian.StoreLoad` | blueman-main/pkt_record.c:94-123 | storing a number and loading it gives its remainder by the width of the store |
| `LittleEndian.LoadStore` | blueman-main/pkt_record.c:43-92 | loading bytes and storing them back restores the bytes |
| `Packet.FieldOfStore` | blueman-main/include/interceptor.h:17-25 | a 32-bit field reads back what was stored in it |
| `Packet.Layout` | blueman-main/include/interceptor.h:17-25 | which field lies where: `sid`, device, mark, address, length and maximum at bytes 0, 4, 8, 12, 16 and 20, the packet bytes from 24 on |
| `Packet.FieldBytes` | blueman-main/include/interceptor.h:17-25 | a field is its four bytes, the lowest first |
| `Packet.ImageRoundTrip` | blueman-main/include/interceptor.h:17-25 | the packed image holds the packet |
| `Packet.DecodeInjective` | blueman-main/include/interceptor.h:17-25 | every image is the image of the packet it holds |
| `PktRecord.TextParses` | blueman-main/pkt_record.c:43-123 | parsing what was written from any offset fills the next slots with the same packets in order, never runs past anything, and leaves the other slots alone |
| `PktRecord.TextRoundTrip` | blueman-main/pkt_record.c:43-123 | count, address, maximum, length (also below 5, where it wraps), the first `len` bytes and the device survive a save and a load; `sid`, `mutated` and the bytes behind `len` stay the slot's own |
| `PktRecord.TextSize` | blueman-main/pkt_record.c:94-123 | a file takes 24 bytes a packet plus the total length |
| `PktRecord.LineParts` | blueman-main/pkt_record.c:94-123 | where the parts of a packet lie in the file: address, maximum, payload length, bytes, device |
| `PktRecord.CutLength` | blueman-main/pkt_record.c:60-72 | in a file that ends inside a packet the length field reads right once its first byte is there, and as an empty payload before |
| `PktRecord.TruncatedFile` | blueman-main/pkt_record.c:43-92 | a file cut anywhere is parsed without running past anything, and yields exactly the packets whose payload is complete, each as the format carries it and with its device unless its line is the one that is cut |
| `Recorder.Record.constructor` | blueman-main/pkt_record.c:13-19 | an empty recorder of the given number of slots |
| `Recorder.Record.Init` | blueman-main/pkt_record.c:21-24 | the recorder is empty again |
| `Recorder.Record.Add` | blueman-main/pkt_record.c:26-33 | a packet is appended while more than one slot is free, else refused with the contents unchanged |
| `Recorder.Record.PktSeqTotalLen` | blueman-main/pkt_record.c:35-41 | the 32-bit loop is the sum of the lengths modulo 2^32 |
| `Recorder.Record.SaveText` | blueman-main/pkt_record.c:94-123 | the writes leave exactly the lines of the packets in order |
| `Recorder.Record.LoadText` | blueman-main/pkt_record.c:43-92 | the in-place loop leaves in buffer and count what the parser function computes, overruns included |
| `RecordDump.DumpRoundTrip` | blueman-main/pkt_record.c:125-162 | a mapped raw dump of 16 bytes and 279 for each packet shows the count, the maximum and every packet whole, mark and trailing bytes included |
| `MutateBits.RandBitsMeaning` | blueman-main/mutator/mutate_strategy.c:16-30 | exactly the bits from `S` to the smaller of `S + N` and the end of that byte take the first bits of one draw; a range that does not fit changes and draws nothing |
| `MutateBits.FlipBitsMeaning` | blueman-main/mutator/mutate_strategy.c:70-81 | exactly those bits flip, every other bit of the block stays |
| `MutateBits.FlipTwice` | blueman-main/mutator/mutate_strategy.c:70-81 | flipping twice with the same arguments is the identity |
| `MutateBytes.ArithmeticNudges` | blueman-main/mutator/mutate_strategy.c:39-68 | the chosen byte or word moves by exactly the distance drawn, 1 to 50 up or down around its width, so it always changes; nothing else does, and two numbers are drawn |
| `MutateBytes.DistanceDrawn` | blueman-main/mutator/mutate_strategy.c:39-68 | that distance: one more than the first draw modulo 50, upwards if the second is odd |
| `MutateBytes.InterestListed` | blueman-main/mutator/mutate_strategy.c:83-108 | the chosen byte or word ends as the value of the 9 or 19 of the table that one draw picks, and nothing else changes |
| `MutateBytes.ListedValues` | blueman-main/include/mutator/mutate_strategy.h:14-36 | which numbers those are, as signed bytes and words |
| `MutateBytes.RandomByteMeaning` | blueman-main/mutator/mutate_strategy.c:9-14 | exactly one byte changes, the one at the first draw modulo the length, cut to a byte; it ends as the low byte of the second draw, and two numbers are drawn |
| `MutateBytes.RandomBytesInserted` | blueman-main/mutator/mutate_strategy.c:32-37 | the bytes from `S / 8` on, `N / 8` of them, are filled with the low bytes of as many draws in order, all others stay; a range that does not fit changes and draws nothing |
| `MutateBytes.RoundWindow` | blueman-main/mutator/mutate_strategy.c:119-147 | whatever a havoc round draws, it changes bytes only in a window of 31, since the byte count is shifted in eight bits |
| `MutateBytes.HavocChanges` | blueman-main/mutator/mutate_strategy.c:110-150 | for every length, 0 included, havoc ends, writes only inside its block, and changes at most 31 bytes for every round drawn, however large the block |
| `HavocCases.ByteCase` | blueman-main/mutator/mutate_strategy.c:117-119 | case 0 of a havoc round sets one byte to a drawn byte |
| `HavocCases.BitsCase` | blueman-main/mutator/mutate_strategy.c:120-124 | case 1 replaces one to eight bits, up to the end of their byte, by drawn ones |
| `HavocCases.InsertCase` | blueman-main/mutator/mutate_strategy.c:125-130 | case 2 fills a drawn range with draws in order; the count is shifted in eight bits, so it is the remainder by 32 |
| `HavocCases.ArithmeticCase` | blueman-main/mutator/mutate_strategy.c:131-135 | case 3 moves a byte or a word anywhere in the block by 1 to 50; a word that would begin with the last byte stays |
| `HavocCases.FlipCase` | blueman-main/mutator/mutate_strategy.c:136-140 | case 4 flips one to eight bits, up to the end of their byte |
| `HavocCases.InterestCase` | blueman-main/mutator/mutate_strategy.c:141-145 | case 5 sets a byte or a word anywhere in the block to the listed value drawn |
| `Mutate.MutateRandomByte` | blueman-main/mutator/mutate_strategy.c:9-14 | in place, writes and draws are those of the operator that `RandomByteMeaning` describes |
| `Mutate.MutateRandBits` | blueman-main/mutator/mutate_strategy.c:16-30 | in place, writes and draws are those of the operator that `RandBitsMeaning` describes |
| `Mutate.MutateRandomBytesInsert` | blueman-main/mutator/mutate_strategy.c:32-37 | the loop's writes and draws are those of the operator that `RandomBytesInserted` describes |
| `Mutate.MutateArithmetic` | blueman-main/mutator/mutate_strategy.c:39-68 | in place, writes and draws are those of the operator that `ArithmeticNudges` describes |
| `Mutate.MutateBitsFlip` | blueman-main/mutator/mutate_strategy.c:70-81 | in place, it is the operator that `FlipBitsMeaning` describes, and draws nothing |
| `Mutate.MutateInterest` | blueman-main/mutator/mutate_strategy.c:83-108 | in place, writes and draws are those of the operator that `InterestListed` describes |
| `Mutate.MutateHavoc` | blueman-main/mutator/mutate_strategy.c:110-150 | the loop ends after the drawn number of rounds, with the memory and the draws that `HavocChanges` speaks of |
| `FieldFrames.DataHeaderKept` | blueman-main/mutator/mutator_full_stack2.c:169-192 | NESN and SN (mask 0x0C of byte 0) are kept, and nothing is written outside the packet bytes below `len - 3` |
| `FieldFrames.AdvHeaderKept` | blueman-main/mutator/mutator_full_stack2.c:148-167 | the top four bits of byte 0 are kept, and nothing is written outside the packet bytes below `len - 3` |
| `FieldFrames.ChannelKeptOrListed` | blueman-main/mutator/mutator_full_stack2.c:107-146 | link-layer header and L2CAP length are kept, the channel is unchanged or from the table, nothing is written from `len - 3` on |
| `FieldFrames.StrategyFrame` | blueman-main/mutator/mutator_full_stack2.c:205-270 | for every packet and every sequence of draws that does not run a structure-writing mutator, so in the advertising, LL and L2CAP branches and the one without a mutator: the packet still fits with the drawn length, `5 <= len <= max + 5` is kept, header byte 1 ends as `len - 5`, metadata and fixed header bits stay, and no byte from `len - 3` on is written |
| `FieldFrames.OnlyMisroutedRunUpper` | blueman-main/mutator/mutator_full_stack2.c:219-252 | draws that run a structure-writing mutator exist for ATT and SM data packets with a maximum of 6 or more only |
| `FieldFrames.StrategyMarks` | blueman-main/mutator/mutator_full_stack2.c:205-270 | on every packet, misrouted ones included: it is marked exactly when a mutator ran, `sid` and the low half of the device stay, and without a mutator the drawn length stays |
| `FieldLimits.MetadataKeptIffNotMisrouted` | blueman-main/mutator/mutator_full_stack2.c:63-105 | every sequence of draws leaves the metadata alone if and only if the packet is not an ATT or SM data packet with a maximum of 6 or more |
| `FieldLimits.MisroutedOverwrites` | blueman-main/mutator/mutator_full_stack2.c:63-105 | for every misroutable packet, concrete draws that overwrite its device field |
| `FieldLimits.LengthKeptIff` | blueman-main/mutator/mutator_full_stack2.c:63-105 | every sequence of draws leaves the drawn length alone if and only if the packet is not an ATT or SM data packet with a maximum of 15 or more |
| `FieldLimits.LengthOverwritten` | blueman-main/mutator/mutator_full_stack2.c:63-105 | for every such packet, concrete draws that zero the low byte of a length of 20 or more |
| `FieldLimits.LengthOutOfReach` | blueman-main/mutator/mutator_full_stack2.c:205-270 | on every other packet and for all draws, misrouted or not, length and maximum stay and the length invariant is kept |
| `FieldLimits.LengthChangeUnmarked` | blueman-main/mutator/mutator_full_stack2.c:212-267 | for every packet that is not settled, concrete draws that change its length and leave it unmarked |
| `FieldLimits.MarksIffLengthSettled` | blueman-main/mutator/mutator_full_stack2.c:212-267 | every change of length is marked, for all draws, if and only if the packet is marked already, or has no payload and, as a data packet, no room for one |
| `FieldMutate.RunLLData` | blueman-main/mutator/mutator_full_stack2.c:169-192 | in place, it does and draws what `DataHeaderKept` speaks of |
| `FieldMutate.RunLLAdvertising` | blueman-main/mutator/mutator_full_stack2.c:148-167 | in place, it does and draws what `AdvHeaderKept` speaks of |
| `FieldMutate.RunL2CAP` | blueman-main/mutator/mutator_full_stack2.c:109-146 | in place, it does and draws what `ChannelKeptOrListed` speaks of |
| `FieldMutate.RunATT` | blueman-main/mutator/mutator_full_stack2.c:63-83 | in place, it writes over the structure as `MisroutedOverwrites` uses it |
| `FieldMutate.RunSM` | blueman-main/mutator/mutator_full_stack2.c:85-105 | in place, it writes over the structure as `MisroutedOverwrites` uses it |
| `FieldMutate.RunStrategy` | blueman-main/mutator/mutator_full_stack2.c:205-270 | length draw, layer switch, header write and mark, in place and in order, are the strategy that `StrategyFrame` speaks of |
| `FieldCases.LengthCases` | blueman-main/mutator/mutator_full_stack2.c:212-216 | half of the draws choose a payload length of 0 to the maximum, the others leave the length |
| `FieldCases.DataHeaderCases` | blueman-main/mutator/mutator_full_stack2.c:180-186 | three draws in ten replace LLID and the top four bits of the data header by drawn bits and keep NESN and SN |
| `FieldCases.AdvHeaderCases` | blueman-main/mutator/mutator_full_stack2.c:159-162 | one draw in ten replaces the low four bits of the advertising header by drawn bits |
| `FieldCases.ChannelCases` | blueman-main/mutator/mutator_full_stack2.c:127-140 | one draw in five shortens the L2CAP payload worked on, one in five writes one of the seven listed channels |
| `FieldCases.LayerCases` | blueman-main/mutator/mutator_full_stack2.c:219-251 | which draw runs which mutator on which layer, and when none runs |
| `FieldCases.CodeCases` | blueman-main/mutator/mutator_full_stack2.c:63-105 | seven draws in ten write a listed ATT opcode or an SM code below 15 |
| `Reach.HavocReaches` | blueman-main/mutator/mutate_strategy.c:110-150 | havoc can turn a block into any block that differs from it in at most half of its bytes |
| `StrategyReach.DataReaches` | blueman-main/mutator/mutator_full_stack2.c:169-270 | for every data packet some draws end in any header that keeps NESN and SN, any payload length its maximum allows and any payload of it that differs in at most half of its bytes, the packet marked |
| `StrategyReach.AdvReaches` | blueman-main/mutator/mutator_full_stack2.c:148-270 | the same for every advertising packet, with any header that keeps the top four bits |
| `StrategyReach.ChannelReaches` | blueman-main/mutator/mutator_full_stack2.c:109-270 | for every data packet with a layer above the link layer some draws end in any listed channel, any length and any L2CAP payload that differs in at most half of its bytes |
| `StrategyReach.AnyByte` | blueman-main/mutator/mutator_full_stack2.c:148-270 | every payload byte of every packet with a payload of two bytes or more can become any byte, all others, the header and the length as they were |
| `StrategyReach.AnyChannelByte` | blueman-main/mutator/mutator_full_stack2.c:109-270 | and so can every byte of an L2CAP payload of two bytes or more |
| `UpperReach.CodesListed` | blueman-main/mutator/mutator_full_stack2.c:56-105 | the ATT mutator leaves the opcode byte it finds or one of the table, the SM mutator one below 15 |
| `UpperReach.UpperReaches` | blueman-main/mutator/mutator_full_stack2.c:63-105 | and for every packet they can run on, some draws write any such code to byte 6 of the structure and, behind it, any bytes of which at most half differ from the structure's |
| `RandomMutator.RunRandomStrategy` | blueman-main/mutator/mutator_random.c:58-158 | in place, it does and draws what `RandomStrategyFrame` speaks of |
| `RandomMutator.RandomStrategyFrame` | blueman-main/mutator/mutator_random.c:58-158 | for every draw the length stays within `max + 5`, metadata stays, header byte 1 and the return value are the new payload length, nothing behind the payload is written, and the packet is marked exactly when it was mutated |
| `FieldCases.RandomCases` | blueman-main/mutator/mutator_random.c:58-158 | which draws leave a packet alone, which length the others draw, and that all others mutate |
| `RandomReach.RandomReaches` | blueman-main/mutator/mutator_random.c:58-158 | for every packet with a payload some draws end in any first header byte, any length its maximum allows and any payload that differs in at most a third of its bytes, rounded up, the packet marked |
| `PacketMutation.FrameMutation` | blueman-main/mutator/mutator_full_stack2.c:340-347 | for every packet, choice and draws that do not run a structure-writing mutator on it: metadata and `5 <= len <= max + 5` are kept |
| `PacketMutation.Routes` | blueman-main/mutator/mutator_full_stack2.c:17-54 | from the packet itself: which address is advertising, and which LLID, length byte and channel make it link layer only, L2CAP, ATT or SM |
| `PacketMutation.StaysWholeIff` | blueman-main/mutator/mutator_full_stack2.c:340-347 | `5 <= len <= max + 5 <= 255` survives `mutate_pkt` for every choice and all draws if and only if the packet has no payload or is not an ATT or SM data packet with a maximum of 15 or more |
| `PacketMutation.FieldMutation` | blueman-main/mutator/mutator_full_stack2.c:340-347 | for every packet, choice and draw: `sid` and the low half of the device are kept, the mark is kept or becomes 1; a packet that is not chosen or has no payload stays as it is |
| `PacketMutation.MarksIffMarkedOrEmpty` | blueman-main/mutator/mutator_full_stack2.c:340-347 | `mutate_pkt` marks every packet whose length it changes if and only if the packet is marked already or has no payload |
| `PacketMutation.RandomMutation` | blueman-main/mutator/mutator_random.c:156-158 | for every packet and draw the random mutator keeps metadata and `5 <= len <= max + 5`, and keeps the mark or sets it to 1 |
| `PacketReach.FieldPktReaches` | blueman-main/mutator/mutator_full_stack2.c:340-347 | `mutate_pkt` can make any byte of a payload of two bytes or more any other and leave the rest of header, payload and length |
| `PacketReach.RandomPktReaches` | blueman-main/mutator/mutator_random.c:156-158 | the random mutator can do that to any payload byte, with any first header byte |
| `PacketMutation.FieldRun` | blueman-main/btfuzz.c:179-201 | in every run of the field-aware mutator, ATT and SM packets included and for all choices and draws, no replayed packet loses its device or its mark or gets a stop mark, which is what completion and lineage need; a whole seed packet is recorded whole unless its length is exposed and these very draws run a structure-writing mutator on it |
| `PacketMutation.RandomRun` | blueman-main/btfuzz.c:179-201 | the same of every run of the random mutator, where a whole seed packet is also always recorded as a whole one |
| `Replay.CopyPkt` | blueman-main/btfuzz.c:89-97 | whatever the seed packet, the live packet keeps its `sid`, device, address and maximum, and any mark either had; with lengths from 5 on it keeps `5 <= len <= max + 5` |
| `Replay.ServeCounts` | blueman-main/btfuzz.c:179-223 | after any number of requests: the phase, the seed packets used, the packets recorded |
| `Replay.AnswersCome` | blueman-main/btfuzz.c:179-223 | every request of a run is answered, and only the last answer carries the stop mark |
| `Replay.RecordedPacket` | blueman-main/btfuzz.c:182-193 | packet j of a record is packet j of the seed copied over the j-th live one and mutated |
| `Replay.RecordInherits` | blueman-main/btfuzz.c:179-193 | however far a run gets, its record is no longer than its seed, at most 100 packets, all with a device, and marked wherever the seed was |
| `Replay.ReplayReproduces` | blueman-main/btfuzz.c:89-97 | without further mutation, packet by packet: a marked seed packet is recorded again with its bytes, cut to what the live packet has room for, in front of the live packet's remaining bytes; everything else in the record, and all of a packet that is not marked, is the live packet's |
| `Replay.TakeByPhase` | blueman-main/btfuzz.c:179-223 | what is answered, recorded and used up with a packet sent or received, while replaying, draining and stopping; the recorder takes 199 packets |
| `Replay.NeverRefusedNorStuck` | blueman-main/btfuzz.c:183-192 | the recorder never refuses a packet, and the missing-device branch is unreachable |
| `Replay.ServeSame` | blueman-main/btfuzz.c:179-223 | what the interceptor does depends only on the requests it has received |
| `Mailbox.Sent` | blueman-main/interceptor.c:25-33 | a sent message comes last among those of its type and moves no other |
| `Mailbox.ReceivedReq` | blueman-main/btfuzz.c:180 | receiving a request takes the first request and leaves all else in order, acks in front of it included |
| `Mailbox.ReceivedAck` | patch/bsim.patch:105 | receiving an ack takes the first ack and leaves all else in order |
| `Protocol.InvStep` | blueman-main/btfuzz.c:170-225 | every step of either process, and the death of the target at any moment, keeps the protocol invariant, whatever was on the queue at the start |
| `Protocol.Conservation` | patch/bsim.patch:71-124 | in every interleaving and from every queue: messages are neither lost nor made; with the one in hand there is one more than at the start exactly while a request is outstanding |
| `Protocol.Replies` | patch/bsim.patch:71-124 | in every interleaving the target gets first the acks left on the queue, then the answers to the requests left on it, then those to its own, in order |
| `Protocol.Safety` | patch/bsim.patch:71-124 | in every interleaving from an empty queue: at most one message in flight; for a waiting target exactly one of: its own request queued, the answer to it in the interceptor's hand, that answer queued; the k-th ack answers the k-th request |
| `Completion.ExactlyOneDue` | blueman-main/btfuzz.c:179-223 | from an empty queue, in every state before the end of an undisturbed run exactly one action of the two processes can happen |
| `Completion.NeverStuck` | blueman-main/btfuzz.c:179-223 | from every queue, acks with a stop mark included, in every state before that end some action can happen: no deadlock |
| `Completion.StepCountsDown` | blueman-main/btfuzz.c:179-223 | and every action brings the run exactly one step nearer to its end |
| `Completion.CompletionFrom` | blueman-main/btfuzz.c:170-225 | from every queue an undisturbed run ends after a number of steps fixed at its start: the target exits at the first stop mark it gets, which is the interceptor's if and only if no ack left over carries one; requests left over are served first; exactly as many messages are left as were found |
| `Completion.Completion` | blueman-main/btfuzz.c:170-225 | a run that is not cut short makes exactly `count + 2` exchanges, records exactly `count` packets, and ends after exactly `4 * (count + 2)` steps with the target exited and the queue empty |
| `Completion.LeavesMessageIff` | blueman-main/btfuzz.c:163-225 | stopped anywhere, a run from an empty queue leaves a message exactly when a request is outstanding that the interceptor does not have in hand |
| `Completion.AlarmLeavesAck` | blueman-main/btfuzz.c:163-168 | for every exchange of every well-formed run, a run that the alarm ends with the ack of that exchange on the queue; for the last exchange that ack is the stop |
| `Completion.StaleAckShifts` | patch/bsim.patch:104-119 | a whole undisturbed run that finds one ack without the stop mark is one answer behind: that ack is the first reply, every other reply answers the request before, and the last request stays on the queue |
| `Completion.StaleStopEnds` | patch/bsim.patch:104-119 | a whole undisturbed run that finds one ack with the stop mark makes one exchange: the target exits, the interceptor waits unfinished, and the answer to that request is left for the next run |
| `Outcome.Conclude` | blueman-main/btfuzz.c:372-401 | which exit codes and signals recreate the queue and which bar the run from the corpus: without `createInitCorpus` a run is offered exactly if it survives as the campaign says |
| `Outcome.ConcludeRun` | blueman-main/btfuzz.c:556-605 | the next run finds as many messages as this one found, plus the request outstanding and not in hand, if this one ended well or by the alarm and the attacker did not fail, and none otherwise; a run that starts on an empty queue and exits hands nothing on |
| `Lineage.RecordIsServed` | blueman-main/btfuzz.c:179-193 | in every interleaving, from every queue and at every moment the record is that of some number of requests served one at a time |
| `Lineage.ChildInherits` | blueman-main/btfuzz.c:179-193 | whatever a run with a discreet mutator leaves of a recorded seed is itself a recorded seed, no longer, with every mark it reaches |
| `Lineage.Descendants` | blueman-main/btfuzz.c:89-97 | down any line of descent with discreet mutators: at most 100 packets, each with a device, never more than an ancestor, and every mark of an ancestor that is reached persists |
| `Lineage.FieldDescendants` | blueman-main/mutator/mutator_full_stack2.c:205-347 | all of that holds down every line of seeds of the field-aware mutator, for all choices, draws, interleavings and left-over messages, with nothing assumed of the mutator |
| `Lineage.RandomDescendants` | blueman-main/mutator/mutator_random.c:58-158 | and down every line of seeds of the random mutator, where every packet of every seed also keeps `5 <= len <= max + 5` |
| `Intercept.InterceptForFuzz` | blueman-main/btfuzz.c:170-225 | the program with its recorder sends the answers, and leaves the record, of the sequential interceptor the protocol proofs compare every interleaving with |
| `InitCorpus.StopsAtLimit` | blueman-main/btfuzz.c:108-134 | the loop stops with between 1 and the maximum number of packets, exactly at the last allowed packet or at the 81st whose coverage did not rise |
| `InitCorpus.NotRisenIs` | blueman-main/btfuzz.c:123-133 | which packets those are: coverage not above that of the packet in front, or not above 0 for the first |
| `InitCorpus.FirstReceptions` | blueman-main/btfuzz.c:108-134 | record and samples are the packets and the coverages of the first receptions, in order; until the loop stops it has recorded all of them, and fewer than the maximum |
| `InitCorpus.ReceivedAll` | blueman-main/btfuzz.c:111 | the receptions are exactly the requests from device 1, none of them left out |
| `InitCorpus.PicksBestIffNeverFalls` | blueman-main/btfuzz.c:114-122 | `max_delta_index` is the first index of the largest coverage delta, or 0 when none is positive, if and only if the coverage of the receptions recorded never falls |
| `InitCorpus.PicksLargestRise` | blueman-main/btfuzz.c:114-122 | so if coverage never falls, no packet recorded added more than the one picked, and none in front of it as much |
| `InitCorpus.FallIsTakenForBest` | blueman-main/btfuzz.c:114-122 | two receptions, the second with less coverage: its index is chosen |
| `InitCorpus.HandleRequest` | blueman-main/btfuzz.c:110-134 | a turn of the loop as it runs, recording in place |
| `InitCorpus.InterceptForInitCorpus` | blueman-main/btfuzz.c:99-138 | the loop as it runs ends with the record, the flag and the index that the statements above are about |
| `InitCorpus.StoppedStays` | blueman-main/btfuzz.c:130-131 | requests behind the stop change nothing |
| `CsvTrace.Trace.Rebuild` | blueman-main/coverage_logger/gen_csv.py:21-27 | the in-place forward fill leaves at every second up to the maximum the value of the latest key at or before it, and every other key as it was |
| `CsvTrace.Trace.Load` | blueman-main/coverage_logger/gen_csv.py:34-40 | the dictionary holds the entries in front of the first one behind the maximum |
| `CsvTrace.Convert` | blueman-main/coverage_logger/gen_csv.py:29-48 | one row for every second, each the latest value at or before it |
| `CsvTrace.RowIsLastBy` | blueman-main/coverage_logger/gen_csv.py:34-42 | for a log in time order, row t is the coverage of the last entry with second at most t, or 0 |
| `CsvTrace.CsvRow` | blueman-main/coverage_logger/gen_csv.py:34-48 | and the early break changes no row |
| `CsvTrace.RowReads` | blueman-main/coverage_logger/gen_csv.py:29-48 | in microseconds: row t is the coverage of the last entry logged before `1000000 * (t + 1)`, or 0 |
| `CsvTrace.CsvRises` | blueman-main/coverage_logger/coverage_logger.c:32-50 | if logged coverage never falls, the column never falls |
| `CsvTrace.RebuildIdempotent` | blueman-main/coverage_logger/gen_csv.py:21-27 | rebuilding twice is rebuilding once |
| `CoverageLog.LogEntry` | blueman-main/btfuzz.c:711-764 | the i-th entry a session logs is its total after `10 * (i + 1)` executions, at the time they end |
| `CoverageLog.SessionLogRises` | blueman-main/btfuzz.c:731-764 | the totals a session logs never fall, and the log is in time order if time is |
| `CoverageLog.SessionCsvRises` | blueman-main/coverage_logger/gen_csv.py:21-48 | the coverage column of the CSV of any session never falls |
| `CoverageLog.SessionCsvRow` | blueman-main/coverage_logger/gen_csv.py:21-48 | row t of the CSV of any session is the number of edges covered after the last round of ten executions that was over before second t was |

## Left out

- Process control, signals, `fork`/`clone`/`exec`, shared memory and `mmap` themselves: a run's trace, status and record sizes are inputs, files are byte sequences, directory listings are given.
- What `hijack_packet_recorder` copies into the radio's buffer: it depends on simulator code that is not part of this model; only the message exchange is modelled.
- Failing `msgsnd` and `msgrcv` calls: a retried call is a step that has not happened yet; the endless loops on receive errors are not modelled.
- Requests from the disabled transmission hook: `Completion` and `Lineage` need receptions; `Protocol.Safety` does not.
- The message interleaving of the initial-corpus run and its final stop exchange: its loop is modelled on the requests it receives.
- The rolls of `should_mutate_packet` and the mode set by `selection_strategy_setup`: the choice is arbitrary, packet by packet.
- `rand()` is not bounded by `RAND_MAX`: the statements hold for more streams than the C library can produce.
- Builds with `DO_NOT_FUZZ_CONTROLLER`, and the exit by `TIMER`: `Fuzzer.StartFuzzer` takes a number of passes.
- `mutator_afl4.c`: it repeats the havoc frame with less structure.
- `my_copy_file_range`, saving of crash logs, JSON reading and writing, the limit on log entries, R plots, shell scripts, Docker files, and the Zephyr and BTstack patches.
- Block lengths from 2^29 bytes on, where `bytes_len << 3` overflows 32 bits; packets have at most 255.
- Counters for time, rounds, crashes and packets.
- 32-bit and 64-bit wrap-around of `queued_paths` and `total_exec_times`: `Campaign.BoundedGrowth` bounds the saves of a session, and the execution number is cut to 32 bits where it enters a name.
- Recorder.Record.LoadText: a packet that would overrun its bytes or the buffer is undefined in C; the model reports an overrun and stops in front of that copy.
- RecordDump.DumpRoundTrip: the writable mapping and its sharing with the file are not modelled, only what the mapped bytes show.
- PktRecord.TruncatedFile: bytes behind the end of a mapped file read as zero; the fault beyond the last mapped page is not modelled.
- FieldFrames.StrategyFrame: says nothing of draws that run `ATT_mutator` or `SM_mutator`, which write over the structure; `FieldFrames.StrategyMarks` and `FieldLimits.LengthOutOfReach` say what holds of them too.
- Campaign.NoLoadedOverwritten: asks for a numbering that sessions keep; a directory that someone has removed files from can lack it.
