# Kernel samplers: a Dafny model

The repository is a family of Linux kernel modules that sample a machine. A sampler thread fills a record counter by
counter and publishes it into a ring buffer; readers of a sysfs attribute drain the ring as lines of text; writers of other
attributes start and stop the threads, change the period or reset the ring. This project models the xstat module (one
sampler per node, any number of concurrent readers and writers) and the parts in which the older haswellstat and sbstat
modules differ from it, and proves what the code promises of them.

How the parts fit together:

- **The node as an object** (`XstatNode`, over `Pass`, `RingBuffer`, `Printer`, `StatRead`, `Drain`, `NodeCounters`). The
  class has the fields of `struct xstat_node`: a flat array of 256 * 16 words, the working record, the context words and
  three indices. Its methods are proved against functions on values: `RollBuffer` against `Passed` and `RollDropOldest`,
  `ShowStat` against `PopMany`, `DrainCount` and the text of the records. What those functions mean is then proved about
  them: a bounded sequence for the ring, the grammar of section 4 of RFC 8259 for the text (`Json` holds a parser that is
  proved to accept exactly that grammar's newline-terminated objects with integer values). `NodeText` states, without the
  printer's own account, what the thirty-two fields of a node's record are when its text is read back.
- **The module as a state machine** (`NodeMachine`, `NodeSafety`, `NodeCountersKept`, `XstatSystem`, `XstatRuns`,
  `XstatProgress`, `StopFinishes`, `FairRuns`, `CounterSums`). One step is one counter's init, restart or exit, one field
  copied or read under the node's lock, one stop flag set, one join. Every step is a total function, so every sequence of
  events is a run, and the threads ever created are kept, so that "at most one sampler" is a theorem and not an assumption.
  `XstatRuns` states what holds in every state of every run; `XstatProgress` shows what the module does once it is switched
  on (a sampler alone publishes one record every 37 steps; in every fair run the records published exceed every bound),
  `StopFinishes` that no reachable state is a deadlock and that in every fair infinite run `stop_stat` returns, and
  `FairRuns` that fair runs exist from every good state. `SoloRoll` and `SoloRead` connect the two models: a sampler left
  alone goes in 34 steps where `RollBuffer` goes in one call, and a reader left alone takes the records that `ShowStat`
  prints.
- **Counter arithmetic**: `PerfDeltas` and `PerfContext` (multiplexed perf counts and the life of the events), `IpmiPacking`,
  `IpmiRouting`, `IpmiTrace` and `IpmiSweep` (sensor bytes, requests and replies, what a pass returns and what it asks),
  `Temperature`, `Pacing`, and `Bits` (shifts and ors on numbers).
- **The older samplers**: `OldStat` and `OldPrinter` (the two-dimensional buffer and its printer), `OldRuns` (drop-oldest
  against drop-newest over whole runs), `OldControl` (the sampler holds `ctrl_lock` while it rolls), `Rollback` (module load
  that fails half way).

Premises. Allocation and thread creation succeed. `scnprintf` formats as `%llu`, `%d` and `%s` do, writes at most
`limit - 1` characters and returns how many; it is never negative, so the printers' branches for a negative result are not
there. Raw readings (clock, registers, perf counts), which perf events can be created, and the replies of the IPMI
controller are inputs of each step. `last` is read after the first `init_counters`. In haswellstat and sbstat a join of a
thread that has already ended returns at once.

Where the code does something other than one might expect, the model follows the code, and a lemma says exactly when it
makes a difference:

- the 20% overhead cap of haswellstat holds if and only if a pass takes less than 2^30 milliseconds (`Pacing.CapHolds`);
- the xstat sleep is the rest of the period unless the elapsed milliseconds do not fit 32 bits, or are so large that their
  difference turns positive again (`Pacing.XstatSleepIsRest`);
- haswellstat holds the newest 128 of the records that were rolled since the last clear and not delivered if and only if no
  roll since then found the ring full, or it is full now (`OldRuns.HaswellUndelivered`); `OldRuns.NotAlwaysTheNewest` is a
  family of runs where it does not. What it always holds is the newest 128 since the last delivery or clear
  (`OldRuns.HaswellHoldsTheNewest`);
- the energy difference masks the new reading but not the kept one, so it is the distance modulo 2^32 if and only if the kept
  one is at most 2^32 above the new (`CounterSums.EnergyDeltaMeaning`);
- a negative package temperature prints as 256 more (`Temperature.PrintedTemperature`);
- the older modules print a comma after the last field, so no record of theirs is in the grammar that every record of xstat
  is in: objects of RFC 8259 without white space, escapes or nesting, with integer values (`OldPrinter.OldRecordIsNotJson`);
- Fan6B of the Chameleon table carries the sensor number of Fan6A; the routing theorem is about the number a sensor's
  table entry has, whichever that is.

## Model

| member | source | states |
|---|---|---|
| `XstatRuns.DeliveredRecords` | xstat/xstat.c:300-324 | In every run, every delivered record is field for field what one pass of one thread's restarts returned, and deliveries are in publication order, hence none twice |
| `XstatRuns.StoredRecords` | xstat/xstat.c:150-166 | Whenever the sampler is not writing, the ring is the published records from the first that is not gone on; a record is in the ring exactly if its fate says so |
| `XstatRuns.RecordsAreConserved` | xstat/xstat.c:150-166 | In every run, published = delivered + overwritten + reset away + still stored |
| `XstatRuns.LastShowsTheNewest` | xstat/xstat.c:326-338 | Every read of `last` showed the record most recently published at that moment, after drains and resets too |
| `XstatRuns.OneSamplerAlive` | xstat/xstat.c:85-129 | In every run of on and off writes at most one thread of a node is not over, and it is the one `task` points to |
| `XstatRuns.ContextsAreOwned` | xstat/xstat.c:131-148 | No perf context is freed twice, no event released twice, none used afterwards, no missing thread is joined; a context that is not freed belongs to the live sampler, in its counter's word, and the kernel's live events are exactly those of such contexts |
| `XstatRuns.UsesFindTheirs` | xstat/xstat.c:112-154 | In every run, a sampler at a perf counter's restart or exit finds that counter's own context, not freed and with all its events live, and at an IPMI group's restart the group's static context; stop always finds a thread to tell |
| `XstatRuns.OffMeansQuiet` | xstat/xstat.c:112-129 | Whenever `ctrl_on` is false and `ctrl_lock` free, every thread is over, every context ever allocated was freed exactly once, and no event created for the node is live |
| `XstatRuns.OnMeansSampling` | xstat/xstat.c:85-110 | Whenever it is true and the lock free, the newest thread of every node was not told to stop and is not on its way out; that such a thread goes on publishing is `XstatProgress.PublishesWithoutEnd` |
| `XstatRuns.PublishedIntervals` | xstat/base_cnt.c:11-25 | In every run each published interval is the record's timestamp minus the one published before, modulo 2^64, across stop and start |
| `XstatRuns.StoredIntervals` | xstat/base_cnt.c:11-29 | The intervals after the first stored record add up to last minus first timestamp if and only if the clock did not go back between them |
| `XstatRuns.PublishedEnergy` | xstat/msr_cnt.c:43-53 | Over every run the published energies add up to the first raw reading plus the growth of a counter read modulo 2^32, if it never grows by 2^32 between readings |
| `XstatProgress.SwitchedOn` | xstat/xstat.c:85-110 | From off: a write of "on", one turn of the lock's holder for each node and one more leave the module on, the lock free, and every node with one more thread, not yet run and not told to stop |
| `XstatProgress.SamplerAlone` | xstat/xstat.c:168-195 | Where a sampler left alone is after any number of steps, and how many records it has published by then |
| `XstatProgress.PublishesOnePerCycle` | xstat/xstat.c:85-195 | From module load: switched on, and then left alone, a sampler has published exactly k records after 18 + 37 k steps and is about to begin the next pass |
| `XstatProgress.FirstInitCreatesAll` | xstat/xstat.c:131-139 | Its init leaves a context for each of the seven perf counters, and of all events exactly those live that the kernel could create for them |
| `XstatProgress.PublishesWithoutEnd` | xstat/xstat.c:168-195 | In every fair run, from any moment and for any number, the node publishes that many more records or the module is switched off |
| `XstatProgress.PublishesNext` | xstat/xstat.c:168-195 | In every fair run a sampler that is on publishes its next record, or the module is switched off |
| `XstatProgress.OnTakesEffect` | xstat/xstat.c:85-110 | In every fair run a write of "on" that finds the module off ends with it on, the lock free, and a sampler on every node |
| `XstatProgress.OffTakesEffect` | xstat/xstat.c:112-129 | In every fair run a write of "off" that finds it on ends with it off, the lock free, and every sampler over |
| `XstatProgress.PeriodIsLastWritten` | xstat/xstat.c:229-245 | In every run the period is the last value from 1 to 9999 that was written when the lock was free, 1000 before |
| `FairRuns.FairRunExists` | xstat/xstat.c:85-195 | From every good state there is a fair run, so what holds of all fair runs does not hold of none |
| `XstatSystem.RunsAreGood` | xstat/xstat.c:85-195 | The invariant of the module (records, lock, readers, contexts, timestamps, energy, a period from 1 to 9999, and how far start or stop has come with each node) holds after every sequence of events |
| `XstatSystem.ExecKeeps` | xstat/xstat.c:85-195 | Every single event keeps that invariant, from any state that has it |
| `XstatSystem.StartKeeps` | xstat/xstat.c:97-104 | Starting a node that is at rest makes a fresh thread its one sampler |
| `XstatSystem.SignalKeeps` | xstat/xstat.c:120-126 | Setting the stop flag always finds a live thread to tell |
| `XstatSystem.JoinKeeps` | xstat/xstat.c:120-126 | A join that returns leaves the node at rest |
| `NodeSafety.OneSamplerStep` | xstat/xstat.c:156-164 | A node step never revives an ended thread, and the sampler holds the node's lock exactly while it copies |
| `NodeSafety.PassKeptStep` | xstat/xstat.c:150-155 | Whoever moves, the working record's first fields are what the current pass returned so far |
| `NodeSafety.RingKeptStep` | xstat/xstat.c:156-164 | Whoever moves, the ring differs from the last settled one only in the slot at `buffer_next` under the sampler's lock, and the settled one is the newest published records |
| `NodeSafety.WholePassesStep` | xstat/xstat.c:150-166 | What is published is one whole pass |
| `NodeSafety.FatesStep` | xstat/xstat.c:150-166 | Every published record keeps exactly one fate, and deliveries stay ordered and unaltered |
| `NodeSafety.FatesAreFinal` | xstat/xstat.c:310-321 | A record once delivered, overwritten or reset away stays that |
| `NodeSafety.WholeRecordRead` | xstat/xstat.c:310-336 | A record read field by field under the lock is the oldest stored one for `stat`, the last published one for `last` |
| `NodeSafety.ReaderKeptStep` | xstat/xstat.c:310-322 | Nothing moves under a reader's lock: its fields so far are those of one slot |
| `NodeSafety.ShownStep` | xstat/xstat.c:326-338 | Any later step leaves true what `last` showed |
| `NodeSafety.RunLeavesRing` | xstat/xstat.c:150-166 | A sampler outside its critical section touches no slot, index or published record |
| `NodeCountersKept.ContextsStep` | xstat/hpc_cnt.c:26-70 | Every step keeps: live contexts are exactly those the current sampler has initialised and not yet let go of, and live events are exactly theirs |
| `NodeCountersKept.WordsStep` | xstat/base_cnt.c:11-29 | Every step keeps: the two adjacent context words carry the timestamps from pass to pass, and the energy word the last raw reading |
| `NodeCountersKept.MissingIsFault` | xstat/xstat.c:141-155 | A restart or exit faults if and only if the context in its counter's word is not there, was freed, or has an event that is not live, or an IPMI group's word is not its static context |
| `NodeCountersKept.InitKeepsContexts` | xstat/xstat.c:131-139 | One init allocates for its own counter only |
| `NodeCountersKept.ExitKeepsContexts` | xstat/xstat.c:141-148 | One exit releases every event of what its own counter's word holds and frees it, alive until then |
| `SoloRoll.RollAlone` | xstat/xstat.c:150-166 | A sampler left alone ends its 34 small steps with the words, ring and record that one `RollBuffer` call computes |
| `SoloRead.ReadAloneIsShowStat` | xstat/xstat.c:310-322 | A reader left alone, taking as many records as the page holds, leaves the ring that `ShowStat` leaves and delivers exactly the records whose text is the page |
| `SoloRead.LastAloneIsShowLast` | xstat/xstat.c:326-338 | A reader of `last` left alone shows the record published last, the one `ShowLast` prints, and changes nothing else |
| `SoloRead.ResetAlone` | xstat/xstat.c:247-260 | A non-empty write to `reset` empties the ring: what was stored is reset away, every other record keeps its fate, `last` shows what it showed; an empty write changes nothing |
| `StopFinishes.StopReturns` | xstat/xstat.c:112-129 | In every fair infinite run, from every state of stop, `ctrl_lock` is released with `ctrl_on` false and all samplers over |
| `StopFinishes.NoDeadlock` | xstat/xstat.c:85-195 | From every reachable state, without any fairness, some continuation frees `ctrl_lock` |
| `StopFinishes.ControlFinishes` | xstat/xstat.c:85-129 | In every fair run whoever holds `ctrl_lock` gives it back |
| `StopFinishes.SamplerEnds` | xstat/xstat.c:168-195 | In every fair run a sampler that stop waits for reaches its end |
| `StopFinishes.LockComesFree` | xstat/xstat.c:300-338 | In every fair run a reader that holds the node's lock gives it back |
| `StopFinishes.StepCountsDown` | xstat/xstat.c:168-195 | Each step of a thread that was told to stop, unless it waits for the node's lock, lowers a measure by one |
| `StopFinishes.RankFalls` | xstat/xstat.c:168-195 | No step of the node raises the measure |
| `StopFinishes.ReaderCanMove` | xstat/xstat.c:310-322 | A reader that holds the lock always has a step that changes the state |
| `StopFinishes.ReaderLeftFalls` | xstat/xstat.c:310-322 | Each of them lowers the reader's measure, and nobody else raises it |
| `StopFinishes.AtMostOneMore` | xstat/xstat.c:175-189 | Whatever happens after a stop flag is set, until the next start at most one more record is published, and none by a thread that had not run |
| `StopFinishes.StoppedBeforeItRan` | xstat/xstat.c:168-195 | A thread stopped before its first run executes neither init nor exit |
| `XstatNode.Node.constructor` | xstat/xstat.c:358-383 | A registered node has an empty valid ring and all words zero |
| `XstatNode.Node.TsRestart` | xstat/base_cnt.c:11-17 | The previous and the new timestamp go into two adjacent words, nothing else changes |
| `XstatNode.Node.IntvRestart` | xstat/base_cnt.c:19-25 | The difference of those words modulo 2^64 |
| `XstatNode.Node.EnergyRestart` | xstat/msr_cnt.c:43-53 | The wrapped difference to the kept reading, which the new unmasked one replaces |
| `XstatNode.Node.RestartAll` | xstat/xstat.c:150-155 | A pass, word by word: word 1 is the new timestamp minus the kept one modulo 2^64, word 10 the energy difference, all else is what was read; three kept words change, to the old and new timestamp and the energy reading |
| `Pass.PassMeaning` | xstat/xstat.c:150-155 | Sixteen restarts in order, each seeing the words the earlier ones wrote, are that closed form |
| `XstatNode.SlotWrite` | xstat/xstat.c:157-157 | Overwriting one slice of the flat buffer is an update of one slot |
| `XstatNode.Node.CopyToSlot` | xstat/xstat.c:157-157 | The copy changes the slice of its slot only |
| `XstatNode.Node.Publish` | xstat/xstat.c:156-164 | The critical section is a roll of the abstract ring |
| `XstatNode.Node.RollBuffer` | xstat/xstat.c:150-166 | One sample appends its record to what is stored, less the oldest if 256 are |
| `XstatNode.Node.StoreReset` | xstat/xstat.c:247-260 | A non-empty write empties the ring and an empty one changes nothing; both report their length |
| `XstatNode.Node.ShowStat` | xstat/xstat.c:300-324 | A read takes the oldest records by the half-page rule, as few as fill half a page or all, at least four if stored, and removes just those; it never fills the page, and the page parsed shows exactly the records taken |
| `XstatNode.Node.ReadRepeatedly` | xstat/xstat.c:300-324 | n reads with nothing published in between show exactly the oldest records, in order, and empty a ring of at most 4n |
| `XstatNode.Node.ShowLast` | xstat/xstat.c:326-338 | The text of the slot before `buffer_next`, whole, and no change to the ring |
| `RingBuffer.RollDropOldestRefines` | xstat/xstat.c:156-164 | Roll is: append, keep the newest n; the index equation is kept |
| `RingBuffer.RollTouchesOneSlot` | xstat/xstat.c:157-158 | A roll changes the slot at `buffer_next` and no other, and that is where `last` looks next |
| `RingBuffer.PopManyRefines` | xstat/xstat.c:310-321 | Draining k records removes a prefix, each found at `buffer_base` when its turn comes |
| `RingBuffer.ResetRefines` | xstat/xstat.c:255-256 | Reset and clear empty the sequence and keep the index equation |
| `RingBuffer.RollTracks` | xstat/xstat.c:150-166 | After a roll the stored records are a suffix of all published ones and the slot before `buffer_next` is the last of them |
| `RingBuffer.PopTracks` | xstat/xstat.c:319-320 | A drained record is the oldest that was not gone; what `last` shows stays |
| `RingBuffer.ResetTracks` | xstat/xstat.c:255-256 | After a reset nothing is stored; what `last` shows stays |
| `RingBuffer.WrapIsMod` | xstat/xstat.c:158-162 | The model's wrap-around is the code's remainder for every index that occurs |
| `Printer.Scnprintf` | xstat/xstat.c:267-270 | Returns the length, cut to limit - 1, writes that prefix and a terminator, and nothing for limit 0; every other character stays |
| `Printer.WriteMeaning` | xstat/xstat.c:262-298 | A bounded write leaves the prefix that fits, a terminator, and every other character as it was |
| `Printer.WriteAppend` | xstat/xstat.c:275-277 | Printing t and then u at the advanced pointer with the reduced limit is printing t followed by u |
| `Printer.PrintSensors` | xstat/ipmi_cnt.c:181-203 | The nested printer, for every limit: a prefix of its unbounded rendering and that many characters reported |
| `Printer.PrintCounter` | xstat/xstat.c:273-283 | The same for any one counter; what its fields are is `NodeText.RecordReadsBack` |
| `Printer.PrintRecord` | xstat/xstat.c:262-298 | The same for a whole record: the first min(full length, limit - 1) characters of one object over all fields |
| `Printer.TextOfTwo` | xstat/xstat.c:262-298 | The text of any record of two plain counters in full: braces, quotes, colons, one comma, a newline |
| `Decimal.DecMeaning` | xstat/xstat.c:279-279 | Decimal text denotes its number and has no superfluous zero |
| `Decimal.DecExamples` | xstat/xstat.c:279-279 | Digits stand highest first, after a sign if negative |
| `NodeText.RecordReadsBack` | xstat/xstat.c:28-49 | The text of any record of the node's sixteen counters, parsed, has `ts` to `l2lin` with words 0 to 8, `tpkg` with the temperature of word 9, `energy`, `eunit` and `perflmt` with words 10 to 12, and each sensor with (byte + base) * mul of words 13 to 15 |
| `NodeText.StatOfNode` | xstat/xstat.c:300-324 | A read of `stat` of such a node, parsed, has just these fields for each record taken, oldest first |
| `NodeText.LastOfNode` | xstat/xstat.c:326-338 | So has a read of `last`, for the record before `buffer_next` |
| `Printer.PartialTextMeaning` | xstat/xstat.c:272-290 | The pieces and separators the loop emits are one comma-separated list, however the fields are grouped |
| `Json.ParserIsExact` | xstat/xstat.c:262-298 | The reference parser accepts a text with a syntax tree if and only if the grammar spells that tree as that text |
| `StatRead.ReadBackRecovers` | xstat/xstat.c:262-324 | The text of any list of records is newline-terminated RFC 8259 objects, and parsing it gives every visible name and value back, in order |
| `StatRead.EqualTextsShowEqualValues` | xstat/xstat.c:262-324 | Equal texts imply equal visible fields |
| `Drain.DrainedReadBack` | xstat/xstat.c:300-324 | The page of one read, parsed, is what the records it took show |
| `Drain.DrainBounds` | xstat/xstat.c:311-321 | A read never fills the page, and stops with more than half a page left only on an empty ring |
| `Drain.ReadTakes` | xstat/xstat.c:311-321 | A read takes as few records as fill half a page, or all; at least four if stored |
| `Drain.LastIsNeeded` | xstat/xstat.c:311-321 | Without the last record that a read takes, more than half a page would be left |
| `Drain.ReadsDrain` | xstat/xstat.c:300-324 | On the texts alone: n turns of the half-page rule use up any list of at most 4n texts; for the node see `ReadRepeatedly` |
| `NodeCounters.RecordLength` | xstat/xstat.c:28-49 | Every record of the node's sixteen counters renders in 1 to 628 characters, less than a sixth of a page |
| `NodeCounters.NodeTableFits` | xstat/xstat.c:28-49 | So the node's table meets what the drain loop needs: no record is ever truncated |
| `CounterSums.IntervalsTelescope` | xstat/base_cnt.c:19-25 | Intervals add up to the timestamps' distance plus 2^64 for each time the clock went back |
| `CounterSums.ExactIntervals` | xstat/base_cnt.c:19-25 | They add up exactly if and only if it never did |
| `CounterSums.EnergyDeltaMeaning` | xstat/msr_cnt.c:43-53 | The delta is the distance modulo 2^32 if and only if the kept reading is at most 2^32 above the masked one |
| `CounterSums.EnergyDeltaIsGrowth` | xstat/msr_cnt.c:43-53 | It is the growth of the counter if and only if that is below 2^32 |
| `CounterSums.EnergiesAddUp` | xstat/msr_cnt.c:43-53 | Sums over any number of samples |
| `PerfDeltas.DeltaMeaning` | xstat/hpc_cnt.c:84-95 | On the raw fields: if neither count nor enabled time went back and running time grew, the delta is the exact quotient rounded half up, as long as quotient plus one half is below 2*10^12 + 1; in every other case it is 0 |
| `PerfDeltas.DeltaIsClose` | xstat/hpc_cnt.c:84-95 | Each delta is within one half of the exactly scaled count |
| `PerfDeltas.DeltaIsDifference` | xstat/hpc_cnt.c:88-90 | It is the raw difference, up to 2*10^12, when enabled and running time advance equally |
| `PerfDeltas.RunIsClose` | xstat/hpc_cnt.c:72-102 | Over any run the totals stay within one half per CPU and pass of the exact sum over accepted readings |
| `PerfDeltas.RunIsDifference` | xstat/hpc_cnt.c:72-102 | If in every pass on every CPU the count grew by at most 2*10^12 and the event ran whenever it was enabled, the totals add up to the difference of the last and first raw counts |
| `PerfDeltas.KeptIsLast` | xstat/hpc_cnt.c:96-98 | What a CPU's delta is taken from is the reading of the pass before, whether or not that counted |
| `PerfDeltas.PassTotalIsBounded` | xstat/hpc_cnt.c:91-94 | No pass returns more than 2*10^12 per CPU |
| `PerfDeltas.ReadingIsForgotten` | xstat/hpc_cnt.c:96-98 | A reading, rejected or not, affects its own pass and the next one, no other |
| `PerfContext.Context.constructor` | xstat/hpc_cnt.c:26-59 | The context holds exactly the events the kernel created for it, all new, with baselines zero |
| `PerfContext.Context.Restart` | xstat/hpc_cnt.c:72-102 | Returns the sum of the deltas modulo 2^64 and keeps every reading taken; reads live events only |
| `PerfContext.Context.Exit` | xstat/hpc_cnt.c:61-70 | Releases each event of the context once and no other |
| `PerfContext.Lifetime` | xstat/hpc_cnt.c:26-102 | Init, any number of passes, exit: the kernel's live events are as before, and each pass returned its total |
| `PerfContext.TotalsDoNotWrap` | xstat/hpc_cnt.c:76-94 | With at most nine million CPUs the sum never wraps |
| `IpmiPacking.Pack` | xstat/ipmi_cnt.c:166-177 | The shift-and-or loop from the last sensor down to the first, with the or taken bit by bit |
| `Bits.OrIsAdd` | xstat/ipmi_cnt.c:176-176 | Below n free bits an or is an addition |
| `IpmiPacking.PackThenPrint` | xstat/ipmi_cnt.c:181-203 | For up to eight sensors, packing and printing shows (reading + base) * mul under each sensor's name |
| `IpmiPacking.NinthShowsZero` | xstat/ipmi_cnt.c:187-191 | A ninth sensor would always show the value of byte 0 |
| `IpmiRouting.ReadingsAreRouted` | xstat/ipmi_cnt.c:123-136 | With replies in any order and any number of callers, every stored reading and every packed byte is 0 or byte 1 of a reply to a request for that sensor's number |
| `IpmiTrace.ReadingIsLastReply` | xstat/ipmi_cnt.c:123-136 | In every run a sensor's reading is byte 1 of the last handled reply longer than two bytes to a request for that sensor, and 0 only if there was none or it says 0 |
| `IpmiTrace.PrintedIsHeard` | xstat/ipmi_cnt.c:123-203 | In every run the results are, pass by pass, what had been heard of each sensor when the pass came to it; printed, for groups of at most eight sensors, each shows (b + base) * mul under its name for just that byte b |
| `IpmiSweep.SweepAsksEach` | xstat/ipmi_cnt.c:152-179 | A caller alone in a group with a user sends exactly one request to each sensor, last to first, by its own number and with the next message ids, gives the lock back, and returns the readings |
| `IpmiSweep.SweepWithoutUser` | xstat/ipmi_cnt.c:152-179 | Without a user nothing is sent, no id is drawn, and the readings are returned all the same |
| `IpmiRouting.IdsAreDistinct` | xstat/ipmi_cnt.c:169-174 | Two requests of a group share a message id if and only if a multiple of 2^32 ids was drawn between them; all differ up to 2^32 draws |
| `IpmiRouting.LockKeptCall` | xstat/ipmi_cnt.c:171-173 | One caller is in the critical section, and the id it loaded is still the current one |
| `IpmiRouting.TicketsKeptCall` | xstat/ipmi_cnt.c:171-174 | Every id drawn is with one caller or one request |
| `IpmiRouting.ReadingsKeptHandle` | xstat/ipmi_cnt.c:123-136 | A reply sets its own sensor's reading to byte 1, only if it is longer than two bytes, and changes no other reading |
| `Temperature.PrintedTemperature` | xstat/msr_cnt.c:5-35 | For every content of the two registers, as numbers: what is printed is bits 16-23 of the one minus bits 16-22 of the other if and only if that is not negative; else 256 more |
| `Pacing.XstatSleepIs` | xstat/xstat.c:175-181 | The mixed signed and unsigned arithmetic in closed form, for every 64-bit elapsed time |
| `Pacing.XstatSleepIsBounded` | xstat/xstat.c:178-181 | The sleep is never negative and never longer than a period that was read, even if the period is written between the unlocked reads |
| `Pacing.XstatSleepIsRest` | xstat/xstat.c:178-181 | It is the rest of the period, less one, if and only if 32 bits of the milliseconds tell the truth |
| `Pacing.SamplesKeepPace` | xstat/xstat.c:175-189 | n samples that each work for less than a period take at least n * (period - 1) and less than n * period milliseconds |
| `Pacing.CycleIs` | haswellstat/stat.c:318-326 | Overhead plus sleep is max(period, 5 * overhead) while that fits 32 bits |
| `Pacing.CapHolds` | haswellstat/stat.c:319-324 | The 20% cap holds if and only if the work takes less than 2^30 milliseconds |
| `Pacing.OverheadIsCapped` | haswellstat/stat.c:313-332 | Over any run at most a fifth of the cycle time is overhead, whatever the period is changed to |
| `OldStat.Buffer.RollHaswell` | haswellstat/stat.c:259-276 | Writes the row at `buffer_next` and nothing else; the ring drops its oldest record |
| `OldStat.Buffer.RollSandyBridge` | sbstat/sbstat.c:259-276 | A full ring refuses the record, unchanged, and reports -1 |
| `OldStat.Buffer.ShowStat` | haswellstat/stat.c:486-511 | Takes a prefix of the stored records and prints them whole |
| `OldStat.Buffer.ShowLast` | haswellstat/stat.c:513-527 | The newest stored record, or nothing |
| `OldStat.Buffer.StoreClear` | haswellstat/stat.c:443-457 | A text that begins with "on" or "1" empties the ring; any other is not consumed |
| `OldPrinter.PrintOld` | haswellstat/stat.c:278-308 | The first limit - 1 characters of the unbounded rendering, a terminator, and that count |
| `OldPrinter.OldTextReadsBack` | haswellstat/stat.c:288-302 | Without its last comma the text is in the grammar and shows every counter's name with its word, in order |
| `OldPrinter.OldTextLength` | haswellstat/stat.c:229-247 | A record of eleven counters is never truncated by a read |
| `OldPrinter.OldTextIsNotJson` | haswellstat/stat.c:288-302 | No text of a record with well-formed names is in the grammar of `Json`, because of the comma before the closing brace |
| `OldPrinter.OldRecordIsNotJson` | haswellstat/stat.c:229-302 | So no record of these modules' eleven counters is |
| `OldRuns.SameOnCommonRuns` | haswellstat/stat.c:259-276 | On every run of rolls and reads that never rolls when full, the two modules have identical states and deliveries |
| `OldRuns.FullRollDiffers` | sbstat/sbstat.c:259-276 | The first roll into a full ring tells them apart |
| `OldRuns.HaswellHoldsTheNewest` | haswellstat/stat.c:259-276 | haswellstat stores the newest 128 of the records rolled since the last one read or cleared |
| `OldRuns.EveryRecordHasOneFate` | haswellstat/stat.c:259-276 | In every run each record rolled since the last clear is exactly one of delivered, overwritten and stored; deliveries are in order and unaltered, and the stored ones are the last, in order |
| `OldRuns.RunIsTold` | haswellstat/stat.c:259-276 | The records rolled, the mark of the last clear and the first record not seen since are told by the operations and deliveries of the run alone |
| `OldRuns.StatTakes` | haswellstat/stat.c:486-511 | After any run a read delivers the oldest stored records by the half-page rule and leaves the others |
| `OldRuns.ClearEmpties` | haswellstat/stat.c:443-457 | After any run a clear leaves nothing stored |
| `OldRuns.HaswellUndelivered` | haswellstat/stat.c:259-276 | It stores the newest 128 of the records rolled since the last clear and not delivered if and only if no roll since then found the ring full, or it is full now |
| `OldRuns.NotAlwaysTheNewest` | haswellstat/stat.c:486-511 | After more than 128 rolls and one read it does not |
| `OldRuns.SandyBridgeLosesNothing` | sbstat/sbstat.c:259-276 | In sbstat, delivered followed by stored is what was accepted, in order |
| `OldControl.RunsAreGood` | haswellstat/stat.c:313-413 | The invariant of the control side holds after every sequence of events |
| `OldControl.OneSamplerAlive` | haswellstat/stat.c:389-413 | At most one sampler is alive, and none once `set_off` has returned |
| `OldControl.OneSamplerWhenOn` | haswellstat/stat.c:389-402 | Whenever `on` with no write of `ctrl` in progress, the newest thread is alive and was not told to stop |
| `OldControl.RollsWhileOn` | haswellstat/stat.c:316-318 | A roll happens only while `on`, under `ctrl_lock` |
| `OldControl.NothingRolledWhileOff` | haswellstat/stat.c:404-413 | Nothing is published between the critical section of `set_off` and that of the next `set_on` |
| `OldControl.JoinedSamplerMoves` | sbstat/sbstat.c:404-413 | The join cannot deadlock: a joined sampler is never kept from its next step |
| `OldControl.JoinEnds` | haswellstat/stat.c:341-343 | Three turns of its own end a joined sampler, whatever else happens |
| `OldControl.TurnRolls` | haswellstat/stat.c:316-328 | While `on`, with nobody holding a lock, one turn of the sampler's loop, six steps, rolls exactly once and leaves all else as it was |
| `OldControl.LoadedRolls` | haswellstat/stat.c:313-402 | From module load: switched on, and then left alone, the sampler has rolled exactly k times after 1 + 6 k steps |
| `OldControl.SetOnStarts` | haswellstat/stat.c:389-402 | `set_on` from rest sets `on` and makes one sampler, whose first step takes it into the loop |
| `OldControl.SetOffEnds` | haswellstat/stat.c:404-413 | `set_off` clears `on` and tells the sampler; three steps of its own end it without another roll, one more of the writer's ends the join |
| `Rollback.PerfInit` | haswellstat/stat.c:123-153 | Every slot holds an event exactly if no CPU up to its own failed, all baselines are zero, and the kernel's new events are those in the slots |
| `Rollback.PerfExit` | haswellstat/stat.c:155-165 | Releases each event held once and empties every slot |
| `Rollback.Undo` | haswellstat/stat.c:577-582 | The downward loop brings the kernel's live events back to what they were and leaves no slot filled |
| `Rollback.MicstatInit` | haswellstat/stat.c:545-586 | If every event can be created, every slot of every perf counter holds one, 32 for each counter and all new to the kernel, all baselines are zero, and a failing class registration undoes none of it; if any cannot, all created before it are released once and no slot holds one |

## Left out

- Module unload and the registration of nodes; the number of nodes is fixed for a run.
- Kernel services as code: class and sysfs registration, `kstrtoul`, allocation, the scheduler, `msleep`, register and perf
  reads are inputs or premises.
- Floating point in the perf scaling: the model rounds half up in exact arithmetic; rounding of `double` and casts that do
  not fit are not part of it.
- The HTIMER and TIMER variants, which are compiled out, and the optional JIF and CYCLES counters.
- `micstat/micstat.c` is not part of this model: its ring, printer and perf code repeat haswellstat, the rest is hardware
  access.
- `perflmt_restart` and `eunit_restart`, which return bits of one register; they are raw readings of a pass here.
- The creation and destruction of IPMI users and the watcher; whether a group has a user is fixed for a run.
- Replies whose address is outside the group's sensors, which the handler logs and drops.
- Concurrent writers of `ctrl` in haswellstat and sbstat, whose join and thread start are outside the lock.
- In the older modules a period that is written between the two reads of it in one cycle.
- The `ts`, `intv` and `oh` counters of the older modules as counters: only what the sleep makes of them is modelled.
- `sprintf` of the attributes `ctrl` and `period`, and the parsing of what is written to `ctrl` of xstat.
