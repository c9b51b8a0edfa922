# ll-34 in Dafny

ll-34 simulates a PDP-11/34A down to its microcode, ROMs and clocks. This project models the parts
of it whose correctness depends on state kept across calls, on loops and on modular arithmetic, and proves what they
promise:

- the MS11-L memory, where refresh and processor cycles share one array (`Ms11Memory`, `CpuTiming`);
- the logic analyzer, from its ring buffer through the sigrok export to the program that decodes, aligns and qualifies
  a capture (`Capture`, `LogicAnalyzer`, `SigrokExport`, `CycleDecode`, `ExportDecode`, `Alignment`, `Qualification`,
  `CellVerdicts`, `Crc32`, `ZipArchive`, `SessionArchive`);
- the interrupt fabric with the DL11, KW11 and PC11 (`Interrupts`, `Peripherals`, `Requests`,
  `DeviceBits`, `Devices`, `Machine`);
- KT memory management (`KtMemory`, `KtRegisters`, `KtUnit`);
- the ALU and the condition codes (`Alu`, `AluGates`, `ConditionCodes`);
- the RK11 and RL11 disk controllers (`DiskTransfer`, `DmaLoops`, `Rk11`, `Rk11Places`, `Rk11Controller`,
  `Rl11`, `Rl11Places`, `Rl11Commands`, `Rl11Controller`).

`Proms` holds the four ROM tables that the proofs decode (E29, E68, E83 and E107), with their address lines as wired.
`Bits` and `Bytes` are arithmetic that several modules share. What the program changes in place is a class or a
method with loops, proved against functions on values, and the properties of whole runs are proved about these
functions. `dafny verify dfyconfig.toml` checks the project.

## What the proofs found

- A refresh that falls due while a memory cycle is being arbitrated is done after that cycle, although it is due
  by its start: exactly if the next refresh is at most the arbitration time away (`DueByStartDoneIff`; input:
  `ArbitrationOvertakesRefresh`).
- The trigger index of the analyzer stays non-negative after a depth change has dropped the capture, against the comment
  in its header: exactly if a trigger had been accepted (`Probe.SetDepth`; input: `DroppedTriggerIsReported`).
- Requests of one level are not served first come, first served: a removal moves the last entry forward, which disturbs
  a level exactly if an entry in between has the level of the last one (`LevelOrderKeptIff`; inputs:
  `LaterRequestOvertakes`, `ThreeTerminals`).
- A request of the console line can stay pending after DONE or READY is cleared: exactly if RBUF is read or XBUF is
  written before the interrupt is taken (`BackedIff`; input: `StaleFromPowerUp`).
- An RK11 write check on a short image goes round for ever, unless memory ends before the image does
  (`CheckEndsIffNotHangs`; input: `EmptyImageHangs`).
- An RL11 transfer of 65536 words of which no sector passes leaves RLMP at zero, so INCMP and DLT stay clear, and where
  the image has no word at all there is no error of any kind (`ZeroResidue`, `SilentIff`; inputs: `EmptyImageExample`,
  `MissingMemoryExample`).
- A byte written to an odd address of the RL11 is taken from the low data lines, but the processor sends it on the high
  ones: it arrives exactly if both carry the same byte (`OddByteArrivesIff`; input: `OddByteLost`).
- Cyclic alignment misses a window as long as the reference or longer that matches it, exactly if the window does not
  end within the doubled reference less one event from its first phase on (`LongWindowAcceptedIff`; input:
  `LongWindowMissed`). What it accepts is unambiguous (`AcceptedIsSound`).

## Model

| member | source | states |
|---|---|---|
| `Ms11Memory.BacklogShrinks` | pdp11/unibus/ram.c:46-51 | The refresh loop has a measure: each refresh lowers the backlog although it may move the start of the waiting cycle forward. |
| `Ms11Memory.WaitBound` | pdp11/unibus/ram.c:40-59 | A cycle waits at most for the busy array plus one refresh and one arbitration, from any state that is on schedule, and leaves such a state. |
| `Ms11Memory.RespondKeepsTrace` | pdp11/unibus/ram.c:40-59 | One request extends a trace of disjoint, time-ordered slots in which every refresh starts after it is due and before due + arbitration + cycle. |
| `Ms11Memory.RunIsGood` | pdp11/unibus/ram.c:40-69 | From power up, any run of requests produces such a trace and leaves no refresh due by the time the last loop ended. |
| `Ms11Memory.ArrayNeverShared` | pdp11/unibus/ram.c:40-69 | Over any run, all memory and refresh cycles are pairwise disjoint in time and in order. |
| `Ms11Memory.RefreshExactlyOnce` | pdp11/unibus/ram.c:43-51 | Over any run, refresh k has been done, once, if and only if it was due when the refresh loop last ended, and it began less than arbitration + cycle after it was due. |
| `Ms11Memory.DueByStartDoneIff` | pdp11/unibus/ram.c:43-58 | Every refresh that is due by the final start of a memory cycle is done if and only if the next refresh is more than the arbitration time away when the cycle could start, that is, if and only if the cycle is not arbitrated. |
| `Ms11Memory.ArbitrationOvertakesRefresh` | pdp11/unibus/ram.c:52-58 | The concrete request (a read at 14450 ns) whose arbitration delay lets a refresh fall due before the cycle starts. |
| `Ms11Memory.RequestIsServed` | pdp11/unibus/ram.c:40-59 | A run goes on with a request by some refreshes and then one cycle, which starts when request and array are ready, or one arbitration later if and only if the next refresh is due by then; the counters tell how many cycles were that late and how long all have waited. |
| `Ms11Memory.Ram.constructor` | pdp11/unibus/ram.c:60-69 | Power up gives the nominal or the aged timing, no busy time and the first refresh one interval ahead. |
| `Ms11Memory.Ram.RefreshTurn` | pdp11/unibus/ram.c:46-51 | The body of the refresh loop in place: one refresh is logged, and the state is the one the value model gives. |
| `Ms11Memory.Ram.Response` | pdp11/unibus/ram.c:40-59 | The method that updates busy_until, next_refresh and the counters in place refines the value model and so all its lemmas. |
| `CpuTiming.AccessBound` | pdp11/kd11ea/clockgen.c:9-31 | From any paced state, a memory access answers within carry + refresh + arbitration + access time. |
| `CpuTiming.StepKeepsPace` | pdp11/kd11ea/kd11ea.c:850-855 | Every micro-step, with or without a transfer, leaves at most the carry of the profile as busy time for the next step. |
| `CpuTiming.EveryAccessAnswers` | pdp11/kd11ea/kd11ea.c:488-492 | After any micro-program the latency bound holds for the next access, for every profile whose cycle fits. |
| `CpuTiming.MachineBounds` | pdp11/kd11ea/clockgen.c:13-31 | For the machine itself the carry is 8 ns (nominal) and 0 (aged), so reads answer within 385 + 8 + 570 + 60 ns. |
| `CpuTiming.CarryIsReached` | pdp11/kd11ea/clockgen.c:16-31 | Two back-to-back writes reach the 8 ns, so the bound is tight. |
| `CpuTiming.PeriodIs` | pdp11/kd11ea/clockgen.c:9-12 | A micro-cycle takes the short period, or the long one if it asks for it or loads BA through relocation. |
| `CpuTiming.CycleIsLast` | pdp11/kd11ea/clockgen.c:13-31 | A micro-cycle ends with the last of its period, its grant and its transfer. |
| `Capture.EveryAt` | pdp11/probe/probe.c:939-994 | The log is every divider-th input: entry i is input (i + 1) * divider - 1. |
| `Capture.TriggerIsFirst` | pdp11/probe/probe.c:940-964 | The accepted trigger is the first input whose level or edge condition holds with the pre-trigger part stored; there is none exactly if no input qualifies. |
| `Capture.CompletionTime` | pdp11/probe/probe.c:963-993 | A capture is complete exactly depth * divider inputs after arming without a trigger, or remaining * divider inputs after the trigger. |
| `Capture.TriggerPlacement` | pdp11/probe/probe.c:1007-1014 | Where the trigger index of a complete capture lies, for every divider, also when the trigger itself was not stored. |
| `Capture.TriggerPlacementUndivided` | pdp11/probe/probe.c:1007-1014 | With divider 1 the index is min(pre, t, depth - 1), exactly max(1, depth - pre) samples follow from the trigger on, and log entry t is input t. |
| `Capture.LogStep` | pdp11/probe/probe.c:948-993 | One input extends the log exactly when the divider counter comes round, with the count restarted at the trigger. |
| `Capture.RemainingStep` | pdp11/probe/probe.c:963-993 | How one input moves the divider count and the remaining post-trigger samples, before, at and after the trigger. |
| `Capture.AcceptsByCount` | pdp11/probe/probe.c:958-961 | The test that the code makes on its stored count is the test on the history. |
| `Capture.TriggerMeans` | pdp11/probe/probe.c:940-964 | The trigger is the first input at which the condition holds, for an edge right after an input without it, with the pre-trigger part of the samples stored by then. |
| `Capture.LogAt` | pdp11/probe/probe.c:948-993 | Every stored sample by its place: every divider-th input up to the trigger, and then every divider-th counted from the trigger on. |
| `LogicAnalyzer.PreIsShare` | pdp11/probe/probe.c:916 | The pre-trigger part is the whole samples of its share of the depth. |
| `LogicAnalyzer.RingStore` | pdp11/probe/probe.c:981-985 | Storing at the head keeps the ring equal to the last depth entries of the log. |
| `LogicAnalyzer.LargestIsUnique` | pdp11/probe/probe.c:890-893 | The depth is the only power of two p with p <= n < 2p. |
| `LogicAnalyzer.RoundDown` | pdp11/probe/probe.c:890-893 | The doubling loop finds the largest power of two. |
| `LogicAnalyzer.StartTracks` | pdp11/probe/probe.c:912-931 | A probe that was just armed is in the state that its setup and no inputs call for, with an empty log. |
| `LogicAnalyzer.ArmedTracks` | pdp11/probe/probe.c:940-978 | One input while armed: the state that the code computes from its counters is the one that the longer history calls for, and the log grows exactly on the divider tick. |
| `LogicAnalyzer.CapturingTracks` | pdp11/probe/probe.c:980-993 | The same while capturing, with the countdown and its end. |
| `LogicAnalyzer.Probe.constructor` | pdp11/probe/probe.c:884-931 | A fresh probe is idle with its whole capacity, rounded down, as depth. |
| `LogicAnalyzer.Probe.SetDepth` | pdp11/probe/probe.c:884-898 | The depth becomes the largest power of two within the request, the capacity and 262144; a change drops the capture, and the trigger index is then -1 exactly if no trigger had been accepted. |
| `LogicAnalyzer.DroppedTriggerIsReported` | pdp11/probe/probe.c:884-898 | A concrete run, of a probe of two samples that is armed, triggered by its first input and made shorter: no sample is valid, and the trigger index is not -1. |
| `LogicAnalyzer.Probe.SetTriggerPos` | pdp11/probe/probe.c:904-908 | The position is clamped to 0..100 percent. |
| `LogicAnalyzer.Probe.Configure` | pdp11/probe/probe.c:874-902 | In every phase trigger, edge and divider change and nothing else; a capture that is not running, or not changed by it, keeps its closed form. |
| `LogicAnalyzer.Probe.Arm` | pdp11/probe/probe.c:912-931 | Arming starts an empty log with the pre-trigger count below the depth and the whole new state as stated; without a trigger it starts a free run. |
| `LogicAnalyzer.Probe.Disarm` | pdp11/probe/probe.c:933-935 | Disarming changes the phase and keeps what was captured, with its trigger. |
| `LogicAnalyzer.Probe.Tick` | pdp11/probe/probe.c:948-956 | The divider counter wraps at the divider, and exactly then the input goes to the end of the log and into the ring. |
| `LogicAnalyzer.Probe.Accept` | pdp11/probe/probe.c:963-976 | Accepting the trigger restarts the divider, notes the trigger sample and sets the remaining samples. |
| `LogicAnalyzer.Probe.SampleArmed` | pdp11/probe/probe.c:940-978 | One input while armed keeps the invariant: ring, log, state and history agree. |
| `LogicAnalyzer.Probe.SampleCapturing` | pdp11/probe/probe.c:980-993 | One input while capturing stores and counts down as the history says, and ends at zero. |
| `LogicAnalyzer.Probe.Sample` | pdp11/probe/probe.c:939-994 | In every phase one input keeps the invariant: the ring is the end of the log, and while the setup was not changed the log and all counters follow from the inputs. |
| `LogicAnalyzer.Probe.Get` | pdp11/probe/probe.c:996-1005 | Entry i is log element total - valid + i, and there is none beyond the valid count. |
| `LogicAnalyzer.Probe.GetTriggerIndex` | pdp11/probe/probe.c:1007-1014 | The index is the place of the noted trigger among the valid samples, and of a capture with its setup, also after Disarm, the place of the trigger of its history. |
| `SigrokExport.Timeline.SeekBounds` | pdp11/probe/probe_export.c:166-168 | The search for the cycle of a sample stops between the end of the previous cycle and its own. |
| `SigrokExport.Timeline.CycleOfGrows` | pdp11/probe/probe_export.c:166-168 | The cycle shown never goes back, so the resampling loop ends. |
| `SigrokExport.PackValues` | pdp11/probe/probe_export.c:170-176 | Bit c of the packed bytes is, for a value channel, the bit of its signal in the snapshot that the channel names, for a clock zero, and all bits above the channels are zero. |
| `SigrokExport.UnitIsLeast` | pdp11/probe/probe_export.c:127 | A sample takes the fewest bytes, of 1, 2, 4 and 8, that have a bit for each channel. |
| `SigrokExport.SampleBit` | pdp11/probe/probe_export.c:170-183 | A bit of an exported sample: of a value channel bit `bit` of signal `def` of the cycle that it falls in, of PROC CLK L one up to 40 ns before the end of that cycle, of the PSW clock one from then on if its signal is not zero. |
| `SigrokExport.AddClocks` | pdp11/probe/probe_export.c:177-183 | PROC CLK L is high until the last 40 ns of a cycle, and the PSW clock is high after that in cycles that load. |
| `SigrokExport.Append` | pdp11/probe/probe_export.c:184-193 | Chunks of at most the file limit keep all samples in order, and the 60th full file cuts the stream. |
| `SigrokExport.Finish` | pdp11/probe/probe_export.c:195-199 | The last partial chunk, or one empty file, is written. |
| `SigrokExport.TakeSample` | pdp11/probe/probe_export.c:166-183 | One sample shows its cycle, from the cache when the cycle has not changed. |
| `SigrokExport.Export` | pdp11/probe/probe_export.c:95-200 | The files hold exactly the samples of the timeline in order, their number is returned, every file but the last is full, and the stream ends with the capture or with 60 full files. |
| `SigrokExport.CutIff` | pdp11/probe/probe_export.c:184-199 | A session is cut if and only if the sample after as many as 60 files hold still shows a cycle, and then it holds exactly that many. |
| `SessionArchive.SessionRoundTrip` | pdp11/probe/probe_export.c:150-201 | The archive of a session reads back as it is: its names are short enough for the directory and all different, and everything fits its field. |
| `SessionArchive.DecimalIs` | pdp11/probe/probe_export.c:184-199 | The number in the name of a logic file reads back as a decimal number. |
| `SessionArchive.EntriesAre` | pdp11/probe/probe_export.c:147-199 | The entries of a session: version 2, the metadata, and logic-1-1, logic-1-2 and so on, whose names read as numbers, with one file each in order. |
| `SessionArchive.Save` | pdp11/probe/probe_export.c:150-201 | Writing version, metadata and all logic files refuses no entry and leaves an archive that reads back as the session. |
| `CycleDecode.Session.WordInBounds` | conformance/tools/compare.go:147-159 | Every word of a session is read within its bytes, for one to eight bytes a sample. |
| `CycleDecode.BitsOf` | conformance/tools/compare.go:213-221 | Bit b of the result is channel ch[b], for the first sixteen; absent channels read 0. |
| `CycleDecode.LevelBit` | conformance/tools/compare.go:213-221 | Bit b of a word built from levels is level b, and zero beyond them or from 16 on. |
| `CycleDecode.MpcDataBit` | conformance/tools/compare.go:228-301 | The data of an MPC event: three bits of E38, and above them bits 12 and up of the cycle. |
| `CycleDecode.ReadEvent` | conformance/tools/compare.go:228-301 | An event is read at the sample before an edge, and for MPC also two samples after it. |
| `CycleDecode.Decode` | conformance/tools/compare.go:228-301 | The decoding loop gives exactly the events at the rising edges of the clock, in order, or an error if there are none. |
| `CycleDecode.EventBits` | conformance/tools/compare.go:228-301 | Each bit of an event is the channel of the word before the edge that the list names for it; of MPC the key has nine bits and the three lowest of the data come from two words after the edge; of E107 the key is bit 6. |
| `CycleDecode.EventsAtEdges` | conformance/tools/compare.go:228-301 | Events are in the order of time, at samples where the clock is low before and high then. |
| `CycleDecode.EventAtEdge` | conformance/tools/compare.go:228-301 | And there is one at each such sample. |
| `ExportDecode.NextSample` | pdp11/probe/probe_export.c:155-185 | From one sample to the next the clock falls within a cycle, or the next cycle begins: low before and high after. |
| `ExportDecode.ProcEdges` | conformance/tools/compare.go:228-301 | The i-th rising edge of PROC CLK L is where cycle i ends and cycle i + 1 begins. |
| `ExportDecode.PswEdges` | conformance/tools/compare.go:228-301 | The rising edges of the PSW clock are the cycles that load, in order. |
| `ExportDecode.DatapathRoundTrip` | pdp11/probe/probe_export.c:155-185 | Words that show a capture from its start decode to one datapath event for each cycle before that of the last word, in order, bit by bit the channels of that cycle; words that show all of it give every cycle but the last. |
| `ExportDecode.MpcRoundTrip` | conformance/tools/compare.go:228-301 | The same for MPC events: bits 8 to 0 of the key are the MPC of a cycle, and its data joins three bits of the next cycle with its own upper bits. |
| `ExportDecode.E107RoundTrip` | conformance/tools/compare.go:228-301 | The same for the PSW clock: one event for each cycle that loads condition codes, bit by bit its channels. |
| `ExportDecode.FilesShowCapture` | pdp11/probe/probe_export.c:184-199 | The concatenated files of an export, read as words, show the capture sample by sample. |
| `ExportDecode.DecodableResolvable` | pdp11/probe/probe_export.c:155-185 | Cycles of 40 ns plus a step and a step of at most 40 ns are enough for every edge to be seen. |
| `ExportDecode.InsideIff` | pdp11/probe/probe_export.c:166-168 | A sample shows a cycle if and only if it is taken before the last cycle ends. |
| `ExportDecode.ExportThenDecode` | pdp11/probe/probe_export.c:95-200 | End to end, over the files as written: from any resolvable capture the decoder recovers one event for each cycle before that of the last sample, in order, and bit b of event i is bit `bit` of signal `def` of snapshot i, for the channel Value(def, bit) that bit b reads; with the whole capture on disk that is every cycle but the last. |
| `ExportDecode.CapturedBits` | pdp11/probe/probe_export.c:170-176 | In any round trip every key bit that reads a signal is the captured bit of that signal. |
| `ExportDecode.CycleShown` | pdp11/probe/probe_export.c:155-168 | A sample shows the cycle that its time falls in; sample 0 is one cycle, of the length of the second, before the end of the first. |
| `Alignment.KeysInjective` | conformance/tools/compare.go:303-309 | Two event lists with the same key bytes have the same 16-bit keys. |
| `Alignment.EvenBytesAreKeys` | conformance/tools/compare.go:303-323 | Bytes match at an even place exactly where the keys match. |
| `Alignment.Index` | conformance/tools/compare.go:310-323 | The first place at or after a start where bytes match, or none at all. |
| `Alignment.FindEven` | conformance/tools/compare.go:310-323 | The first even place at or after a start, skipping odd matches. |
| `Alignment.FindKeys` | conformance/tools/compare.go:310-323 | The byte search is a search over keys. |
| `Alignment.FoundOnceIffUnique` | conformance/tools/compare.go:339-349 | The search accepts a window at a phase if and only if, for a window shorter than the period, it matches the cyclic reference there and at no other phase, and for a longer one, it first matches there and 2 * period - 1 events reach to its end. |
| `Alignment.OccursIffPhaseFits` | conformance/tools/compare.go:332-342 | A window occurs in the doubled reference less one event if and only if it matches at some phase from which that is long enough. |
| `Alignment.LongWindowAcceptedIff` | conformance/tools/compare.go:332-349 | A window as long as the period or longer that matches is accepted if and only if it ends within the doubled reference less one event from its first phase on. |
| `Alignment.LongWindowMissed` | conformance/tools/compare.go:332-349 | The window [1, 1] matches the reference [1] and is not found: no window of the capture [1, 1, 1] of two events or more is accepted. |
| `Alignment.FirstIsAPhase` | conformance/tools/compare.go:328-353 | The first match in the doubled reference less one event is a phase below the period, and the window equals the reference read cyclically from it. |
| `Alignment.AcceptedIsSound` | conformance/tools/compare.go:328-353 | If another phase matches an accepted window too, it is the same one for a window shorter than the period, and reads the same cyclic sequence otherwise. |
| `Alignment.TryWindow` | conformance/tools/compare.go:339-349 | One window: nowhere, ambiguous, or accepted with its phase. |
| `Alignment.TryPlace` | conformance/tools/compare.go:338-350 | The doubling of the window at one place ends with an accepted phase, or with the proof that no window there is unique among the phases. |
| `Alignment.GiveUp` | conformance/tools/compare.go:338-350 | Once a window occurs nowhere or leaves the capture, no longer window at that place can be unique. |
| `Alignment.Align` | conformance/tools/compare.go:328-353 | The result is the first place at which a window is unique among the phases of the cyclic reference, with that phase; it fails if and only if there is no such place. |
| `Alignment.WindowIsDoubled` | conformance/tools/compare.go:337-338 | The windows tried are the first one times the powers of two. |
| `Qualification.MaskedEqual` | conformance/tools/compare.go:525-540 | Masked words are equal exactly if the words agree on every channel of the mask. |
| `Qualification.RunsBetweenStarts` | conformance/tools/compare.go:540-577 | Neighbouring run starts after the first enclose a maximal run of one key that touches no end of the capture. |
| `Qualification.EveryRunFound` | conformance/tools/compare.go:540-577 | Every such run lies between neighbouring starts. |
| `Qualification.IsSettled` | conformance/tools/compare.go:556-562 | The inner loop decides whether the outputs stay constant over the settled window. |
| `Qualification.Record` | conformance/tools/compare.go:566-573 | A stable run is appended and counted in its cell, so the cell counts stay the multiset of the runs. |
| `Qualification.Close` | conformance/tools/compare.go:549-576 | An interior run is counted under exactly one of disabled, short, unstable and stable. |
| `Qualification.ReadSample` | conformance/tools/compare.go:543-577 | One sample goes on with the run or closes it. |
| `Qualification.Qualify` | conformance/tools/compare.go:532-577 | The report counts the verdicts on the interior runs, each once: the four counts add up to their number, Stable is the number of runs, and the cells are their multiset. VerdictKind and VerdictCell say what a verdict means. |
| `Qualification.VerdictCount` | conformance/tools/compare.go:532-577 | There is one verdict for each interior run, in order. |
| `CellVerdicts.SameKey` | conformance/tools/compare.go:521-548 | Two samples belong together if and only if they agree on every address and every chip enable channel. |
| `CellVerdicts.RunMeans` | conformance/tools/compare.go:532-577 | An interior run is the longest stretch of samples that agree on them, away from both ends of the capture. |
| `CellVerdicts.SamplesIsCeiling` | conformance/tools/compare.go:532-533 | A time in samples is the least number of them that lasts as long. |
| `CellVerdicts.VerdictKind` | conformance/tools/compare.go:543-577 | A run is disabled if and only if one of the first sixteen chip enables is high in it, otherwise short by its length alone, and otherwise unstable if and only if two samples of the settled window differ on an output channel. |
| `CellVerdicts.VerdictCell` | conformance/tools/compare.go:543-577 | A stable run measures a cell: bit b of the address is address channel b anywhere in the run, bit b of the data output channel b anywhere in the settled window. |
| `CellVerdicts.EnablesOfRun` | conformance/tools/compare.go:543-553 | A chip enable is high anywhere in a run if it is at its start. |
| `CellVerdicts.CellWasMeasured` | conformance/tools/compare.go:532-577 | Every cell of a report was measured in a stable interior run. |
| `CellVerdicts.RunIsMeasured` | conformance/tools/compare.go:532-577 | Every stable interior run is in the report. |
| `Crc32.TableStep` | pdp11/probe/probe_export.c:17-27 | One table lookup equals eight steps of the bit-serial register of section 8 of RFC 1952. |
| `Crc32.FeedIsShifts` | pdp11/probe/probe_export.c:17-27 | Feeding message bits one by one equals adding them to the register first and shifting. |
| `Crc32.ShiftsSplit` | pdp11/probe/probe_export.c:17-27 | Shifts act on the low bits and move the high bits down unchanged. |
| `Crc32.UpdateComposes` | pdp11/probe/probe_export.c:17-27 | Updating with two pieces gives the CRC of their concatenation, and from 0 it gives the CRC itself. |
| `Crc32.SerialConcat` | pdp11/probe/probe_export.c:17-27 | The bit-serial register composes over concatenation. |
| `Crc32.FeedBitMeans` | pdp11/probe/probe_export.c:17-27 | One message bit moves the register down and adds the polynomial of CRC-32, given by its fourteen exponents below 32, if the bit that leaves is not the message bit. |
| `Crc32.Table.Build` | pdp11/probe/probe_export.c:17-24 | The loop fills the 256 entries with the CRC of each byte. |
| `Crc32.Table.Update` | pdp11/probe/probe_export.c:17-27 | The byte loop over the table computes the bit-serial CRC. |
| `ZipArchive.CentralReads` | pdp11/probe/probe_export.c:55-63 | The fields of a directory record read back as they were written (section 4.3.12 of APPNOTE). |
| `ZipArchive.ReadsEntry` | pdp11/probe/probe_export.c:40-63 | A directory record and the local header it points at read back as the entry. |
| `ZipArchive.ArchiveRoundTrip` | pdp11/probe/probe_export.c:40-70 | Reading a complete archive gives back its entries with their data, under the names that the directory keeps. |
| `ZipArchive.RoundTripIffShortNames` | pdp11/probe/probe_export.c:32-53 | For any names the round trip is the identity if and only if none is longer than 15 bytes. |
| `ZipArchive.OffsetsPointHome` | pdp11/probe/probe_export.c:44-63 | Every central offset is where the local header of its entry lies. |
| `ZipArchive.SignatureBytes` | pdp11/probe/probe_export.c:44-67 | The three signatures are PK and 3 4, 1 2 and 5 6, byte by byte. |
| `ZipArchive.HeaderBytes` | pdp11/probe/probe_export.c:44-67 | Every other constant byte of the three kinds of header: version 1.0, no flags, stored, 1980-01-01, and zeros. |
| `ZipArchive.Zip.Add` | pdp11/probe/probe_export.c:40-53 | Adding an entry appends its local header, name and data and remembers its record; a 65th entry is refused. |
| `ZipArchive.WriteDirectory` | pdp11/probe/probe_export.c:55-63 | The loop writes the directory of all records in order. |
| `ZipArchive.Zip.Close` | pdp11/probe/probe_export.c:55-70 | Closing leaves exactly the archive of the added entries. |
| `Interrupts.SwapRemoveIsRemoval` | pdp11/kd11ea/int.c:30-38 | Moving the last entry into the gap removes exactly one request. |
| `Interrupts.LevelOrderKeptIff` | pdp11/kd11ea/int.c:30-38 | Taking out an entry keeps the order of arrival within every level if and only if no entry between it and the last one has the level of the last one. |
| `Interrupts.FirstComeFirstServed` | pdp11/kd11ea/int.c:48-68 | As long as every level is in order of arrival, the request granted is the first of its level to have come. |
| `Interrupts.ThreeTerminals` | pdp11/kd11ea/int.c:48-76 | The concrete queue of the console line and the reader to which LaterRequestOvertakes applies. |
| `Interrupts.LaterRequestOvertakes` | pdp11/kd11ea/int.c:48-76 | Of three queued requests of level 4, in order of arrival, the third is granted before the second once the first is granted, against the comment on first come. |
| `Interrupts.E29IsTheRule` | pdp11/kd11ea/roms/rom_images.h:813-830 | The E29 table grants the highest bus request level above the priority, for every priority and combination of lines. |
| `Interrupts.PendingIsHighest` | pdp11/kd11ea/int.c:48-68 | Nothing is pending exactly if no queued request is above the priority; otherwise the choice has the highest level and is the first of it. |
| `Interrupts.DevicesFit` | pdp11/kd11ea/int.c:16-28 | Distinct vectors of the seven devices never fill the queue. |
| `Interrupts.IntController.Post` | pdp11/kd11ea/int.c:16-28 | A request is queued at the end unless its vector is there already or the queue is full. |
| `Interrupts.IntController.Cancel` | pdp11/kd11ea/int.c:30-38 | Cancelling removes the request of a vector by moving the last one. |
| `Interrupts.IntController.BrLines` | pdp11/kd11ea/int.c:40-46 | A bus request line is up exactly if a request of its level is queued. |
| `Interrupts.IntController.GetPending` | pdp11/kd11ea/int.c:48-68 | The search loop returns the index that E29 and the queue order give. |
| `Interrupts.IntController.Ack` | pdp11/kd11ea/int.c:70-76 | Acknowledging returns that request and leaves exactly the others. |
| `Interrupts.IntController.Reset` | pdp11/kd11ea/int.c:12-14 | No request is left. |
| `Peripherals.StepKeepsInv` | pdp11/dl11/dl11.c:24-160 | Every register access, tick, INIT and acknowledge keeps: distinct vectors, and each pending request of a device has its enable bit set. |
| `Peripherals.RunKeepsInv` | pdp11/kw11/kw11.c:22-69 | So any run of events keeps it, and the queue is below its capacity. |
| `Peripherals.ReachableInv` | pdp11/machine.c:58-128 | It holds in every state that is reached from power up, with any clock, reader and punch. |
| `Peripherals.RequestNeverDropped` | pdp11/kd11ea/int.c:16-28 | In every reachable state a device that posts a request finds room for it. |
| `Peripherals.ClearingWithdraws` | pdp11/pc11/pc11.c:141-205 | A write that clears an enable bit withdraws the request at once, for all five interrupts. |
| `Peripherals.BackedIff` | pdp11/dl11/dl11.c:55-146 | That a pending request of the console line has its DONE or READY bit set is kept by every event except reading RBUF or writing XBUF while that request is pending, and those break it. |
| `Peripherals.StaleFromPowerUp` | pdp11/dl11/dl11.c:70-142 | From power up: a character that is read before its interrupt is taken leaves 060 pending without DONE, and one that is written leaves 064 pending without READY. |
| `Requests.PendingExactly` | pdp11/kd11ea/int.c:16-38 | After any event exactly these requests are pending: those whose cause the event brings, and of those pending before the ones that it does not withdraw. |
| `Requests.RunKeepsLevels` | pdp11/kw11/kw11.c:22-42 | Over any run every request stands at the level of its device: the clock at 6, the disks at 5, all others at 4. |
| `Requests.CauseInterrupts` | pdp11/kd11ea/int.c:16-28 | In every reachable state an event that brings a request leaves it pending at that level. |
| `Requests.GrantTakes` | pdp11/kd11ea/int.c:48-76 | The processor is granted the first request of the highest level above its own, and exactly that one leaves; without one nothing changes. |
| `Requests.ClockInterrupts` | pdp11/kw11/kw11.c:22-42 | A tick of the enabled line clock one interval after another one, or later, leaves 0100 pending at level 6, whatever happened in between. |
| `Requests.DeadlineIsNear` | pdp11/kw11/kw11.c:22-42 | Over any run the deadline of the clock is at most one interval after the last tick. |
| `Requests.CharacterInterrupts` | pdp11/dl11/dl11.c:24-34 | A character written with the interrupt enabled leaves 064 pending at level 4 once its time has passed. |
| `Requests.ArrivalInterrupts` | pdp11/dl11/dl11.c:36-50 | A character that arrives while the enabled receiver is free leaves 060 pending at level 4, DONE set and the character in the buffer. |
| `Requests.ReaderInterrupts` | pdp11/pc11/pc11.c:41-66 | The reader started with its enable bit leaves 070 pending at level 4 with the character, or with an error at the end of the tape. |
| `Requests.PunchInterrupts` | pdp11/pc11/pc11.c:68-89 | The punch leaves 074 pending at level 4 when its character is punched, with an error if that failed. |
| `Requests.InitState` | pdp11/unibus/unibus.c:27-40 | INIT leaves no request of a device and the registers of all three as stated. |
| `Requests.FromPowerUp` | pdp11/machine.c:58-128 | All this holds over any run from power up, with the times of the devices as they are there. |
| `DeviceBits.InitBits` | pdp11/unibus/unibus.c:27-40 | INIT, asserted or released, reaches all three devices, and nothing else does. |
| `DeviceBits.LineBits` | pdp11/dl11/dl11.c:24-160 | DONE of the console line is set by the arrival of a character and cleared by reading RBUF and by INIT, READY is cleared by writing XBUF and set when the character has left and by INIT, by no other event. |
| `DeviceBits.LineEnables` | pdp11/dl11/dl11.c:101-133 | Its enable bits are those last written, or cleared by INIT. |
| `DeviceBits.LineDeadline` | pdp11/dl11/dl11.c:134-142 | Its deadline is one character time after the last character, until that has left. |
| `DeviceBits.ClockBits` | pdp11/kw11/kw11.c:22-69 | The monitor bit is set by due ticks and by INIT and otherwise the one last written; so is the enable bit, which INIT clears. |
| `DeviceBits.ReaderBits` | pdp11/pc11/pc11.c:41-173 | BUSY of the reader is set by a start with a tape and cleared when that is done and by INIT. |
| `DeviceBits.ReaderDone` | pdp11/pc11/pc11.c:41-173 | DONE is set when the reader is done, or started without a tape, and cleared by reading the character, by a start and by INIT. |
| `DeviceBits.ReaderFields` | pdp11/pc11/pc11.c:41-66 | ERR tells the end of the tape or that there is none, and the buffer keeps the last character. |
| `DeviceBits.PunchBits` | pdp11/pc11/pc11.c:68-205 | READY of the punch is cleared by a character and set when that is punched, without a punch at once; ERR tells that it was not. |
| `DeviceBits.TapeEnables` | pdp11/pc11/pc11.c:148-189 | The enable bits of reader and punch are those last written, or cleared by INIT. |
| `DeviceBits.KeepsTime` | pdp11/kw11/kw11.c:22-42 | Over any run in which no tick is more than an interval late, each tick that comes due moves the deadline of the clock by exactly one interval, so it does not drift. |
| `DeviceBits.DeadlineMoves` | pdp11/kw11/kw11.c:22-42 | A tick later than that starts the intervals anew, and the first service only sets the deadline. |
| `DeviceBits.AtPowerUp` | pdp11/machine.c:58-128 | At power up transmitter and punch are ready, nothing is enabled, and no request is pending. |
| `Machine.Machine.constructor` | pdp11/machine.c:58-128 | Devices on one interrupt controller at power up are the fabric at power up. |
| `Machine.Machine.Tick` | pdp11/machine.c:187-192 | A tick serves the console line, the line clock and the paper tape in this order, and keeps the invariant of the fabric. |
| `Machine.Machine.SetInit` | pdp11/unibus/unibus.c:27-40 | INIT goes to all devices in bus order, and the disks withdraw too: the fabric makes its INIT step. |
| `Machine.Machine.Acknowledge` | pdp11/kd11ea/int.c:70-76 | The processor takes exactly the pending request, if there is one. |
| `Machine.Machine.CpuReset` | pdp11/machine.c:138-151 | A processor reset empties the queue and leaves the devices. |
| `Machine.Machine.DiskDone` | pdp11/rk11/rk11.c:22-33 | A disk that is done queues its request: there is always room. |
| `Machine.Machine.Handle` | pdp11/machine.c:48-56 | Every event of the objects is a step of the fabric. |
| `Machine.Machine.RunAll` | pdp11/machine.c:187-192 | Any run of the objects is a run of the fabric: they keep its invariant, and the queue has room for another request. |
| `Devices.Dl11.Transmitted` | pdp11/dl11/dl11.c:24-34 | A character that has left sets READY and requests if enabled; like every operation of the three devices it keeps that pending requests are enabled and the queue has room. |
| `Devices.Dl11.Tick` | pdp11/dl11/dl11.c:24-50 | A tick serves transmitter and receiver as the value model says. |
| `Devices.Dl11.ReadRcsr` | pdp11/dl11/dl11.c:57-69 | A polled read may set DONE without a request. |
| `Devices.Dl11.ReadRbuf` | pdp11/dl11/dl11.c:70-73 | Reading the buffer clears DONE and leaves the queue alone, a pending 060 included. |
| `Devices.Dl11.ReadXcsr` | pdp11/dl11/dl11.c:74-86 | Reading the transmitter status serves the transmitter first. |
| `Devices.Dl11.WriteRcsr` | pdp11/dl11/dl11.c:101-116 | The receiver enable bit posts or withdraws. |
| `Devices.Dl11.WriteXcsr` | pdp11/dl11/dl11.c:119-133 | The transmitter enable bit posts or withdraws. |
| `Devices.Dl11.WriteXbuf` | pdp11/dl11/dl11.c:134-142 | Writing a character clears READY, sets the time at which it has left, and leaves the queue alone, a pending 064 included. |
| `Devices.Dl11.BusInit` | pdp11/dl11/dl11.c:149-160 | INIT clears the enables and withdraws both requests. |
| `Devices.Kw11.Tick` | pdp11/kw11/kw11.c:22-42 | Due ticks set the monitor bit, and if enabled leave the clock request in the queue. |
| `Devices.Kw11.Write` | pdp11/kw11/kw11.c:51-60 | A write sets the enable, and clearing it withdraws. |
| `Devices.Kw11.BusInit` | pdp11/kw11/kw11.c:63-69 | INIT sets the monitor bit, clears the enable and withdraws. |
| `Devices.Pc11.Tick` | pdp11/pc11/pc11.c:91-102 | A tick serves reader and punch as the value model says. |
| `Devices.Pc11.ReadPrs` | pdp11/pc11/pc11.c:109-117 | A status read serves the reader first. |
| `Devices.Pc11.Start` | pdp11/pc11/pc11.c:148-173 | Starting the reader withdraws, and without a tape fails with a request. |
| `Devices.Pc11.WritePrs` | pdp11/pc11/pc11.c:148-173 | The reader enable bit posts or withdraws, and GO starts the reader. |
| `Devices.Pc11.WritePps` | pdp11/pc11/pc11.c:177-189 | The punch enable bit posts or withdraws. |
| `Devices.Pc11.WritePpb` | pdp11/pc11/pc11.c:190-205 | Punching a character withdraws, and without a punch fails with a request. |
| `Devices.Pc11.BusInit` | pdp11/pc11/pc11.c:209-220 | INIT clears both sides and withdraws both requests. |
| `KtMemory.FaultsExact` | pdp11/kd11ea/mmu.c:90-101 | The E83 table aborts non-resident for an illegal mode or ACF 0 or 2, page length outside the limit in the direction of the page, read-only for ACF 1 and anything but DATI; so a reference is granted in exactly one case. |
| `KtMemory.AddressIsFrame` | pdp11/kd11ea/mmu.c:65-86 | The address is the displacement in frame PAF + block, modulo 4096. |
| `KtMemory.PageIsInjective` | pdp11/kd11ea/mmu.c:65-86 | Within a page no two virtual addresses share a physical one. |
| `KtMemory.TransferIsChecked` | pdp11/kd11ea/kd11ea.c:505-526 | A relocated transfer aborts exactly if it is not granted; one that goes on reaches a frame that its page permits, and one that aborts changes nothing but SR0. |
| `KtMemory.PowerUpIsMapped` | pdp11/kd11ea/mmu.c:36-38 | The state at power up is one from which the run theorems hold. |
| `KtMemory.RunKeepsMapped` | pdp11/kd11ea/kd11ea.c:467-511 | Over any run without PAR writes, BA holds what the check of VBA would translate to. |
| `KtMemory.MapThenCheck` | pdp11/kd11ea/kd11ea.c:467-526 | Whatever happens between LOAD BA and the transfer, but a new LOAD BA or a PAR write, the check translates the same address in the same page, and the access goes to frame PAF + block. |
| `KtMemory.RunIsLegal` | pdp11/kd11ea/mmu.c:50-113 | While the page registers stay, every relocated access of a run is within the frames and the access rights that its page had at the start. |
| `KtMemory.PagesAreIsolated` | pdp11/kd11ea/mmu.c:50-113 | Two pages whose permitted frames are disjoint never reach a common physical address, over any run. |
| `KtMemory.FaultIsFrozen` | pdp11/kd11ea/mmu.c:71-74 | With a fault in SR0, SR0 and SR2 stay over any run without an SR0 write or BUS INIT. |
| `KtMemory.StatusTellsFirstFault` | pdp11/kd11ea/mmu.c:103-111 | At the end of any such run from a clear status SR0 has the flags, mode and page of the first aborted transfer and SR2 its instruction, or no flag if none aborted. |
| `KtMemory.WrittenSinceLoad` | pdp11/kd11ea/kd11ea.c:541-546 | The W bit of a page is set if and only if a write went through the page since its descriptor was last written. |
| `KtRegisters.ParIsLastWritten` | pdp11/kd11ea/mmu.c:168-177 | Over any run each bit of a PAR is that of the last write that loaded its byte; only twelve are kept. |
| `KtRegisters.PdrIsLastWritten` | pdp11/kd11ea/mmu.c:178-189 | Page length, direction and access of a descriptor are, bit by bit, those of the last write that loaded their byte. |
| `KtRegisters.Sr0IsLastWritten` | pdp11/kd11ea/mmu.c:191-200 | SR0 bits 0 and 8 are those of the last write that loaded their byte, if no BUS INIT came since. |
| `KtRegisters.Sr0ClearedByInit` | pdp11/kd11ea/mmu.c:40-45 | BUS INIT clears both until the next write. |
| `KtRegisters.LoadBaMeans` | pdp11/kd11ea/kd11ea.c:467-486 | LOAD BA relocates if and only if SR0 bit 0 is set, or bit 8 and ENAB MAINT: then it selects one of sixteen pages and the address in its frame, otherwise no page and the direct address, the top 4096 words in the I/O page. |
| `KtRegisters.SwitchedByWrite` | pdp11/kd11ea/kd11ea.c:467-486 | So over any run the data last written to SR0 decide whether LOAD BA selects a page. |
| `KtRegisters.Sr0Follows` | pdp11/kd11ea/mmu.c:71-74 | SR0 bits 6 to 1 are mode and page of the last relocated LOAD BA, until an abort freezes them. |
| `KtRegisters.Sr0Steps` | pdp11/kd11ea/mmu.c:191-200 | A write of SR0 loads bits 15 to 13, 8 and 0 of its bytes and nothing else, and BUS INIT clears SR0 and nothing else. |
| `KtRegisters.Sr2IsLastFetched` | pdp11/kd11ea/kd11ea.c:601-603 | SR2 is the address of the last instruction fetched, unless SR0 had a fault then. |
| `KtRegisters.TransferEnds` | pdp11/kd11ea/kd11ea.c:505-547 | A transfer is aborted by its page, cancelled by an odd address, or runs at BA; only a relocated write that is answered, and not by a KT register, marks its page. |
| `KtRegisters.EveryAccessIsLegal` | pdp11/kd11ea/mmu.c:50-113 | With relocation on, every access of a run goes through a page and is legal there. |
| `KtRegisters.LegalFromWrite` | pdp11/kd11ea/mmu.c:50-113 | From a write that sets SR0 bit 0 on, after the first LOAD BA every access that runs is legal under the page registers, while these and SR0 are not written. |
| `KtRegisters.UserIsConfined` | pdp11/kd11ea/mmu.c:50-113 | A run in user mode never touches a frame that no user page permits. |
| `KtRegisters.EnabledIsChecked` | pdp11/kd11ea/kd11ea.c:467-526 | Once SR0 bit 0 is written, a reference to a page without access is aborted. |
| `KtUnit.Unit.constructor` | pdp11/kd11ea/mmu.c:36-38 | Power up gives the state of which PowerUpIsMapped speaks. |
| `KtUnit.Unit.Translate` | pdp11/kd11ea/mmu.c:50-113 | The translation in place: direct, mapped, or checked with the abort latched. |
| `KtUnit.Unit.Load` | pdp11/kd11ea/kd11ea.c:467-486 | LOAD BA relocates exactly with SR0 bit 0, or with bit 8 and ENAB MAINT: then page, mode and BA are those of the page of VBA, otherwise there is no page and BA is VBA with the top 4096 words in the I/O page. |
| `KtUnit.Unit.Perform` | pdp11/kd11ea/kd11ea.c:505-547 | A transfer is checked when it starts, cancelled by a fault or an odd address, and otherwise sets the W bit of a page it wrote through. If BA is what VBA translates to, it aborts exactly if it is not granted, and one that runs is within its page. |
| `KtUnit.Unit.FetchInstruction` | pdp11/kd11ea/kd11ea.c:601-603 | SR2 follows the PC until an abort freezes it. |
| `KtUnit.Unit.SetPar` | pdp11/kd11ea/mmu.c:168-177 | A write loads the byte lanes of a PAR, twelve bits wide. BA stays what VBA translates to if and only if the PAR is another or gives the same address. |
| `KtUnit.Unit.SetPdr` | pdp11/kd11ea/mmu.c:178-189 | A write loads PLF, ED and ACF by byte lanes and clears W. |
| `KtUnit.Unit.SetSr0` | pdp11/kd11ea/mmu.c:191-200 | A write loads SR0 bits 15 to 13, 8 and 0 by byte lanes and nothing else. |
| `KtUnit.Unit.Init` | pdp11/kd11ea/mmu.c:40-45 | BUS INIT clears SR0 and keeps PAR, PDR and SR2. |
| `Alu.AndSplit` | pdp11/kd11ea/kd11ea.h:97-125 | The bits of a conjunction above and below a slice boundary. |
| `Alu.SumSplit` | pdp11/kd11ea/kd11ea.h:97-125 | Each of the sixteen functions on a word is the function on its low slice plus sixteen times the function on the rest. |
| `Alu.CascadeIsWide` | pdp11/kd11ea/kd11ea.h:97-155 | For any number of slices, chaining nibbles through their carries gives the wide form with its carry out. |
| `Alu.CarriesOfPrefixes` | pdp11/kd11ea/kd11ea.h:159-166 | ALU COUT 3, 7 and 11 are the carries out of one, two and three chained slices. |
| `Alu.SlicesMakeTheCarries` | pdp11/kd11ea/kd11ea.h:159-166 | Each of the three carries is the carry that the slice below it produces. |
| `Alu.SlicesMakeTheAlu` | pdp11/kd11ea/kd11ea.h:127-166 | For all functions, operands and carries in, four slices chained through the three carries give the 16-bit result and carry out. |
| `AluGates.ArithIsGates` | pdp11/kd11ea/kd11ea.h:97-125 | Each of the sixteen functions is, for any number of bits, the sum of the two terms that the gates of the 74S181 form from A, B and the select lines, and the carry in. |
| `ConditionCodes.E68IsRight` | pdp11/kd11ea/roms/rom_images.h:1037-1070 | For every instruction that sets condition codes, E68 gives the operand size and the code that the instruction set calls for. |
| `ConditionCodes.Opcodes` | pdp11/kd11ea/roms/rom_images.h:1037-1070 | The instructions that set condition codes, given by the ranges of their codes, with the rule and the operand size of each. |
| `ConditionCodes.FlagsFollowRules` | pdp11/kd11ea/kd11ea.c:660-684 | LOAD CC sets N and Z from the result and V and C by the rule of its code over three signs. |
| `ConditionCodes.AddIsExact` | pdp11/kd11ea/kd11ea.c:660-684 | ADD, ADC and ADCB: C is the carry out and V the signed overflow of the true sum with carry in, word or byte. |
| `ConditionCodes.SubtractIsExact` | pdp11/kd11ea/kd11ea.c:660-684 | SUB, CMP, CMPB, NEG and SBC: C is the borrow and V the signed overflow of the true difference. |
| `ConditionCodes.IncrementIsExact` | pdp11/kd11ea/kd11ea.c:660-684 | INC and INCB keep C, and V is the signed wrap. |
| `ConditionCodes.DecrementIsExact` | pdp11/kd11ea/kd11ea.c:660-684 | DEC and DECB keep C, and V is the signed wrap. |
| `ConditionCodes.OtherFlags` | pdp11/kd11ea/roms/rom_images.h:1304-1321 | Rotates and shifts: C from ROT CBIT, V = N xor C; CLR, TST and COM: constant C; the others keep C; V is clear. |
| `DiskTransfer.StoredAt` | pdp11/rk11/rk11.c:105-115 | A word of memory after a transfer is the one whose place in the transfer it is, modulo the 18-bit space, or the old one. |
| `DiskTransfer.FetchStored` | pdp11/rk11/rk11.c:105-145 | Words stored in memory are fetched back. |
| `DiskTransfer.StoreFetched` | pdp11/rk11/rk11.c:105-145 | Fetched words stored into another memory bring exactly their places back. |
| `DiskTransfer.OverwriteAgain` | pdp11/rk11/rk11.c:131-165 | Writing sector after sector equals writing all at once, also past the end of the image. |
| `DiskTransfer.WordFile.Read` | pdp11/rk11/rk11.c:99-104 | A read gets the words up to the end of the image. |
| `DiskTransfer.WordFile.Write` | pdp11/rk11/rk11.c:146 | A write replaces or extends the image. |
| `DmaLoops.StoreWords` | pdp11/rk11/rk11.c:106-114 | The word loop stores up to the first word that is not in memory and says so. |
| `DmaLoops.FetchWords` | pdp11/rk11/rk11.c:135-145 | The word loop fetches all the words or stops at the first that is not in memory. |
| `DmaLoops.ReadIn` | pdp11/rk11/rk11.c:96-119 | The sector loop of a read moves exactly the words up to the end of the request, the image or the memory. |
| `DmaLoops.WriteOut` | pdp11/rl11/rl11.c:220-238 | The sector loop of a write puts exactly the words of complete rounds on the disk. |
| `Rk11.SectorRoundTrip` | pdp11/rk11/rk11.c:187-192 | Every sector number of a cylinder below 256 has the disk address that decodes to it, in any drive. |
| `Rk11.DaRoundTrip` | pdp11/rk11/rk11.c:18-20 | Every valid disk address is the address of its sector number. |
| `Rk11.NextSectorFits` | pdp11/rk11/rk11.c:187-192 | The sector after a transfer is on a cylinder below 214, so it cannot spill into the drive bits. |
| `Rk11.RegistersAdvance` | pdp11/rk11/rk11.c:182-192 | After any function that passes the checks RKWC is 0, RKDA decodes to start + ceil(wc / 256) in the same drive, and BA with MEX is start + 2 per moved word modulo 2^18. |
| `Rk11.AddressAdvancesIff` | pdp11/rk11/rk11.c:80-192 | For reads, writes and both checks that end: BA with MEX is start + 2 * wc modulo 2^18 if and only if neither missing memory nor the end of the image stopped the transfer. |
| `Rk11.ChecksComeFirst` | pdp11/rk11/rk11.c:53-78 | A failed check sets its one error and changes neither memory, disk nor address registers; every function ends done and interrupts if enabled. |
| `Rk11.WriteThenRead` | pdp11/rk11/rk11.c:89-167 | WRITE, then READ of the same registers into any memory: the written words come back, no other memory or disk word changes, no error, BA ends at start + 2 * wc after both; into the same memory it is the identity. |
| `Rk11.WriteThenCheck` | pdp11/rk11/rk11.c:147-163 | A write check after the write ends without an error. |
| `Rk11.CheckEndsIffNotHangs` | pdp11/rk11/rk11.c:147-163 | The rounds of a write check end if and only if the image holds all the words or memory ends first; otherwise it reads nothing for ever. |
| `Rk11.EmptyImageHangs` | pdp11/rk11/rk11.c:147-163 | One word checked against an empty image: no number of rounds ends the check. |
| `Rk11Controller.CompareWords` | pdp11/rk11/rk11.c:149-160 | The word loop of a write check finds whether any word differs, up to the end of memory. |
| `Rk11Controller.CheckSectors` | pdp11/rk11/rk11.c:131-163 | The loop of a write check that does not hang finds exactly the errors of the value model. |
| `Rk11Controller.CountSectors` | pdp11/rk11/rk11.c:96-119 | A read check moves BA over the words on the image and reports an overrun exactly if some are missing. |
| `Rk11Controller.RunTransfer` | pdp11/rk11/rk11.c:89-180 | Every function does to memory and image what the value model says. |
| `Rk11Controller.Controller.Go` | pdp11/rk11/rk11.c:35-196 | GO in place refines the value model, for every function and error. |
| `Rk11Controller.Controller.SetCs` | pdp11/rk11/rk11.c:229-243 | A write of RKCS keeps the status bits, loads the others and starts GO exactly if the controller is done and INIT is not asserted. |
| `Rk11Controller.Controller.SetWc` | pdp11/rk11/rk11.c:244 | RKWC is loaded unless INIT is asserted. |
| `Rk11Controller.Controller.SetBa` | pdp11/rk11/rk11.c:245 | RKBA is loaded unless INIT is asserted. |
| `Rk11Controller.Controller.SetDa` | pdp11/rk11/rk11.c:246 | RKDA is loaded unless INIT is asserted. |
| `Rk11Controller.Controller.Complete` | pdp11/rk11/rk11.c:22-33 | The error summary and the hard error follow from RKER, and done is set with its interrupt. |
| `Rk11Controller.Controller.Execute` | pdp11/rk11/rk11.c:80-196 | A function that passed the checks runs its transfer and updates the registers. |
| `Rk11Controller.Controller.Advance` | pdp11/rk11/rk11.c:182-195 | The registers are updated as RegistersAdvance needs. |
| `Rk11Controller.Controller.BusInit` | pdp11/rk11/rk11.c:279-287 | INIT clears the registers and sets done. |
| `Rk11Places.OffsetIs` | pdp11/rk11/rk11.c:18-20 | A sector starts 256 words after each one before it, with 12 on a track and two surfaces on a cylinder. |
| `Rk11Places.PlacesDiffer` | pdp11/rk11/rk11.c:18-20 | Different disk addresses of a drive are sectors that do not overlap. |
| `Rk11Places.PlaceIsOnImage` | pdp11/rk11/rk11.c:18-20 | Each sector lies within the 203 * 2 * 12 * 256 words of an image. |
| `Rk11Places.PlaceIsSector` | pdp11/rk11/rk11.c:18-20 | And each place there is a sector. |
| `Rk11Places.ErrorsInOrder` | pdp11/rk11/rk11.c:53-78 | The first check that fails, of drive, write lock, sector and cylinder in this order, is the one error, and then nothing moves; a function that passes them ends at most with missing memory, overrun or write check errors. |
| `Rk11Places.EveryFunctionEnds` | pdp11/rk11/rk11.c:22-33 | Every function ends done, with the summaries of its errors, and interrupts exactly if enabled. |
| `Rk11Places.ResetClears` | pdp11/rk11/rk11.c:44-51 | A control reset clears every register and does not interrupt. |
| `Rk11Places.ReadBrings` | pdp11/rk11/rk11.c:96-119 | READ brings word i of the addressed place into memory at base + i modulo 2^18. |
| `Rk11Places.WriteBrings` | pdp11/rk11/rk11.c:131-146 | WRITE brings each word of memory to its place on the disk, leaves every other word, and fills a gap with zeros. |
| `Rk11Places.WriteElsewhere` | pdp11/rk11/rk11.c:89-167 | WRITE, then READ of sectors that it does not reach, brings the words from before the write. |
| `Rk11Places.CheckFinds` | pdp11/rk11/rk11.c:147-163 | A write check reports a difference if and only if one of the words that it reaches differs. |
| `Rl11.SeekIsClamped` | pdp11/rl11/rl11.c:80-95 | A seek reaches its target if that is a cylinder of the drive and otherwise stops at the first or last one. |
| `Rl11.WordCountIsExact` | pdp11/rl11/rl11.c:103-257 | A read or write that nothing stops moves min(request, rest of the track): RLMP is 0 with no error if and only if the request fits, otherwise exactly minus the rest with INCMP and DLT; BA, MEX, DA and the drive follow. |
| `Rl11.ZeroResidue` | pdp11/rl11/rl11.c:103-180 | For every transfer that passes the checks, whatever stops it: RLMP is 0 if and only if every requested word passes, or 65536 are requested and no sector passes; the faults are that of what stopped it, with INCMP and DLT exactly if RLMP is not 0; the summary follows. |
| `Rl11.SilentIff` | pdp11/rl11/rl11.c:103-180 | A transfer ends without any error if and only if every requested word passes, or 65536 words are read or checked where the image has none. |
| `Rl11.ShortImageIsSilent` | pdp11/rl11/rl11.c:132-180 | 65536 words read or checked where the image has none: RLMP 0, no error, and nothing has moved. |
| `Rl11.EmptyImageExample` | pdp11/rl11/rl11.c:132-180 | The concrete READ of an empty image. |
| `Rl11.MissingMemoryHidesResidue` | pdp11/rl11/rl11.c:132-180 | 65536 words read where there is no memory: RLMP 0 and NXM, but neither INCMP nor DLT. |
| `Rl11.MissingMemoryExample` | pdp11/rl11/rl11.c:132-180 | The concrete READ of a one-word image into no memory. |
| `Rl11.WriteThenRead` | pdp11/rl11/rl11.c:103-257 | WRITE, then READ of the same registers brings the written words back and changes no other word. |
| `Rl11.StepKeepsValid` | pdp11/rl11/rl11.c:267-331 | Each access keeps: the controller is ready, and each drive is on a cylinder below its limit. |
| `Rl11.RunKeepsValid` | pdp11/rl11/rl11.c:41-331 | So it holds in every reachable state. |
| `Rl11.HighByteOnlySelects` | pdp11/rl11/rl11.c:297-325 | A write of the high byte of RLCS selects a drive and never starts a command. |
| `Rl11.OddByteArrivesIff` | pdp11/rl11/rl11.c:304-305 | A byte for an odd address is sent on the high data lines; it reaches the register if and only if the low lines carry the same byte. |
| `Rl11.OddByteLost` | pdp11/rl11/rl11.c:304-305 | The byte 1 written to the high half of a register that is 0 leaves it 0. |
| `Rl11Controller.CompareWords` | pdp11/rl11/rl11.c:150-163 | The word loop of a write check stops at the first word that differs or is not in memory. |
| `Rl11Controller.CheckSectors` | pdp11/rl11/rl11.c:132-166 | The sector loop of a write check ends with exactly that error and the words of complete rounds. |
| `Rl11Controller.RunTransfer` | pdp11/rl11/rl11.c:132-238 | Every transfer does to memory and image what the value model says. |
| `Rl11Controller.Controller.Advance` | pdp11/rl11/rl11.c:168-180 | The registers at the end of a transfer. |
| `Rl11Controller.Controller.Transmit` | pdp11/rl11/rl11.c:103-257 | The checks, the transfer and the position of the drive are those of the value model, whose places on the disk PlacesDiffer, ReadBrings and WriteBrings pin down. |
| `Rl11Controller.Controller.Execute` | pdp11/rl11/rl11.c:48-263 | Every command does to registers, drive and memory what the value model says, and leaves the other drives. |
| `Rl11Controller.Controller.Go` | pdp11/rl11/rl11.c:41-265 | A command ends ready and interrupts if enabled. |
| `Rl11Controller.Controller.SetControl` | pdp11/rl11/rl11.c:292-325 | A write of RLCS is a step of the value model, also with several drives and their images. |
| `Rl11Controller.Controller.ReadControl` | pdp11/rl11/rl11.c:271-284 | A read of RLCS recomputes drive ready and the error summary. |
| `Rl11Controller.Controller.SetBusAddress` | pdp11/rl11/rl11.c:326 | BA is merged by byte lanes, a high byte from the low data lines, and even. |
| `Rl11Controller.Controller.SetDiskAddress` | pdp11/rl11/rl11.c:327 | DA is merged by byte lanes, a high byte from the low data lines. |
| `Rl11Controller.Controller.SetMultipurpose` | pdp11/rl11/rl11.c:328 | RLMP is merged by byte lanes, a high byte from the low data lines. |
| `Rl11Controller.Controller.BusInit` | pdp11/rl11/rl11.c:375-385 | INIT clears the control registers but keeps RLMP and the drives. |
| `Rl11Places.OffsetIs` | pdp11/rl11/rl11.c:25-29 | A sector starts 128 words after each one before it, with 40 on a track and two heads on a cylinder. |
| `Rl11Places.PlacesDiffer` | pdp11/rl11/rl11.c:25-29 | Different addresses on the disk are sectors that do not overlap. |
| `Rl11Places.FullSizeIs` | pdp11/rl11/rl11.c:22-23 | An image has its full size from 2621440 words of an RL01 on, or 5242880 of an RL02. |
| `Rl11Places.PlaceIsOnImage` | pdp11/rl11/rl11.c:25-29 | Each sector of the disk lies within the image. |
| `Rl11Places.PlaceIsSector` | pdp11/rl11/rl11.c:25-29 | And each place in the image is a sector. |
| `Rl11Places.NextSector` | pdp11/rl11/rl11.c:25-29 | After a sector comes the next one of its track. |
| `Rl11Places.NextTrack` | pdp11/rl11/rl11.c:25-29 | After the last one of a track comes the other head, and then the next cylinder. |
| `Rl11Places.ReadBrings` | pdp11/rl11/rl11.c:132-166 | READ brings word i of the addressed place into memory at base + i modulo 2^18. |
| `Rl11Places.WriteBrings` | pdp11/rl11/rl11.c:220-238 | WRITE brings each word of memory to its place, and no other word of the disk changes. |
| `Rl11Places.WriteElsewhere` | pdp11/rl11/rl11.c:103-257 | WRITE, then READ of disjoint sectors, also under the other head or on another cylinder, brings the words from before the write. |
| `Rl11Commands.EveryCommandEnds` | pdp11/rl11/rl11.c:41-265 | Every command ends ready, with the summary of its faults, and interrupts exactly if IE is set. |
| `Rl11Commands.NoDisk` | pdp11/rl11/rl11.c:48-60 | Without a disk every command but NOP ends with INCMP and DRE and marks a select error. |
| `Rl11Commands.TransferErrors` | pdp11/rl11/rl11.c:103-131 | A transfer outside the disk ends with INCMP and DRE, a write to a locked drive with DRE and a write gate error; nothing moves, and all other transfers start. |
| `Rl11Commands.StatusBits` | pdp11/rl11/rl11.c:63-79 | GET STATUS puts head, type, errors and write lock into the bits of RLMP, after clearing the errors if asked to. |
| `Rl11Commands.HeaderBits` | pdp11/rl11/rl11.c:96-102 | READ HEADER tells cylinder and head. |
| `Rl11Commands.SeekMoves` | pdp11/rl11/rl11.c:80-95 | SEEK moves by the distance in RLDA and stops at the first or last cylinder. |
| `Rl11Commands.CheckFinds` | pdp11/rl11/rl11.c:150-166 | A write check ends with a data check if and only if one of the words that it reaches differs. |
| `Rl11Commands.WriteRuns` | pdp11/rl11/rl11.c:292-325 | A write of RLCS that clears READY runs the function it names on the drive it selects, and the other drives stay; without READY cleared nothing runs. |
| `Rl11Commands.LowByteRuns` | pdp11/rl11/rl11.c:292-325 | A write of the low byte does the same with the drive selected before. |
| `Rl11Commands.RegisterBits` | pdp11/rl11/rl11.c:326-328 | RLBA, RLDA and RLMP take, bit by bit, the bytes written, and RLBA is even; nothing else changes. |
| `Rl11Commands.InitClears` | pdp11/rl11/rl11.c:375-385 | INIT clears RLBA and RLDA, selects drive 0 for NOP, ready and without interrupts, with DRE exactly if that drive has an error left; drives, memory and RLMP stay. |
| `Rl11Commands.NoWriteInInit` | pdp11/rl11/rl11.c:292-325 | While INIT is asserted no write has an effect. |

## Left out

- Capture.TriggerPlacement: the 2^32 wrap of the head and count of a capture is not modelled, the counts are unbounded.
- LogicAnalyzer.Probe.Sample: a trigger condition is a boolean for each step; signal names, widths, values and masks are
  outside the model.
- LogicAnalyzer.Probe.Configure: of a capture whose trigger, edge or divider changes while it runs, the ring and each step
  are stated, but not the closed form of its log; the trigger of an armed probe is not removed, for the source then reads
  a table entry that does not exist.
- SigrokExport.Export: floating point is replaced by exact integers scaled by the sample rate, and the metadata text, the
  signal table, the VCD export and file errors are left out.
- ExportDecode.ExportThenDecode: it takes the bytes of the logic files from the exporter, the archive around them is
  SessionRoundTrip; it runs the datapath decoding with divider 1, and the MPC and PSW clocks are covered by
  MpcRoundTrip and E107RoundTrip.
- Qualification.Qualify: channel numbers are given, and the pass at the end of the capture, which closes nothing, is not
  a step of its own.
- compareCycles, compareCells, collapse, anchor, serve and the JSON output are reports on top of the modelled functions.
- Ms11Memory.Ram.Response: the byte and word accesses to the array are left out, as are the 2^64 ns wrap of time and the
  registration of the device.
- CpuTiming.EveryAccessAnswers: micro-steps are an arbitrary environment; the control store, the decode ROMs other than
  E29, E68, E83 and E107, and the meaning of instructions are not modelled.
- Interrupts.DevicesFit: the seven vectors are those of the devices in the repository.
- Machine.Machine.SetInit: the bus line that keeps the level, and passes on only changes of it, is left out.
- Peripherals.RunKeepsInv: the RK11 and RL11 appear there as sources that post and cancel their own vectors, since they
  do not withdraw a request when their enable bit is cleared.
- Devices.Dl11.Tick: baud rates and the terminal behind the DL11 are times and characters given to the model; pacing
  and wall clocks are left out.
- KtMemory.MapThenCheck: the ROMs that decode the register addresses are left out, so a register write names its
  register and its byte lanes.
- Alu.SlicesMakeTheAlu: logic mode, which has no carries, is left out.
- ConditionCodes.AddIsExact: LOAD CC from the SSMUX, and the microcode that brings the operands to the legs, are left out.
- Rk11.WriteThenRead: memory is one array of words from address 0, so transfers to device registers in the I/O page count
  as missing memory; disk images are sequences of words, and failing seeks and host errors are left out.
- Rk11Controller.Controller.Go: it asks that the write check is not one that never ends, as no method here may run for
  ever; CheckEndsIffNotHangs says which those are.
- Rk11Controller.Controller.SetCs: it asks the same of the GO that a write may start.
- Rk11Controller.Controller.Execute: it asks the same.
- Rk11Controller.RunTransfer: it asks the same.
- Rk11Controller.CheckSectors: it asks the same.
- Rl11.WordCountIsExact: drives keep their type; the size check when an image is attached is left out.
- unibus.c: the address lookup, the consumed timed access and the nested latency of DMA are not modelled.
- Frontends, console, loaders, disassembler, command line and file handling are left out.
