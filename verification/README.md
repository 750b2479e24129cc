# Atsumi: verified models of nine cores

This project models the parts of Atsumi in which state, arithmetic and interleavings matter most, and proves
what those parts promise. `dafny verify dfyconfig.toml` checks everything.

| file | models |
|---|---|
| `Common.dfy`, `Bytes.dfy` | results and options; bytes, big-endian integers, concatenation |
| `Mp4Boxes.dfy`, `AacTrack.dfy`, `AacFragments.dfy`, `AacExtract.dfy`, `AacTheorems.dfy` | the fragmented-MP4 AAC extractor of `tools/chzzk-aac-probe.ts` (ISO/IEC 14496-12 sections 4.2, 8.8.7, 8.8.8 and 8.8.12; ISO/IEC 14496-3 section 1.6.2.1) |
| `AacFormat.dfy`, `AacConformance.dfy` | the format it demands, said of the bytes alone, and the samples it accepts |
| `AacPrinted.dfy`, `AacMovie.dfy`, `AacTables.dfy`, `AacRoundTrip.dfy`, `AacSmallest.dfy` | a writer of such files, field by field, as the partner of the extractor, and one file byte for byte |
| `EncodedProbe.dfy` | the AVCC parser, fragmenter, interleaving and message split of `tools/chzzk-encoded-probe.ts` (ISO/IEC 14496-15 section 5.3.3.1) |
| `RollingLog.dfy` | the diagnostics ring `RollingWriter` of `src-tauri/src/diagnostics.rs` |
| `RecordingClock.dfy` | part lists and the one logical clock of `public/original-player/recording-source.js` |
| `CheckpointStore.dfy` | racing checkpoint saves and the clean exit of `src-tauri/src/local_control.rs` |
| `ByteBudget.dfy` | the shared byte budget of `src-tauri/examples/measure_hitomi_transport.rs` |
| `PopularityRanks.dfy` | the popularity rank cache of `src-tauri/src/download_popularity.rs` |
| `ArgumentQuoting.dfy`, `StartupLink.dfy` | argument quoting and the verified startup shortcut of `src-tauri/src/autostart.rs` |
| `HashRepair.dfy` | plan and apply of `tools/repair_merge_hash_cache.py` |

How the models are built. A loop or an object that changes its fields is a method or a class here, proved against
a specification function; what the original promises is proved about that function. Concurrent protocols are state
machines with one action per atomic operation, and their classes are tied to the same machines. Parsers have a
printer as their partner, and the two are shown to be inverse to one another. The extractor has two readings of the
same tables: `AacFragments` addresses field i of sample k at a computed offset, `AacExtract` walks the file once with
the moving cursor of the original, and `ExtractAac` shows that they accept the same files and give the same samples.
`AacFormat` says, for every byte string, what must stand where, with box types and field positions spelled out in bytes,
and shows that the extractor reads exactly that; `AacConformance.AcceptedIff` is the whole condition of acceptance.
`AacMovie` and `AacTables` write boxes whose fields hold any values, and show that the extractor accepts exactly those
with the right ones. `AacRoundTrip` closes the circle: any recording, in any grouping into fragments and runs, with any
choice of optional fields, columns, bases and sizes, is accepted and comes back unit for unit. The theorems
give the limits of the original as numbers, and not by the names under which the models compute with them.

Three expected properties do not hold for every input. The code is modelled as it is, and each has its exact condition:

- A successful save leaves memory and disk equal if and only if it is not the case that an earlier clean exit reported
  failure after it had removed the named file while memory holds a checkpoint (`CheckpointStore.SuccessAgreesIff`; a run
  that shows the failure: `HalfClearDisagrees`). A successful clean exit always leaves them equal.
- The logical clock never falls by more than 10 ms in an uninterrupted run exactly when the part list is steadfast, a
  condition on its starts and ends (`RecordingClock.ClockNeverFallsIff`); parts of at least 10 ms always are
  (`LongPartsSteadfast`), shorter ones need not be (`ShortPartsFall`, a list whose joints are all off by 9.5 ms).
- A second repair plan is empty exactly when no planned row becomes the donor of another page
  (`HashRepair.SecondPlanEmptyIff`). This is so whenever source and target differ (`DifferentEntriesSettle`), which is the
  case of every merge the application itself makes: it refuses one whose source and target folders are the same
  (src-tauri/src/infrastructure/overlap_merge.rs:282-287). A journal that names one entry as both can fail
  (`SelfMergeFeeds`: its plan starts, commits, and is followed by another that is not empty).

## Model

| member | source | states |
|---|---|---|
| Bytes.U32 | tools/chzzk-aac-probe.ts:20-23 | a 32-bit read succeeds exactly when its four bytes lie before the given end |
| Bytes.LongReadIff | tools/chzzk-aac-probe.ts:24-28 | a 64-bit read succeeds exactly when its eight bytes lie before the end and form a safe integer, and gives that integer |
| Bytes.NumberPrinted | tools/chzzk-aac-probe.ts:20-23 | printing what was read big-endian gives back the same four bytes |
| Bytes.PrintedNumber | tools/chzzk-aac-probe.ts:20-23 | reading back a printed number gives that number |
| Bytes.BigEndian | tools/chzzk-aac-probe.ts:20-23 | the first of the four bytes is the most significant one |
| Bytes.HasIff | tools/chzzk-aac-probe.ts:107-139 | a flag test is positive exactly when flags and mask have a bit in common |
| Mp4Boxes.Boxes | tools/chzzk-aac-probe.ts:29-43 | the loop returns what the recursive reading gives, and ends because every step advances |
| Mp4Boxes.ParseBoxes | tools/chzzk-aac-probe.ts:29-43 | an accepted result covers its interval with no gap or overlap, and every box stays inside it |
| Mp4Boxes.PrintThenParse | tools/chzzk-aac-probe.ts:29-43 | any bounded list of printed boxes, in 32-bit, 64-bit or final open-ended form, reads back as exactly its layout |
| Mp4Boxes.ParseThenPrint | tools/chzzk-aac-probe.ts:29-43 | every accepted interval is, byte for byte, the printed form of the boxes read from it |
| Mp4Boxes.AcceptedIffPrinted | tools/chzzk-aac-probe.ts:29-43 | an interval is accepted if and only if it is the printed form of at most 4096 boxes |
| Mp4Boxes.TilesDisjoint | tools/chzzk-aac-probe.ts:29-43 | an earlier box ends before a later one starts, both hold a header and lie in the interval |
| AacTrack.ReadDescriptor | tools/chzzk-aac-probe.ts:75-86 | the loop over at most four length bytes gives the descriptor the recursive reading gives, or rejects with it |
| AacTrack.PrintedDescriptorRead | tools/chzzk-aac-probe.ts:75-86 | a descriptor printed with a one- to four-byte length reads back with its tag, bounds and payload |
| AacTrack.DescriptorReadIff | tools/chzzk-aac-probe.ts:75-86 | a descriptor is read at an offset if and only if it is written there, its length at most 4096 and in one to four bytes, and ends in time |
| AacExtract.ReadRow | tools/chzzk-aac-probe.ts:136-140 | the moving cursor reads from a row what the table holds at computed offsets; it fails only on a composition offset or a table of the wrong length |
| AacExtract.TakeSample | tools/chzzk-aac-probe.ts:147-154 | a sample is taken exactly when its duration, size, place and clock are playable after all samples before it; the pushed bytes, time and range are its own |
| AacExtract.ExtractRows | tools/chzzk-aac-probe.ts:135-156 | a run's rows are accepted exactly when its table decodes and its samples, back to back, are all playable |
| AacExtract.ExtractRun | tools/chzzk-aac-probe.ts:126-157 | the same for a whole run, which starts at its own offset or where the run before it ended |
| AacExtract.ExtractRuns | tools/chzzk-aac-probe.ts:123-157 | a fragment is accepted exactly when all its runs decode, the first says where it starts, and all its samples are playable |
| AacExtract.ExtractAac | tools/chzzk-aac-probe.ts:18-162 | the whole extractor accepts exactly the files whose tables decode to acceptable samples, and returns those samples' bytes, times and configuration |
| AacTheorems.SamplesDisjoint | tools/chzzk-aac-probe.ts:99-162 | in every accepted file any two samples are disjoint, and each lies in the payload of one top-level mdat |
| AacTheorems.SampleBytesFit | tools/chzzk-aac-probe.ts:99-162 | all sample bytes plus eight bytes per top-level box never exceed the file length |
| AacTheorems.SampleClock | tools/chzzk-aac-probe.ts:120-152 | sample k carries exactly its bytes; its timestamp is the exact sum of all earlier durations, rounded once to the nearest microsecond, halves upwards, and timestamps never decrease |
| AacTheorems.MicrosNearest | tools/chzzk-aac-probe.ts:152 | rounding is off by at most half a microsecond, goes upwards in the middle, and keeps order |
| AacTheorems.FragmentClock | tools/chzzk-aac-probe.ts:120-122 | each fragment declares exactly the time at which the samples of the fragment before it end |
| AacFormat.OneIff | tools/chzzk-aac-probe.ts:44-48 | a box is taken exactly if it is the only one of its kind; none and several are refused |
| AacFormat.TrackIff | tools/chzzk-aac-probe.ts:50-98 | on every byte string a track is read exactly where the format puts one: the named boxes, each the only one of its type in its parent, hold the demanded values, and its id, time scale, configuration and defaults are theirs |
| AacFormat.FragmentIff | tools/chzzk-aac-probe.ts:103-157 | a moof decodes to a fragment exactly when it holds one track fragment of one header, one clock, runs and sdtp boxes, each the written form of accepted fields, and the fragment is what these fields say |
| AacFormat.FileIff | tools/chzzk-aac-probe.ts:18-162 | the tables of a file decode exactly when the file has 1 byte to 8 MiB, is a list of boxes with one such track, and its moofs are such fragments in order |
| AacConformance.FragmentLaid | tools/chzzk-aac-probe.ts:121-154 | the samples of a fragment lie run by run, back to back, each run from its own offset or from the end of the run before it |
| AacConformance.AcceptableIff | tools/chzzk-aac-probe.ts:102-160 | decoded samples are acceptable exactly when there are 1 to 2048, each of 1 to 65536 bytes inside an mdat and at most 2048 frames long, no two overlap, every run is placed, and the clock runs on without a gap and stays a safe integer |
| AacConformance.AcceptedIff | tools/chzzk-aac-probe.ts:18-162 | every byte string is accepted if and only if it has this format and its samples are so |
| AacPrinted.ListRead | tools/chzzk-aac-probe.ts:29-43 | written boxes, in any mix of header forms, are read as exactly those boxes |
| AacPrinted.ChildRead | tools/chzzk-aac-probe.ts:44-49 | the one child of its kind in a written container is found, with exactly its payload |
| AacPrinted.VersionedRead | tools/chzzk-aac-probe.ts:58-66 | a field is read where version 0 or version 1 of its header puts it, and refused in every other version |
| AacMovie.EsdsRead | tools/chzzk-aac-probe.ts:73-95 | a configuration inside any three nested descriptors is accepted exactly when their tags, flags and types and the configuration itself are as demanded, and then read exactly |
| AacMovie.DescriptionRead | tools/chzzk-aac-probe.ts:67-95 | a written sample description is accepted exactly when its version, count and reserved word are as demanded and its configuration is |
| AacMovie.TrackRead | tools/chzzk-aac-probe.ts:54-98 | a movie box with any field values is accepted exactly when it is one sound track of the demanded kind whose defaults are its own, and gives exactly its id, time scale, configuration and defaults |
| AacTables.HeaderRead | tools/chzzk-aac-probe.ts:107-117 | a fragment header with any version, flags word and values is accepted exactly when those are as demanded and nothing follows; it reads as its own values, and the track's defaults for fields its flags leave out |
| AacTables.HeaderPrinted | tools/chzzk-aac-probe.ts:107-117 | every accepted fragment header is, byte for byte, the printed form of accepted fields that say the same |
| AacTables.ClockRead | tools/chzzk-aac-probe.ts:118-120 | a decode time of any version and flags is accepted exactly in versions 0 and 1 without flags, and read exactly, whatever follows it |
| AacTables.ClockPrinted | tools/chzzk-aac-probe.ts:118-120 | every accepted decode time is the printed form of its fields |
| AacTables.RunRead | tools/chzzk-aac-probe.ts:126-156 | a sample run with any version, flags word, offset and rows is accepted exactly when those are as demanded, no composition offset is nonzero and nothing follows its table; it decodes to exactly its offset and entries |
| AacTables.RunPrinted | tools/chzzk-aac-probe.ts:126-156 | every accepted sample run is, byte for byte, the printed form of accepted fields that give its offset and entries |
| AacRoundTrip.MoofRead | tools/chzzk-aac-probe.ts:103-157 | a written moof with any number of runs decodes to its time and to each run's offset and entries |
| AacRoundTrip.GroupPosition | tools/chzzk-aac-probe.ts:108-132 | the payload of each mdat lies where the writer counted its offsets to |
| AacRoundTrip.RunsPlaced | tools/chzzk-aac-probe.ts:130-153 | runs that say where they start and runs that follow on together place the units of a fragment back to back in its mdat |
| AacRoundTrip.WrittenFileExtracted | tools/chzzk-aac-probe.ts:18-162 | any recording of at most 2048 units, in any grouping, written as a file of at most 8388608 bytes, is accepted; its track and exactly its units come back, each at the exact time of all units before it |
| AacSmallest.SomethingIsAccepted | tools/chzzk-aac-probe.ts:18-162 | 373 bytes, given one by one, are accepted and give one unit of one byte at time 0 and its track |
| EncodedProbe.Read | tools/chzzk-encoded-probe.ts:64-74 | the shared-offset loop returns the length-prefixed sets and the offset behind them, or rejects |
| EncodedProbe.AvcParameters | tools/chzzk-encoded-probe.ts:61-79 | the method computes the specified parse on every input, inside the array |
| EncodedProbe.SetsReadIffPrinted | tools/chzzk-encoded-probe.ts:64-74 | a list of sets is read at an offset exactly when its printed form, with sizes 1 to 65535, stands there |
| EncodedProbe.ParametersIffPrinted | tools/chzzk-encoded-probe.ts:61-79 | the parser returns given SPS and PPS lists if and only if the input is their serialisation, whatever the other header bits and whatever extension follows |
| EncodedProbe.Join | tools/chzzk-encoded-probe.ts:29 | the filled buffer is the concatenation of the parts |
| EncodedProbe.EmitGroup | tools/chzzk-encoded-probe.ts:147-151 | one group becomes one fragment: its moof in front of its mdat, the entry of each sample, base time, time in seconds and payload |
| EncodedProbe.Fragments | tools/chzzk-encoded-probe.ts:144-154 | fragment i takes the next samples up to the given number, is number 1 + i and starts at the time of its first sample; together they take all samples |
| EncodedProbe.PlayedBack | tools/chzzk-encoded-probe.ts:144-154 | reading all pieces back gives every sample once, in order, with its own bytes and key flag, sample k at k times the duration |
| EncodedProbe.PiecesGapFree | tools/chzzk-encoded-probe.ts:146-151 | pieces are numbered one by one, none is empty, only the last is smaller, and each starts where the durations of the one before it end |
| EncodedProbe.EmittedClimb | tools/chzzk-encoded-probe.ts:151 | the fragments of a track have strictly increasing times |
| EncodedProbe.TracksKeptInOrder | tools/chzzk-encoded-probe.ts:173-176 | whatever sorted arrangement by time and track results, each track is found in it exactly as it was made |
| EncodedProbe.Send | tools/chzzk-encoded-probe.ts:177-181 | the nested loops send the specified messages |
| EncodedProbe.ChunksCarry | tools/chzzk-encoded-probe.ts:179-180 | a fragment's messages are non-empty, all but the last 128 KiB, and together its bytes |
| EncodedProbe.SplitInOrder | tools/chzzk-encoded-probe.ts:177-181 | messages go out in the order of the fragments, whatever their tracks |
| EncodedProbe.SplitCarries | tools/chzzk-encoded-probe.ts:177-181 | joining the payloads of one track gives the contents of that track's fragments in order |
| EncodedProbe.Delivered | tools/chzzk-encoded-probe.ts:173-181 | for any samples and any sorted arrangement, the receiver's bytes of each track are exactly its fragments in order; video is cut into 60 samples of 3000 ticks at 90 kHz, audio into 94 of 1024 at 48 kHz |
| RollingLog.RollingWriter.Open | src-tauri/src/diagnostics.rs:414-457 | opening resumes the newest slot, creates it if missing, and adds a newline exactly to a torn line; every other slot is as it was |
| RollingLog.RollingWriter.FindNewest | src-tauri/src/diagnostics.rs:422-428 | the slot with the latest modification time, the last among equals |
| RollingLog.RollingWriter.Append | src-tauri/src/diagnostics.rs:458-480 | a record of 8192 bytes or more, or not shorter than a slot, changes nothing; any other goes with a newline behind the slot in use if it fits, else alone into the next slot, and every other slot is as it was; exactly what is left if the call dies before the new slot is emptied or after any part of the line |
| RollingLog.LinesJoin | src-tauri/src/diagnostics.rs:446-455 | behind a terminated text, further text only adds its own lines |
| RollingLog.RepairInvisible | src-tauri/src/diagnostics.rs:446-455 | ending a torn line changes nothing for the reader |
| RollingLog.CurrentIsNewest | src-tauri/src/diagnostics.rs:422-428 | in every reachable state the newest file is the last of the ring, so a restart resumes there |
| RollingLog.StepKeeps | src-tauri/src/diagnostics.rs:413-484 | start, record, torn record and kill keep the ring's invariant, also from a directory that did not start empty |
| RollingLog.LogIsSuffix | src-tauri/src/diagnostics.rs:413-484 | after any run no slot exceeds the limit, and the slots read from oldest to newest give exactly the latest accepted lines, each torn record on its own line |
| RollingLog.LogIsRetained | src-tauri/src/diagnostics.rs:458-480 | once every slot exists, more than (slots - 1) * (limit - 8192) bytes of the newest log always remain |
| RollingLog.RecordIsReadable | src-tauri/src/diagnostics.rs:458-480 | while a writer lives, every record shorter than 8192 bytes and than a slot is the last line of the log after its append, and any other leaves no trace |
| RollingLog.TornIsReadable | src-tauri/src/diagnostics.rs:446-478 | of such a record torn by the death of the process, what reached the disk is the last line of the log |
| RecordingClock.RecordingSource | public/original-player/recording-source.js:4-16 | a recording is accepted exactly when it is allowed, its 1 to 10000 parts are numbered and in range, and each follows the one before it within 10 ms, the last to the declared duration; the source has the parts as given, each under its own url |
| RecordingClock.DecimalRead | public/original-player/recording-source.js:15 | the number in a part's url reads back as the part's index, in digits without leading zeros |
| RecordingClock.BuiltIsValid | public/original-player/recording-source.js:6-15 | every accepted recording has the properties the player relies on |
| RecordingClock.PrefixDrift | public/original-player/recording-source.js:8-13 | the end of part n differs from the sum of the first n durations by at most 10 ms a joint |
| RecordingClock.DurationDrift | public/original-player/recording-source.js:14 | the declared duration differs from the sum of n part durations by at most 10 ms * (n + 1) |
| RecordingClock.Find | public/original-player/recording-source.js:30 | the found part starts at or before the time unless it is the first, and the next starts after it, even when starts are not sorted |
| RecordingClock.Adapter.FindPart | public/original-player/recording-source.js:30 | the binary-search loop finds that part |
| RecordingClock.Adapter.constructor | public/original-player/recording-source.js:17-27 | an attached adapter is at the start of the first part, paused and consistent |
| RecordingClock.Adapter.Seek | public/original-player/recording-source.js:36-42 | the whole new state of a seek: ignored, pending, or set in the current part |
| RecordingClock.Adapter.Loaded | public/original-player/recording-source.js:43-48 | the whole new state when metadata has loaded |
| RecordingClock.Adapter.Ended | public/original-player/recording-source.js:49-53 | the whole new state when a part ends: the next part, or the tail once |
| RecordingClock.Adapter.Update | public/original-player/recording-source.js:74-77 | the whole new state when a new recording replaces the old one |
| RecordingClock.SeekLands | public/original-player/recording-source.js:28-48 | for every accepted recording, seeking to t reads within 10 ms of min(t, duration), at once and after the metadata has loaded; the intent is untouched, the tail can be reported again, and the element is loaded anew exactly when the part changes |
| RecordingClock.UpdateLands | public/original-player/recording-source.js:74-77 | after an update the clock is within 10 ms of the old clock, at most the new duration, and the element is loaded anew |
| RecordingClock.NextKeeps | public/original-player/recording-source.js:28-81 | every event keeps the adapter consistent; only the user or a refused play changes the intent; only the end of the last part reports the tail, once |
| RecordingClock.IntentRules | public/original-player/recording-source.js:31-48 | a paused element starts only on a press of play or when metadata arrive while the intent is to play, and then it does; a part switch leaves it freshly loaded and paused |
| RecordingClock.Ignored | public/original-player/recording-source.js:36-81 | a disposed adapter, a time outside the range and the recording already playing change nothing |
| RecordingClock.PlayRun | public/original-player/recording-source.js:26-53 | every uninterrupted run visits parts 0, 1, 2 and so on once each, in order, keeps playing, and reports the tail at most once, on the last part |
| RecordingClock.WholeRun | public/original-player/recording-source.js:49-53 | every accepted list can be played through: all parts visited, the tail reported once |
| RecordingClock.ClockNeverFallsIff | public/original-player/recording-source.js:28-53 | in no uninterrupted run the clock is more than 10 ms below its highest reading, if and only if the list is steadfast |
| RecordingClock.LongPartsSteadfast | public/original-player/recording-source.js:8-14 | lists whose parts last at least 10 ms are steadfast |
| RecordingClock.ShortPartsFall | public/original-player/recording-source.js:8-14 | an accepted list of very short parts, each joint off by 9.5 ms, that is not steadfast: its clock falls by 26.5 ms |
| CheckpointStore.LocalControl.Install | src-tauri/src/local_control.rs:113-131 | a start reads back the named file exactly when it is the text of a valid checkpoint of at most 128 KiB |
| CheckpointStore.LocalControl.SaveCheckpoint | src-tauri/src/local_control.rs:22-49 | a save skipped by a clean exit or a later checkpoint changes nothing; else it succeeds exactly if no file access fails, and then its own checkpoint is on disk and in memory; a failing one leaves both as they were; all this is what its steps in the protocol leave when run alone |
| CheckpointStore.LocalControl.WorkCheckpointSave | src-tauri/src/local_control.rs:79-111 | the command refuses exactly what is not of version 1 with a time, at most 64 tabs and 128 KiB, before it touches anything, and else saves it |
| CheckpointStore.LocalControl.ClearForCleanExit | src-tauri/src/local_control.rs:51-66 | the flag is up, and each failure point leaves exactly the files and the memory it should; the same as its steps in the protocol |
| CheckpointStore.StepKeeps | src-tauri/src/local_control.rs:22-66 | every step of every thread, failing or not, keeps the protocol's invariant |
| CheckpointStore.NamedFileIsWhole | src-tauri/src/local_control.rs:39-46 | whatever fails and whenever the process dies, the named file is absent or one complete valid checkpoint, and a restart loads exactly it |
| CheckpointStore.SavedAtNeverDecreases | src-tauri/src/local_control.rs:31-46 | no action replaces a checkpoint on disk by an older one |
| CheckpointStore.SavesAreDurable | src-tauri/src/local_control.rs:22-49 | a save that returned success is on disk, or superseded by a newer one, until a clean exit begins |
| CheckpointStore.OwnValueIsStored | src-tauri/src/local_control.rs:22-49 | in every run whatever is on disk or in memory was there at the first start or passed to a save, and a successful save that no other known checkpoint supersedes has its own value on disk, and in memory when the lock is free |
| CheckpointStore.SuccessStoresItsOwn | src-tauri/src/local_control.rs:27-48 | a save that reports success has just put its own checkpoint on disk and in memory, unless a clean exit has begun or memory held a later one; then it changed nothing |
| CheckpointStore.SuccessAgreesIff | src-tauri/src/local_control.rs:22-66 | a success that releases the lock leaves memory and disk equal if and only if it was a clean exit's, or not both: an earlier clean exit reported failure behind the named file, and memory holds a checkpoint |
| CheckpointStore.HalfClearDisagrees | src-tauri/src/local_control.rs:57-64 | a run in which a save succeeds although memory and disk differ |
| CheckpointStore.ClearedStaysCleared | src-tauri/src/local_control.rs:27-30 | after a successful clean exit no later step of the process brings either file back |
| ByteBudget.Shared.Request | src-tauri/examples/measure_hitomi_transport.rs:169-200 | one request run alone takes what the server brings up to its end or a failure, at most 16 KiB a read and at most the room left of 4 MiB and of 64 MiB, and succeeds exactly if all of it came and room was left; the counter grows by exactly that; these are the machine's steps |
| ByteBudget.Shared.Work | src-tauri/examples/measure_hitomi_transport.rs:157-205 | one worker run alone claims the indices in order and lists for each what it took of its answer; the first answer that does not complete stops the comparison, else it goes on until budget or urls end; these are the machine's steps |
| ByteBudget.StepBalances | src-tauri/examples/measure_hitomi_transport.rs:181-198 | every atomic step changes the counter by what it changes in this worker's bytes, its reservation and the results, and never passes the budget |
| ByteBudget.CounterIsExact | src-tauri/examples/measure_hitomi_transport.rs:157-205 | with any number of workers, the counter is always the bytes kept plus outstanding reservations, and at most TOTAL_BYTES |
| ByteBudget.RequestsAreBounded | src-tauri/examples/measure_hitomi_transport.rs:179-198 | no request exceeds IMAGE_BYTES, even with what it has reserved |
| ByteBudget.IndicesAreUnique | src-tauri/examples/measure_hitomi_transport.rs:159-160 | in a round no index is claimed twice, and only existing urls are requested |
| ByteBudget.RoundBalances | src-tauri/examples/measure_hitomi_transport.rs:157-217 | when a round ends the counter is the sum of all bytes read, failed requests included |
| ByteBudget.RoundIsComplete | src-tauri/examples/measure_hitomi_transport.rs:144-205 | a round that ends unstopped, within the budget and with any positive number of workers has exactly one result for every url |
| ByteBudget.StopDrains | src-tauri/examples/measure_hitomi_transport.rs:158-203 | once stopped the flag stays up, every step brings its worker closer to the exit, and no worker sends a request or begins a new reservation |
| ByteBudget.StoppedForGood | src-tauri/examples/measure_hitomi_transport.rs:135-203 | whatever happens after a stop, no further request is sent and no further round begins |
| PopularityRanks.AssignRanks | src-tauri/src/download_popularity.rs:107-124 | the early-leaving scan gives exactly the wanted ids the rank of a full recomputation |
| PopularityRanks.IdAt | src-tauri/src/download_popularity.rs:109-112 | id i of an index is the big-endian number in its bytes 4i to 4i + 3 |
| PopularityRanks.RankIn | src-tauri/src/download_popularity.rs:109-115 | a rank is the position of the first occurrence, counted from one, and none exactly if there is none |
| PopularityRanks.RankUnique | src-tauri/src/download_popularity.rs:109-115 | there is only one such rank |
| PopularityRanks.RankStore.InsertRanks | src-tauri/src/download_popularity.rs:126-138 | the batch replaces rows of its period and nothing else |
| PopularityRanks.RankStore.StoreSnapshot | src-tauri/src/download_popularity.rs:140-165 | exactly a non-empty index of whole ids is stored; then the period has the new index and the ranks in it of exactly the galleries of all entries, else nothing changed |
| PopularityRanks.RankStore.BackfillMissing | src-tauri/src/download_popularity.rs:167-181 | exactly the galleries of entries without a rank get one, from the stored index; nothing else changes |
| PopularityRanks.StoreAlone | src-tauri/src/download_popularity.rs:140-165 | an answer and its commit, as steps of the refresh with nothing in between, do the same |
| PopularityRanks.BackfillAlone | src-tauri/src/download_popularity.rs:167-181 | a scan and its commit, as steps with nothing in between, do the same |
| PopularityRanks.NextKeeps | src-tauri/src/download_popularity.rs:42-181 | every step of a refresh and every library change between two of them keeps the cache sound |
| PopularityRanks.RanksAreSound | src-tauri/src/download_popularity.rs:107-181 | over every history each stored rank is the first-occurrence position in the index stored for its period |
| PopularityRanks.ReadEqualsRecomputation | src-tauri/src/download_popularity.rs:97-99 | a read after a backfill equals full recomputation for every gallery present from the scan to the read, and returns only library galleries |
| PopularityRanks.ReadAfterScan | src-tauri/src/download_popularity.rs:97-99 | whatever came before the scan, and whatever galleries joined or left until the read: every gallery listed throughout is returned, only listed ones are, each with its recomputed rank; if none joined, all of the library |
| PopularityRanks.OtherPeriodsUntouched | src-tauri/src/download_popularity.rs:140-181 | a step changes only the period being refreshed, and a failed step changes nothing |
| ArgumentQuoting.QuoteArgument | src-tauri/src/autostart.rs:77-96 | the loop prints the specified quoted form |
| ArgumentQuoting.QuotedRestRead | src-tauri/src/autostart.rs:80-94 | from any point of a quoted form, with any number of backslashes held back, the parser recovers the rest and stops at its closing quote |
| ArgumentQuoting.QuotedArgumentRead | src-tauri/src/autostart.rs:77-96 | a quoted argument, followed by a blank or nothing, reads back as exactly its value |
| ArgumentQuoting.QuotingRoundTrips | src-tauri/src/autostart.rs:76-96 | quoting any list of strings and joining with spaces parses back to that list, with or without the rule for doubled quotes |
| ArgumentQuoting.QuotingIsInjective | src-tauri/src/autostart.rs:76-96 | different lists have different quoted forms |
| ArgumentQuoting.DevelopmentArgumentsRead | src-tauri/src/autostart.rs:121-124 | the development command hands PowerShell its eight switches and exactly the launcher's path |
| StartupLink.StartupFolder.SetRegistration | src-tauri/src/autostart.rs:422-482 | exactly when a change succeeds, in terms of every fault; otherwise the link is what it was or what others made it; a repeated enable changes nothing; no temporary file remains if its removal succeeds |
| StartupLink.StartupFolder.WriteVerifyReplace | src-tauri/src/autostart.rs:453-477 | the link is replaced only by a temporary link read back equal, and only if the old one is still the same |
| StartupLink.StartupFolder.Run | src-tauri/src/autostart.rs:209-239 | exactly when a command succeeds; a successful enable needs no repair, a successful disable leaves nothing, a query reports whether the link differs from the expected one and changes nothing, a foreign or unreadable link is never changed |
| StartupLink.CallAlone | src-tauri/src/autostart.rs:422-482 | the steps of one call, run with nothing in between, meet the contract of `SetRegistration` |
| StartupLink.NextKeeps | src-tauri/src/autostart.rs:422-482 | every step, every change by others and every death of the process keeps the protocol's invariant |
| StartupLink.LinkIsProper | src-tauri/src/autostart.rs:422-482 | after every history of calls, failures, deaths and changes by others the link is what others left there, or removed, or a requested registration; a foreign or unreadable one is as others left it |
| StartupLink.OnlyVerifiedLinks | src-tauri/src/autostart.rs:428-471 | in every reachable state a step that changes the link removes a readable one, or replaces the very link the call read by the verified temporary link |
| StartupLink.OnlyStaleFilesRemain | src-tauri/src/autostart.rs:444-481 | between calls every temporary file is one that a death or a failed removal left |
| HashRepair.AddCandidates | tools/repair_merge_hash_cache.py:52-57 | the candidate loop adds one row per profile and skips profiles the live cache has |
| HashRepair.PlanPage | tools/repair_merge_hash_cache.py:45-57 | a page's additions are, for every profile, nothing over a live row, else the donor's row, else the backup's |
| HashRepair.PlannedIff | tools/repair_merge_hash_cache.py:44-57 | the planned rows, told without the plan: what is lacking and can be copied, and from which row |
| HashRepair.Plan | tools/repair_merge_hash_cache.py:30-67 | a plan succeeds exactly when the merge is applied, the target is the same, its managed root resolves and every page that gets a row has its recorded bytes; its rows, with distinct keys, are exactly those of present pages without the profile, each with the hash columns, profile and sha of the donor's row, or of the backup's if the donor has none |
| HashRepair.InsertRows | tools/repair_merge_hash_cache.py:89-95 | the rows go in exactly when every page checkpoint still matches, and the count is the number of new rows |
| HashRepair.Database.Apply | tools/repair_merge_hash_cache.py:73-97 | all rows or none, exactly when the merge is applied, some present page still has each row's entry, gallery, number and sha, and neither copy nor commit fails |
| HashRepair.NeverOverwrites | tools/repair_merge_hash_cache.py:93-95 | inserting changes no existing row and adds exactly the keys of the rows |
| HashRepair.FreshPlanCommits | tools/repair_merge_hash_cache.py:44-95 | an undisturbed plan commits if and only if every page it fills is recorded under the artifact's gallery, a column `plan` does not look at and `apply` does |
| HashRepair.SchemaPlanCommits | src-tauri/src/infrastructure/migrations.rs:433-434 | under the schema's foreign key from pages to artifacts that is always so: every undisturbed plan commits |
| HashRepair.SecondPlanEmptyIff | tools/repair_merge_hash_cache.py:44-67 | after an apply with no other writer a second plan is empty if and only if no planned row feeds another page |
| HashRepair.DifferentEntriesSettle | tools/repair_merge_hash_cache.py:48-50 | a merge of two different entries always settles |
| HashRepair.SelfMergeFeeds | tools/repair_merge_hash_cache.py:48-50 | an entry merged into itself need not settle: its plan starts and commits, and the next one is not empty |

## Left out

- Texts of error messages: a rejection carries no message.
- Floating point: clocks are real numbers in seconds and timestamps are exact integers; the original computes both in doubles.
- Values of the wrong type or NaN in a received part list; part data are numbers here.
- AacRoundTrip.WrittenFileExtracted: boxes inside moov and moof are written with 32-bit sizes, and no box of another kind stands among them; `AacConformance.AcceptedIff` covers those.
- The separate safe-integer test of a sample's position, which the test against the mdat boxes implies.
- `encodeAacViaMediaRecorder`, `encodeSynthetic`, `send`, `drain` and base64: browser encoders, timers and the message bridge. Messages carry bytes.
- `MP4.moof`, `MP4.mdat` and `MP4.initSegment` of hls.js: arbitrary functions of what they are given; only the arguments passed to the first two are modelled.
- The sorting algorithm of the JavaScript library: any arrangement sorted by time and track is covered.
- Parsing of the program name, UTF-16 conversion and NUL characters in Windows command lines.
- Tracing layers, JSON encoding, field filtering and the panic hook of the diagnostics; a record is any byte string without a newline. Failures of `sync_data` outside a rotation have no effect on contents.
- Real file systems, SQLite and COM: writes, renames, replacements and transactions are atomic steps that may fail. Every change of a log slot takes a later modification time.
- Poisoned locks, sockets, routing and recovery calls of the local control. A file holds the text of one JSON value, known by its checked fields and its length, or something that does not parse; writing and parsing are inverse.
- ByteBudget.Shared.Work: covers one worker without others in between; any number of interleaved workers is covered by the state machine.
- The 25 ms start spacing, headers and timing of the transport measurement, which do not touch the counters.
- The age test and the warning of a popularity refresh: using the stored index is a free choice of the model.
- StartupLink.StartupFolder.SetRegistration: an edit by others between the recheck and the replacement, or between the read and the removal, is not modelled, and nobody else touches a temporary file.
- Which executable and arguments a registration should have, and reading Windows' own switch: both come in as values.
- The order of rows within one query of the repair, and the copy made before it: any order is covered, and the copy only may fail.
- User interface code, templates and the remaining native probes, which would only add easy members.
