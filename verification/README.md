# recs: silence-gated recording, modelled in Dafny

This project models the core of `recs`, a multi-channel audio recorder. The
recorder cuts each channel's capture into files: a file opens when a block is
loud, keeps some silence before the onset (pre-roll) and after the offset
(post-roll), and closes after prolonged silence. The model covers six parts:

- the block buffer, `Block` and `Blocks` in `recs/block.py` (module `BlockBuffer`);
- the two operations the writers call on that buffer (`duration` and `clip`), in module `AudioBlocks`;
- the per-channel writer state machine, `ChannelWriter` (module `ChannelWriting`), with a seven-block run of it stepped through from literal states (module `ChannelWriterRun`);
- the earlier `FileWriter`, with collision-free file naming and the `__exit__` rule (module `FileWriting`);
- the display-side merge of per-channel figures, `ChannelState` and `TotalState` (modules `ChannelStates` and `TotalStates`);
- channel slicing in `recs/util/slicer.py` (module `Slicer`).

Shared pieces:

- `Wrappers` holds `Option` and `Result`.
- `Seqs` holds reversal and flattening.
- `Strings` holds decimal rendering, ASCII lower-casing and prefixes.
- `Dicts` models a Python `dict` as an insertion-ordered sequence of pairs.

Every object is a value, and every method is a function from the old value to
the new one. The writers are records stepped by transition functions:

- a buffer of blocks;
- an open-file slot;
- the counters;
- the trace of files written, each a sequence of blocks.

The effects the code depends on are parameters:

- a block's volume;
- the clock reading used in a file name;
- the set of paths that already exist;
- the error a `close` raises.

One assumption and one fact about the code shape the writers' model:

- `clip` is taken to return the removed blocks in the order it pops them.
  Its definition, in recs/audio/block.py, is not part of this model. The
  writers call `reversed(removed)` after a clip from the end
  (recs/audio/channel_writer.py:75-79, recs/audio/file_writer.py:60-63),
  which puts pop-order blocks back in time order, so `AudioBlocks.Clip`
  returns them in pop order.
- The offset test compares the buffered duration with
  `stop_after_silence` (recs/audio/channel_writer.py:43). The blocks
  clipped off the end go to the file, and the rest of the buffer stays
  buffered. `ChannelWriting.WriteSilenceEnds` states this.

## Model

| member | source | states |
|---|---|---|
| BlockBuffer.Max | recs/block.py:19-21 | Defined exactly when the block has samples. The result is one of the samples and no sample exceeds it. |
| BlockBuffer.Min | recs/block.py:23-25 | Defined exactly when the block has samples. The result is one of the samples and no sample is below it. |
| BlockBuffer.LenSamples | recs/block.py:12-13 | A block of zero frames has no samples. When no frame is empty, a block has samples exactly when its length is positive. |
| BlockBuffer.Amplitude | recs/block.py:15-17 | Defined exactly when the block has samples. It is non-negative, bounds the difference of any two samples, and is reached by some pair. |
| BlockBuffer.WrappedAmplitude | recs/block.py:15-17 | `max - min` computed in the samples' integer type. It is defined exactly when the block has samples and always lies in the type's range. For samples in range, it equals the exact spread exactly when that spread fits the type, and it is negative exactly when the spread does not fit. |
| BlockBuffer.AmplitudeWrapsAtFullScale | recs/block.py:15-17 | An int16 block holding 32767 and -32768 has a spread of 65535, but its wrapped amplitude is -1. |
| BlockBuffer.Empty | recs/block.py:34-37 | A new buffer holds no block and its running length is right. |
| BlockBuffer.Append | recs/block.py:39-41 | Exactly one block is added, at the end. The length grows by that block's frame count, and a right running length stays right. |
| BlockBuffer.Clear | recs/block.py:43-45 | No block is left and the length is 0. |
| BlockBuffer.ClipToLength | recs/block.py:47-53 | Blocks are removed from the front in their original order, and the removed blocks followed by the rest are the original sequence. The length drops by the removed total. Every removed block was needed: putting the last one back would exceed the target. Nothing is removed when the length is already within the target. Popping an empty list is the `IndexError` outcome. A right running length stays right. |
| BlockBuffer.ClipToLengthOutcome | recs/block.py:49-50 | With a right running length, the clip reaches its target if and only if the target is non-negative. |
| BlockBuffer.ClipToLengthIdempotent | recs/block.py:47-53 | A second clip to the same target removes nothing. |
| BlockBuffer.Write | recs/block.py:55-58 | Every block goes to the sink, in order, after what the sink already held. The buffer is then empty. |
| BlockBuffer.GetItem | recs/block.py:60-61 | Indices in range, negative ones from the end, give that block. Any other index is the `IndexError`. |
| BlockBuffer.GetItemAppend | recs/block.py:39-61 | After `append(x)`, index -1 gives `x`. A non-negative index gives the same block as before, and a negative one gives the block one further from the end. |
| BlockBuffer.Count | recs/block.py:63-64 | The count is 0 exactly when index -1 raises `IndexError`. A buffer with no blocks has length 0. |
| BlockBuffer.CountTracksBlocks | recs/block.py:63-64 | `len` counts blocks: one more after `append`, none after `clear` or `write`, and the blocks not removed after a clip. |
| AudioBlocks.Duration | recs/audio/channel_writer.py:43 | With a right running length, the duration is the total frame count of the blocks. It is 0 exactly when every block has zero frames. |
| AudioBlocks.Clip | recs/audio/channel_writer.py:66-82 | Pops whole blocks from the chosen end while the length exceeds the target, and returns them in pop order. The pieces rebuild the buffer. The length drops by the removed total, and a non-negative target is reached. Every removed block was needed, and nothing is removed when the buffer is already within the target. |
| AudioBlocks.ClipAccountsForSamples | recs/audio/channel_writer.py:74-79 | The samples and blocks removed, plus those kept, are exactly those buffered before. |
| AudioBlocks.OnsetClip | recs/audio/channel_writer.py:67-69 | An onset clip keeps the longest tail of the buffer within pre-roll plus the latest block's length. That tail always ends with the latest block. |
| AudioBlocks.OffsetClip | recs/audio/channel_writer.py:74-79 | An offset clip keeps the longest head within the post-roll. The blocks cut off, put back in time order, are the rest of the buffer. |
| ChannelWriting.Start | recs/audio/channel_writer.py:16-30 | A new writer is running, holds no file and keeps every invariant. |
| ChannelWriting.Buffered | recs/audio/channel_writer.py:37-38 | Every accepted block is appended and counted in `samples_seen` before any decision. Files and counters are unchanged. |
| ChannelWriting.Record | recs/audio/channel_writer.py:84-91 | The blocks go to the open file. A file is opened, and `files_written` incremented, only when none is open and there is a block to write. `blocks_written` grows by one per block, and the trace invariant is kept. |
| ChannelWriting.Close | recs/audio/channel_writer.py:54-56 | The open file joins the closed ones unchanged. No block or counter changes. |
| ChannelWriting.RecordOnNotSilence | recs/audio/channel_writer.py:66-72 | The open file grows by the (pre-roll-clipped when no file was open) buffer, the buffer empties, and the counters move accordingly. |
| ChannelWriting.CloseOnSilence | recs/audio/channel_writer.py:74-82 | The buffer is cut to the post-roll. With a file open, the cut blocks are written in time order and the file is closed. Without one, they are dropped and no file opens. |
| ChannelWriting.Write | recs/audio/channel_writer.py:32-44 | A stopped writer is left as it was. A running one counts the block's samples and stays running. |
| ChannelWriting.Stop | recs/audio/channel_writer.py:46-58 | Afterwards the writer is not running, holds no file and has an empty buffer. |
| ChannelWriting.TraceCounts | recs/audio/channel_writer.py:84-91 | `files_written` is the number of files in the trace and `blocks_written` the number of blocks in them. |
| ChannelWriting.WriteContinues | recs/audio/channel_writer.py:32-72 | A loud block with a file open writes the whole buffer and the block to that file, empties the buffer and opens no file. |
| ChannelWriting.WriteOnset | recs/audio/channel_writer.py:32-72 | A loud block with no file open opens exactly one file. The file gets the longest buffered tail within pre-roll plus the block's length, ending with that block, and the buffer empties. |
| ChannelWriting.OnsetRecords | recs/audio/channel_writer.py:66-72 | At an onset with no file open, the file opened holds the pre-roll-clipped tail of the buffer, and every invariant is kept. |
| ChannelWriting.WriteSilenceEnds | recs/audio/channel_writer.py:32-82 | A quiet block that takes the buffer past `stop_after_silence` leaves no file open and at most the post-roll buffered, as the longest such head. If a file was open, it is closed with the cut blocks appended in time order. If none was, nothing is written or counted. |
| ChannelWriting.WriteQuiet | recs/audio/channel_writer.py:32-44 | A quiet block within `stop_after_silence` is only buffered. |
| ChannelWriting.WriteInv | recs/audio/channel_writer.py:32-91 | `write` keeps the invariant: the running length is right, the counters match the trace, no file in it is empty, and a stopped writer holds nothing. |
| ChannelWriting.StopFlushes | recs/audio/channel_writer.py:46-58 | `stop` writes the buffer to the open file, or to a new one if blocks are buffered, and closes it. The counters grow by exactly those blocks and that file. |
| ChannelWriting.WriteAfterStop | recs/audio/channel_writer.py:32-48 | After `stop`, `write` changes nothing. |
| ChannelWriting.StopIdempotent | recs/audio/channel_writer.py:46-58 | A second `stop` changes nothing: no counter, no file. |
| ChannelWriting.WriteHeld | recs/audio/channel_writer.py:32-91 | After `write`, the blocks in the trace and buffer are, as a multiset, among those held before plus the new block. No block is written twice. |
| ChannelWriting.HeldOnset | recs/audio/channel_writer.py:66-72 | Recording at an onset writes only blocks that were buffered. |
| ChannelWriting.HeldOffset | recs/audio/channel_writer.py:74-82 | Closing on silence writes only blocks that were buffered. |
| ChannelWriting.StopHeld | recs/audio/channel_writer.py:46-58 | `stop` moves blocks from the buffer to the trace without adding or losing any. |
| ChannelWriting.RunFromStart | recs/audio/channel_writer.py:28-44 | After any sequence of writes to a new writer, the invariant holds and `samples_seen` is the total length of the blocks given. The blocks held are a sub-multiset of those given. |
| ChannelWriting.RunThenStop | recs/audio/channel_writer.py:32-58 | After any run and a `stop`, every file's blocks together are a sub-multiset of the blocks given, so no block is written twice. |
| ChannelWriterRun.QuietStart | recs/audio/channel_writer.py:32-44 | With noise floor 1, pre-roll and post-roll 1 and a stop limit of 2 frames, the first two quiet one-frame blocks are only buffered. No file opens. |
| ChannelWriterRun.ClipBackThreeToOne | recs/audio/channel_writer.py:75 | Three one-frame blocks cut from the end to one frame lose the two newest, which come back in time order. |
| ChannelWriterRun.ClipThreeToOne | recs/audio/channel_writer.py:75 | The same cut through `clip` returns the two newest blocks newest first and keeps the oldest. |
| ChannelWriterRun.QuietBeforeOnsetDropped | recs/audio/channel_writer.py:43-44 | The third quiet block takes the buffer to 3 frames. The buffer is cut back to the oldest block, and with no file open the two blocks cut off are dropped. |
| ChannelWriterRun.Onset | recs/audio/channel_writer.py:66-72 | The loud fourth block opens the first file with the buffered pre-roll block and itself, and empties the buffer. |
| ChannelWriterRun.QuietAfterOnset | recs/audio/channel_writer.py:32-44 | The fifth and sixth blocks, quiet, are only buffered while the file stays open. |
| ChannelWriterRun.Offset | recs/audio/channel_writer.py:74-82 | The seventh quiet block passes the stop limit. Blocks 6 and 7, cut from the end, are written to the file in time order. The file closes as [1, 4, 6, 7], and block 5 stays buffered. |
| ChannelWriterRun.StopWritesLeftover | recs/audio/channel_writer.py:46-58 | `stop` writes the leftover block 5 alone to a second file and closes it. Five blocks and two files are counted. |
| FileWriting.New | recs/audio/file_writer.py:13-21 | A new writer has no file and keeps its invariant. |
| FileWriting.Candidate | recs/audio/file_writer.py:77-78 | A candidate path lies in the writer's directory and ends with the format's suffix. Index 0 gives `{name}-{ts}` with that suffix. |
| FileWriting.CandidateInjective | recs/audio/file_writer.py:74-82 | Two candidates with stamps of equal length are the same path only for the same index and the same stamp. |
| FileWriting.CandidatesInjective | recs/audio/file_writer.py:76-82 | Whatever the clock reads at each attempt, different attempts give different candidate paths. |
| FileWriting.FreeIndex | recs/audio/file_writer.py:76-82 | The search stops for any finite set of existing paths. It returns the first index whose path does not exist. |
| FileWriting.NewFilename | recs/audio/file_writer.py:73-82 | The path returned does not exist. It is the candidate for some attempt, built with the clock reading of that attempt, and every earlier attempt's candidate exists. |
| FileWriting.NewFilenameFirstFree | recs/audio/file_writer.py:73-82 | No later candidate is returned than one known to be free, and `{name}-{ts}` itself when it is free. |
| FileWriting.Open | recs/audio/file_writer.py:68 | An open file is kept. Otherwise a file with a fresh path is opened and that path now exists. |
| FileWriting.WriteToFile | recs/audio/file_writer.py:70-71 | The blocks are appended to the open file in order. |
| FileWriting.Record | recs/audio/file_writer.py:67-71 | A file is opened only when none is open, once per call, under a fresh path, and the blocks go to it. The paths of all files stay distinct. |
| FileWriting.CloseFile | recs/audio/file_writer.py:45-46 | The open file joins the closed ones unchanged. |
| FileWriting.BlockNotSilent | recs/audio/file_writer.py:49-56 | With a file open, the whole buffer is written to it. Without one, a fresh file gets the pre-roll-clipped buffer. The buffer then empties. |
| FileWriting.CloseOnSilence | recs/audio/file_writer.py:58-65 | The buffer is cut to `at_end`. With a file open, the cut blocks are written in time order and the file closed. Without one, nothing is written. |
| FileWriting.Buffered | recs/audio/file_writer.py:33-34 | The block is appended first, whatever follows. |
| FileWriting.Write | recs/audio/file_writer.py:33-40 | The amplitude of a block without samples raises, after the block was buffered. |
| FileWriting.Close | recs/audio/file_writer.py:42-47 | Afterwards no file is open and the buffer is empty. |
| FileWriting.ExitRaises | recs/audio/file_writer.py:26-31 | A failing `close` is re-raised when the with-body raised and suppressed when it did not. Otherwise the body's own exception, if any, propagates. |
| FileWriting.CloseFailed | recs/audio/file_writer.py:42-45 | A `close` whose file close raises leaves the file open with the buffer appended. The buffer, the closed files and the existing paths are unchanged. |
| FileWriting.Exit | recs/audio/file_writer.py:26-47 | With no file open, or a close that succeeds, `__exit__` leaves the writer closed. A close that raises leaves the file open, with the buffer appended and still buffered. The exception raised is the one `ExitRaises` gives. |
| FileWriting.WriteLoudContinues | recs/audio/file_writer.py:33-56 | A block with amplitude at or above the floor, with a file open, writes the buffer and block to that file and empties the buffer. |
| FileWriting.WriteLoudOnset | recs/audio/file_writer.py:33-56 | A loud block with no file open opens one fresh file. The file holds the longest buffered tail within `at_start` plus the block's length, ending with the block. |
| FileWriting.WriteSilenceEnds | recs/audio/file_writer.py:33-65 | A quiet block past `before_stopping` leaves no file open and the longest head within `at_end` buffered. An open file is closed with the cut blocks in time order. |
| FileWriting.WriteQuiet | recs/audio/file_writer.py:33-40 | A quiet block within `before_stopping` is only buffered. |
| FileWriting.WriteInv | recs/audio/file_writer.py:33-82 | `write` keeps every file's path distinct and existing, and keeps the buffer's running length right. |
| FileWriting.CloseFlushes | recs/audio/file_writer.py:42-47 | With a file open, `close` writes the buffer to it and closes it. With none open, it discards the buffer and opens nothing. |
| FileWriting.CloseIdempotent | recs/audio/file_writer.py:42-47 | A second `close` changes nothing. |
| ChannelStates.Default | recs/base/state.py:9-19 | Counters and `max_amp` are 0, `min_amp` is infinite, the state is inactive with no volume, and it is stamped with the clock. |
| ChannelStates.Add | recs/base/state.py:23-36 | The three counters add. `is_active`, `timestamp` and `volume` come from the right operand. `max_amp` and `min_amp` combine by max and min. |
| ChannelStates.Sub | recs/base/state.py:38-46 | The three counters subtract. The instantaneous fields are kept. Amplitudes still combine by max and min. |
| ChannelStates.MergeWidens | recs/base/state.py:33-44 | Merging by `+` or `-` never narrows the amplitude range. |
| ChannelStates.AddThenSub | recs/base/state.py:48-56 | `(s + m) - m` has the counters of `s` and the instantaneous fields of `m`. |
| ChannelStates.DefaultLeftIdentity | recs/base/state.py:9-34 | Merging into a default state returns the merged state exactly when its `max_amp` is non-negative. |
| ChannelStates.AddAssociative | recs/base/state.py:23-36 | Merging is associative. |
| ChannelStates.AddCommutesOnCounts | recs/base/state.py:23-36 | Merge order changes neither counters nor amplitudes; only the instantaneous fields depend on it. |
| TotalStates.DeviceDefaults | recs/ui/total_state.py:10-11 | One default entry per track name. |
| TotalStates.Init | recs/ui/total_state.py:9-14 | Every device name gets an entry, holding a default entry for each track of the last device with that name. The total is default. |
| TotalStates.Reports | recs/ui/total_state.py:22-23 | The reports visited are exactly the (device, channel, state) entries of the update. |
| TotalStates.ReportsLength | recs/ui/total_state.py:22-23 | One report is visited per channel entry of the update. |
| TotalStates.ReportsAt | recs/ui/total_state.py:22-23 | Reports come device by device, and channel by channel within a device. The `j`-th channel of the `i`-th device comes right after all channels of the devices before it. |
| TotalStates.Merge | recs/ui/total_state.py:24-28 | An unknown device or channel raises `KeyError` naming it and changes nothing. Otherwise the entry becomes old `+` reported. The total gains the counters, twice the recorded time for a channel whose name holds '-', and the amplitude range. It takes `is_active`, `timestamp` and `volume` from the report. The devices and channels are unchanged. |
| TotalStates.Apply | recs/ui/total_state.py:22-28 | Merging the reports in order keeps the devices and channels. |
| TotalStates.ApplyCompletes | recs/ui/total_state.py:22-28 | Every report is merged exactly when each names a device and channel the state holds. |
| TotalStates.Update | recs/ui/total_state.py:21-28 | `update` completes exactly when every device and channel it is given is known. It keeps the devices and channels, and keeps the total balanced against the entries, whether it completes or stops at a `KeyError`. |
| TotalStates.UpdateCompletes | recs/ui/total_state.py:21-28 | Merging all reports completes exactly when every (device, channel) entry of the update is known. |
| TotalStates.ApplyAppend | recs/ui/total_state.py:21-28 | Merging two lists of reports in turn is merging their concatenation. |
| TotalStates.ApplyStopsAtError | recs/ui/total_state.py:22-25 | After a `KeyError`, exactly the reports before the failing one stay merged. |
| TotalStates.ApplyLeavesOthers | recs/ui/total_state.py:22-24 | `update` keeps the devices and channels, and leaves every channel no report names as it was. |
| TotalStates.InitBalanced | recs/ui/total_state.py:13-14 | A new total equals the sums over the entries. |
| TotalStates.MergeBalanced | recs/ui/total_state.py:24-28 | One merge keeps the total's `file_count` and `file_size` equal to the sums over the entries. Its `recorded_time` stays the sum with stereo channels counted twice. |
| TotalStates.ApplyBalanced | recs/ui/total_state.py:21-28 | `update`, finished or stopped by `KeyError`, keeps the total balanced against the entries. |
| Dicts.FromPairs | recs/util/slicer.py:17 | `dict(pairs)` has distinct keys, exactly the keys given. |
| Dicts.InsertHas | recs/util/slicer.py:17 | After `d[k] = v`, `d` holds `(k, v)`. |
| Dicts.InsertKeeps | recs/util/slicer.py:17 | `d[k] = v` keeps every pair under another key. |
| Dicts.InsertKeepsOrder | recs/util/slicer.py:17 | `d[k] = v` on a key already present keeps the keys in their order. |
| Dicts.FromPairsValues | recs/util/slicer.py:17 | In `dict(pairs)`, every key's value is the one from its last pair. |
| Dicts.FromPairsOrder | recs/util/slicer.py:17 | In `dict(pairs)`, the keys are in the order of their first occurrence. |
| Slicer.AutoSlice | recs/util/slicer.py:9-17 | For n ≥ 0 there are ⌈n/2⌉ entries with distinct names, so the dict keeps every yielded pair in order. |
| Slicer.AutoPairsEntry | recs/util/slicer.py:12-15 | Entry k is channels 2k and 2k+1, or the last channel alone for the odd final entry. |
| Slicer.AutoSliceCovers | recs/util/slicer.py:12-15 | Every channel in [0, n) is in exactly one track, and no track reaches outside. The tracks run from channel 0 to n without gaps. |
| Slicer.PairNameInjective | recs/util/slicer.py:13 | Different pairs get different 1-based names. |
| Slicer.PairNameNotSingle | recs/util/slicer.py:13-15 | A pair's name never equals the name of a single non-negative channel. |
| Slicer.AutoPairsDistinct | recs/util/slicer.py:12-17 | No name is yielded twice. |
| Slicer.ToSlice | recs/util/slicer.py:20-35 | A slice is returned unchanged. A sequence of one to three items is spread into `slice(*x)`; other lengths are the `TypeError`. A mapping is accepted exactly when it has `stop` and no key besides start, stop and step. `stop` comes from the mapping. `start` and `step` come from it when present, else they are 0 and 1. A missing `stop` is reported before extra keys, and the extra-keys error names exactly the extra keys. |
| Slicer.ToSliceRoundTrip | recs/util/slicer.py:20-35 | A slice written as a three-item sequence, or as a full mapping, reads back as itself. |
| Slicer.ToSliceDefaults | recs/util/slicer.py:27-35 | A mapping with only `stop` gives start 0 and step 1. |
| Slicer.ToSlices | recs/util/slicer.py:38-39 | Succeeds exactly when every entry converts, keeping keys and order. Otherwise the first failing entry's error is raised. |
| Slicer.FirstMatch | recs/util/slicer.py:43-44 | Finds the first key whose lower-case form starts the lower-case name, or reports that none does. |
| Slicer.SliceOne | recs/util/slicer.py:42-45 | Uses the first matching configuration, else the automatic pairs for the device's channel count. |
| Slicer.SliceOneUnconfigured | recs/util/slicer.py:42-45 | With no configuration, a device gets its automatic pairs. |
| Slicer.SliceEach | recs/util/slicer.py:48-51 | Slices every device in order, or raises the error of a device that fails. |
| Slicer.SliceEachFirstError | recs/util/slicer.py:48-51 | The error raised is that of the first device whose slices fail, and every device before it succeeds. |
| Slicer.SliceAll | recs/util/slicer.py:48-51 | Succeeds exactly when every device does. The result has exactly one entry per device name. |
| Slicer.SliceAllFirstError | recs/util/slicer.py:48-51 | `slice_all` raises the error of the first device whose slices fail. |
| Slicer.SliceAllEntries | recs/util/slicer.py:48-51 | The names are in the order of their first device. A name shared by several devices holds the slices of the last of them. |
| Slicer.SliceAllDistinct | recs/util/slicer.py:48-51 | With distinct device names, entry i is device i's name with its slices. |

## Left out

- `Block.rms` (recs/block.py:27-31) is floating point.
- `Block.volume`, `Blocks.duration` and `Blocks.clip` come from recs/audio/block.py, which is not part of this model. The volume is an integer parameter of each `write`. `duration` and `clip` are defined in `AudioBlocks` over the same buffer, as whole-block pops while the length exceeds the target. `clip` is taken to return the removed blocks in pop order; this order decides the block order the writers write at an offset. On an empty buffer `clip` is taken to stop and remove nothing rather than raise. With a right running length and a non-negative target, an empty buffer is never reached.
- `Block.amplitude`, as the `FileWriter` uses it, is taken to be the one in recs/block.py:15-17, since recs/audio/block.py is not part of this model.
- BlockBuffer.Amplitude: samples are exact integers. Float samples (`float32`) are not modelled. The wrap-around of integer sample types is modelled separately in `BlockBuffer.WrappedAmplitude` (see Findings), and the writers use the exact spread.
- Locking, `threa.Runnable` and the `stopped` event of `ChannelWriter` (recs/audio/channel_writer.py:28-30, 60-64) are a sequential `running` flag. Calls from other threads are not modelled.
- Sound files are traces of the blocks written to them. Formats, encodings and metadata are out of scope, and so are I/O errors other than the one `close` may raise in `__exit__`.
- A `SoundFile`'s truthiness (`if not self._sf`) is taken to mean "a file is open".
- `FileWriting.NewFilename` appends the format's suffix where the code calls `with_suffix`. The two agree when the stem has no '.'. `ts()` is read again for each candidate (recs/audio/file_writer.py:77). It is the parameter `clock`, where `clock(k)` is the 15-character stamp read for attempt `k`. `Path.exists` is a finite set of paths, and a file opened adds its path to it.
- FileWriting.Exit: an exception from writing the buffer and one from closing the file are one failure of `close`. Either way the buffer is taken to be written before the failure.
- `FileWriting.Write` models only the failure to take the amplitude of a block without samples; any other exception from numpy is out of scope.
- `ChannelStates`: the float fields (amplitudes, times, volume) are integers, so arithmetic is exact and no float round-trip is claimed. `+=` mutating in place and `+` working on a copy compute the same value; with values instead of objects, "the left operand is unchanged" holds by construction.
- `ChannelStates.Default`: `time.time()` is read once per construction (`now`), so every default state built together shares one timestamp.
- `TotalState.rows`, `elapsed_time` and `start_time` (recs/ui/total_state.py:15-19, 30-51) are display output and clock reads.
- `Slicer.ToSlice`: a sequence's items are integers or `None`. Strings or other objects spread into `slice(*x)`, and non-integer values in a mapping, are not modelled. `Strings.Lower` lower-cases ASCII only.
- `Slicer.ToSlices`: the input dict is taken to have distinct keys, as every Python dict does. The result keeps the entries as given.
- The end-to-end runs of test/test_channel_writer.py:35-58 (132 and 2011 blocks) are not evaluated as concrete lemmas, because they are too large for the verifier to unfold. The general step lemmas state what each block does in those runs. `ChannelWriterRun` steps a seven-block run of the same shape, one `write` per lemma from a literal state. It does not chain those steps through `Run` in one lemma, because the verifier cannot unfold seven literal `write` calls at once within its resource limit.
- `longest_file_time` splitting is not implemented by the writer shown and is not modelled.
- The user interface, device enumeration, capture callbacks, the command line and `recs/ui/session.py` are outside this model.

## Findings

| source | as written | input that shows it | evidently intended | confidence | as-written member | corrected member |
|---|---|---|---|---|---|---|
| recs/block.py:15-17 | `amplitude` is `self.max - self.min` on numpy scalars of the block's integer type, so the difference wraps around | an int16 block holding 32767 and -32768: the amplitude is -1, below any noise floor, so a full-scale block counts as silent | the exact spread 65535 | medium; not executed | BlockBuffer.WrappedAmplitude | BlockBuffer.Amplitude |
