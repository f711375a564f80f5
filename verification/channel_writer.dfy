/** `ChannelWriter` of recs/audio/channel_writer.py: the per-channel state
    machine that buffers incoming blocks, opens a file at the onset of
    sound, trims leading and trailing silence, and closes the file after
    prolonged silence.

    The writer is a value stepped by pure functions. The lock is left out
    (every call is taken to run alone) and `threa.Runnable` becomes the
    `running` flag. The sound files are an append-only trace: `done` holds
    every file already closed and `sf` the blocks written so far to the
    file that is open, if any. */
module ChannelWriting {
  import opened Wrappers
  import opened BlockBuffer
  import opened AudioBlocks
  import Seqs

  /** The silence policy, in samples (`times.Times[int]`). */
  datatype Times = Times(
    noiseFloorAmplitude: int,
    silenceBeforeStart: int,
    silenceAfterEnd: int,
    stopAfterSilence: int)

  predicate ValidTimes(t: Times) {
    t.silenceBeforeStart >= 0 && t.silenceAfterEnd >= 0 && t.stopAfterSilence >= 0
  }

  datatype Writer = Writer(
    times: Times,
    blocksWritten: int,
    filesWritten: int,
    samplesSeen: int,
    buffer: Blocks,
    sf: Option<seq<Block>>,
    done: seq<seq<Block>>,
    running: bool)

  /** The blocks written so far to the open file, or none. */
  function Current(w: Writer): seq<Block> {
    if w.sf.Some? then w.sf.value else []
  }

  /** Every file opened so far, in order, the open one last. */
  function Files(w: Writer): seq<seq<Block>> {
    w.done + (if w.sf.Some? then [w.sf.value] else [])
  }

  /** A freshly constructed writer: counters at zero, empty buffer, no
      file, and `start()` already called by `__post_init__`. */
  function Start(times: Times): (w: Writer)
    ensures Inv(w) && w.running && Files(w) == []
  {
    Writer(times, 0, 0, 0, Empty(), None, [], true)
  }

  /** The counters count the files and blocks in the trace, and no file
      is empty. */
  predicate TraceInv(w: Writer) {
    && w.filesWritten == |w.done| + (if w.sf.Some? then 1 else 0)
    && w.blocksWritten == |Seqs.Flatten(w.done)| + |Current(w)|
    && (forall i :: 0 <= i < |w.done| ==> w.done[i] != [])
    && (w.sf.Some? ==> w.sf.value != [])
  }

  /** The bookkeeping every reachable writer keeps: the buffer's running
      length is right, the trace and counters agree, and a stopped writer
      holds nothing. */
  predicate Inv(w: Writer) {
    && Valid(w.buffer)
    && TraceInv(w)
    && (!w.running ==> w.sf.None? && w.buffer.blocks == [])
  }

  /** `ChannelWriter._record`: hand each block to the open file, first
      opening one (and counting it) when none is open. An empty iterable
      opens nothing. */
  function Record(w: Writer, bs: seq<Block>): (r: Writer)
    ensures bs == [] ==> r == w
    ensures bs != [] ==> r.sf == Some(Current(w) + bs)
    ensures Current(r) == Current(w) + bs
    ensures r.blocksWritten == w.blocksWritten + |bs|
    ensures r.filesWritten == w.filesWritten + (if w.sf.None? && bs != [] then 1 else 0)
    ensures r.done == w.done
    ensures r.times == w.times && r.samplesSeen == w.samplesSeen
    ensures r.buffer == w.buffer && r.running == w.running
    ensures TraceInv(w) ==> TraceInv(r)
    decreases |bs|
  {
    if bs == [] then
      assert Current(w) + bs == Current(w);
      w
    else
      var newFile := if w.sf.None? then 1 else 0;
      var w1 := w.(sf := Some(Current(w) + [bs[0]]),
                   filesWritten := w.filesWritten + newFile,
                   blocksWritten := w.blocksWritten + 1);
      var r := Record(w1, bs[1..]);
      assert [bs[0]] + bs[1..] == bs;
      assert Current(r) == Current(w) + bs by {
        assert Current(w1) == Current(w) + [bs[0]];
        assert Current(w1) + bs[1..] == Current(w) + ([bs[0]] + bs[1..]);
      }
      r
  }

  /** `self._sf.close(); self._sf = None`: the open file, if any, joins the
      closed ones. */
  function Close(w: Writer): (r: Writer)
    ensures r.sf.None? && r.done == Files(w)
    ensures Seqs.Flatten(r.done) == Seqs.Flatten(w.done) + Current(w)
    ensures r.filesWritten == w.filesWritten && r.blocksWritten == w.blocksWritten
    ensures r.times == w.times && r.samplesSeen == w.samplesSeen
    ensures r.buffer == w.buffer && r.running == w.running
    ensures TraceInv(w) ==> TraceInv(r)
  {
    if w.sf.Some? then
      Seqs.FlattenSnoc(w.done, w.sf.value);
      w.(done := w.done + [w.sf.value], sf := None)
    else
      assert Files(w) == w.done;
      assert Seqs.Flatten(w.done) + Current(w) == Seqs.Flatten(w.done);
      w
  }

  /** The blocks `_record_on_not_silence` writes: with a file open, the
      whole buffer; with none open, what is left after clipping the buffer
      from its start to the pre-roll plus the length of its latest block.
      Either way a tail of the buffer. */
  function OnsetBlocks(w: Writer): (kept: seq<Block>)
    requires w.buffer.blocks != []
    ensures |kept| <= |w.buffer.blocks|
    ensures kept == w.buffer.blocks[|w.buffer.blocks| - |kept|..]
  {
    if w.sf.Some? then w.buffer.blocks else OnsetTail(w.buffer, w.times.silenceBeforeStart)
  }

  /** `ChannelWriter._record_on_not_silence`: write `OnsetBlocks` and clear
      the buffer. */
  function RecordOnNotSilence(w: Writer): (r: Writer)
    requires w.buffer.blocks != []
    ensures Current(r) == Current(w) + OnsetBlocks(w)
    ensures r.sf.Some? <==> w.sf.Some? || OnsetBlocks(w) != []
    ensures r.blocksWritten == w.blocksWritten + |OnsetBlocks(w)|
    ensures r.filesWritten == w.filesWritten + (if w.sf.None? && OnsetBlocks(w) != [] then 1 else 0)
    ensures r.done == w.done && r.buffer == Empty()
    ensures r.times == w.times && r.samplesSeen == w.samplesSeen && r.running == w.running
    ensures TraceInv(w) ==> TraceInv(r)
  {
    var w2 := Record(w, OnsetBlocks(w));
    w2.(buffer := Clear(w2.buffer))
  }

  /** `ChannelWriter._close_on_silence`: clip the buffer to the post-roll
      from the end; with a file open, write what was clipped off (oldest
      first) and close the file; with none open, drop it. */
  function CloseOnSilence(w: Writer): (r: Writer)
    ensures var c := Clip(w.buffer, w.times.silenceAfterEnd, false);
      && r.buffer == c.rest && r.sf.None?
      && r.done == (if w.sf.Some? then w.done + [w.sf.value + Seqs.Reverse(c.removed)] else w.done)
      && r.blocksWritten == w.blocksWritten + (if w.sf.Some? then |c.removed| else 0)
    ensures r.filesWritten == w.filesWritten
    ensures r.times == w.times && r.samplesSeen == w.samplesSeen && r.running == w.running
    ensures TraceInv(w) ==> TraceInv(r)
  {
    var c := Clip(w.buffer, w.times.silenceAfterEnd, false);
    var w1 := w.(buffer := c.rest);
    if w1.sf.Some? then
      var cut := Seqs.Reverse(c.removed);
      var w2 := if c.removed != [] then Record(w1, cut) else w1;
      assert w2 == Record(w1, cut);
      assert Current(w2) == w.sf.value + cut;
      assert w2.sf.Some? && TraceInv(w) ==> TraceInv(w2);
      Close(w2)
    else w1
  }

  /** `ChannelWriter.write(block)`; `volume` is the block's `volume`. */
  function Write(w: Writer, b: Block, volume: int): (r: Writer)
    ensures !w.running ==> r == w
    ensures w.running ==> r.running && r.samplesSeen == w.samplesSeen + Len(b)
    ensures r.times == w.times
  {
    if !w.running then w
    else
      var w1 := Buffered(w, b);
      if volume >= w.times.noiseFloorAmplitude then RecordOnNotSilence(w1)
      else if Duration(w1.buffer) > w.times.stopAfterSilence then CloseOnSilence(w1)
      else w1
  }

  /** The first two steps of `write`: count the samples and buffer the
      block. */
  function Buffered(w: Writer, b: Block): (r: Writer)
    ensures r.buffer.blocks == w.buffer.blocks + [b]
    ensures r.buffer.length == w.buffer.length + Len(b)
    ensures Valid(w.buffer) ==> Valid(r.buffer)
    ensures r.samplesSeen == w.samplesSeen + Len(b)
    ensures r.sf == w.sf && r.done == w.done && r.times == w.times && r.running == w.running
    ensures r.filesWritten == w.filesWritten && r.blocksWritten == w.blocksWritten
  {
    w.(samplesSeen := w.samplesSeen + Len(b), buffer := Append(w.buffer, b))
  }

  /** `ChannelWriter.stop`: clear `running`, write whatever is buffered
      (opening a file if none is open), and close the file. */
  function Stop(w: Writer): (r: Writer)
    ensures !r.running && r.sf.None? && r.buffer.blocks == []
    ensures r.times == w.times && r.samplesSeen == w.samplesSeen
  {
    var w1 := w.(running := false);
    var w2 := if |w1.buffer.blocks| > 0 then
        var w3 := Record(w1, w1.buffer.blocks);
        w3.(buffer := Clear(w3.buffer))
      else w1;
    Close(w2)
  }

  /** One delivery from the capture thread: a block and its volume. */
  datatype Input = Input(block: Block, volume: int)

  function InputBlocks(xs: seq<Input>): (bs: seq<Block>)
    ensures |bs| == |xs|
    ensures forall i :: 0 <= i < |xs| ==> bs[i] == xs[i].block
  {
    if xs == [] then [] else InputBlocks(xs[..|xs| - 1]) + [xs[|xs| - 1].block]
  }

  /** `write` called on each delivery in turn. */
  function Run(w: Writer, xs: seq<Input>): Writer {
    if xs == [] then w
    else
      var last := xs[|xs| - 1];
      Write(Run(w, xs[..|xs| - 1]), last.block, last.volume)
  }

  /** The counters agree with the whole trace, open file included. */
  lemma TraceCounts(w: Writer)
    requires TraceInv(w)
    ensures w.filesWritten == |Files(w)|
    ensures w.blocksWritten == |Seqs.Flatten(Files(w))|
  {
    if w.sf.Some? {
      Seqs.FlattenSnoc(w.done, w.sf.value);
    } else {
      assert Files(w) == w.done;
    }
  }

  /** A loud block, at or above the noise floor, while a file is open:
      the whole buffer and the block are written to it. */
  lemma WriteContinues(w: Writer, b: Block, volume: int)
    requires Inv(w) && w.running && w.sf.Some?
    requires volume >= w.times.noiseFloorAmplitude
    ensures var r := Write(w, b, volume);
      && Inv(r)
      && r.buffer.blocks == []
      && r.sf == Some(w.sf.value + w.buffer.blocks + [b])
      && r.done == w.done
      && r.filesWritten == w.filesWritten
  {
    var w1 := Buffered(w, b);
    assert Write(w, b, volume) == RecordOnNotSilence(w1);
    assert w.sf.value + (w.buffer.blocks + [b]) == w.sf.value + w.buffer.blocks + [b];
  }

  /** A loud block while no file is open (an onset): the buffer, with the
      block appended, is cut from its start to the pre-roll plus the block,
      and what is left goes into a newly opened file. The loud block is
      always kept, and the pre-roll kept is the longest that fits. */
  lemma WriteOnset(w: Writer, b: Block, volume: int)
    requires Inv(w) && w.running && w.sf.None? && ValidTimes(w.times)
    requires volume >= w.times.noiseFloorAmplitude
    ensures var r := Write(w, b, volume);
      && Inv(r)
      && r.buffer.blocks == []
      && r.done == w.done
      && r.filesWritten == w.filesWritten + 1
      && r.sf.Some?
      && LongestTailWithin(w.buffer.blocks + [b], r.sf.value, w.times.silenceBeforeStart + Len(b))
      && r.sf.value[|r.sf.value| - 1] == b
  {
    var w1 := Buffered(w, b);
    WriteLoud(w, b, volume);
    assert w1.buffer.blocks[|w1.buffer.blocks| - 1] == b;
    OnsetRecords(w1);
    var r := RecordOnNotSilence(w1);
    assert Valid(r.buffer) && TraceInv(r) && r.running;
    var all := w1.buffer.blocks;
    assert all == w.buffer.blocks + [b];
    assert LongestTailWithin(all, r.sf.value, w.times.silenceBeforeStart + Len(all[|all| - 1]));
  }

  /** The step `write` takes for a quiet block that ends the silence. */
  lemma WriteSilent(w: Writer, b: Block, volume: int)
    requires w.running && volume < w.times.noiseFloorAmplitude
    requires Duration(Buffered(w, b).buffer) > w.times.stopAfterSilence
    ensures Write(w, b, volume) == CloseOnSilence(Buffered(w, b))
  {
  }

  /** The step `write` takes for a loud block. */
  lemma WriteLoud(w: Writer, b: Block, volume: int)
    requires w.running && volume >= w.times.noiseFloorAmplitude
    ensures Buffered(w, b).buffer.blocks != []
    ensures Write(w, b, volume) == RecordOnNotSilence(Buffered(w, b))
  {
  }

  /** `_record_on_not_silence` with no file open opens one for the
      longest tail of the buffer within the pre-roll plus the latest
      block. */
  lemma OnsetRecords(w: Writer)
    requires TraceInv(w) && Valid(w.buffer) && w.buffer.blocks != [] && w.sf.None?
    requires w.times.silenceBeforeStart >= 0
    ensures var r := RecordOnNotSilence(w); var last := w.buffer.blocks[|w.buffer.blocks| - 1];
      && TraceInv(r)
      && r.buffer == Empty()
      && r.done == w.done
      && r.filesWritten == w.filesWritten + 1
      && r.sf.Some?
      && LongestTailWithin(w.buffer.blocks, r.sf.value, w.times.silenceBeforeStart + Len(last))
      && r.sf.value[|r.sf.value| - 1] == last
  {
    var r := RecordOnNotSilence(w);
    var kept := OnsetBlocks(w);
    assert kept == OnsetTail(w.buffer, w.times.silenceBeforeStart);
    OnsetClip(w.buffer, w.times.silenceBeforeStart);
    assert Current(r) == [] + kept == kept;
  }

  /** A quiet block that pushes the buffered duration past
      `stop_after_silence` cuts the buffer back from its end to at most
      `silence_after_end` samples. With a file open, the blocks cut off are
      written to it, oldest first, and it is closed; with none open they
      are dropped and no file is opened. */
  lemma WriteSilenceEnds(w: Writer, b: Block, volume: int)
    requires Inv(w) && w.running && ValidTimes(w.times)
    requires volume < w.times.noiseFloorAmplitude
    requires Duration(w.buffer) + Len(b) > w.times.stopAfterSilence
    ensures var r := Write(w, b, volume); var all := w.buffer.blocks + [b];
      && Inv(r)
      && r.sf.None?
      && Duration(r.buffer) <= w.times.silenceAfterEnd
      && LongestHeadWithin(all, r.buffer.blocks, w.times.silenceAfterEnd)
      && (w.sf.Some? ==>
            && r.done == w.done + [w.sf.value + all[|r.buffer.blocks|..]]
            && r.filesWritten == w.filesWritten)
      && (w.sf.None? ==>
            && r.done == w.done
            && r.filesWritten == w.filesWritten
            && r.blocksWritten == w.blocksWritten)
  {
    var w1 := Buffered(w, b);
    assert Write(w, b, volume) == CloseOnSilence(w1);
    OffsetClip(w1.buffer, w.times.silenceAfterEnd);
  }

  /** A quiet block that leaves the buffered duration within
      `stop_after_silence` is only buffered. */
  lemma WriteQuiet(w: Writer, b: Block, volume: int)
    requires w.running
    requires volume < w.times.noiseFloorAmplitude
    requires Duration(w.buffer) + Len(b) <= w.times.stopAfterSilence
    ensures var r := Write(w, b, volume);
      && r.buffer.blocks == w.buffer.blocks + [b]
      && r.sf == w.sf && r.done == w.done
      && r.filesWritten == w.filesWritten && r.blocksWritten == w.blocksWritten
  {
  }

  /** Every reachable writer keeps `Inv`. */
  lemma WriteInv(w: Writer, b: Block, volume: int)
    requires Inv(w) && ValidTimes(w.times)
    ensures Inv(Write(w, b, volume))
  {
    if w.running {
      if volume >= w.times.noiseFloorAmplitude {
        if w.sf.Some? {
          WriteContinues(w, b, volume);
        } else {
          WriteOnset(w, b, volume);
        }
      } else if Duration(w.buffer) + Len(b) > w.times.stopAfterSilence {
        WriteSilenceEnds(w, b, volume);
      }
    }
  }

  /** `stop` writes what is buffered, to the open file or to a new one,
      closes it and clears `running`. */
  lemma StopFlushes(w: Writer)
    requires Inv(w)
    ensures var r := Stop(w);
      && Inv(r)
      && r.done == (if Current(w) + w.buffer.blocks == [] then w.done
                    else w.done + [Current(w) + w.buffer.blocks])
      && r.blocksWritten == w.blocksWritten + |w.buffer.blocks|
      && r.filesWritten == w.filesWritten + (if w.sf.None? && w.buffer.blocks != [] then 1 else 0)
  {
    var w1 := w.(running := false);
    var w2 := if |w1.buffer.blocks| > 0 then
        var w3 := Record(w1, w1.buffer.blocks);
        w3.(buffer := Clear(w3.buffer))
      else w1;
    assert Stop(w) == Close(w2);
    assert TraceInv(w2) by {
      assert TraceInv(w1);
    }
    assert Current(w2) == Current(w) + w.buffer.blocks;
    assert w2.sf.Some? <==> Current(w) + w.buffer.blocks != [];
    assert w2.done == w.done;
  }

  /** Once stopped, `write` is ignored. */
  lemma WriteAfterStop(w: Writer, b: Block, volume: int)
    ensures Write(Stop(w), b, volume) == Stop(w)
  {
  }

  /** A second `stop` changes nothing: no counter, no file, no buffer. */
  lemma StopIdempotent(w: Writer)
    ensures Stop(Stop(w)) == Stop(w)
  {
  }

  /** The blocks held by a writer: everything written plus the buffer. */
  function Held(w: Writer): multiset<Block> {
    multiset(Seqs.Flatten(w.done)) + multiset(Current(w)) + multiset(w.buffer.blocks)
  }

  /** One `write` holds no block that was not already held or given. */
  lemma WriteHeld(w: Writer, b: Block, volume: int)
    requires Inv(w) && ValidTimes(w.times)
    ensures Held(Write(w, b, volume)) <= Held(w) + multiset{b}
  {
    if w.running {
      var w1 := Buffered(w, b);
      assert Held(w1) == Held(w) + multiset{b} by {
        assert w1.buffer.blocks == w.buffer.blocks + [b];
      }
      if volume >= w.times.noiseFloorAmplitude {
        WriteLoud(w, b, volume);
        HeldOnset(w1);
      } else if Duration(w1.buffer) > w.times.stopAfterSilence {
        WriteSilent(w, b, volume);
        HeldOffset(w1);
      } else {
        assert Write(w, b, volume) == w1;
      }
    }
  }

  lemma HeldOnset(w: Writer)
    requires w.buffer.blocks != []
    ensures Held(RecordOnNotSilence(w)) <= Held(w)
  {
    var kept := OnsetBlocks(w);
    var n := |w.buffer.blocks|;
    assert w.buffer.blocks == w.buffer.blocks[..n - |kept|] + kept;
    assert multiset(kept) <= multiset(w.buffer.blocks);
  }

  lemma HeldOffset(w: Writer)
    ensures Held(CloseOnSilence(w)) <= Held(w)
  {
    var c := Clip(w.buffer, w.times.silenceAfterEnd, false);
    var cut := Seqs.Reverse(c.removed);
    Seqs.ReverseMultiset(c.removed);
    assert multiset(c.rest.blocks) + multiset(cut) == multiset(w.buffer.blocks);
    if w.sf.Some? {
      Seqs.FlattenSnoc(w.done, w.sf.value + cut);
    }
  }

  /** `stop` moves the buffer into the trace: nothing is lost or added. */
  lemma StopHeld(w: Writer)
    ensures Held(Stop(w)) == Held(w)
  {
    var w1 := w.(running := false);
    if |w1.buffer.blocks| > 0 {
      var w3 := Record(w1, w1.buffer.blocks);
      assert Stop(w) == Close(w3.(buffer := Clear(w3.buffer)));
    } else {
      assert Stop(w) == Close(w1);
    }
  }

  /** From construction, a run of deliveries keeps `Inv`, counts every
      sample delivered in `samples_seen`, and holds only blocks it was
      given, each at most as often as it was given. */
  lemma {:induction false} RunFromStart(times: Times, xs: seq<Input>)
    requires ValidTimes(times)
    ensures var w := Run(Start(times), xs);
      && Inv(w) && w.running && w.times == times
      && w.samplesSeen == TotalLength(InputBlocks(xs))
      && Held(w) <= multiset(InputBlocks(xs))
  {
    if xs != [] {
      var init := xs[..|xs| - 1];
      var last := xs[|xs| - 1];
      var v := Run(Start(times), init);
      var w := Write(v, last.block, last.volume);
      assert Run(Start(times), xs) == w;
      RunFromStart(times, init);
      assert InputBlocks(xs) == InputBlocks(init) + [last.block];
      assert Inv(w) && w.running by {
        WriteInv(v, last.block, last.volume);
      }
      assert Held(w) <= multiset(InputBlocks(xs)) by {
        WriteHeld(v, last.block, last.volume);
      }
      assert w.samplesSeen == TotalLength(InputBlocks(xs)) by {
        TotalLengthAppend(InputBlocks(init), [last.block]);
        assert TotalLength([last.block]) == Len(last.block);
      }
    } else {
      assert Held(Run(Start(times), xs)) == multiset{};
    }
  }

  /** Once stopped, a writer run from construction has written only blocks
      it was given, each at most as often as it was given. */
  lemma RunThenStop(times: Times, xs: seq<Input>)
    requires ValidTimes(times)
    ensures Inv(Stop(Run(Start(times), xs)))
    ensures multiset(Seqs.Flatten(Files(Stop(Run(Start(times), xs))))) <= multiset(InputBlocks(xs))
  {
    var w := Run(Start(times), xs);
    RunFromStart(times, xs);
    StopHeld(w);
    StopFlushes(w);
    var s := Stop(w);
    assert Files(s) == s.done;
  }
}
