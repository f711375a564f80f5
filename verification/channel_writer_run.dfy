/** A small run of `ChannelWriter`, step by step, in the manner of the
    `BASE` case of test/test_channel_writer.py: quiet blocks, one loud
    block, quiet blocks past the stop limit, then `stop`. Every block
    holds one frame, the noise floor is 1, the pre-roll and post-roll are
    one frame each and the writer stops after two frames of silence.

    Each lemma starts from the literal state the one before it ends in. */
module ChannelWriterRun {
  import opened Wrappers
  import opened BlockBuffer
  import opened AudioBlocks
  import opened ChannelWriting
  import Seqs

  const times := Times(1, 1, 1, 2)

  /** The `i`-th block of the run: one frame holding the sample `i`. */
  function B(i: int): (b: Block)
    ensures Len(b) == 1
  {
    Block([[i]])
  }

  /** The writer running with `seen` samples seen, the buffer `buf`, the
      open file `sf` and the closed files `done`. */
  function State(written: int, files: int, seen: int, buf: seq<Block>, sf: Option<seq<Block>>, done: seq<seq<Block>>): Writer {
    Writer(times, written, files, seen, Blocks(buf, |buf|), sf, done, true)
  }

  /** Two quiet blocks are only buffered. */
  lemma QuietStart()
    ensures ChannelWriting.Write(Start(times), B(1), 0) == State(0, 0, 1, [B(1)], None, [])
    ensures ChannelWriting.Write(State(0, 0, 1, [B(1)], None, []), B(2), 0) == State(0, 0, 2, [B(1), B(2)], None, [])
  {
  }

  /** Three one-frame blocks cut from the end to one frame: the two
      newest go, and come back in time order. */
  lemma ClipBackThreeToOne(x: Block, y: Block, z: Block)
    requires Len(x) == 1 && Len(y) == 1 && Len(z) == 1
    ensures ClipBack(Blocks([x, y, z], 3), 1) == Split([y, z], Blocks([x], 1))
  {
    assert [x, y][..1] == [x];
    assert ClipBack(Blocks([x], 1), 1) == Split([], Blocks([x], 1));
    assert ClipBack(Blocks([x, y], 2), 1) == Split([y], Blocks([x], 1));
    assert [x, y, z][..2] == [x, y];
  }

  /** The same cut through `Clip`: the two newest are returned in the
      order they were popped, newest first. */
  lemma ClipThreeToOne(x: Block, y: Block, z: Block)
    requires Len(x) == 1 && Len(y) == 1 && Len(z) == 1
    ensures Clip(Blocks([x, y, z], 3), 1, false) == Split([z, y], Blocks([x], 1))
  {
    ClipBackThreeToOne(x, y, z);
    assert Seqs.Reverse([y, z]) == [z, y];
  }

  /** The third quiet block takes the buffer past two frames: the buffer
      is cut from the end to the one-frame post-roll and, with no file
      open, the blocks cut off are dropped. */
  lemma QuietBeforeOnsetDropped()
    ensures ChannelWriting.Write(State(0, 0, 2, [B(1), B(2)], None, []), B(3), 0) == State(0, 0, 3, [B(1)], None, [])
  {
    assert [B(1), B(2)] + [B(3)] == [B(1), B(2), B(3)];
    ClipThreeToOne(B(1), B(2), B(3));
  }

  /** The loud block opens the file. The pre-roll of one frame plus the
      block's own frame keeps the whole two-block buffer. */
  lemma Onset()
    ensures ChannelWriting.Write(State(0, 0, 3, [B(1)], None, []), B(4), 1) == State(2, 1, 4, [], Some([B(1), B(4)]), [])
  {
    assert [B(1)] + [B(4)] == [B(1), B(4)];
    assert [B(1), B(4)][1..] == [B(4)] && [B(4)][1..] == [];
  }

  /** Quiet blocks within the stop limit are buffered while the file
      stays open. */
  lemma QuietAfterOnset()
    ensures ChannelWriting.Write(State(2, 1, 4, [], Some([B(1), B(4)]), []), B(5), 0) == State(2, 1, 5, [B(5)], Some([B(1), B(4)]), [])
    ensures ChannelWriting.Write(State(2, 1, 5, [B(5)], Some([B(1), B(4)]), []), B(6), 0) == State(2, 1, 6, [B(5), B(6)], Some([B(1), B(4)]), [])
  {
  }

  /** The offset: the buffer is cut to the post-roll from the end, the
      blocks cut off go to the file oldest first, and the file closes.
      The block kept is the oldest quiet one, which stays buffered. */
  lemma Offset()
    ensures ChannelWriting.Write(State(2, 1, 6, [B(5), B(6)], Some([B(1), B(4)]), []), B(7), 0)
         == State(4, 1, 7, [B(5)], None, [[B(1), B(4), B(6), B(7)]])
  {
    assert [B(5), B(6)] + [B(7)] == [B(5), B(6), B(7)];
    ClipThreeToOne(B(5), B(6), B(7));
    assert Seqs.Reverse([B(7), B(6)]) == [B(6), B(7)];
    assert [B(1), B(4)] + [B(6), B(7)] == [B(1), B(4), B(6), B(7)];
  }

  /** `stop` writes the post-roll left in the buffer to a new file. */
  lemma StopWritesLeftover()
    ensures Stop(State(4, 1, 7, [B(5)], None, [[B(1), B(4), B(6), B(7)]]))
         == Writer(times, 5, 2, 7, Blocks([], 0), None, [[B(1), B(4), B(6), B(7)], [B(5)]], false)
  {
    assert [] + [B(5)] == [B(5)];
  }
}
