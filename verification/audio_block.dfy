/** The buffer operations the writers call on their block buffer:
    `Blocks.duration` and `Blocks.clip(target, from_start)`. Their module
    (recs/audio/block.py) is not part of this model; they are defined here
    over the `Block`/`Blocks` values of recs/block.py, consistently with the
    running `length` kept there. */
module AudioBlocks {
  import opened BlockBuffer
  import Seqs

  /** `Blocks.duration`: the number of samples (frames) buffered. For a
      buffer whose running length is right, that is the sum of the
      lengths of its blocks, so it is never negative and is 0 exactly
      when every block held is empty. */
  function Duration(b: Blocks): (d: int)
    ensures Valid(b) ==> d == TotalLength(b.blocks) && d >= 0
    ensures Valid(b) ==> (d == 0 <==> forall i :: 0 <= i < |b.blocks| ==> Len(b.blocks[i]) == 0)
  {
    TotalLengthZero(b.blocks);
    b.length
  }

  /** A run of blocks has total length 0 exactly when each block does. */
  lemma {:induction false} TotalLengthZero(bs: seq<Block>)
    ensures TotalLength(bs) == 0 <==> forall i :: 0 <= i < |bs| ==> Len(bs[i]) == 0
  {
    if bs != [] {
      var init := bs[..|bs| - 1];
      TotalLengthZero(init);
      assert forall i :: 0 <= i < |init| ==> init[i] == bs[i];
    }
  }

  /** `Blocks.clip(target, from_start)`: pop whole blocks from the chosen end
      while the running length exceeds the target. The blocks popped are
      returned in the order they were popped: oldest first when clipping
      from the start, newest first when clipping from the end. */
  function Clip(b: Blocks, target: int, fromStart: bool): (r: Split)
    ensures fromStart ==> r.removed + r.rest.blocks == b.blocks
    ensures !fromStart ==> r.rest.blocks + Seqs.Reverse(r.removed) == b.blocks
    ensures r.rest.length == b.length - TotalLength(r.removed)
    ensures Valid(b) ==> Valid(r.rest)
    ensures Valid(b) && target >= 0 ==> r.rest.length <= target
    ensures r.removed != [] ==> r.rest.length + Len(r.removed[|r.removed| - 1]) > target
    ensures b.length <= target ==> r == Split([], b)
  {
    if fromStart then
      var r := PopFront(b, target);
      assert Valid(b) ==> Valid(r.rest) by {
        TotalLengthAppend(r.removed, r.rest.blocks);
      }
      r
    else
      var c := ClipBack(b, target);
      var r := Split(Seqs.Reverse(c.removed), c.rest);
      Seqs.ReverseReverse(c.removed);
      ReverseTotalLength(c.removed);
      assert Valid(b) ==> Valid(r.rest) by {
        TotalLengthAppend(c.rest.blocks, c.removed);
      }
      r
  }

  /** Reversal keeps the total length. */
  lemma {:induction false} ReverseTotalLength(bs: seq<Block>)
    ensures TotalLength(Seqs.Reverse(bs)) == TotalLength(bs)
  {
    if bs != [] {
      var tail := Seqs.Reverse(bs[1..]);
      assert Seqs.Reverse(bs) == tail + [bs[0]];
      assert (tail + [bs[0]])[..|tail|] == tail;
      assert TotalLength(Seqs.Reverse(bs)) == TotalLength(tail) + Len(bs[0]);
      ReverseTotalLength(bs[1..]);
      TotalLengthFront(bs);
    }
  }

  /** Pop from the end while the length exceeds the target; stop early
      when nothing is left to pop. The blocks popped are returned here in
      time order (the reverse of the order they were popped in). */
  function ClipBack(b: Blocks, target: int): (r: Split)
    ensures r.rest.blocks + r.removed == b.blocks
    ensures r.rest.length == b.length - TotalLength(r.removed)
    ensures r.rest.length <= target || r.rest.blocks == []
    ensures r.removed != [] ==> r.rest.length + Len(r.removed[0]) > target
    ensures b.length <= target ==> r == Split([], b)
    decreases |b.blocks|
  {
    if b.length <= target || b.blocks == [] then Split([], b)
    else
      var n := |b.blocks|;
      var back := b.blocks[n - 1];
      var r := ClipBack(Blocks(b.blocks[..n - 1], b.length - Len(back)), target);
      var removed := r.removed + [back];
      assert removed[..|r.removed|] == r.removed;
      assert r.rest.blocks + removed == b.blocks by {
        assert r.rest.blocks + removed == (r.rest.blocks + r.removed) + [back];
        assert b.blocks == b.blocks[..n - 1] + [back];
      }
      Split(removed, r.rest)
  }

  /** With a valid buffer and a non-negative target, what is popped and what
      is left always account for every sample buffered before. */
  lemma {:induction false} ClipAccountsForSamples(b: Blocks, target: int, fromStart: bool)
    requires Valid(b)
    ensures TotalLength(Clip(b, target, fromStart).removed) + Duration(Clip(b, target, fromStart).rest) == Duration(b)
    ensures |Clip(b, target, fromStart).removed| + |Clip(b, target, fromStart).rest.blocks| == |b.blocks|
  {
    var r := Clip(b, target, fromStart);
    if fromStart {
      assert |r.removed + r.rest.blocks| == |b.blocks|;
    } else {
      assert |r.rest.blocks + Seqs.Reverse(r.removed)| == |b.blocks|;
    }
  }

  /** `kept` is the longest non-empty tail of `all` whose length is within
      `bound`: adding the block before it would exceed the bound. */
  predicate LongestTailWithin(all: seq<Block>, kept: seq<Block>, bound: int) {
    && 0 < |kept| <= |all|
    && kept == all[|all| - |kept|..]
    && TotalLength(kept) <= bound
    && (|kept| < |all| ==> TotalLength(kept) + Len(all[|all| - |kept| - 1]) > bound)
  }

  /** `kept` is the longest head of `all` whose length is within `bound`. */
  predicate LongestHeadWithin(all: seq<Block>, kept: seq<Block>, bound: int) {
    && |kept| <= |all|
    && kept == all[..|kept|]
    && TotalLength(kept) <= bound
    && (|kept| < |all| ==> TotalLength(kept) + Len(all[|kept|]) > bound)
  }

  /** What is left of a non-empty buffer cut from its start to `preRoll`
      samples plus the length of its latest block: a tail of it. */
  function OnsetTail(buf: Blocks, preRoll: int): (kept: seq<Block>)
    requires buf.blocks != []
    ensures |kept| <= |buf.blocks|
    ensures kept == buf.blocks[|buf.blocks| - |kept|..]
  {
    var last := buf.blocks[|buf.blocks| - 1];
    var c := Clip(buf, preRoll + Len(last), true);
    assert c.removed + c.rest.blocks == buf.blocks;
    c.rest.blocks
  }

  /** At an onset what is kept is the longest tail of the buffer within
      the pre-roll plus the latest block, and it always ends with that
      block. */
  lemma OnsetClip(buf: Blocks, preRoll: int)
    requires Valid(buf) && buf.blocks != [] && preRoll >= 0
    ensures var last := buf.blocks[|buf.blocks| - 1];
      && LongestTailWithin(buf.blocks, OnsetTail(buf, preRoll), preRoll + Len(last))
      && OnsetTail(buf, preRoll)[|OnsetTail(buf, preRoll)| - 1] == last
  {
    var all := buf.blocks;
    var last := all[|all| - 1];
    var target := preRoll + Len(last);
    var c := Clip(buf, target, true);
    var kept := c.rest.blocks;
    assert kept == OnsetTail(buf, preRoll);
    var k := |c.removed|;
    assert c.removed + kept == all;
    assert |all| - |kept| == k;
    assert kept == all[k..];
    assert TotalLength(kept) <= target;
  }

  /** After prolonged silence the buffer is cut from its end to the
      post-roll: what is kept is the longest head within that bound, and
      the blocks cut off, put back in time order, are the rest. */
  lemma OffsetClip(buf: Blocks, postRoll: int)
    requires Valid(buf) && postRoll >= 0
    ensures var c := Clip(buf, postRoll, false); var kept := c.rest.blocks;
      && LongestHeadWithin(buf.blocks, kept, postRoll)
      && Seqs.Reverse(c.removed) == buf.blocks[|kept|..]
  {
    var c := Clip(buf, postRoll, false);
    var kept := c.rest.blocks;
    assert kept + Seqs.Reverse(c.removed) == buf.blocks;
    assert buf.blocks[..|kept|] == kept;
    if |kept| < |buf.blocks| {
      assert Seqs.Reverse(c.removed)[0] == c.removed[|c.removed| - 1];
      assert buf.blocks[|kept|] == c.removed[|c.removed| - 1];
    }
  }
}
