/** `Block` and `Blocks` of recs/block.py: one captured array of samples,
    and the ordered buffer of blocks with its running sample count. */
module BlockBuffer {
  import opened Wrappers
  import Seqs

  /** One captured array. Each frame is a row of the array, holding one
      sample per channel; `len(block)` is the number of rows. */
  datatype Block = Block(frames: seq<seq<int>>)

  /** `Block.__len__`: the number of rows. */
  function Len(b: Block): nat {
    |b.frames|
  }

  /** An array without rows has no samples, and one whose rows are all
      non-empty has samples exactly when it has rows. */
  lemma LenSamples(b: Block)
    ensures Len(b) == 0 ==> !HasSamples(b)
    ensures (forall i :: 0 <= i < |b.frames| ==> b.frames[i] != []) ==> (HasSamples(b) <==> Len(b) > 0)
  {
    if Len(b) > 0 {
      var n := |b.frames|;
      Seqs.FlattenSnoc(b.frames[..n - 1], b.frames[n - 1]);
      assert b.frames[..n - 1] + [b.frames[n - 1]] == b.frames;
    }
  }

  /** Every sample of the array, row by row. */
  function Samples(b: Block): seq<int> {
    Seqs.Flatten(b.frames)
  }

  predicate HasSamples(b: Block) {
    |Samples(b)| > 0
  }

  function MaxOf(s: seq<int>): (m: int)
    requires |s| > 0
    ensures m in s
    ensures forall x :: x in s ==> x <= m
  {
    if |s| == 1 then s[0]
    else
      var rest := MaxOf(s[1..]);
      assert forall x :: x in s ==> x == s[0] || x in s[1..];
      if s[0] >= rest then s[0] else rest
  }

  function MinOf(s: seq<int>): (m: int)
    requires |s| > 0
    ensures m in s
    ensures forall x :: x in s ==> m <= x
  {
    if |s| == 1 then s[0]
    else
      var rest := MinOf(s[1..]);
      assert forall x :: x in s ==> x == s[0] || x in s[1..];
      if s[0] <= rest then s[0] else rest
  }

  /** `Block.max`: numpy's `max` of an array without samples raises, which
      is `None` here. */
  function Max(b: Block): (r: Option<int>)
    ensures r.Some? <==> HasSamples(b)
    ensures r.Some? ==> r.value in Samples(b) && forall x :: x in Samples(b) ==> x <= r.value
  {
    if HasSamples(b) then Some(MaxOf(Samples(b))) else None
  }

  /** `Block.min` */
  function Min(b: Block): (r: Option<int>)
    ensures r.Some? <==> HasSamples(b)
    ensures r.Some? ==> r.value in Samples(b) && forall x :: x in Samples(b) ==> r.value <= x
  {
    if HasSamples(b) then Some(MinOf(Samples(b))) else None
  }

  /** `Block.amplitude`: the spread between the loudest and the quietest
      sample, which is the largest difference between any two samples. */
  function Amplitude(b: Block): (r: Option<int>)
    ensures r.Some? <==> HasSamples(b)
    ensures r.Some? ==> r.value >= 0
    ensures r.Some? ==> forall x, y :: x in Samples(b) && y in Samples(b) ==> x - y <= r.value
    ensures r.Some? ==> exists x, y :: x in Samples(b) && y in Samples(b) && x - y == r.value
  {
    match (Max(b), Min(b))
    case (Some(hi), Some(lo)) => Some(hi - lo)
    case _ => None
  }

  /** The signed integer sample types a captured array can have. */
  datatype IntType = Int16 | Int32

  /** The largest value of the type; the smallest is one below its
      negation. */
  function MaxValue(t: IntType): int {
    if t.Int16? then 0x7FFF else 0x7FFF_FFFF
  }

  /** Every sample of the block fits the type. */
  predicate InRange(b: Block, t: IntType) {
    forall x :: x in Samples(b) ==> -MaxValue(t) - 1 <= x <= MaxValue(t)
  }

  /** numpy's arithmetic on two scalars of type `t`: the exact result
      wrapped into the type's range, modulo 2 to the width. */
  function Wrap(x: int, t: IntType): (r: int)
    ensures -MaxValue(t) - 1 <= r <= MaxValue(t)
    ensures -MaxValue(t) - 1 <= x <= MaxValue(t) ==> r == x
    ensures MaxValue(t) < x <= 2 * MaxValue(t) + 1 ==> r == x - 2 * (MaxValue(t) + 1) && r < 0
  {
    var h := MaxValue(t) + 1;
    (x + h) % (2 * h) - h
  }

  /** `Block.amplitude` as numpy evaluates it on an integer array of type
      `t`: `max - min` is a subtraction of two scalars of that type, so
      the spread wraps once it exceeds the type's largest value. For
      samples that fit the type, the result is the exact spread exactly
      when that spread fits, and negative otherwise. */
  function WrappedAmplitude(b: Block, t: IntType): (r: Option<int>)
    ensures r.Some? <==> HasSamples(b)
    ensures r.Some? ==> -MaxValue(t) - 1 <= r.value <= MaxValue(t)
    ensures r.Some? && InRange(b, t) ==> (r.value == Amplitude(b).value <==> Amplitude(b).value <= MaxValue(t))
    ensures r.Some? && InRange(b, t) ==> (r.value < 0 <==> Amplitude(b).value > MaxValue(t))
  {
    match (Max(b), Min(b))
    case (Some(hi), Some(lo)) => Some(Wrap(hi - lo, t))
    case _ => None
  }

  /** A 16-bit block spanning the full range: its spread is 65535, but
      numpy's `max - min` gives -1, below any non-negative noise floor. */
  lemma AmplitudeWrapsAtFullScale()
    ensures var b := Block([[32767], [-32768]]);
      && Amplitude(b) == Some(65535)
      && WrappedAmplitude(b, Int16) == Some(-1)
  {
    var b := Block([[32767], [-32768]]);
    assert Samples(b) == [32767, -32768] by {
      assert b.frames[..1] == [[32767]];
      assert Seqs.Flatten([[32767]]) == [32767] by {
        assert [[32767]][..0] == [];
      }
    }
    assert MaxOf([32767, -32768]) == 32767 by {
      assert [32767, -32768][1..] == [-32768];
    }
    assert MinOf([32767, -32768]) == -32768 by {
      assert [32767, -32768][1..] == [-32768];
    }
  }

  /** A buffer of blocks and the running total of their lengths. */
  datatype Blocks = Blocks(blocks: seq<Block>, length: int)

  /** The sum of `len(b)` over `bs`. */
  function TotalLength(bs: seq<Block>): nat {
    if bs == [] then 0 else TotalLength(bs[..|bs| - 1]) + Len(bs[|bs| - 1])
  }

  lemma {:induction false} TotalLengthAppend(a: seq<Block>, b: seq<Block>)
    ensures TotalLength(a + b) == TotalLength(a) + TotalLength(b)
    decreases |b|
  {
    if b == [] {
      assert a + b == a;
    } else {
      var c := a + b;
      assert c[..|c| - 1] == a + b[..|b| - 1];
      TotalLengthAppend(a, b[..|b| - 1]);
    }
  }

  lemma TotalLengthFront(bs: seq<Block>)
    requires bs != []
    ensures TotalLength(bs) == Len(bs[0]) + TotalLength(bs[1..])
  {
    assert bs == [bs[0]] + bs[1..];
    TotalLengthAppend([bs[0]], bs[1..]);
  }

  /** The bookkeeping invariant of `Blocks`: `length` is the sum of the
      lengths of the blocks held. */
  predicate Valid(b: Blocks) {
    b.length == TotalLength(b.blocks)
  }

  /** `Blocks()`, the default-constructed buffer. */
  function Empty(): (r: Blocks)
    ensures Valid(r) && |r.blocks| == 0
  {
    Blocks([], 0)
  }

  /** `Blocks.append` */
  function Append(b: Blocks, x: Block): (r: Blocks)
    ensures r.blocks == b.blocks + [x]
    ensures r.length == b.length + Len(x)
    ensures Valid(b) ==> Valid(r)
  {
    assert (b.blocks + [x])[..|b.blocks|] == b.blocks;
    Blocks(b.blocks + [x], b.length + Len(x))
  }

  /** `Blocks.clear` */
  function Clear(b: Blocks): (r: Blocks)
    ensures Valid(r) && r.blocks == [] && r.length == 0
  {
    Blocks([], 0)
  }

  /** Blocks popped from a buffer, and the buffer left. */
  datatype Split = Split(removed: seq<Block>, rest: Blocks)

  /** Pop blocks from the front while the running length exceeds the
      target and a block is left to pop. */
  function PopFront(b: Blocks, target: int): (r: Split)
    ensures r.removed + r.rest.blocks == b.blocks
    ensures r.rest.length == b.length - TotalLength(r.removed)
    ensures r.rest.length <= target || r.rest.blocks == []
    ensures r.removed != [] ==> r.rest.length + Len(r.removed[|r.removed| - 1]) > target
    ensures b.length <= target ==> r == Split([], b)
    decreases |b.blocks|
  {
    if b.length <= target || b.blocks == [] then Split([], b)
    else
      var front := b.blocks[0];
      var r := PopFront(Blocks(b.blocks[1..], b.length - Len(front)), target);
      var removed := [front] + r.removed;
      assert TotalLength(removed) == Len(front) + TotalLength(r.removed) by {
        TotalLengthFront(removed);
        assert removed[1..] == r.removed;
      }
      assert removed + r.rest.blocks == b.blocks by {
        assert removed + r.rest.blocks == [front] + (r.removed + r.rest.blocks);
      }
      assert removed[|removed| - 1] == if r.removed == [] then front else r.removed[|r.removed| - 1];
      Split(removed, r.rest)
  }

  /** The result of `clip_to_length`: the blocks popped and the buffer
      left. `PopFromEmpty` is the `IndexError` raised by `pop(0)` on an
      empty list while `length` still exceeds the target; the blocks
      popped before it stay popped. */
  datatype ClipOutcome =
    | Clipped(removed: seq<Block>, rest: Blocks)
    | PopFromEmpty(removed: seq<Block>, rest: Blocks)

  /** `Blocks.clip_to_length`: pop blocks from the front while the running
      length exceeds the target. */
  function ClipToLength(b: Blocks, target: int): (r: ClipOutcome)
    ensures r.removed + r.rest.blocks == b.blocks
    ensures r.rest.length == b.length - TotalLength(r.removed)
    ensures r.Clipped? ==> r.rest.length <= target
    ensures r.PopFromEmpty? ==> r.rest.blocks == [] && r.rest.length > target
    ensures r.removed != [] ==> r.rest.length + Len(r.removed[|r.removed| - 1]) > target
    ensures b.length <= target ==> r == Clipped([], b)
    ensures Valid(b) ==> Valid(r.rest)
  {
    var p := PopFront(b, target);
    TotalLengthAppend(p.removed, p.rest.blocks);
    if p.rest.length <= target then Clipped(p.removed, p.rest) else PopFromEmpty(p.removed, p.rest)
  }

  /** With a valid buffer, a non-negative target is always reached, and a
      negative one always ends in `IndexError` after emptying the buffer. */
  lemma ClipToLengthOutcome(b: Blocks, target: int)
    requires Valid(b)
    ensures ClipToLength(b, target).Clipped? <==> target >= 0
  {
    var r := ClipToLength(b, target);
    if r.PopFromEmpty? {
      assert TotalLength(r.rest.blocks) == 0;
    }
  }

  /** A second clip to the same target removes nothing. */
  lemma ClipToLengthIdempotent(b: Blocks, target: int)
    requires Valid(b) && target >= 0
    ensures ClipToLength(ClipToLength(b, target).rest, target) == Clipped([], ClipToLength(b, target).rest)
  {
    ClipToLengthOutcome(b, target);
  }

  /** `Blocks.write(sf)`: every block goes to the sink, in order, and the
      buffer is left empty. The sink is the trace of blocks written to it. */
  function Write(b: Blocks, sink: seq<Block>): (r: (seq<Block>, Blocks))
    ensures |r.0| == |sink| + |b.blocks|
    ensures r.0[..|sink|] == sink && r.0[|sink|..] == b.blocks
    ensures r.1.blocks == [] && r.1.length == 0
  {
    (sink + b.blocks, Clear(b))
  }

  /** `Blocks.__getitem__` with an integer index: negative indices count from
      the end, and an index out of range is `None` (Python's `IndexError`). */
  function GetItem(b: Blocks, i: int): (r: Option<Block>)
    ensures r.Some? <==> -|b.blocks| <= i < |b.blocks|
    ensures 0 <= i < |b.blocks| ==> r == Some(b.blocks[i])
    ensures -|b.blocks| <= i < 0 ==> r == Some(b.blocks[|b.blocks| + i])
  {
    if 0 <= i < |b.blocks| then Some(b.blocks[i])
    else if -|b.blocks| <= i < 0 then Some(b.blocks[|b.blocks| + i])
    else None
  }

  /** `Blocks.__len__`: the number of blocks held (not samples). A buffer
      holds none exactly when `blocks[-1]` raises, and then, when its
      running length is right, that length is 0. */
  function Count(b: Blocks): (n: nat)
    ensures n == 0 <==> GetItem(b, -1).None?
    ensures Valid(b) && n == 0 ==> b.length == 0
  {
    |b.blocks|
  }

  /** After `append(x)`, `blocks[-1]` is `x` and the blocks before it
      keep their indices, which is what the writers rely on when they
      read the latest block. */
  lemma GetItemAppend(b: Blocks, x: Block, i: int)
    ensures GetItem(Append(b, x), -1) == Some(x)
    ensures 0 <= i < Count(b) ==> GetItem(Append(b, x), i) == GetItem(b, i)
    ensures -(Count(b) as int) <= i < 0 ==> GetItem(Append(b, x), i - 1) == GetItem(b, i)
  {
  }

  /** `len(blocks)` counts appends, and `clear`, `write` and a clip leave
      what their results say: one block more, none, or the ones not
      removed. */
  lemma CountTracksBlocks(b: Blocks, x: Block, target: int, sink: seq<Block>)
    ensures Count(Append(b, x)) == Count(b) + 1
    ensures Count(Clear(b)) == 0 && Count(Write(b, sink).1) == 0
    ensures Count(ClipToLength(b, target).rest) == Count(b) - |ClipToLength(b, target).removed|
  {
    var r := ClipToLength(b, target);
    assert |r.removed + r.rest.blocks| == |b.blocks|;
  }
}
