/** `FileWriter` of recs/audio/file_writer.py: the earlier, single-file
    writer. Its decisions are those of the channel writer, but it looks at
    a block's amplitude, names its files itself without overwriting any
    existing path, and its `close` drops buffered silence when no file is
    open.

    The file system is the set `existing` of paths that exist. The clock
    is the `clock` passed to each `write`: `clock(k)` is what `ts()`
    returns when `_new_filename` builds its `k`-th candidate. Sound files
    are the trace `done` of files closed plus the file `sf` open, each
    with its path and the blocks written to it. */
module FileWriting {
  import opened Wrappers
  import opened BlockBuffer
  import opened AudioBlocks
  import Seqs
  import Strings

  /** `SilenceStrategy[int]`, in samples. */
  datatype Silence = Silence(noiseFloor: int, atStart: int, atEnd: int, beforeStopping: int)

  predicate ValidSilence(s: Silence) {
    s.atStart >= 0 && s.atEnd >= 0 && s.beforeStopping >= 0
  }

  /** Where files go: the directory `path`, the base `name`, and the
      format's `suffix` (with its dot). */
  datatype Naming = Naming(dir: string, name: string, suffix: string)

  /** A sound file: its path and the blocks written to it, in order. */
  datatype SoundFile = SoundFile(path: string, blocks: seq<Block>)

  datatype FileWriter = FileWriter(
    naming: Naming,
    silence: Silence,
    buffer: Blocks,
    sf: Option<SoundFile>,
    done: seq<SoundFile>,
    existing: set<string>)

  /** A new writer: empty buffer, no file open. */
  function New(naming: Naming, silence: Silence, existing: set<string>): (w: FileWriter)
    ensures Inv(w) && Files(w) == []
  {
    FileWriter(naming, silence, Empty(), None, [], existing)
  }

  /** Every file opened so far, in order, the open one last. */
  function Files(w: FileWriter): seq<SoundFile> {
    w.done + (if w.sf.Some? then [w.sf.value] else [])
  }

  /** No two files share a path, and every file's path exists. */
  predicate PathsFresh(files: seq<SoundFile>, existing: set<string>) {
    && (forall i, j :: 0 <= i < j < |files| ==> files[i].path != files[j].path)
    && (forall i :: 0 <= i < |files| ==> files[i].path in existing)
  }

  predicate Inv(w: FileWriter) {
    Valid(w.buffer) && PathsFresh(Files(w), w.existing)
  }

  /** `istr`: empty for the first candidate, `-{index}` after that. */
  function IndexSuffix(index: nat): (s: string)
    ensures index == 0 <==> s == ""
  {
    if index == 0 then "" else "-" + Strings.NatToString(index)
  }

  /** What `ts()` returns: `%Y%m%d-%H%M%S`, always 15 characters. */
  type Stamp = s: string | |s| == 15 witness "20240101-000000"

  /** The readings `ts()` gives, one per candidate name tried. */
  type Clock = nat -> Stamp

  /** The path `_new_filename` tries at `index`, with `stamp` the reading
      of `ts()` for it: `(path / f'{name}-{ts()}{istr}').with_suffix(suffix)`.
      It lies in the directory, ends with the format's suffix, and the
      first candidate carries no index. */
  function Candidate(n: Naming, stamp: string, index: nat): (p: string)
    ensures |p| > |n.dir| && p[..|n.dir| + 1] == n.dir + "/"
    ensures |p| >= |n.suffix| && p[|p| - |n.suffix|..] == n.suffix
    ensures index == 0 ==> p == n.dir + "/" + n.name + "-" + stamp + n.suffix
  {
    var p := n.dir + "/" + n.name + "-" + stamp + IndexSuffix(index) + n.suffix;
    assert p == (n.dir + "/") + (n.name + "-" + stamp + IndexSuffix(index) + n.suffix);
    assert p == (n.dir + "/" + n.name + "-" + stamp + IndexSuffix(index)) + n.suffix;
    p
  }

  lemma IndexSuffixInjective(i: nat, j: nat)
    requires IndexSuffix(i) == IndexSuffix(j)
    ensures i == j
  {
    if i != 0 && j != 0 {
      var si, sj := IndexSuffix(i), IndexSuffix(j);
      assert si[1..] == Strings.NatToString(i);
      assert sj[1..] == Strings.NatToString(j);
      Strings.NatToStringInjective(i, j);
    }
  }

  /** Candidates built from readings of the same width coincide only for
      the same index and the same reading. */
  lemma CandidateInjective(n: Naming, s: string, t: string, i: nat, j: nat)
    requires |s| == |t|
    ensures Candidate(n, s, i) == Candidate(n, t, j) ==> i == j && s == t
  {
    if Candidate(n, s, i) == Candidate(n, t, j) {
      var head := n.dir + "/" + n.name + "-";
      var ps, pt := head + s, head + t;
      var si, sj := IndexSuffix(i), IndexSuffix(j);
      var ci, cj := Candidate(n, s, i), Candidate(n, t, j);
      assert ci == ps + si + n.suffix;
      assert cj == pt + sj + n.suffix;
      assert |si| == |sj|;
      assert ci[..|ps|] == ps && cj[..|pt|] == pt;
      assert s == ps[|head|..] && t == pt[|head|..];
      assert ci[|ps|..|ps| + |si|] == si;
      assert cj[|pt|..|pt| + |sj|] == sj;
      IndexSuffixInjective(i, j);
    }
  }

  ghost predicate Injective(name: nat -> string) {
    forall i, j :: name(i) == name(j) ==> i == j
  }

  /** The first `k` names. */
  function Names(name: nat -> string, k: nat): (s: set<string>)
    requires Injective(name)
    ensures |s| == k
    ensures forall j :: 0 <= j < k ==> name(j) in s
    ensures forall p :: p in s ==> exists j :: 0 <= j < k && p == name(j)
  {
    if k == 0 then {}
    else
      var s := Names(name, k - 1);
      s + {name(k - 1)}
  }

  lemma SubsetCardinality(a: set<string>, b: set<string>)
    requires a <= b
    ensures |a| <= |b|
  {
    if a != {} {
      var x :| x in a;
      SubsetCardinality(a - {x}, b - {x});
    }
  }

  /** When the first `k` names all exist there are at least `k` existing
      paths: a finite set of existing paths leaves a free name. */
  lemma NamesTaken(name: nat -> string, existing: set<string>, k: nat)
    requires Injective(name)
    requires forall j :: 0 <= j < k ==> name(j) in existing
    ensures k <= |existing|
  {
    SubsetCardinality(Names(name, k), existing);
  }

  /** The loop of `_new_filename` from `index` on: the first index whose
      name does not exist. */
  function FreeIndex(name: nat -> string, existing: set<string>, index: nat): (k: nat)
    requires Injective(name)
    requires forall j :: 0 <= j < index ==> name(j) in existing
    ensures index <= k
    ensures name(k) !in existing
    ensures forall j :: 0 <= j < k ==> name(j) in existing
    decreases |existing| - index
  {
    if name(index) !in existing then index
    else
      assert index + 1 <= |existing| by {
        NamesTaken(name, existing, index + 1);
      }
      FreeIndex(name, existing, index + 1)
  }

  lemma CandidatesInjective(n: Naming, clock: Clock)
    ensures Injective((j: nat) => Candidate(n, clock(j), j))
  {
    forall i: nat, j: nat | Candidate(n, clock(i), i) == Candidate(n, clock(j), j)
      ensures i == j
    {
      CandidateInjective(n, clock(i), clock(j), i, j);
    }
  }

  /** `_new_filename`: the first of `{name}-{ts}`, `{name}-{ts}-1`,
      `{name}-{ts}-2`, ... (in `path`, with the suffix, `ts` read afresh
      for each) that does not exist. */
  function NewFilename(n: Naming, clock: Clock, existing: set<string>): (p: string)
    ensures p !in existing
    ensures exists k: nat :: (p == Candidate(n, clock(k), k)
      && forall j :: 0 <= j < k ==> Candidate(n, clock(j), j) in existing)
  {
    CandidatesInjective(n, clock);
    var name := (j: nat) => Candidate(n, clock(j), j);
    var k := FreeIndex(name, existing, 0);
    assert forall j :: 0 <= j < k ==> Candidate(n, clock(j), j) in existing by {
      forall j | 0 <= j < k
        ensures Candidate(n, clock(j), j) in existing
      {
        assert name(j) in existing;
      }
    }
    assert name(k) !in existing;
    Candidate(n, clock(k), k)
  }

  /** The name chosen is the first free one: it comes no later than any
      free candidate, so it is the plain `{name}-{ts}` when that is free. */
  lemma NewFilenameFirstFree(n: Naming, clock: Clock, existing: set<string>, i: nat)
    requires Candidate(n, clock(i), i) !in existing
    ensures exists k: nat :: k <= i && NewFilename(n, clock, existing) == Candidate(n, clock(k), k)
    ensures i == 0 ==> NewFilename(n, clock, existing) == Candidate(n, clock(0), 0)
  {
    var p := NewFilename(n, clock, existing);
    var k: nat :| p == Candidate(n, clock(k), k) && forall j :: 0 <= j < k ==> Candidate(n, clock(j), j) in existing;
    assert i < k ==> Candidate(n, clock(i), i) in existing;
  }

  /** `self._sf = self._sf or open(self._new_filename())`: keep the open
      file, or create a new one at a fresh path. */
  function Open(w: FileWriter, clock: Clock): (r: FileWriter)
    ensures r.sf.Some?
    ensures w.sf.Some? ==> r == w
    ensures w.sf.None? ==>
      && r.sf == Some(SoundFile(NewFilename(w.naming, clock, w.existing), []))
      && r.existing == w.existing + {r.sf.value.path}
      && r.sf.value.path !in w.existing
    ensures r.done == w.done && r.buffer == w.buffer
    ensures r.naming == w.naming && r.silence == w.silence
    ensures Inv(w) ==> Inv(r)
  {
    if w.sf.Some? then w
    else
      var p := NewFilename(w.naming, clock, w.existing);
      var r := w.(sf := Some(SoundFile(p, [])), existing := w.existing + {p});
      assert Files(w) == w.done;
      assert Files(r) == w.done + [SoundFile(p, [])];
      assert Inv(w) ==> Inv(r) by {
        if Inv(w) {
          assert forall i :: 0 <= i < |w.done| ==> w.done[i].path in w.existing;
        }
      }
      r
  }

  /** The loop of `_record` once a file is open: each block goes to it. */
  function WriteToFile(w: FileWriter, bs: seq<Block>): (r: FileWriter)
    requires w.sf.Some?
    ensures r.sf == Some(SoundFile(w.sf.value.path, w.sf.value.blocks + bs))
    ensures r.done == w.done && r.buffer == w.buffer && r.existing == w.existing
    ensures r.naming == w.naming && r.silence == w.silence
    ensures Inv(w) ==> Inv(r)
  {
    var r := w.(sf := Some(w.sf.value.(blocks := w.sf.value.blocks + bs)));
    assert forall i :: 0 <= i < |Files(w)| ==> Files(r)[i].path == Files(w)[i].path;
    r
  }

  /** `FileWriter._record`: open a file only when none is open, and then
      exactly one, at a path that did not exist; the blocks go to the end
      of the file, in order. */
  function Record(w: FileWriter, bs: seq<Block>, clock: Clock): (r: FileWriter)
    ensures r.sf.Some? && r.done == w.done && r.buffer == w.buffer
    ensures r.naming == w.naming && r.silence == w.silence
    ensures w.sf.Some? ==> r.sf.value == SoundFile(w.sf.value.path, w.sf.value.blocks + bs) && r.existing == w.existing
    ensures w.sf.None? ==>
      && r.sf.value == SoundFile(NewFilename(w.naming, clock, w.existing), bs)
      && r.sf.value.path !in w.existing
      && r.existing == w.existing + {r.sf.value.path}
    ensures |Files(r)| == |Files(w)| + (if w.sf.None? then 1 else 0)
    ensures Inv(w) ==> Inv(r)
  {
    assert [] + bs == bs;
    WriteToFile(Open(w, clock), bs)
  }

  /** `self._sf.close(); self._sf = None` */
  function CloseFile(w: FileWriter): (r: FileWriter)
    ensures r.sf.None? && r.done == Files(w)
    ensures r.buffer == w.buffer && r.existing == w.existing
    ensures r.naming == w.naming && r.silence == w.silence
    ensures Inv(w) ==> Inv(r)
  {
    if w.sf.Some? then w.(done := w.done + [w.sf.value], sf := None)
    else
      assert Files(w) == w.done;
      w
  }

  /** The blocks `_block_not_silent` records: with a file open, the whole
      buffer; with none open, what is left after clipping the buffer from
      its start to `at_start` plus its latest block. */
  function OnsetBlocks(w: FileWriter): (kept: seq<Block>)
    requires w.buffer.blocks != []
    ensures |kept| <= |w.buffer.blocks|
    ensures kept == w.buffer.blocks[|w.buffer.blocks| - |kept|..]
  {
    if w.sf.Some? then w.buffer.blocks else OnsetTail(w.buffer, w.silence.atStart)
  }

  /** `FileWriter._block_not_silent`: record `OnsetBlocks` and clear the
      buffer. */
  function BlockNotSilent(w: FileWriter, clock: Clock): (r: FileWriter)
    requires w.buffer.blocks != []
    ensures r.buffer == Empty() && r.done == w.done && r.sf.Some?
    ensures r.naming == w.naming && r.silence == w.silence
    ensures w.sf.Some? ==> r.sf.value == SoundFile(w.sf.value.path, w.sf.value.blocks + w.buffer.blocks) && r.existing == w.existing
    ensures w.sf.None? ==>
      && r.sf.value == SoundFile(NewFilename(w.naming, clock, w.existing), OnsetBlocks(w))
      && r.sf.value.path !in w.existing
      && r.existing == w.existing + {r.sf.value.path}
    ensures Inv(w) ==> Inv(r)
  {
    var w1 := Record(w, OnsetBlocks(w), clock);
    w1.(buffer := Clear(w1.buffer))
  }

  /** `FileWriter._close_on_silence`: clip the buffer to `at_end` from its
      end; with a file open, record what was clipped off (oldest first)
      and close the file. */
  function CloseOnSilence(w: FileWriter): (r: FileWriter)
    ensures var c := Clip(w.buffer, w.silence.atEnd, false);
      && r.buffer == c.rest && r.sf.None? && r.existing == w.existing
      && r.done == (if w.sf.Some? then w.done + [SoundFile(w.sf.value.path, w.sf.value.blocks + Seqs.Reverse(c.removed))]
                    else w.done)
    ensures Inv(w) ==> Inv(r)
  {
    var c := Clip(w.buffer, w.silence.atEnd, false);
    var w1 := w.(buffer := c.rest);
    if w1.sf.Some? then CloseFile(WriteToFile(w1, Seqs.Reverse(c.removed))) else w1
  }

  /** What `write` ends in: the new state, or numpy's error for the
      amplitude of an array without samples, raised after the block was
      appended. */
  datatype Outcome = Written(after: FileWriter) | NoSamples(after: FileWriter)

  /** The first step of `write`: buffer the block. */
  function Buffered(w: FileWriter, b: Block): (r: FileWriter)
    ensures r.buffer.blocks == w.buffer.blocks + [b]
    ensures r.buffer.length == w.buffer.length + Len(b)
    ensures Valid(w.buffer) ==> Valid(r.buffer)
    ensures r.sf == w.sf && r.done == w.done && r.existing == w.existing
    ensures r.naming == w.naming && r.silence == w.silence
  {
    w.(buffer := Append(w.buffer, b))
  }

  /** `FileWriter.write(block)`, with `clock` giving the readings of `ts()`. */
  function Write(w: FileWriter, b: Block, clock: Clock): (r: Outcome)
    ensures r.NoSamples? <==> !HasSamples(b)
    ensures r.NoSamples? ==> r.after == Buffered(w, b)
    ensures r.after.naming == w.naming && r.after.silence == w.silence
  {
    var w1 := Buffered(w, b);
    match Amplitude(b)
    case None => NoSamples(w1)
    case Some(a) =>
      if a >= w.silence.noiseFloor then Written(BlockNotSilent(w1, clock))
      else if Duration(w1.buffer) > w.silence.beforeStopping then Written(CloseOnSilence(w1))
      else Written(w1)
  }

  /** `FileWriter.close`: with a file open, record the buffer to it and
      close it; with none open, drop the buffer without opening a file. */
  function Close(w: FileWriter): (r: FileWriter)
    ensures r.sf.None? && r.buffer == Empty()
    ensures r.existing == w.existing
    ensures r.naming == w.naming && r.silence == w.silence
  {
    var w1 := if w.sf.Some? then CloseFile(WriteToFile(w, w.buffer.blocks)) else w;
    w1.(buffer := Clear(w1.buffer))
  }

  /** How leaving the `with` block ends, given the exception the body
      raised (if any) and the one `close` raised (if any): `None` when the
      block exits normally. */
  function ExitRaises<E>(body: Option<E>, closeError: Option<E>): (r: Option<E>)
    ensures closeError.None? ==> r == body
    ensures closeError.Some? && body.Some? ==> r == closeError
    ensures closeError.Some? && body.None? ==> r.None?
    ensures r.Some? ==> body.Some?
  {
    match closeError
    case None => body
    case Some(_) => if body.Some? then closeError else None
  }

  /** `close` when `self._sf.close()` raises: the buffer has already been
      recorded to the open file, but `_sf` is still set and the buffer is
      not cleared. */
  function CloseFailed(w: FileWriter): (r: FileWriter)
    requires w.sf.Some?
    ensures r.sf == Some(SoundFile(w.sf.value.path, w.sf.value.blocks + w.buffer.blocks))
    ensures r.buffer == w.buffer && r.done == w.done && r.existing == w.existing
    ensures Inv(w) ==> Inv(r)
  {
    WriteToFile(w, w.buffer.blocks)
  }

  /** `FileWriter.__exit__`: call `close` and report what the `with`
      statement raises. `closeError` is what `self._sf.close()` raises
      when it is reached; with no file open it is not, and `close` raises
      nothing. */
  function Exit<E>(w: FileWriter, body: Option<E>, closeError: Option<E>): (r: (FileWriter, Option<E>))
    ensures w.sf.None? || closeError.None? ==> r.0 == Close(w)
    ensures w.sf.Some? && closeError.Some? ==>
      && r.0.sf == Some(SoundFile(w.sf.value.path, w.sf.value.blocks + w.buffer.blocks))
      && r.0.buffer == w.buffer && r.0.done == w.done
    ensures w.sf.None? ==> r.1 == body
    ensures r.1 == ExitRaises(body, if w.sf.Some? then closeError else None)
  {
    if w.sf.Some? && closeError.Some? then (CloseFailed(w), ExitRaises(body, closeError))
    else (Close(w), ExitRaises(body, None))
  }

  /** A block whose amplitude reaches the noise floor (equality counts as
      loud) while a file is open: the buffer and the block are recorded
      to it and the buffer cleared. */
  lemma WriteLoudContinues(w: FileWriter, b: Block, clock: Clock)
    requires Inv(w) && w.sf.Some?
    requires HasSamples(b) && Amplitude(b).value >= w.silence.noiseFloor
    ensures var r := Write(w, b, clock);
      && r.Written?
      && Inv(r.after)
      && r.after.buffer == Empty()
      && r.after.done == w.done
      && r.after.existing == w.existing
      && r.after.sf == Some(SoundFile(w.sf.value.path, w.sf.value.blocks + w.buffer.blocks + [b]))
  {
    var w1 := Buffered(w, b);
    assert Write(w, b, clock) == Written(BlockNotSilent(w1, clock));
    assert w.sf.value.blocks + (w.buffer.blocks + [b]) == w.sf.value.blocks + w.buffer.blocks + [b];
  }

  /** A loud block while no file is open (an onset): the buffer, with the
      block appended, is cut from its start to `at_start` plus the block,
      which keeps the longest such tail, block included, and that goes to
      a newly created file at a path that did not exist. */
  lemma WriteLoudOnset(w: FileWriter, b: Block, clock: Clock)
    requires Inv(w) && ValidSilence(w.silence) && w.sf.None?
    requires HasSamples(b) && Amplitude(b).value >= w.silence.noiseFloor
    ensures var r := Write(w, b, clock);
      && r.Written?
      && Inv(r.after)
      && r.after.buffer == Empty()
      && r.after.done == w.done
      && r.after.sf.Some?
      && r.after.sf.value.path == NewFilename(w.naming, clock, w.existing)
      && r.after.sf.value.path !in w.existing
      && r.after.existing == w.existing + {r.after.sf.value.path}
      && LongestTailWithin(w.buffer.blocks + [b], r.after.sf.value.blocks, w.silence.atStart + Len(b))
      && r.after.sf.value.blocks[|r.after.sf.value.blocks| - 1] == b
  {
    var w1 := Buffered(w, b);
    assert Write(w, b, clock) == Written(BlockNotSilent(w1, clock));
    assert LongestTailWithin(w1.buffer.blocks, OnsetBlocks(w1), w.silence.atStart + Len(b))
        && OnsetBlocks(w1)[|OnsetBlocks(w1)| - 1] == b by {
      assert w1.buffer.blocks[|w1.buffer.blocks| - 1] == b;
      OnsetClip(w1.buffer, w.silence.atStart);
    }
  }

  /** A quiet block that pushes the buffered duration past
      `before_stopping` cuts the buffer back from its end to at most
      `at_end` samples. With a file open the blocks cut off are recorded,
      oldest first, and the file is closed; with none open they are
      dropped and no file is created. */
  lemma WriteSilenceEnds(w: FileWriter, b: Block, clock: Clock)
    requires Inv(w) && ValidSilence(w.silence)
    requires HasSamples(b) && Amplitude(b).value < w.silence.noiseFloor
    requires Duration(w.buffer) + Len(b) > w.silence.beforeStopping
    ensures var r := Write(w, b, clock); var all := w.buffer.blocks + [b];
      && r.Written?
      && Inv(r.after)
      && r.after.sf.None?
      && r.after.existing == w.existing
      && LongestHeadWithin(all, r.after.buffer.blocks, w.silence.atEnd)
      && (w.sf.Some? ==>
            r.after.done == w.done + [SoundFile(w.sf.value.path, w.sf.value.blocks + all[|r.after.buffer.blocks|..])])
      && (w.sf.None? ==> r.after.done == w.done)
  {
    var w1 := Buffered(w, b);
    assert Write(w, b, clock) == Written(CloseOnSilence(w1));
    OffsetClip(w1.buffer, w.silence.atEnd);
  }

  /** A quiet block that leaves the buffered duration within
      `before_stopping` is only buffered. */
  lemma WriteQuiet(w: FileWriter, b: Block, clock: Clock)
    requires HasSamples(b) && Amplitude(b).value < w.silence.noiseFloor
    requires Duration(w.buffer) + Len(b) <= w.silence.beforeStopping
    ensures Write(w, b, clock) == Written(Buffered(w, b))
  {
  }

  /** Every `write` keeps the invariant: no two files share a path and
      every file's path exists. */
  lemma WriteInv(w: FileWriter, b: Block, clock: Clock)
    requires Inv(w) && ValidSilence(w.silence)
    ensures Inv(Write(w, b, clock).after)
  {
    if HasSamples(b) {
      if Amplitude(b).value >= w.silence.noiseFloor {
        if w.sf.Some? {
          WriteLoudContinues(w, b, clock);
        } else {
          WriteLoudOnset(w, b, clock);
        }
      } else if Duration(w.buffer) + Len(b) > w.silence.beforeStopping {
        WriteSilenceEnds(w, b, clock);
      }
    }
  }

  /** `close` records the buffer to the open file and closes it; with no
      file open it drops the buffer and creates no file. */
  lemma CloseFlushes(w: FileWriter)
    requires Inv(w)
    ensures var r := Close(w);
      && Inv(r)
      && (w.sf.Some? ==> r.done == w.done + [SoundFile(w.sf.value.path, w.sf.value.blocks + w.buffer.blocks)])
      && (w.sf.None? ==> r.done == w.done)
  {
    if w.sf.Some? {
      var w1 := CloseFile(WriteToFile(w, w.buffer.blocks));
      assert Close(w) == w1.(buffer := Clear(w1.buffer));
      assert Files(Close(w)) == Files(w1);
    } else {
      assert Files(Close(w)) == Files(w);
    }
  }

  /** A second `close` changes nothing. */
  lemma CloseIdempotent(w: FileWriter)
    ensures Close(Close(w)) == Close(w)
  {
  }
}
