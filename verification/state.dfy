/** `ChannelState` of recs/base/state.py: the per-channel figures the
    display merges. Counters add up, the "instantaneous" fields are taken
    from the right operand, and amplitudes widen by max/min.

    The fields that are floats in the source (amplitudes, times, volume)
    are integers here, so sums and differences are exact; the default
    `min_amp` of infinity is the `Infinity` value of `Amp`. */
module ChannelStates {

  /** A lower amplitude bound: a number, or positive infinity. */
  datatype Amp = Finite(value: int) | Infinity

  predicate AmpLe(a: Amp, b: Amp) {
    b.Infinity? || (a.Finite? && a.value <= b.value)
  }

  /** `min` of two bounds, infinity being above every number. */
  function AmpMin(a: Amp, b: Amp): (r: Amp)
    ensures AmpLe(r, a) && AmpLe(r, b)
    ensures r == a || r == b
  {
    if AmpLe(a, b) then a else b
  }

  function Max(a: int, b: int): (r: int)
    ensures r >= a && r >= b && (r == a || r == b)
  {
    if a >= b then a else b
  }

  datatype ChannelState = ChannelState(
    fileCount: int,
    fileSize: int,
    isActive: bool,
    maxAmp: int,
    minAmp: Amp,
    recordedTime: int,
    timestamp: int,
    volume: seq<int>)

  /** `ChannelState()`, built at clock time `now`. */
  function Default(now: int): (s: ChannelState)
    ensures s.fileCount == 0 && s.fileSize == 0 && s.recordedTime == 0
    ensures !s.isActive && s.maxAmp == 0 && s.minAmp == Infinity
    ensures s.timestamp == now && s.volume == []
  {
    ChannelState(0, 0, false, 0, Infinity, 0, now, [])
  }

  /** `__iadd__`, and `__add__`, which applies it to a copy: with values
      in place of objects the two compute the same state. */
  function Add(s: ChannelState, m: ChannelState): (r: ChannelState)
    ensures r.fileCount == s.fileCount + m.fileCount
    ensures r.fileSize == s.fileSize + m.fileSize
    ensures r.recordedTime == s.recordedTime + m.recordedTime
    ensures r.isActive == m.isActive && r.timestamp == m.timestamp && r.volume == m.volume
    ensures r.maxAmp == Max(s.maxAmp, m.maxAmp) && r.minAmp == AmpMin(s.minAmp, m.minAmp)
  {
    ChannelState(
      s.fileCount + m.fileCount,
      s.fileSize + m.fileSize,
      m.isActive,
      Max(s.maxAmp, m.maxAmp),
      AmpMin(s.minAmp, m.minAmp),
      s.recordedTime + m.recordedTime,
      m.timestamp,
      m.volume)
  }

  /** `__isub__`, and `__sub__`, which applies it to a copy. Amplitudes
      still widen by max/min; the instantaneous fields are kept. */
  function Sub(s: ChannelState, m: ChannelState): (r: ChannelState)
    ensures r.fileCount == s.fileCount - m.fileCount
    ensures r.fileSize == s.fileSize - m.fileSize
    ensures r.recordedTime == s.recordedTime - m.recordedTime
    ensures r.isActive == s.isActive && r.timestamp == s.timestamp && r.volume == s.volume
    ensures r.maxAmp == Max(s.maxAmp, m.maxAmp) && r.minAmp == AmpMin(s.minAmp, m.minAmp)
  {
    s.(fileCount := s.fileCount - m.fileCount,
       fileSize := s.fileSize - m.fileSize,
       recordedTime := s.recordedTime - m.recordedTime,
       maxAmp := Max(s.maxAmp, m.maxAmp),
       minAmp := AmpMin(s.minAmp, m.minAmp))
  }

  /** Merging never narrows the amplitude range, for `+` and `-` alike. */
  lemma MergeWidens(s: ChannelState, m: ChannelState)
    ensures Add(s, m).maxAmp >= s.maxAmp && Add(s, m).maxAmp >= m.maxAmp
    ensures AmpLe(Add(s, m).minAmp, s.minAmp) && AmpLe(Add(s, m).minAmp, m.minAmp)
    ensures Sub(s, m).maxAmp == Add(s, m).maxAmp && Sub(s, m).minAmp == Add(s, m).minAmp
  {
  }

  /** `(s + m) - m` has the counters of `s` and the instantaneous fields
      of `m`. */
  lemma AddThenSub(s: ChannelState, m: ChannelState)
    ensures var r := Sub(Add(s, m), m);
      && r.fileCount == s.fileCount && r.fileSize == s.fileSize && r.recordedTime == s.recordedTime
      && r.isActive == m.isActive && r.timestamp == m.timestamp && r.volume == m.volume
  {
  }

  /** Merging into a default state gives the merged state back, provided
      its `max_amp` is not below the default 0. */
  lemma DefaultLeftIdentity(now: int, m: ChannelState)
    ensures m.maxAmp >= 0 <==> Add(Default(now), m) == m
  {
    if m.maxAmp >= 0 {
      assert AmpMin(Infinity, m.minAmp) == m.minAmp;
    } else {
      assert Add(Default(now), m).maxAmp == 0;
    }
  }

  /** Merging is associative: reporting two states one by one or merged
      first gives the same total. */
  lemma AddAssociative(a: ChannelState, b: ChannelState, c: ChannelState)
    ensures Add(Add(a, b), c) == Add(a, Add(b, c))
  {
    var x := AmpMin(AmpMin(a.minAmp, b.minAmp), c.minAmp);
    var y := AmpMin(a.minAmp, AmpMin(b.minAmp, c.minAmp));
    assert x == y;
  }

  /** The order of merging does not change the counters or the amplitude
      range; only the instantaneous fields depend on which came last. */
  lemma AddCommutesOnCounts(a: ChannelState, b: ChannelState)
    ensures var x, y := Add(a, b), Add(b, a);
      && x.fileCount == y.fileCount && x.fileSize == y.fileSize && x.recordedTime == y.recordedTime
      && x.maxAmp == y.maxAmp && x.minAmp == y.minAmp
  {
    assert AmpMin(a.minAmp, b.minAmp) == AmpMin(b.minAmp, a.minAmp);
  }
}
