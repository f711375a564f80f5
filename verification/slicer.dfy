/** recs/util/slicer.py: how a device's channels are grouped into named
    tracks, either from configuration or automatically in stereo pairs. */
module Slicer {
  import opened Wrappers
  import Dicts
  import Strings

  /** Python's `slice(start, stop, step)`; a part given as `None` is `None`. */
  datatype Slice = Slice(start: Option<int>, stop: Option<int>, step: Option<int>)

  /** What configuration may give for one track: a ready slice, a mapping
      with keys `start`, `stop`, `step`, or a sequence of slice arguments. */
  datatype SliceSpec =
    | AsSlice(slice: Slice)
    | AsMapping(entries: Dicts.Dict<int>)
    | AsSequence(items: seq<Option<int>>)

  /** The exceptions `to_slice` raises: the `AssertionError` of a missing
      `stop` or of keys left over, and the `TypeError` of `slice(*x)` with
      no argument or more than three. */
  datatype SliceError =
    | MissingStop
    | AdditionalEntries(keys: set<string>)
    | WrongArgumentCount(count: nat)

  /** The parts of `InputDevice` the slicer reads. */
  datatype Device = Device(name: string, channels: int)

  /** A slice with unit step and both ends given holds channel `c` when
      `start <= c < stop`. */
  predicate Holds(s: Slice, c: int) {
    && s.start.Some? && s.stop.Some? && s.step.None?
    && s.start.value <= c < s.stop.value
  }

  /** The number of stereo pairs `range(0, channels - 1, 2)` yields. */
  function PairCount(channels: int): nat {
    if channels > 0 then channels / 2 else 0
  }

  /** The display name of the pair starting at channel `i`: channels are
      counted from 1 in names. */
  function PairName(i: nat): string {
    Strings.NatToString(i + 1) + "-" + Strings.NatToString(i + 2)
  }

  /** What the generator in `auto_slice` yields, in order. */
  function AutoPairs(channels: int): seq<(string, Slice)> {
    var pairs := seq(PairCount(channels), k requires 0 <= k < PairCount(channels) =>
      (PairName(2 * k), Slice(Some(2 * k), Some(2 * k + 2), None)));
    if channels % 2 == 1 then
      pairs + [(Strings.IntToString(channels), Slice(Some(channels - 1), Some(channels), None))]
    else pairs
  }

  /** `auto_slice(channels)`: consecutive channels in pairs, and the last
      one alone when the count is odd. No name is yielded twice, so the
      dict keeps every pair in order. */
  function AutoSlice(channels: int): (r: Dicts.Dict<Slice>)
    ensures r == AutoPairs(channels)
    ensures Dicts.DistinctKeys(r)
    ensures channels >= 0 ==> |r| == (channels + 1) / 2
  {
    AutoPairsDistinct(channels);
    Dicts.FromDistinctPairs(AutoPairs(channels));
    Dicts.FromPairs(AutoPairs(channels))
  }

  /** The number of decimal digits `s` starts with. */
  function DigitPrefix(s: string): (n: nat)
    ensures n <= |s|
  {
    if s == [] || !('0' <= s[0] <= '9') then 0 else 1 + DigitPrefix(s[1..])
  }

  lemma {:induction false} DigitPrefixBeforeDash(u: string, rest: string)
    requires Strings.IsDigits(u) && rest != [] && rest[0] == '-'
    ensures DigitPrefix(u + rest) == |u|
  {
    if u != [] {
      assert (u + rest)[1..] == u[1..] + rest;
      DigitPrefixBeforeDash(u[1..], rest);
    }
  }

  lemma {:induction false} DigitPrefixAll(u: string)
    requires Strings.IsDigits(u)
    ensures DigitPrefix(u) == |u|
  {
    if u != [] {
      DigitPrefixAll(u[1..]);
    }
  }

  /** The digits before the '-' of a pair's name. */
  lemma PairNameDigits(i: nat)
    ensures DigitPrefix(PairName(i)) == |Strings.NatToString(i + 1)|
  {
    var sa := Strings.NatToString(i + 1);
    assert PairName(i) == sa + ("-" + Strings.NatToString(i + 2));
    DigitPrefixBeforeDash(sa, "-" + Strings.NatToString(i + 2));
  }

  lemma PairNameInjective(a: nat, b: nat)
    ensures PairName(a) == PairName(b) ==> a == b
  {
    var sa, sb := Strings.NatToString(a + 1), Strings.NatToString(b + 1);
    PairNameDigits(a);
    PairNameDigits(b);
    assert PairName(a)[..|sa|] == sa;
    assert PairName(b)[..|sb|] == sb;
    if PairName(a) == PairName(b) {
      Strings.NatToStringInjective(a + 1, b + 1);
    }
  }

  /** A pair's name has a '-' after its digits, the name of a
      non-negative single channel is digits only. */
  lemma PairNameNotSingle(i: nat, n: int)
    ensures n >= 0 ==> PairName(i) != Strings.IntToString(n)
  {
    PairNameDigits(i);
    if n >= 0 {
      DigitPrefixAll(Strings.NatToString(n));
    }
  }

  lemma AutoPairsDistinct(channels: int)
    ensures Dicts.DistinctKeys(AutoPairs(channels))
  {
    var ps := AutoPairs(channels);
    var m := PairCount(channels);
    forall i, j | 0 <= i < j < |ps|
      ensures ps[i].0 != ps[j].0
    {
      PairNameInjective(2 * i, 2 * j);
      if j >= m {
        PairNameNotSingle(2 * i, channels);
      }
    }
  }

  /** The `k`-th automatic track: a pair of channels, or the last channel
      alone. */
  function Track(channels: int, k: int): Slice {
    if k < channels / 2 then Slice(Some(2 * k), Some(2 * k + 2), None)
    else Slice(Some(channels - 1), Some(channels), None)
  }

  lemma AutoPairsEntry(channels: int, k: int)
    requires channels >= 0 && 0 <= k < |AutoPairs(channels)|
    ensures AutoPairs(channels)[k].1 == Track(channels, k)
  {
    var m := PairCount(channels);
    var pairs := seq(m, j requires 0 <= j < m => (PairName(2 * j), Slice(Some(2 * j), Some(2 * j + 2), None)));
    if k < m {
      assert AutoPairs(channels)[k] == pairs[k];
    }
  }

  /** Tracks laid out as `auto_slice` lays them out cover each channel
      exactly once, stay inside the device, and follow each other from
      channel 0 up to the last channel without gaps. */
  lemma TracksCover(channels: int, r: seq<(string, Slice)>)
    requires channels >= 0 && |r| == (channels + 1) / 2
    requires forall k :: 0 <= k < |r| ==> r[k].1 == Track(channels, k)
    ensures forall k, c :: 0 <= k < |r| && Holds(r[k].1, c) ==> 0 <= c < channels && k == c / 2
    ensures forall c :: 0 <= c < channels ==> c / 2 < |r| && Holds(r[c / 2].1, c)
    ensures |r| > 0 ==> r[0].1.start == Some(0) && r[|r| - 1].1.stop == Some(channels)
    ensures forall k :: 0 <= k < |r| - 1 ==> r[k].1.stop == r[k + 1].1.start
  {
    var h := channels / 2;
    assert channels == 2 * h + channels % 2;
    forall k, c | 0 <= k < |r| && Holds(r[k].1, c)
      ensures 0 <= c < channels && k == c / 2
    {
      assert k <= h;
    }
  }

  /** The automatic tracks of a device cover each of its channels exactly
      once, without gaps. */
  lemma AutoSliceCovers(channels: int)
    requires channels >= 0
    ensures var r := AutoSlice(channels);
      && (forall k, c :: 0 <= k < |r| && Holds(r[k].1, c) ==> 0 <= c < channels && k == c / 2)
      && (forall c :: 0 <= c < channels ==> c / 2 < |r| && Holds(r[c / 2].1, c))
      && (|r| > 0 ==> r[0].1.start == Some(0) && r[|r| - 1].1.stop == Some(channels))
      && (forall k :: 0 <= k < |r| - 1 ==> r[k].1.stop == r[k + 1].1.start)
  {
    var r := AutoSlice(channels);
    forall k | 0 <= k < |r|
      ensures r[k].1 == Track(channels, k)
    {
      AutoPairsEntry(channels, k);
    }
    TracksCover(channels, r);
  }

  /** `to_slice(x)` */
  function ToSlice(x: SliceSpec): (r: Result<Slice, SliceError>)
    ensures x.AsSlice? ==> r == Ok(x.slice)
    ensures x.AsSequence? ==> (r.Ok? <==> 1 <= |x.items| <= 3)
    ensures x.AsSequence? && r.Err? ==> r.error == WrongArgumentCount(|x.items|)
    ensures x.AsMapping? ==> (r.Ok? <==> "stop" in Dicts.Keys(x.entries) && Dicts.Keys(x.entries) <= {"start", "stop", "step"})
    ensures x.AsMapping? && r.Ok? ==> r.value.start.Some? && r.value.stop.Some? && r.value.step.Some?
    ensures x.AsMapping? && r.Ok? ==> ("stop", r.value.stop.value) in x.entries
    ensures x.AsMapping? && r.Ok? ==>
      if "start" in Dicts.Keys(x.entries) then ("start", r.value.start.value) in x.entries else r.value.start == Some(0)
    ensures x.AsMapping? && r.Ok? ==>
      if "step" in Dicts.Keys(x.entries) then ("step", r.value.step.value) in x.entries else r.value.step == Some(1)
    ensures x.AsMapping? && r.Err? ==>
      r.error == if "stop" !in Dicts.Keys(x.entries) then MissingStop
                 else AdditionalEntries(Dicts.Keys(x.entries) - {"start", "stop", "step"})
  {
    match x
    case AsSlice(s) => Ok(s)
    case AsSequence(xs) =>
      if |xs| == 1 then Ok(Slice(None, xs[0], None))
      else if |xs| == 2 then Ok(Slice(xs[0], xs[1], None))
      else if |xs| == 3 then Ok(Slice(xs[0], xs[1], xs[2]))
      else Err(WrongArgumentCount(|xs|))
    case AsMapping(d) =>
      var start := Dicts.Get(d, "start").UnwrapOr(0);
      var stop := Dicts.Get(d, "stop");
      var step := Dicts.Get(d, "step").UnwrapOr(1);
      var extra := Dicts.Keys(d) - {"start", "stop", "step"};
      if stop.None? then Err(MissingStop)
      else if extra != {} then Err(AdditionalEntries(extra))
      else Ok(Slice(Some(start), stop, Some(step)))
  }

  /** A slice written out in either configuration form reads back as
      itself. */
  lemma ToSliceRoundTrip(s: Slice)
    ensures ToSlice(AsSequence([s.start, s.stop, s.step])) == Ok(s)
    ensures s.start.Some? && s.stop.Some? && s.step.Some? ==>
      ToSlice(AsMapping([("start", s.start.value), ("stop", s.stop.value), ("step", s.step.value)])) == Ok(s)
  {
    if s.start.Some? && s.stop.Some? && s.step.Some? {
      var d := [("start", s.start.value), ("stop", s.stop.value), ("step", s.step.value)];
      assert Dicts.Keys(d[1..][1..]) == {"step"} by {
        assert d[1..][1..][1..] == [];
      }
      assert Dicts.Keys(d) == {"start"} + Dicts.Keys(d[1..]);
      assert Dicts.Keys(d[1..]) == {"stop"} + Dicts.Keys(d[1..][1..]);
    }
  }

  /** A mapping without `start` or `step` takes 0 and 1 for them. */
  lemma ToSliceDefaults(stop: int)
    ensures ToSlice(AsMapping([("stop", stop)])) == Ok(Slice(Some(0), Some(stop), Some(1)))
  {
    assert [("stop", stop)][1..] == [];
  }

  /** The value of a comprehension whose entries may raise: every
      result, keys and order kept, or the first error. */
  function Collect<T>(rs: seq<(string, Result<T, SliceError>)>): (r: Result<seq<(string, T)>, SliceError>)
    ensures r.Ok? <==> forall i :: 0 <= i < |rs| ==> rs[i].1.Ok?
    ensures r.Ok? ==> |r.value| == |rs| && forall i :: 0 <= i < |rs| ==> r.value[i] == (rs[i].0, rs[i].1.value)
    ensures r.Err? ==> exists i :: (0 <= i < |rs| && rs[i].1 == Err(r.error) && forall j :: 0 <= j < i ==> rs[j].1.Ok?)
  {
    if rs == [] then Ok([])
    else
      assert forall i :: 1 <= i < |rs| ==> rs[1..][i - 1] == rs[i];
      match rs[0].1
      case Err(e) => Err(e)
      case Ok(x) =>
        match Collect(rs[1..])
        case Err(e) =>
          assert exists i :: (0 <= i < |rs| && rs[i].1 == Err(e) && forall j :: 0 <= j < i ==> rs[j].1.Ok?) by {
            var i :| 0 <= i < |rs| - 1 && rs[1..][i].1 == Err(e) && forall j :: 0 <= j < i ==> rs[1..][j].1.Ok?;
            assert forall j :: 1 <= j < i + 1 ==> rs[j].1.Ok?;
          }
          Err(e)
        case Ok(v) => Ok([(rs[0].0, x)] + v)
  }

  /** `to_slices(d)`: every entry converted, keys and order kept; the
      first entry that fails raises. */
  function ToSlices(d: Dicts.Dict<SliceSpec>): (r: Result<Dicts.Dict<Slice>, SliceError>)
    ensures r.Ok? <==> forall i :: 0 <= i < |d| ==> ToSlice(d[i].1).Ok?
    ensures r.Ok? ==> |r.value| == |d| && forall i :: 0 <= i < |d| ==> r.value[i] == (d[i].0, ToSlice(d[i].1).value)
    ensures r.Err? ==> exists i :: (0 <= i < |d| && ToSlice(d[i].1) == Err(r.error) && forall j :: 0 <= j < i ==> ToSlice(d[j].1).Ok?)
  {
    var rs := seq(|d|, i requires 0 <= i < |d| => (d[i].0, ToSlice(d[i].1)));
    assert forall i :: 0 <= i < |d| ==> rs[i] == (d[i].0, ToSlice(d[i].1));
    var r := Collect(rs);
    assert r.Err? ==> exists i :: (0 <= i < |d| && ToSlice(d[i].1) == Err(r.error) && forall j :: 0 <= j < i ==> ToSlice(d[j].1).Ok?) by {
      if r.Err? {
        var i :| 0 <= i < |rs| && rs[i].1 == Err(r.error) && forall j :: 0 <= j < i ==> rs[j].1.Ok?;
        assert forall j :: 0 <= j < i ==> rs[j].1 == ToSlice(d[j].1);
      }
    }
    r
  }

  /** The index of the first configured prefix that `name` starts with,
      both lower-cased. */
  function FirstMatch(deviceSlices: Dicts.Dict<Dicts.Dict<SliceSpec>>, name: string): (r: Option<nat>)
    ensures r.None? <==> forall i :: 0 <= i < |deviceSlices| ==> !Strings.StartsWith(name, Strings.Lower(deviceSlices[i].0))
    ensures r.Some? ==> r.value < |deviceSlices| && Strings.StartsWith(name, Strings.Lower(deviceSlices[r.value].0))
    ensures r.Some? ==> forall j :: 0 <= j < r.value ==> !Strings.StartsWith(name, Strings.Lower(deviceSlices[j].0))
  {
    if deviceSlices == [] then None
    else if Strings.StartsWith(name, Strings.Lower(deviceSlices[0].0)) then Some(0)
    else
      assert forall i :: 1 <= i < |deviceSlices| ==> deviceSlices[1..][i - 1] == deviceSlices[i];
      match FirstMatch(deviceSlices[1..], name)
      case None => None
      case Some(i) => Some(i + 1)
  }

  /** `slice_one(device, device_slices)`: the slices configured under the
      first key the device's name starts with, ignoring case; automatic
      pairs when there is none. */
  function SliceOne(device: Device, deviceSlices: Dicts.Dict<Dicts.Dict<SliceSpec>>): (r: Result<Dicts.Dict<Slice>, SliceError>)
    ensures FirstMatch(deviceSlices, Strings.Lower(device.name)).None? ==> r == Ok(AutoSlice(device.channels))
    ensures FirstMatch(deviceSlices, Strings.Lower(device.name)).Some? ==>
      r == ToSlices(deviceSlices[FirstMatch(deviceSlices, Strings.Lower(device.name)).value].1)
  {
    match FirstMatch(deviceSlices, Strings.Lower(device.name))
    case None => Ok(AutoSlice(device.channels))
    case Some(i) => ToSlices(deviceSlices[i].1)
  }

  /** What `slice_one` gives for each device, under the device's name. */
  function Outcomes(devices: seq<Device>, deviceSlices: Dicts.Dict<Dicts.Dict<SliceSpec>>): (rs: seq<(string, Result<Dicts.Dict<Slice>, SliceError>)>)
    ensures |rs| == |devices|
    ensures forall i :: 0 <= i < |devices| ==> rs[i] == (devices[i].name, SliceOne(devices[i], deviceSlices))
  {
    seq(|devices|, i requires 0 <= i < |devices| => (devices[i].name, SliceOne(devices[i], deviceSlices)))
  }

  /** `slice_one` on each device in order, stopping at the first error. */
  function SliceEach(devices: seq<Device>, deviceSlices: Dicts.Dict<Dicts.Dict<SliceSpec>>): (r: Result<seq<(string, Dicts.Dict<Slice>)>, SliceError>)
    ensures r.Ok? <==> forall i :: 0 <= i < |devices| ==> SliceOne(devices[i], deviceSlices).Ok?
    ensures r.Ok? ==> |r.value| == |devices|
    ensures r.Ok? ==> forall i :: 0 <= i < |devices| ==> r.value[i] == (devices[i].name, SliceOne(devices[i], deviceSlices).value)
    ensures r.Err? ==> exists i :: (0 <= i < |devices| && SliceOne(devices[i], deviceSlices) == Err(r.error))
  {
    var rs := Outcomes(devices, deviceSlices);
    var r := Collect(rs);
    assert r.Err? ==> exists i :: (0 <= i < |devices| && SliceOne(devices[i], deviceSlices) == Err(r.error)) by {
      if r.Err? {
        var i :| 0 <= i < |rs| && rs[i].1 == Err(r.error) && forall j :: 0 <= j < i ==> rs[j].1.Ok?;
        assert rs[i].1 == SliceOne(devices[i], deviceSlices);
      }
    }
    r
  }

  /** The names of the devices, in order. */
  function Names(devices: seq<Device>): (ns: seq<string>)
    ensures |ns| == |devices| && forall i :: 0 <= i < |devices| ==> ns[i] == devices[i].name
  {
    seq(|devices|, i requires 0 <= i < |devices| => devices[i].name)
  }

  /** `slice_all(devices, device_slices)`: one entry per device name. */
  function SliceAll(devices: seq<Device>, deviceSlices: Dicts.Dict<Dicts.Dict<SliceSpec>>): (r: Result<Dicts.Dict<Dicts.Dict<Slice>>, SliceError>)
    ensures r.Ok? <==> forall i :: 0 <= i < |devices| ==> SliceOne(devices[i], deviceSlices).Ok?
    ensures r.Ok? ==> Dicts.DistinctKeys(r.value)
    ensures r.Ok? ==> Dicts.Keys(r.value) == set i | 0 <= i < |devices| :: devices[i].name
  {
    match SliceEach(devices, deviceSlices)
    case Err(e) => Err(e)
    case Ok(ps) =>
      Dicts.KeysAsSet(ps);
      assert (set i | 0 <= i < |ps| :: ps[i].0) == set i | 0 <= i < |devices| :: devices[i].name by {
        assert forall i :: 0 <= i < |ps| ==> ps[i].0 == devices[i].name;
      }
      Ok(Dicts.FromPairs(ps))
  }

  /** The `i`-th device is the first whose slices fail, with `e`. */
  predicate FirstFailing(devices: seq<Device>, deviceSlices: Dicts.Dict<Dicts.Dict<SliceSpec>>, i: int, e: SliceError) {
    && 0 <= i < |devices|
    && SliceOne(devices[i], deviceSlices) == Err(e)
    && forall j :: 0 <= j < i ==> SliceOne(devices[j], deviceSlices).Ok?
  }

  /** `slice_one` on each device raises what the first device whose
      slices fail raises. */
  lemma SliceEachFirstError(devices: seq<Device>, deviceSlices: Dicts.Dict<Dicts.Dict<SliceSpec>>)
    ensures SliceEach(devices, deviceSlices).Err? ==>
      exists i :: FirstFailing(devices, deviceSlices, i, SliceEach(devices, deviceSlices).error)
  {
    var rs := Outcomes(devices, deviceSlices);
    var r := Collect(rs);
    assert SliceEach(devices, deviceSlices) == r;
    if r.Err? {
      var i :| 0 <= i < |rs| && rs[i].1 == Err(r.error) && forall j :: 0 <= j < i ==> rs[j].1.Ok?;
      assert rs[i].1 == SliceOne(devices[i], deviceSlices);
      forall j | 0 <= j < i
        ensures SliceOne(devices[j], deviceSlices).Ok?
      {
        assert rs[j].1 == SliceOne(devices[j], deviceSlices);
      }
      assert FirstFailing(devices, deviceSlices, i, r.error);
    }
  }

  /** `slice_all` raises what the first device whose slices fail raises. */
  lemma SliceAllFirstError(devices: seq<Device>, deviceSlices: Dicts.Dict<Dicts.Dict<SliceSpec>>)
    ensures SliceAll(devices, deviceSlices).Err? ==>
      exists i :: FirstFailing(devices, deviceSlices, i, SliceAll(devices, deviceSlices).error)
  {
    SliceEachFirstError(devices, deviceSlices);
  }

  /** Under a name several devices share, `slice_all` keeps the slices of
      the last of them at the position of the first. */
  lemma SliceAllEntries(devices: seq<Device>, deviceSlices: Dicts.Dict<Dicts.Dict<SliceSpec>>)
    ensures var r := SliceAll(devices, deviceSlices);
      r.Ok? ==> (
        && Dicts.KeySeq(r.value) == Dicts.FirstKeys(Names(devices))
        && forall i :: 0 <= i < |devices| && (forall j :: i < j < |devices| ==> devices[j].name != devices[i].name) ==>
             (devices[i].name, SliceOne(devices[i], deviceSlices).value) in r.value)
  {
    if SliceAll(devices, deviceSlices).Ok? {
      var ps := SliceEach(devices, deviceSlices).value;
      assert Dicts.KeySeq(ps) == Names(devices);
      Dicts.FromPairsOrder(ps);
      Dicts.FromPairsValues(ps);
      forall i | 0 <= i < |devices| && (forall j :: i < j < |devices| ==> devices[j].name != devices[i].name)
        ensures Dicts.LastOfKey(ps, i)
      {
      }
    }
  }

  /** When device names are distinct every device keeps its own entry, in
      order. */
  lemma SliceAllDistinct(devices: seq<Device>, deviceSlices: Dicts.Dict<Dicts.Dict<SliceSpec>>)
    requires forall i, j :: 0 <= i < j < |devices| ==> devices[i].name != devices[j].name
    ensures var r := SliceAll(devices, deviceSlices);
      r.Ok? ==> (
        && |r.value| == |devices|
        && forall i :: 0 <= i < |devices| ==> r.value[i] == (devices[i].name, SliceOne(devices[i], deviceSlices).value))
  {
    if SliceAll(devices, deviceSlices).Ok? {
      var ps := SliceEach(devices, deviceSlices).value;
      assert Dicts.DistinctKeys(ps);
      Dicts.FromDistinctPairs(ps);
    }
  }

  /** A device no key matches gets its automatic pairs. */
  lemma SliceOneUnconfigured(device: Device)
    ensures SliceOne(device, []) == Ok(AutoSlice(device.channels))
  {
  }
}
