/** `TotalState` of recs/ui/total_state.py: one `ChannelState` per device
    and channel, and a running total over all of them. */
module TotalStates {
  import opened ChannelStates
  import Dicts

  type DeviceState = map<string, ChannelState>

  datatype TotalState = TotalState(state: map<string, DeviceState>, total: ChannelState)

  /** The state of every channel of one device, all at their default. */
  function DeviceDefaults(tracks: seq<string>, now: int): (m: DeviceState)
    ensures m.Keys == set c | c in tracks
    ensures forall c :: c in m ==> m[c] == Default(now)
  {
    map c | c in tracks :: Default(now)
  }

  /** `TotalState(tracks)`: an entry for every device name and, under it,
      for every track name, all at their default, and a default total.
      Devices are given in order as (name, track names); when two share a
      name the later one's tracks are the ones kept. `now` is the clock
      reading the default states take as their timestamp. */
  function Init(tracks: seq<(string, seq<string>)>, now: int): (ts: TotalState)
    ensures ts.total == Default(now)
    ensures ts.state.Keys == set i | 0 <= i < |tracks| :: tracks[i].0
    ensures forall d :: d in ts.state ==> forall c :: c in ts.state[d] ==> ts.state[d][c] == Default(now)
    ensures forall i :: 0 <= i < |tracks| && LastNamed(tracks, i) ==>
      ts.state[tracks[i].0].Keys == set c | c in tracks[i].1
  {
    if tracks == [] then TotalState(map[], Default(now))
    else
      var n := |tracks|;
      var prev := Init(tracks[..n - 1], now);
      var d := tracks[n - 1];
      var r := TotalState(prev.state[d.0 := DeviceDefaults(d.1, now)], Default(now));
      assert r.state.Keys == set i | 0 <= i < n :: tracks[i].0 by {
        forall x | x in r.state.Keys
          ensures exists i :: 0 <= i < n && tracks[i].0 == x
        {
          if x != d.0 {
            var i :| 0 <= i < n - 1 && tracks[..n - 1][i].0 == x;
            assert tracks[i].0 == x;
          }
        }
        forall i | 0 <= i < n
          ensures tracks[i].0 in r.state.Keys
        {
          if i < n - 1 {
            assert tracks[..n - 1][i].0 == tracks[i].0;
          }
        }
      }
      forall i | 0 <= i < n && LastNamed(tracks, i)
        ensures r.state[tracks[i].0].Keys == set c | c in tracks[i].1
      {
        if i < n - 1 {
          assert tracks[..n - 1][i] == tracks[i];
          assert LastNamed(tracks[..n - 1], i);
        }
      }
      r
  }

  /** No device after the `i`-th carries its name. */
  predicate LastNamed(tracks: seq<(string, seq<string>)>, i: int)
    requires 0 <= i < |tracks|
  {
    forall j :: i < j < |tracks| ==> tracks[j].0 != tracks[i].0
  }

  /** One channel's report: the device and channel it is for, and the
      state to merge. */
  datatype Report = Report(device: string, channel: string, state: ChannelState)

  /** The number of channel entries in all devices of `rs`. */
  function ReportCount(rs: Dicts.Dict<Dicts.Dict<ChannelState>>): nat {
    if rs == [] then 0 else ReportCount(rs[..|rs| - 1]) + |rs[|rs| - 1].1|
  }

  /** The reports of one device's channels, in order. */
  function DeviceReports(d: string, cs: Dicts.Dict<ChannelState>): (us: seq<Report>)
    ensures |us| == |cs| && forall k :: 0 <= k < |cs| ==> us[k] == Report(d, cs[k].0, cs[k].1)
  {
    seq(|cs|, k requires 0 <= k < |cs| => Report(d, cs[k].0, cs[k].1))
  }

  /** The reports of a `RecorderState` (device name to channel name to
      state) in the order `update` visits them: device by device, and
      within a device channel by channel, so the `j`-th channel of the
      `i`-th device comes after every channel of the devices before it. */
  function Reports(rs: Dicts.Dict<Dicts.Dict<ChannelState>>): (us: seq<Report>)
    ensures forall u :: u in us ==> (exists i, j :: 0 <= i < |rs| && 0 <= j < |rs[i].1| && u == Report(rs[i].0, rs[i].1[j].0, rs[i].1[j].1))
    ensures forall i, j :: 0 <= i < |rs| && 0 <= j < |rs[i].1| ==> Report(rs[i].0, rs[i].1[j].0, rs[i].1[j].1) in us
  {
    if rs == [] then []
    else
      var n := |rs|;
      var prev := Reports(rs[..n - 1]);
      var (d, cs) := rs[n - 1];
      var here := DeviceReports(d, cs);
      assert forall u :: u in prev ==> (exists i, j :: 0 <= i < n && 0 <= j < |rs[i].1| && u == Report(rs[i].0, rs[i].1[j].0, rs[i].1[j].1)) by {
        forall u | u in prev
          ensures exists i, j :: 0 <= i < n && 0 <= j < |rs[i].1| && u == Report(rs[i].0, rs[i].1[j].0, rs[i].1[j].1)
        {
          var i, j :| 0 <= i < n - 1 && 0 <= j < |rs[..n - 1][i].1| &&
            u == Report(rs[..n - 1][i].0, rs[..n - 1][i].1[j].0, rs[..n - 1][i].1[j].1);
          assert rs[..n - 1][i] == rs[i];
        }
      }
      forall i, j | 0 <= i < n && 0 <= j < |rs[i].1|
        ensures Report(rs[i].0, rs[i].1[j].0, rs[i].1[j].1) in prev + here
      {
        if i < n - 1 {
          assert rs[..n - 1][i] == rs[i];
        } else {
          assert here[j] == Report(rs[i].0, rs[i].1[j].0, rs[i].1[j].1);
        }
      }
      prev + here
  }

  lemma {:induction false} ReportsLength(rs: Dicts.Dict<Dicts.Dict<ChannelState>>)
    ensures |Reports(rs)| == ReportCount(rs)
  {
    if rs != [] {
      ReportsLength(rs[..|rs| - 1]);
    }
  }

  /** `Reports` takes the devices one after another. */
  lemma ReportsSplit(rs: Dicts.Dict<Dicts.Dict<ChannelState>>)
    requires rs != []
    ensures Reports(rs) == Reports(rs[..|rs| - 1]) + DeviceReports(rs[|rs| - 1].0, rs[|rs| - 1].1)
    ensures |Reports(rs[..|rs| - 1])| == ReportCount(rs[..|rs| - 1])
  {
    ReportsLength(rs[..|rs| - 1]);
  }

  /** The order of `Reports`: the `j`-th channel of the `i`-th device
      comes right after the channels of the devices before it. */
  lemma {:induction false} ReportsAt(rs: Dicts.Dict<Dicts.Dict<ChannelState>>, i: int, j: int)
    requires 0 <= i < |rs| && 0 <= j < |rs[i].1|
    ensures ReportCount(rs[..i]) + j < |Reports(rs)|
    ensures Reports(rs)[ReportCount(rs[..i]) + j] == Report(rs[i].0, rs[i].1[j].0, rs[i].1[j].1)
  {
    var r1 := rs[..|rs| - 1];
    ReportsSplit(rs);
    if i < |rs| - 1 {
      ReportsAt(r1, i, j);
      assert r1[i] == rs[i] && r1[..i] == rs[..i];
    } else {
      assert rs[..i] == r1;
    }
  }

  /** What `update` leaves behind: every report merged, or `KeyError` for
      the first report naming an unknown device or channel, with the
      reports before it merged and left in place. */
  datatype UpdateResult =
    | Updated(after: TotalState)
    | KeyError(after: TotalState, key: string)

  /** How much a channel's recorded time weighs in the total: a stereo
      channel, whose name holds a '-', counts twice. */
  function Weight(channel: string): int {
    if '-' in channel then 2 else 1
  }

  /** The report names a device and a channel the state holds. */
  predicate Known(ts: TotalState, u: Report) {
    u.device in ts.state && u.channel in ts.state[u.device]
  }

  /** One pass of the inner loop of `update`. */
  function Merge(ts: TotalState, u: Report): (r: UpdateResult)
    ensures r.Updated? <==> Known(ts, u)
    ensures SameShape(ts, r.after)
    ensures r.KeyError? ==> r.after == ts
    ensures r.KeyError? ==> r.key == (if u.device !in ts.state then u.device else u.channel)
    ensures r.Updated? ==> var old_ := ts.state[u.device][u.channel];
      && r.after.state == ts.state[u.device := ts.state[u.device][u.channel := Add(old_, u.state)]]
      && r.after.total.fileCount == ts.total.fileCount + u.state.fileCount
      && r.after.total.fileSize == ts.total.fileSize + u.state.fileSize
      && r.after.total.recordedTime == ts.total.recordedTime + Weight(u.channel) * u.state.recordedTime
      && r.after.total.maxAmp == Max(ts.total.maxAmp, u.state.maxAmp)
      && r.after.total.minAmp == AmpMin(ts.total.minAmp, u.state.minAmp)
      && r.after.total.isActive == u.state.isActive
      && r.after.total.timestamp == u.state.timestamp
      && r.after.total.volume == u.state.volume
  {
    if u.device !in ts.state then KeyError(ts, u.device)
    else if u.channel !in ts.state[u.device] then KeyError(ts, u.channel)
    else
      var dev := ts.state[u.device];
      var entry := Add(dev[u.channel], u.state);
      var total := Add(ts.total, u.state);
      var total' := if '-' in u.channel then total.(recordedTime := total.recordedTime + u.state.recordedTime) else total;
      Updated(TotalState(ts.state[u.device := dev[u.channel := entry]], total'))
  }

  /** The reports merged in order, stopping at the first error. Every
      report is merged exactly when each names a known device and
      channel; the devices and channels never change. */
  function Apply(ts: TotalState, us: seq<Report>): (r: UpdateResult)
    ensures SameShape(ts, r.after)
    decreases |us|
  {
    if us == [] then Updated(ts)
    else
      match Apply(ts, us[..|us| - 1])
      case KeyError(t, k) => KeyError(t, k)
      case Updated(t) => Merge(t, us[|us| - 1])
  }

  /** Every report is merged exactly when each names a device and a
      channel the state holds. */
  lemma {:induction false} ApplyCompletes(ts: TotalState, us: seq<Report>)
    ensures Apply(ts, us).Updated? <==> forall u :: u in us ==> Known(ts, u)
    decreases |us|
  {
    if us != [] {
      var init, last := us[..|us| - 1], us[|us| - 1];
      assert us == init + [last];
      ApplyCompletes(ts, init);
      match Apply(ts, init)
      case KeyError(_, _) =>
      case Updated(t) =>
        assert Known(t, last) == Known(ts, last);
    }
  }

  /** Every device and channel of `rs` is one the state holds. */
  predicate AllKnown(ts: TotalState, rs: Dicts.Dict<Dicts.Dict<ChannelState>>) {
    forall i, j :: 0 <= i < |rs| && 0 <= j < |rs[i].1| ==> Known(ts, Report(rs[i].0, rs[i].1[j].0, rs[i].1[j].1))
  }

  /** `TotalState.update(state)`: completes exactly when every device and
      channel reported is known, keeps the devices and channels, and
      keeps the total balanced against the channels. */
  function Update(ts: TotalState, rs: Dicts.Dict<Dicts.Dict<ChannelState>>): (r: UpdateResult)
    ensures r.Updated? <==> AllKnown(ts, rs)
    ensures SameShape(ts, r.after)
    ensures Balanced(ts) ==> Balanced(r.after)
  {
    var us := Reports(rs);
    assert Balanced(ts) ==> Balanced(Apply(ts, us).after) by {
      if Balanced(ts) {
        ApplyBalanced(ts, us);
      }
    }
    UpdateCompletes(ts, rs);
    Apply(ts, us)
  }

  /** `update` completes exactly when every device and channel it is
      given is known. */
  lemma UpdateCompletes(ts: TotalState, rs: Dicts.Dict<Dicts.Dict<ChannelState>>)
    ensures Apply(ts, Reports(rs)).Updated? <==> AllKnown(ts, rs)
  {
    var us := Reports(rs);
    ApplyCompletes(ts, us);
    if AllKnown(ts, rs) {
      forall u | u in us
        ensures Known(ts, u)
      {
        var i, j :| 0 <= i < |rs| && 0 <= j < |rs[i].1| && u == Report(rs[i].0, rs[i].1[j].0, rs[i].1[j].1);
      }
    }
    if forall u :: u in us ==> Known(ts, u) {
      forall i, j | 0 <= i < |rs| && 0 <= j < |rs[i].1|
        ensures Known(ts, Report(rs[i].0, rs[i].1[j].0, rs[i].1[j].1))
      {
        ReportsAt(rs, i, j);
        assert us[ReportCount(rs[..i]) + j] in us;
      }
      assert AllKnown(ts, rs);
    }
  }

  /** The devices and the channels of each: what `update` never changes. */
  predicate SameShape(a: TotalState, b: TotalState) {
    && a.state.Keys == b.state.Keys
    && forall d :: d in a.state ==> a.state[d].Keys == b.state[d].Keys
  }

  /** Merging the reports one list after another is merging them all at
      once. */
  lemma {:induction false} ApplyAppend(ts: TotalState, us: seq<Report>, vs: seq<Report>)
    ensures Apply(ts, us + vs) == match Apply(ts, us)
      case KeyError(t, k) => KeyError(t, k)
      case Updated(t) => Apply(t, vs)
    decreases |vs|
  {
    if vs == [] {
      assert us + vs == us;
    } else {
      var w := us + vs;
      assert w[..|w| - 1] == us + vs[..|vs| - 1];
      ApplyAppend(ts, us, vs[..|vs| - 1]);
    }
  }

  /** A `KeyError` leaves exactly the reports before the failing one
      merged. */
  lemma {:induction false} ApplyStopsAtError(ts: TotalState, us: seq<Report>)
    requires Apply(ts, us).KeyError?
    ensures exists i :: (0 <= i < |us| && Apply(ts, us[..i]) == Updated(Apply(ts, us).after) &&
      Merge(Apply(ts, us).after, us[i]).KeyError?)
  {
    var n := |us|;
    var init := us[..n - 1];
    match Apply(ts, init)
    case KeyError(t, k) =>
      ApplyStopsAtError(ts, init);
      var i :| 0 <= i < n - 1 && Apply(ts, init[..i]) == Updated(t) && Merge(t, init[i]).KeyError?;
      assert init[..i] == us[..i];
    case Updated(t) =>
      assert Apply(ts, us[..n - 1]) == Updated(t);
  }

  /** `update` keeps the devices and channels, and leaves every channel
      that no report names as it was. */
  lemma {:induction false} ApplyLeavesOthers(ts: TotalState, us: seq<Report>)
    ensures SameShape(ts, Apply(ts, us).after)
    ensures forall d, c :: d in ts.state && c in ts.state[d] && (forall u :: u in us ==> u.device != d || u.channel != c) ==>
      Apply(ts, us).after.state[d][c] == ts.state[d][c]
    decreases |us|
  {
    if us != [] {
      var init := us[..|us| - 1];
      ApplyLeavesOthers(ts, init);
      forall d, c | d in ts.state && c in ts.state[d] && (forall u :: u in us ==> u.device != d || u.channel != c)
        ensures Apply(ts, us).after.state[d][c] == ts.state[d][c]
      {
        assert forall u :: u in init ==> u in us;
      }
    }
  }

  /** Sums over a map, one term per key. */
  ghost function Pick<V>(m: map<string, V>): string
    requires m != map[]
  {
    var k :| k in m; k
  }

  ghost function SumBy<V>(m: map<string, V>, f: (string, V) -> int): int
    decreases |m.Keys|
  {
    if m == map[] then 0
    else
      var k := Pick(m);
      f(k, m[k]) + SumBy(m - {k}, f)
  }

  lemma {:induction false} SumByRemove<V>(m: map<string, V>, f: (string, V) -> int, k: string)
    requires k in m
    ensures SumBy(m, f) == f(k, m[k]) + SumBy(m - {k}, f)
    decreases |m.Keys|
  {
    var p := Pick(m);
    if p != k {
      var m1, m2 := m - {p}, m - {k};
      SumByRemove(m1, f, k);
      SumByRemove(m2, f, p);
      assert m1 - {k} == m2 - {p};
    }
  }

  lemma SumByUpdate<V>(m: map<string, V>, f: (string, V) -> int, k: string, v: V)
    requires k in m
    ensures SumBy(m[k := v], f) == SumBy(m, f) - f(k, m[k]) + f(k, v)
  {
    SumByRemove(m, f, k);
    SumByRemove(m[k := v], f, k);
    assert m[k := v] - {k} == m - {k};
  }

  lemma {:induction false} SumByZero<V>(m: map<string, V>, f: (string, V) -> int)
    requires forall k :: k in m ==> f(k, m[k]) == 0
    ensures SumBy(m, f) == 0
    decreases |m.Keys|
  {
    if m != map[] {
      SumByZero(m - {Pick(m)}, f);
    }
  }

  /** The sum of a per-channel figure over every channel of every device. */
  ghost function InDevice(f: (string, ChannelState) -> int): (string, DeviceState) -> int {
    (d: string, dev: DeviceState) => SumBy(dev, f)
  }

  ghost function SumOver(state: map<string, DeviceState>, f: (string, ChannelState) -> int): int {
    SumBy(state, InDevice(f))
  }

  function FileCountOf(c: string, s: ChannelState): int { s.fileCount }
  function FileSizeOf(c: string, s: ChannelState): int { s.fileSize }
  function WeightedTimeOf(c: string, s: ChannelState): int { Weight(c) * s.recordedTime }

  /** The total's counters are the sums of the channels' counters, and
      its recorded time weighs each stereo channel twice. */
  ghost predicate Balanced(ts: TotalState) {
    && ts.total.fileCount == SumOver(ts.state, FileCountOf)
    && ts.total.fileSize == SumOver(ts.state, FileSizeOf)
    && ts.total.recordedTime == SumOver(ts.state, WeightedTimeOf)
  }

  /** Replacing one channel's state moves a sum by the difference. */
  lemma SumOverUpdate(state: map<string, DeviceState>, f: (string, ChannelState) -> int, d: string, c: string, s: ChannelState)
    requires d in state && c in state[d]
    ensures SumOver(state[d := state[d][c := s]], f) == SumOver(state, f) - f(c, state[d][c]) + f(c, s)
  {
    SumByUpdate(state, InDevice(f), d, state[d][c := s]);
    SumByUpdate(state[d], f, c, s);
  }

  lemma SumOverZero(state: map<string, DeviceState>, f: (string, ChannelState) -> int)
    requires forall d :: d in state ==> forall c :: c in state[d] ==> f(c, state[d][c]) == 0
    ensures SumOver(state, f) == 0
  {
    forall d | d in state
      ensures InDevice(f)(d, state[d]) == 0
    {
      SumByZero(state[d], f);
    }
    SumByZero(state, InDevice(f));
  }

  /** A fresh `TotalState` is balanced. */
  lemma InitBalanced(tracks: seq<(string, seq<string>)>, now: int)
    ensures Balanced(Init(tracks, now))
  {
    var ts := Init(tracks, now);
    SumOverZero(ts.state, FileCountOf);
    SumOverZero(ts.state, FileSizeOf);
    SumOverZero(ts.state, WeightedTimeOf);
  }

  lemma MergeBalanced(ts: TotalState, u: Report)
    requires Balanced(ts)
    ensures Balanced(Merge(ts, u).after)
  {
    if Merge(ts, u).Updated? {
      var e := ts.state[u.device][u.channel];
      var s := Add(e, u.state);
      SumOverUpdate(ts.state, FileCountOf, u.device, u.channel, s);
      SumOverUpdate(ts.state, FileSizeOf, u.device, u.channel, s);
      SumOverUpdate(ts.state, WeightedTimeOf, u.device, u.channel, s);
    }
  }

  /** `update` keeps the total balanced against the channels, whether it
      completes or stops at a `KeyError`. */
  lemma {:induction false} ApplyBalanced(ts: TotalState, us: seq<Report>)
    requires Balanced(ts)
    ensures Balanced(Apply(ts, us).after)
    decreases |us|
  {
    if us != [] {
      ApplyBalanced(ts, us[..|us| - 1]);
      match Apply(ts, us[..|us| - 1])
      case KeyError(_, _) =>
      case Updated(t) => MergeBalanced(t, us[|us| - 1]);
    }
  }
}
