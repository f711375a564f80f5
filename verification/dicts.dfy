/** Python's insertion-ordered `dict` with string keys, as a sequence of
    key/value pairs. Assigning to an existing key keeps its position and
    replaces its value; a new key goes at the end. */
module Dicts {
  import opened Wrappers

  type Dict<V> = seq<(string, V)>

  function Keys<V>(d: Dict<V>): (ks: set<string>)
  {
    if d == [] then {} else {d[0].0} + Keys(d[1..])
  }

  lemma {:induction false} KeysIndex<V>(d: Dict<V>, k: string)
    ensures k in Keys(d) <==> exists i :: 0 <= i < |d| && d[i].0 == k
  {
    if d != [] {
      KeysIndex(d[1..], k);
      if k in Keys(d[1..]) {
        var i :| 0 <= i < |d| - 1 && d[1..][i].0 == k;
        assert d[i + 1].0 == k;
      }
      if exists i :: 0 <= i < |d| && d[i].0 == k {
        var i :| 0 <= i < |d| && d[i].0 == k;
        if i > 0 {
          assert d[1..][i - 1].0 == k;
        }
      }
    }
  }

  lemma {:induction false} KeysAppend<V>(a: Dict<V>, b: Dict<V>)
    ensures Keys(a + b) == Keys(a) + Keys(b)
  {
    if a != [] {
      assert (a + b)[1..] == a[1..] + b;
      KeysAppend(a[1..], b);
    } else {
      assert a + b == b;
    }
  }

  /** `d.get(k)`: the value under the first occurrence of `k`. */
  function Get<V>(d: Dict<V>, k: string): (r: Option<V>)
    ensures r.Some? <==> k in Keys(d)
    ensures r.Some? ==> (k, r.value) in d
  {
    if d == [] then None
    else if d[0].0 == k then Some(d[0].1)
    else Get(d[1..], k)
  }

  predicate DistinctKeys<V>(d: Dict<V>) {
    forall i, j :: 0 <= i < j < |d| ==> d[i].0 != d[j].0
  }

  /** The keys of a dict are the first components of its pairs. */
  lemma KeysAsSet<V>(d: Dict<V>)
    ensures Keys(d) == set i | 0 <= i < |d| :: d[i].0
  {
    forall k
      ensures k in Keys(d) <==> exists i :: 0 <= i < |d| && d[i].0 == k
    {
      KeysIndex(d, k);
    }
  }

  /** A pair put in front of a dict without its key keeps keys distinct. */
  lemma ConsDistinct<V>(x: (string, V), d: Dict<V>)
    requires DistinctKeys(d) && x.0 !in Keys(d)
    ensures DistinctKeys([x] + d)
  {
    forall j | 0 <= j < |d|
      ensures d[j].0 != x.0
    {
      KeysIndex(d, d[j].0);
    }
  }

  /** `d[k] = v` */
  function Insert<V>(d: Dict<V>, k: string, v: V): (r: Dict<V>)
    requires DistinctKeys(d)
    ensures DistinctKeys(r)
    ensures Keys(r) == Keys(d) + {k}
    ensures k !in Keys(d) ==> r == d + [(k, v)]
  {
    if d == [] then [(k, v)]
    else
      var tail := d[1..];
      TailDistinct(d);
      assert d[0].0 !in Keys(tail) by {
        KeysIndex(tail, d[0].0);
        assert forall i :: 0 <= i < |tail| ==> tail[i].0 == d[i + 1].0;
      }
      if d[0].0 == k then
        ConsDistinct((k, v), tail);
        [(k, v)] + tail
      else
        var rest := Insert(tail, k, v);
        ConsDistinct(d[0], rest);
        assert d == [d[0]] + tail;
        [d[0]] + rest
  }

  /** The keys of a dict in order. */
  function KeySeq<V>(d: Dict<V>): (ks: seq<string>)
    ensures |ks| == |d| && forall i :: 0 <= i < |d| ==> ks[i] == d[i].0
  {
    seq(|d|, i requires 0 <= i < |d| => d[i].0)
  }

  /** Each string of `ks` once, in the order of its first occurrence. */
  function FirstKeys(ks: seq<string>): seq<string> {
    if ks == [] then []
    else
      var init := ks[..|ks| - 1];
      if ks[|ks| - 1] in init then FirstKeys(init) else FirstKeys(init) + [ks[|ks| - 1]]
  }

  /** No later pair of `ps` has the key of the `i`-th. */
  predicate LastOfKey<V>(ps: seq<(string, V)>, i: int)
    requires 0 <= i < |ps|
  {
    forall j :: i < j < |ps| ==> ps[j].0 != ps[i].0
  }

  lemma TailDistinct<V>(d: Dict<V>)
    requires d != [] && DistinctKeys(d)
    ensures DistinctKeys(d[1..])
  {
    var tail := d[1..];
    assert forall i :: 0 <= i < |tail| ==> tail[i].0 == d[i + 1].0;
  }

  /** `d[k] = v` holds `(k, v)`. */
  lemma {:induction false} InsertHas<V>(d: Dict<V>, k: string, v: V)
    requires DistinctKeys(d)
    ensures (k, v) in Insert(d, k, v)
  {
    if d != [] && d[0].0 != k {
      TailDistinct(d);
      InsertHas(d[1..], k, v);
      assert Insert(d, k, v) == [d[0]] + Insert(d[1..], k, v);
    }
  }

  /** `d[k] = v` keeps every pair under another key. */
  lemma {:induction false} InsertKeeps<V>(d: Dict<V>, k: string, v: V, p: (string, V))
    requires DistinctKeys(d)
    ensures p in d && p.0 != k ==> p in Insert(d, k, v)
  {
    if d != [] && p in d && p.0 != k {
      TailDistinct(d);
      var r := Insert(d, k, v);
      if d[0].0 == k {
        assert r == [(k, v)] + d[1..];
        assert d == [d[0]] + d[1..];
      } else {
        assert r == [d[0]] + Insert(d[1..], k, v);
        if p != d[0] {
          assert d == [d[0]] + d[1..];
          InsertKeeps(d[1..], k, v, p);
        }
      }
    }
  }

  /** `d[k] = v` on a key already there keeps the keys in their order. */
  lemma {:induction false} InsertKeepsOrder<V>(d: Dict<V>, k: string, v: V)
    requires DistinctKeys(d)
    ensures k in Keys(d) ==> KeySeq(Insert(d, k, v)) == KeySeq(d)
  {
    if d != [] && k in Keys(d) {
      TailDistinct(d);
      var r := Insert(d, k, v);
      if d[0].0 == k {
        assert r == [(k, v)] + d[1..];
      } else {
        var rest := Insert(d[1..], k, v);
        assert r == [d[0]] + rest;
        assert k in Keys(d[1..]);
        InsertKeepsOrder(d[1..], k, v);
        assert KeySeq(r) == [d[0].0] + KeySeq(rest);
        assert KeySeq(d) == [d[0].0] + KeySeq(d[1..]);
      }
    }
  }

  /** `dict(pairs)`: later pairs overwrite earlier ones with the same key. */
  function FromPairs<V>(ps: seq<(string, V)>): (r: Dict<V>)
    ensures DistinctKeys(r)
    ensures Keys(r) == Keys(ps)
  {
    if ps == [] then []
    else
      var init := ps[..|ps| - 1];
      assert init + [ps[|ps| - 1]] == ps;
      KeysAppend(init, [ps[|ps| - 1]]);
      Insert(FromPairs(init), ps[|ps| - 1].0, ps[|ps| - 1].1)
  }

  lemma {:induction false} FromPairsValue<V>(ps: seq<(string, V)>, i: int)
    requires 0 <= i < |ps| && LastOfKey(ps, i)
    ensures ps[i] in FromPairs(ps)
  {
    var n := |ps|;
    var init := ps[..n - 1];
    var (k, v) := ps[n - 1];
    var d := FromPairs(init);
    assert FromPairs(ps) == Insert(d, k, v);
    if i == n - 1 {
      InsertHas(d, k, v);
    } else {
      assert ps[i].0 != k;
      assert init[i] == ps[i];
      assert LastOfKey(init, i);
      FromPairsValue(init, i);
      InsertKeeps(d, k, v, ps[i]);
    }
  }

  /** In `dict(pairs)` every key takes the value of its last pair. */
  lemma FromPairsValues<V>(ps: seq<(string, V)>)
    ensures forall i :: 0 <= i < |ps| && LastOfKey(ps, i) ==> ps[i] in FromPairs(ps)
  {
    forall i | 0 <= i < |ps| && LastOfKey(ps, i)
      ensures ps[i] in FromPairs(ps)
    {
      FromPairsValue(ps, i);
    }
  }

  /** In `dict(pairs)` every key keeps the position of its first pair. */
  lemma {:induction false} FromPairsOrder<V>(ps: seq<(string, V)>)
    ensures KeySeq(FromPairs(ps)) == FirstKeys(KeySeq(ps))
  {
    if ps != [] {
      var n := |ps|;
      var init := ps[..n - 1];
      var (k, v) := ps[n - 1];
      var d := FromPairs(init);
      FromPairsOrder(init);
      assert FromPairs(ps) == Insert(d, k, v);
      InsertKeepsOrder(d, k, v);
      KeysIndex(init, k);
      var ks := KeySeq(ps);
      assert ks[..n - 1] == KeySeq(init);
      assert ks[n - 1] == k;
      assert k in Keys(init) <==> k in KeySeq(init);
      if k !in Keys(init) {
        assert Insert(d, k, v) == d + [(k, v)];
        assert KeySeq(d + [(k, v)]) == KeySeq(d) + [k];
      }
    }
  }

  /** When no key repeats, `dict(pairs)` keeps the pairs as they are. */
  lemma {:induction false} FromDistinctPairs<V>(ps: seq<(string, V)>)
    requires DistinctKeys(ps)
    ensures FromPairs(ps) == ps
  {
    if ps != [] {
      var init := ps[..|ps| - 1];
      FromDistinctPairs(init);
      KeysIndex(init, ps[|ps| - 1].0);
      assert ps[|ps| - 1].0 !in Keys(init);
      assert init + [ps[|ps| - 1]] == ps;
    }
  }
}
