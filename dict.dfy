/**
 * A Python `dict` with string keys, as the application stores both result
 * tables: a sequence of entries in insertion order (the order `items()`
 * walks them) whose keys are pairwise distinct.
 */
module Dict {
  import opened Optional

  datatype Entry<V> = Entry(key: string, value: V)

  type Table<V> = seq<Entry<V>>

  /** The invariant every Python dict keeps: no key occurs twice. */
  predicate DistinctKeys<V>(d: Table<V>) {
    forall i, j :: 0 <= i < j < |d| ==> d[i].key != d[j].key
  }

  /** The set of keys of the table. */
  function Keys<V>(d: Table<V>): (ks: set<string>)
  {
    set i | 0 <= i < |d| :: d[i].key
  }

  /** `d.get(k)`: the value stored under `k`, if any. */
  function Get<V>(d: Table<V>, k: string): (r: Option<V>)
    ensures r.None? <==> k !in Keys(d)
    ensures r.Some? ==> exists i :: 0 <= i < |d| && d[i] == Entry(k, r.value)
  {
    if d == [] then None
    else
      KeysCons(d[0], d[1..]);
      assert d == [d[0]] + d[1..];
      if d[0].key == k then Some(d[0].value)
      else Get(d[1..], k)
  }

  /** `d[k] = v`: an existing key keeps its place and takes the new value,
      a new key is appended at the end. */
  function Assign<V>(d: Table<V>, k: string, v: V): (r: Table<V>)
    ensures Keys(r) == Keys(d) + {k}
    ensures k in Keys(d) ==> |r| == |d|
    ensures k !in Keys(d) ==> r == d + [Entry(k, v)]
  {
    if d == [] then
      KeysCons(Entry(k, v), d);
      assert [Entry(k, v)] + d == [Entry(k, v)];
      [Entry(k, v)]
    else if d[0].key == k then
      KeysCons(Entry(k, v), d[1..]);
      KeysCons(d[0], d[1..]);
      assert d == [d[0]] + d[1..];
      [Entry(k, v)] + d[1..]
    else
      var rest := Assign(d[1..], k, v);
      KeysCons(d[0], rest);
      KeysCons(d[0], d[1..]);
      assert d == [d[0]] + d[1..];
      assert k in Keys(d) <==> k in Keys(d[1..]);
      [d[0]] + rest
  }

  /** `d[k] = v` on a dict that already holds `k` replaces that entry where it
      stands and leaves every other entry in its place. */
  lemma {:induction false} AssignInPlace<V>(d: Table<V>, k: string, v: V)
    requires DistinctKeys(d) && k in Keys(d)
    ensures |Assign(d, k, v)| == |d|
    ensures forall i :: 0 <= i < |d| ==> Assign(d, k, v)[i] == if d[i].key == k then Entry(k, v) else d[i]
    decreases |d|
  {
    var r := Assign(d, k, v);
    DistinctTail(d);
    if d[0].key != k {
      KeysCons(d[0], d[1..]);
      assert d == [d[0]] + d[1..];
      AssignInPlace(d[1..], k, v);
      assert r == [d[0]] + Assign(d[1..], k, v);
      forall i | 1 <= i < |d| ensures r[i] == if d[i].key == k then Entry(k, v) else d[i] {
        assert d[i] == d[1..][i - 1];
      }
    }
  }

  /** The entries after the first of a dict with distinct keys have distinct
      keys, none of them the first entry's key. */
  lemma DistinctTail<V>(d: Table<V>)
    requires d != []
    ensures DistinctKeys(d) ==> DistinctKeys(d[1..])
    ensures DistinctKeys(d) ==> forall i :: 1 <= i < |d| ==> d[i].key != d[0].key
  {
    if DistinctKeys(d) {
      var tail := d[1..];
      forall i, j | 0 <= i < j < |tail| ensures tail[i].key != tail[j].key {
        assert tail[i] == d[i + 1] && tail[j] == d[j + 1];
      }
    }
  }

  lemma KeysCons<V>(e: Entry<V>, d: Table<V>)
    ensures Keys([e] + d) == {e.key} + Keys(d)
  {
    var s := [e] + d;
    forall k ensures k in Keys(s) <==> k in {e.key} + Keys(d) {
      if k in Keys(s) {
        var i :| 0 <= i < |s| && s[i].key == k;
        if i > 0 {
          assert d[i - 1].key == k;
        }
      }
      if k in Keys(d) {
        var i :| 0 <= i < |d| && d[i].key == k;
        assert s[i + 1].key == k;
      }
      assert s[0].key == e.key;
    }
  }

  /** After `d[k] = v`, looking up `k` gives `v` and every other key gives what it gave before. */
  lemma {:induction false} GetAfterAssign<V>(d: Table<V>, k: string, v: V, k': string)
    ensures Get(Assign(d, k, v), k') == if k' == k then Some(v) else Get(d, k')
    decreases |d|
  {
    if d != [] && d[0].key != k {
      GetAfterAssign(d[1..], k, v, k');
    }
  }

  /** `d[k] = v` keeps the keys of the table distinct. */
  lemma {:induction false} AssignKeepsDistinct<V>(d: Table<V>, k: string, v: V)
    requires DistinctKeys(d)
    ensures DistinctKeys(Assign(d, k, v))
    decreases |d|
  {
    if d != [] && d[0].key != k {
      var tail := d[1..];
      assert DistinctKeys(tail) by {
        forall i, j | 0 <= i < j < |tail| ensures tail[i].key != tail[j].key {
          assert tail[i] == d[i + 1] && tail[j] == d[j + 1];
        }
      }
      AssignKeepsDistinct(tail, k, v);
      var rest := Assign(tail, k, v);
      var r := Assign(d, k, v);
      assert r == [d[0]] + rest;
      forall i | 0 <= i < |tail| ensures tail[i].key != d[0].key {
        assert tail[i] == d[i + 1];
      }
      assert d[0].key !in Keys(tail);
      forall j | 0 <= j < |rest| ensures d[0].key != rest[j].key {
        assert rest[j].key in Keys(rest);
      }
    }
  }
}
