/** PHP arrays with string keys: entries kept in insertion order, each key at most once. */
module Assoc {
  import opened Wrappers

  datatype Entry<V> = Entry(key: string, val: V)

  predicate UniqueKeys<V>(m: seq<Entry<V>>) {
    forall a, b :: 0 <= a < b < |m| ==> m[a].key != m[b].key
  }

  /** The position of `k`, if it is a key. */
  function Find<V>(m: seq<Entry<V>>, k: string): (r: Option<nat>)
    ensures r.Some? ==> r.value < |m| && m[r.value].key == k
    ensures r.None? ==> forall a :: 0 <= a < |m| ==> m[a].key != k
  {
    if m == [] then None
    else match Find(m[..|m| - 1], k)
      case Some(a) => Some(a)
      case None => if m[|m| - 1].key == k then Some(|m| - 1) else None
  }

  /** `$m[$k]`, or None when `k` is not a key. */
  function Get<V>(m: seq<Entry<V>>, k: string): Option<V> {
    match Find(m, k)
    case Some(a) => Some(m[a].val)
    case None => None
  }

  /** `$m[$k] = $v`: an existing key keeps its place and takes the new value; a new key goes last. */
  function Put<V>(m: seq<Entry<V>>, k: string, v: V): seq<Entry<V>> {
    match Find(m, k)
    case Some(a) => m[a := Entry(k, v)]
    case None => m + [Entry(k, v)]
  }

  /** A key is present exactly when some entry has it, and then its value is that entry's. */
  lemma GetSome<V>(m: seq<Entry<V>>, k: string)
    ensures Get(m, k).Some? <==> exists a :: 0 <= a < |m| && m[a].key == k
    ensures Get(m, k).Some? ==> exists a :: 0 <= a < |m| && m[a] == Entry(k, Get(m, k).value)
  {
  }

  /**
   * Assignment: afterwards `k` maps to `v` and every other key to what it did before; an
   * existing key stays in its place, a new one is appended; keys stay unique.
   */
  lemma PutSpec<V>(m: seq<Entry<V>>, k: string, v: V)
    ensures UniqueKeys(m) ==> UniqueKeys(Put(m, k, v)) && Get(Put(m, k, v), k) == Some(v)
    ensures UniqueKeys(m) ==> forall k' :: k' != k ==> Get(Put(m, k, v), k') == Get(m, k')
    ensures Find(m, k).Some? ==> |Put(m, k, v)| == |m| && forall a :: 0 <= a < |m| ==> Put(m, k, v)[a].key == m[a].key
    ensures Find(m, k).None? ==> Put(m, k, v) == m + [Entry(k, v)]
  {
    var r := Put(m, k, v);
    match Find(m, k)
    case Some(a) =>
      if UniqueKeys(m) {
        FindUnique(r, a);
        forall k' | k' != k ensures Get(r, k') == Get(m, k') {
          FindOther(m, a, Entry(k, v), k');
        }
      }
    case None =>
      if UniqueKeys(m) {
        FindUnique(r, |m|);
      }
      forall k' | k' != k ensures Get(r, k') == Get(m, k') {
        assert r[..|r| - 1] == m;
      }
  }

  /** Looking a key up after an optional `$m[$k] = $v`. */
  lemma PutGetWhen<V>(m: seq<Entry<V>>, x: Entry<V>, c: bool, key: string)
    requires UniqueKeys(m)
    ensures Get(if c then Put(m, x.key, x.val) else m, key) == if c && x.key == key then Some(x.val) else Get(m, key)
  {
    PutSpec(m, x.key, x.val);
  }

  /** In a map with unique keys, the key at position `a` is found at `a`. */
  lemma {:induction false} FindUnique<V>(m: seq<Entry<V>>, a: nat)
    requires a < |m| && UniqueKeys(m)
    ensures Find(m, m[a].key) == Some(a)
  {
    var f := Find(m, m[a].key);
    assert f.Some?;
  }

  /** Overwriting the entry at `a` with one of the same key does not move any other key. */
  lemma {:induction false} FindOther<V>(m: seq<Entry<V>>, a: nat, x: Entry<V>, k': string)
    requires a < |m| && x.key == m[a].key && k' != x.key
    ensures Get(m[a := x], k') == Get(m, k')
    decreases |m|
  {
    var r := m[a := x];
    if a < |m| - 1 {
      assert r[..|r| - 1] == m[..|m| - 1][a := x];
      FindOther(m[..|m| - 1], a, x, k');
    } else {
      assert r[..|r| - 1] == m[..|m| - 1];
    }
  }

  /** `foreach ($xs as $x) if (keep($x)) $m[key] = val;` over the first `n` items, from an empty map. */
  function PutEach<T, V>(xs: seq<T>, n: nat, keep: T -> bool, entry: T -> Entry<V>): seq<Entry<V>>
    requires n <= |xs|
  {
    if n == 0 then []
    else
      var m := PutEach(xs, n - 1, keep, entry);
      if keep(xs[n - 1]) then Put(m, entry(xs[n - 1]).key, entry(xs[n - 1]).val) else m
  }

  /** Item `x` is put, under the key `key`. */
  predicate Keyed<T, V>(x: T, keep: T -> bool, entry: T -> Entry<V>, key: string) {
    keep(x) && entry(x).key == key
  }

  /** The last of the first `n` items put under `key`. */
  function LastKeyed<T, V>(xs: seq<T>, n: nat, keep: T -> bool, entry: T -> Entry<V>, key: string): (r: Option<nat>)
    requires n <= |xs|
    ensures r.Some? ==> r.value < n && Keyed(xs[r.value], keep, entry, key)
    ensures r.Some? ==> forall j :: r.value < j < n ==> !Keyed(xs[j], keep, entry, key)
    ensures r.None? ==> forall j :: 0 <= j < n ==> !Keyed(xs[j], keep, entry, key)
  {
    if n == 0 then None
    else if Keyed(xs[n - 1], keep, entry, key) then Some(n - 1)
    else LastKeyed(xs, n - 1, keep, entry, key)
  }

  /** The value item `r` puts, if any. */
  function ValueOf<T, V>(xs: seq<T>, r: Option<nat>, entry: T -> Entry<V>): Option<V>
    requires r.Some? ==> r.value < |xs|
  {
    match r
    case Some(j) => Some(entry(xs[j]).val)
    case None => None
  }

  /** The loop never records a key twice. */
  lemma {:induction false} PutEachUnique<T, V>(xs: seq<T>, n: nat, keep: T -> bool, entry: T -> Entry<V>)
    requires n <= |xs|
    ensures UniqueKeys(PutEach(xs, n, keep, entry))
  {
    if n > 0 {
      PutEachUnique(xs, n - 1, keep, entry);
      var x := entry(xs[n - 1]);
      PutSpec(PutEach(xs, n - 1, keep, entry), x.key, x.val);
    }
  }

  /** A key maps to the value of the last item put under it, and is absent when none was. */
  lemma {:induction false} PutEachGet<T, V>(xs: seq<T>, n: nat, keep: T -> bool, entry: T -> Entry<V>, key: string)
    requires n <= |xs|
    ensures Get(PutEach(xs, n, keep, entry), key) == ValueOf(xs, LastKeyed(xs, n, keep, entry, key), entry)
  {
    if n > 0 {
      PutEachGet(xs, n - 1, keep, entry, key);
      PutEachUnique(xs, n - 1, keep, entry);
      PutGetWhen(PutEach(xs, n - 1, keep, entry), entry(xs[n - 1]), keep(xs[n - 1]), key);
    }
  }
}
