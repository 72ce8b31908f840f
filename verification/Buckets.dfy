/**
  The bucketed hash map of src/uvm/lhashmap.cpp on values: 96 lists of entries, a put that appends
  without looking, a delete that moves the last entry into the gap.  A finite map is what it stands
  for, as long as no key is put while it is present.
 */
module Buckets {
  import opened Options
  import opened Locks
  import opened Arith

  datatype Entry<K, V> = Entry(key: K, data: V, hash: nat)

  type Bucket<K, V> = seq<Entry<K, V>>

  const BUCKETS: nat := 96

  /** LHashmap_get_node: the first entry of the key, or -1. */
  function Position<K(==), V>(s: Bucket<K, V>, hash: nat, key: K): (r: int)
    ensures -1 <= r < |s|
    ensures r >= 0 ==> s[r].hash == hash && s[r].key == key
    ensures forall i :: 0 <= i < (if r < 0 then |s| else r) ==> !(s[i].hash == hash && s[i].key == key)
  {
    if |s| == 0 then -1
    else
      var before := Position(s[..|s| - 1], hash, key);
      if before >= 0 then before
      else if s[|s| - 1].hash == hash && s[|s| - 1].key == key then |s| - 1 else -1
  }

  lemma FirstAt<K, V>(s: Bucket<K, V>, hash: nat, key: K, i: nat)
    requires i < |s| && Position(s[..i], hash, key) == -1 && s[i].hash == hash && s[i].key == key
    ensures Position(s, hash, key) == i
  {
    forall j | 0 <= j < i ensures !(s[j].hash == hash && s[j].key == key) {
      assert s[..i][j] == s[j];
    }
  }

  function Found<K(==), V>(s: Bucket<K, V>, hash: nat, key: K): Option<V> {
    var i := Position(s, hash, key);
    if i < 0 then None else Some(s[i].data)
  }

  /** The last entry takes the place of entry `i`. */
  function Swapped<K, V>(s: Bucket<K, V>, i: nat): (r: Bucket<K, V>)
    requires i < |s|
    ensures |r| == |s| - 1
  {
    s[i := s[|s| - 1]][..|s| - 1]
  }

  /** The whole table, by bucket. */
  type Table<K, V> = t: seq<Bucket<K, V>> | |t| == BUCKETS witness seq(BUCKETS, _ => [])

  function Empty<K, V>(): Table<K, V> {
    seq(BUCKETS, _ => [])
  }

  function Home<K, V>(t: Table<K, V>, hash: K -> nat, key: K): Bucket<K, V> {
    t[hash(key) % BUCKETS]
  }

  function Get<K(==), V>(t: Table<K, V>, hash: K -> nat, key: K): Option<V> {
    Found(Home(t, hash, key), hash(key), key)
  }

  function Put<K, V>(t: Table<K, V>, hash: K -> nat, key: K, data: V): Table<K, V> {
    t[hash(key) % BUCKETS := Home(t, hash, key) + [Entry(key, data, hash(key))]]
  }

  function Delete<K(==), V>(t: Table<K, V>, hash: K -> nat, key: K): Table<K, V> {
    var s := Home(t, hash, key);
    var i := Position(s, hash(key), key);
    if i < 0 then t else t[hash(key) % BUCKETS := Swapped(s, i)]
  }

  // ---------- what a table stands for ----------

  /** Every entry sits in the bucket of its hash. */
  ghost predicate Housed<K(!new), V(!new)>(t: Table<K, V>, hash: K -> nat) {
    forall b, i :: 0 <= b < BUCKETS && 0 <= i < |t[b]| ==>
      t[b][i].hash == hash(t[b][i].key) && t[b][i].hash % BUCKETS == b
  }

  /** No bucket holds a key twice. */
  ghost predicate Single<K, V>(s: Bucket<K, V>) {
    forall i, j :: 0 <= i < j < |s| ==> s[i].key != s[j].key
  }

  ghost predicate Shows<K(!new), V(!new)>(t: Table<K, V>, hash: K -> nat, m: map<K, V>) {
    forall n: nat {:trigger Key(n)} :: Open(n) ==>
      && Housed(t, hash)
      && (forall b :: 0 <= b < BUCKETS ==> Single(t[b]))
      && forall k :: Get(t, hash, k) == MapGet(m, k)
  }

  function MapGet<K(==), V>(m: map<K, V>, key: K): Option<V> {
    if key in m then Some(m[key]) else None
  }

  lemma GetShows<K(!new), V(!new)>(t: Table<K, V>, hash: K -> nat, m: map<K, V>, key: K)
    requires Shows(t, hash, m)
    ensures Get(t, hash, key) == MapGet(m, key)
  {
    assert Key(0) && Open(0);
  }

  lemma EmptyShows<K(!new), V(!new)>(hash: K -> nat)
    ensures Shows(Empty<K, V>(), hash, map[])
  {
    var t := Empty<K, V>();
    forall k ensures Get(t, hash, k) == MapGet(map[], k) {
    }
    assert Housed(t, hash) && forall b :: 0 <= b < BUCKETS ==> Single(t[b]);
    assert forall k :: Get(t, hash, k) == MapGet(map[], k);
  }

  /** An entry is put behind the others whose hashes are the same modulo 96. */
  lemma PutPlaces<K, V>(t: Table<K, V>, hash: K -> nat, key: K, data: V, b: nat)
    requires b < 96
    ensures |Put(t, hash, key, data)| == |t| == 96
    ensures Put(t, hash, key, data)[b] == if hash(key) % 96 == b then t[b] + [Entry(key, data, hash(key))] else t[b]
  {
  }

  // ---------- one bucket ----------

  lemma FoundAppended<K, V>(s: Bucket<K, V>, e: Entry<K, V>, hash: nat, key: K)
    ensures Found(s + [e], hash, key) ==
            if Position(s, hash, key) >= 0 then Found(s, hash, key)
            else if e.hash == hash && e.key == key then Some(e.data) else None
  {
    assert (s + [e])[..|s|] == s;
  }

  lemma SwappedEntries<K, V>(s: Bucket<K, V>, i: nat, j: nat)
    requires i < |s| && j < |s| - 1
    ensures Swapped(s, i)[j] == s[if j == i then |s| - 1 else j]
  {
  }

  lemma SingleSwapped<K, V>(s: Bucket<K, V>, i: nat)
    requires Single(s) && i < |s|
    ensures Single(Swapped(s, i))
  {
    forall a, b | 0 <= a < b < |s| - 1 ensures Swapped(s, i)[a].key != Swapped(s, i)[b].key {
      SwappedEntries(s, i, a);
      SwappedEntries(s, i, b);
    }
  }

  /** Where keys occur once, finding one is finding its entry, wherever it is. */
  lemma FoundIs<K, V>(s: Bucket<K, V>, hash: nat, key: K, i: nat)
    requires Single(s) && i < |s| && s[i].hash == hash && s[i].key == key
    ensures Found(s, hash, key) == Some(s[i].data)
  {
  }

  lemma FoundSwapped<K, V>(s: Bucket<K, V>, i: nat, hash: nat, key: K)
    requires Single(s) && i < |s|
    ensures Found(Swapped(s, i), hash, key) == if key == s[i].key then None else Found(s, hash, key)
  {
    var r := Swapped(s, i);
    SingleSwapped(s, i);
    var p, q := Position(s, hash, key), Position(r, hash, key);
    if q >= 0 {
      SwappedEntries(s, i, q);
      FoundIs(s, hash, key, if q == i then |s| - 1 else q);
    } else if p >= 0 && p != i {
      var at := if p == |s| - 1 then i else p;
      SwappedEntries(s, i, at);
    }
  }

  // ---------- the operations ----------

  lemma PutShows<K(!new), V(!new)>(t: Table<K, V>, hash: K -> nat, m: map<K, V>, key: K, data: V)
    requires Shows(t, hash, m) && key !in m
    ensures Shows(Put(t, hash, key, data), hash, m[key := data])
  {
    assert Key(0) && Open(0);
    var r := Put(t, hash, key, data);
    var s, e := Home(t, hash, key), Entry(key, data, hash(key));
    forall k ensures Get(r, hash, k) == MapGet(m[key := data], k) {
      assert Get(t, hash, k) == MapGet(m, k);
      FoundAppended(s, e, hash(k), k);
    }
    assert Get(t, hash, key) == None;
    assert Single(s + [e]);
  }

  lemma DeleteShows<K(!new), V(!new)>(t: Table<K, V>, hash: K -> nat, m: map<K, V>, key: K)
    requires Shows(t, hash, m)
    ensures Shows(Delete(t, hash, key), hash, m - {key})
    ensures key !in m ==> Delete(t, hash, key) == t
  {
    assert Key(0) && Open(0);
    var s := Home(t, hash, key);
    var i := Position(s, hash(key), key);
    assert Get(t, hash, key) == MapGet(m, key);
    if i < 0 {
      assert m - {key} == m;
    } else {
      var r := Delete(t, hash, key);
      SingleSwapped(s, i);
      forall k ensures Get(r, hash, k) == MapGet(m - {key}, k) {
        assert Get(t, hash, k) == MapGet(m, k);
        FoundSwapped(s, i, hash(k), k);
      }
      forall j | 0 <= j < |s| - 1 ensures Swapped(s, i)[j] in s {
        SwappedEntries(s, i, j);
      }
    }
  }

  /** A put is seen by the next get exactly when the key was absent or already had that value: the put
      does not replace. */
  lemma PutThenGet<K, V>(t: Table<K, V>, hash: K -> nat, key: K, data: V)
    ensures Get(Put(t, hash, key, data), hash, key) == Some(data) <==>
            Get(t, hash, key) == None || Get(t, hash, key) == Some(data)
  {
    FoundAppended(Home(t, hash, key), Entry(key, data, hash(key)), hash(key), key);
  }

  /** What goes wrong when a key is put twice: the first value stays, and deleting it brings the second
      to light. */
  lemma PutTwice<K, V>(hash: K -> nat, key: K, one: V, two: V)
    requires one != two
    ensures var t := Put(Put(Empty(), hash, key, one), hash, key, two);
            Get(t, hash, key) == Some(one) && Get(Delete(t, hash, key), hash, key) == Some(two)
  {
    var h := hash(key);
    var a, b := Entry(key, one, h), Entry(key, two, h);
    Pair(a, b);
    var t := Put(Put(Empty(), hash, key, one), hash, key, two);
    assert Home(Put(Empty(), hash, key, one), hash, key) == [a];
    assert Home(t, hash, key) == [a] + [b];
    assert Home(Delete(t, hash, key), hash, key) == [b];
  }

  lemma Pair<K, V>(a: Entry<K, V>, b: Entry<K, V>)
    requires a.key == b.key && a.hash == b.hash
    ensures Position([a] + [b], a.hash, a.key) == 0 && Found([a] + [b], a.hash, a.key) == Some(a.data)
    ensures Swapped([a] + [b], 0) == [b] && Found([b], a.hash, a.key) == Some(b.data)
  {
    FoundAppended([], a, a.hash, a.key);
    FoundAppended([a], b, a.hash, a.key);
    FoundAppended([], b, a.hash, a.key);
    assert [] + [a] == [a] && [] + [b] == [b];
  }

  // ---------- whole runs ----------

  datatype Op<K, V> = DoPut(key: K, data: V) | DoGet(key: K) | DoDelete(key: K)

  function Answers<K(==), V>(t: Table<K, V>, hash: K -> nat, ops: seq<Op<K, V>>): seq<Option<V>>
    decreases |ops|
  {
    if |ops| == 0 then []
    else match ops[0]
      case DoPut(k, v) => [None] + Answers(Put(t, hash, k, v), hash, ops[1..])
      case DoGet(k) => [Get(t, hash, k)] + Answers(t, hash, ops[1..])
      case DoDelete(k) => [Get(t, hash, k)] + Answers(Delete(t, hash, k), hash, ops[1..])
  }

  /** The same on a map. */
  function MapAnswers<K(==), V>(m: map<K, V>, ops: seq<Op<K, V>>): seq<Option<V>>
    decreases |ops|
  {
    if |ops| == 0 then []
    else match ops[0]
      case DoPut(k, v) => [None] + MapAnswers(m[k := v], ops[1..])
      case DoGet(k) => [MapGet(m, k)] + MapAnswers(m, ops[1..])
      case DoDelete(k) => [MapGet(m, k)] + MapAnswers(m - {k}, ops[1..])
  }

  /** No key is put while it is present. */
  ghost predicate Careful<K, V>(keys: set<K>, ops: seq<Op<K, V>>)
    decreases |ops|
  {
    |ops| == 0 ||
    match ops[0]
    case DoPut(k, _) => k !in keys && Careful(keys + {k}, ops[1..])
    case DoGet(_) => Careful(keys, ops[1..])
    case DoDelete(k) => Careful(keys - {k}, ops[1..])
  }

  /** Every answer of every careful run is the finite map's. */
  lemma {:induction false} RunsAsMap<K(!new), V(!new)>(t: Table<K, V>, hash: K -> nat, m: map<K, V>, ops: seq<Op<K, V>>)
    requires Shows(t, hash, m) && Careful(m.Keys, ops)
    ensures Answers(t, hash, ops) == MapAnswers(m, ops)
    decreases |ops|
  {
    if |ops| > 0 {
      match ops[0]
      case DoPut(k, v) =>
        PutShows(t, hash, m, k, v);
        assert m[k := v].Keys == m.Keys + {k};
        RunsAsMap(Put(t, hash, k, v), hash, m[k := v], ops[1..]);
      case DoGet(k) =>
        GetShows(t, hash, m, k);
        RunsAsMap(t, hash, m, ops[1..]);
      case DoDelete(k) =>
        DeleteShows(t, hash, m, k);
        GetShows(t, hash, m, k);
        assert (m - {k}).Keys == m.Keys - {k};
        RunsAsMap(Delete(t, hash, k), hash, m - {k}, ops[1..]);
    }
  }

  /** So from the empty table, every run that puts a key only while it is absent runs as the map does. */
  lemma RunsFromEmpty<K(!new), V(!new)>(hash: K -> nat, ops: seq<Op<K, V>>)
    requires Careful({}, ops)
    ensures Answers(Empty(), hash, ops) == MapAnswers(map[], ops)
  {
    var m: map<K, V> := map[];
    EmptyShows<K, V>(hash);
    assert m.Keys == {};
    RunsAsMap(Empty(), hash, m, ops);
  }
}
