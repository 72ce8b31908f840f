/**
  Decoding a map whose pairs come in any order, with keys repeated or not: it is the finite map in which the last
  value of each key wins (src/cborcpp/decoder.cpp:44-101, 560-600).
 */
module CborMaps {
  import opened Options
  import opened Locks
  import opened CborBytes
  import opened CborEncoder
  import opened CborDecoder
  import opened CborHeads
  import opened CborRoundTrip
  import opened CborWhole

  // ---------- std::map ----------

  /** The order of keys: a proper prefix, or smaller in the first byte that differs. */
  lemma {:induction false} LessIs(s: Bytes, t: Bytes)
    ensures Less(s, t) <==> exists i :: LessAt(s, t, i)
    decreases |s|
  {
    if s == [] || t == [] {
      if t != [] {
        assert LessAt(s, t, 0);
      }
    } else {
      LessIs(s[1..], t[1..]);
      LessTail(s, t);
    }
  }

  predicate LessAt(s: Bytes, t: Bytes, i: int) {
    0 <= i <= |s| && i < |t| && s[..i] == t[..i] && (i == |s| || s[i] < t[i])
  }

  lemma LessTail(s: Bytes, t: Bytes)
    requires s != [] && t != []
    ensures (exists i :: LessAt(s, t, i)) <==> s[0] < t[0] || (s[0] == t[0] && exists i :: LessAt(s[1..], t[1..], i))
  {
    if i :| LessAt(s, t, i) {
      if i > 0 {
        assert s[0] == s[..i][0] == t[..i][0] == t[0];
        assert s[1..][..i - 1] == s[..i][1..] && t[1..][..i - 1] == t[..i][1..];
        assert LessAt(s[1..], t[1..], i - 1);
      }
    }
    if s[0] < t[0] {
      assert LessAt(s, t, 0);
    } else if s[0] == t[0] {
      if i :| LessAt(s[1..], t[1..], i) {
        assert s[..i + 1] == [s[0]] + s[1..][..i] && t[..i + 1] == [t[0]] + t[1..][..i];
        assert LessAt(s, t, i + 1);
      }
    }
  }

  ghost predicate Ascending(entries: seq<Entry>) {
    forall i, j :: 0 <= i < j < |entries| ==> Less(entries[i].key, entries[j].key)
  }

  ghost predicate HasKey(entries: seq<Entry>, key: Bytes) {
    exists e :: e in entries && e.key == key
  }

  /** Insert is map_value[key] = value: the key has the new object, every other key keeps its own, and the keys
      stay in order. */
  lemma {:induction false} InsertIs(entries: seq<Entry>, key: Bytes, id: nat)
    requires Ascending(entries)
    ensures var r := Insert(entries, key, id);
      && Ascending(r)
      && (forall e :: e in r <==> e == Entry(key, id) || (e in entries && e.key != key))
      && |r| == |entries| + if HasKey(entries, key) then 0 else 1
    decreases |entries|
  {
    if entries != [] {
      var h, rest := entries[0], entries[1..];
      assert entries == [h] + rest;
      if h.key == key {
        InsertSame(entries, key, id);
      } else if Less(key, h.key) {
        InsertFirst(entries, key, id);
      } else {
        LessTotal(key, h.key);
        InsertIs(rest, key, id);
        InsertLater(entries, key, id, Insert(rest, key, id));
      }
    }
  }

  lemma NotTwice(entries: seq<Entry>, i: nat, j: nat)
    requires Ascending(entries) && i < |entries| && j < |entries| && entries[i].key == entries[j].key
    ensures i == j
  {
    LessTotal(entries[i].key, entries[i].key);
  }

  lemma InsertSame(entries: seq<Entry>, key: Bytes, id: nat)
    requires Ascending(entries) && entries != [] && entries[0].key == key
    ensures var r := [Entry(key, id)] + entries[1..];
      && Ascending(r) && HasKey(entries, key) && |r| == |entries|
      && forall e :: e in r <==> e == Entry(key, id) || (e in entries && e.key != key)
  {
    var r := [Entry(key, id)] + entries[1..];
    assert entries[0] in entries;
    forall i, j | 0 <= i < j < |r| ensures Less(r[i].key, r[j].key) {
      assert r[i].key == entries[i].key && r[j] == entries[j];
    }
    forall e | e in entries && e.key != key ensures e in r {
      var i :| 0 <= i < |entries| && entries[i] == e;
      assert r[i] == e;
    }
    forall e | e in entries[1..] ensures e in entries && e.key != key {
      var i :| 0 <= i < |entries[1..]| && entries[1..][i] == e;
      assert entries[i + 1] == e;
      if e.key == key {
        NotTwice(entries, 0, i + 1);
      }
    }
  }

  lemma InsertFirst(entries: seq<Entry>, key: Bytes, id: nat)
    requires Ascending(entries) && entries != [] && Less(key, entries[0].key)
    ensures var r := [Entry(key, id)] + entries;
      && Ascending(r) && !HasKey(entries, key)
      && forall e :: e in r <==> e == Entry(key, id) || (e in entries && e.key != key)
  {
    var r := [Entry(key, id)] + entries;
    LessTotal(key, key);
    forall j | 0 <= j < |entries| ensures Less(key, entries[j].key) && entries[j].key != key {
      if j > 0 {
        LessTrans(key, entries[0].key, entries[j].key);
      }
    }
    forall i, j | 0 <= i < j < |r| ensures Less(r[i].key, r[j].key) {
      assert r[j] == entries[j - 1] && (i > 0 ==> r[i] == entries[i - 1]);
    }
  }

  lemma InsertLater(entries: seq<Entry>, key: Bytes, id: nat, r: seq<Entry>)
    requires Ascending(entries) && entries != [] && Less(entries[0].key, key) && entries[0].key != key
    requires Ascending(r) && forall e :: e in r <==> e == Entry(key, id) || (e in entries[1..] && e.key != key)
    ensures Ascending([entries[0]] + r) && (HasKey(entries, key) <==> HasKey(entries[1..], key))
    ensures forall e :: e in [entries[0]] + r <==> e == Entry(key, id) || (e in entries && e.key != key)
  {
    var h, rest := entries[0], entries[1..];
    assert entries == [h] + rest;
    forall e | e in r ensures Less(h.key, e.key) {
      if e in rest {
        var i :| 0 <= i < |rest| && rest[i] == e;
        assert entries[i + 1] == e;
      }
    }
    Prepended(h, r);
    if e :| e in rest && e.key == key {
      assert e in entries;
    }
  }

  lemma Prepended(h: Entry, r: seq<Entry>)
    requires Ascending(r) && forall e :: e in r ==> Less(h.key, e.key)
    ensures Ascending([h] + r)
  {
    var s := [h] + r;
    forall i, j | 0 <= i < j < |s| ensures Less(s[i].key, s[j].key) {
      assert s[j] == r[j - 1] && r[j - 1] in r && (i > 0 ==> s[i] == r[i - 1]);
    }
  }

  // ---------- the last value of each key ----------

  /** The value that the last pair with this key has. */
  function LastValue(pairs: seq<Pair>, key: Bytes): Option<Cbor>
    decreases |pairs|
  {
    var n := |pairs| - 1;
    if pairs == [] then None
    else if pairs[n].key == key then Some(pairs[n].value)
    else LastValue(pairs[..n], key)
  }

  function KeysOf(pairs: seq<Pair>): set<Bytes> {
    set p | p in pairs :: p.key
  }

  /** The entries show the pairs: their keys, in order, and the last value of each. */
  ghost predicate ShowsPairs(nodes: seq<Node>, id: nat, entries: seq<Entry>, pairs: seq<Pair>) {
    && Ascending(entries) && |entries| == |KeysOf(pairs)|
    && (forall key :: key in KeysOf(pairs) <==> HasKey(entries, key))
    && forall e :: e in entries ==>
        id < e.id && LastValue(pairs, e.key).Some? && Shows(nodes, e.id, LastValue(pairs, e.key).value)
  }

  ghost predicate ShowsMap(nodes: seq<Node>, id: nat, pairs: seq<Pair>) {
    id < |nodes| && nodes[id].MapNode? && nodes[id].size == |KeysOf(pairs)| &&
      ShowsPairs(nodes, id, nodes[id].entries, pairs)
  }

  lemma KeysAdd(pairs: seq<Pair>, p: Pair)
    ensures KeysOf(pairs + [p]) == KeysOf(pairs) + {p.key}
  {
    var ps := pairs + [p];
    forall k ensures k in KeysOf(ps) <==> k in KeysOf(pairs) + {p.key} {
      if k in KeysOf(pairs) {
        var q :| q in pairs && q.key == k;
        assert q in ps;
      }
      assert p in ps;
    }
  }

  lemma KeysMore(pairs: seq<Pair>, p: Pair)
    ensures KeysOf(pairs + [p]) == KeysOf(pairs) + {p.key}
    ensures |KeysOf(pairs + [p])| == |KeysOf(pairs)| + if p.key in KeysOf(pairs) then 0 else 1
  {
    KeysAdd(pairs, p);
    if p.key in KeysOf(pairs) {
      assert KeysOf(pairs) + {p.key} == KeysOf(pairs);
    }
  }

  lemma LastMore(pairs: seq<Pair>, p: Pair, key: Bytes)
    ensures LastValue(pairs + [p], key) == if key == p.key then Some(p.value) else LastValue(pairs, key)
  {
    assert (pairs + [p])[..|pairs|] == pairs;
  }

  /** One pair more. */
  lemma ShowsMore(nodes: seq<Node>, nodes': seq<Node>, id: nat, entries: seq<Entry>, pairs: seq<Pair>, p: Pair,
          x: nat)
    requires ShowsPairs(nodes, id, entries, pairs) && id < x && Shows(nodes', x, p.value)
    requires forall e, o :: e in entries && Shows(nodes, e.id, o) ==> Shows(nodes', e.id, o)
    ensures ShowsPairs(nodes', id, Insert(entries, p.key, x), pairs + [p])
  {
    var r := Insert(entries, p.key, x);
    InsertIs(entries, p.key, x);
    KeysMore(pairs, p);
    forall key ensures LastValue(pairs + [p], key) == if key == p.key then Some(p.value) else LastValue(pairs, key) {
      LastMore(pairs, p, key);
    }
    forall key ensures key in KeysOf(pairs + [p]) <==> HasKey(r, key) {
      KeyInserted(entries, p.key, x, r, key);
    }
  }

  lemma KeyInserted(entries: seq<Entry>, k: Bytes, x: nat, r: seq<Entry>, key: Bytes)
    requires forall e :: e in r <==> e == Entry(k, x) || (e in entries && e.key != k)
    ensures HasKey(r, key) <==> key == k || HasKey(entries, key)
  {
    if key == k {
      assert Entry(k, x) in r;
    } else if HasKey(entries, key) {
      var e :| e in entries && e.key == key;
      assert e in r;
    }
  }

  // ---------- reading the pairs ----------

  /** The map `id` on top of the stack, of n keys when it is full, holds these pairs. */
  ghost predicate Holding(m: Machine, id: nat, n: nat, entries: seq<Entry>, pairs: seq<Pair>) {
    Inside(m, id, MapNode(entries, n)) && |entries| < n && ShowsPairs(m.nodes, id, entries, pairs)
  }

  ghost predicate PlainPair(p: Pair) {
    |p.key| < 0x8000_0000 && Plain(p.value)
  }

  ghost predicate AllPlain(pairs: seq<Pair>) {
    forall k :: 0 <= k < |pairs| ==> PlainPair(pairs[k])
  }

  /** One more pair is read, whatever its key; the map is closed once it has n keys. */
  lemma AnyPair(data: Bytes, m: Machine, id: nat, n: nat, entries: seq<Entry>, pairs: seq<Pair>, p: Pair)
          returns (m1: Machine, r: seq<Entry>)
    requires Holding(m, id, n, entries, pairs) && PlainPair(p) && At(data, m.off, EncodePair(p))
    ensures Leads(data, m, m1) && m1.off == m.off + |EncodePair(p)|
    ensures |KeysOf(pairs + [p])| == |r|
    ensures |r| < n ==> Holding(m1, id, n, r, pairs + [p]) && Stays(m, m1, id)
    ensures |r| >= n ==>
        |r| == n && Closed(m, m1, id) && m1.nodes[id] == MapNode(r, n) && ShowsPairs(m1.nodes, id, r, pairs + [p])
  {
    AtParts(data, m.off, EncodeText(p.key), Encode(p.value));
    var mk := AnyKey(data, m, id, entries, n, p.key);
    m1 := Consume(data, mk, p.value);
    LeadsOn(data, m, mk);
    r := Insert(entries, p.key, |mk.nodes|);
    PairHeld(m, mk, m1, |Encode(p.value)|, id, n, entries, pairs, p);
  }

  lemma PairHeld(m: Machine, mk: Machine, m1: Machine, k: nat, id: nat, n: nat, entries: seq<Entry>,
          pairs: seq<Pair>, p: Pair)
    requires Holding(m, id, n, entries, pairs) && Ready(mk) && mk.stack == m.stack && mk.result == m.result
    requires |mk.nodes| == |m.nodes| + 1 && m.nodes == mk.nodes[..|m.nodes|]
    requires mk.nodes[mk.key.value] == Leaf(Text(p.key)) && Consumed(mk, m1, k, p.value)
    ensures var r := Insert(entries, p.key, |mk.nodes|);
      && |KeysOf(pairs + [p])| == |r|
      && (|r| < n ==> Holding(m1, id, n, r, pairs + [p]) && Stays(m, m1, id))
      && (|r| >= n ==>
          |r| == n && Closed(m, m1, id) && m1.nodes[id] == MapNode(r, n) && ShowsPairs(m1.nodes, id, r, pairs + [p]))
  {
    assert mk.nodes[id] == mk.nodes[..|m.nodes|][id] == m.nodes[id];
    PairShown(m.nodes, mk.nodes, m1.nodes, id, entries, pairs, p);
    InsertIs(entries, p.key, |mk.nodes|);
    PairPlaced(m, mk, m1, id, n, entries, p.key);
  }

  lemma PairShown(nodes: seq<Node>, nodes1: seq<Node>, nodes2: seq<Node>, id: nat, entries: seq<Entry>,
          pairs: seq<Pair>, p: Pair)
    requires ShowsPairs(nodes, id, entries, pairs) && id < |nodes| && |nodes1| == |nodes| + 1 <= |nodes2|
    requires nodes == nodes1[..|nodes|] && forall j :: 0 <= j < |nodes1| && j != id ==> nodes2[j] == nodes1[j]
    requires Shows(nodes2, |nodes1|, p.value)
    ensures ShowsPairs(nodes2, id, Insert(entries, p.key, |nodes1|), pairs + [p])
  {
    forall e, o | e in entries && Shows(nodes, e.id, o) ensures Shows(nodes2, e.id, o) {
      KeyFrame(nodes, nodes1, nodes2, id, e.id, o);
    }
    ShowsMore(nodes, nodes2, id, entries, pairs, p, |nodes1|);
  }

  /** Where the machine is with the value placed. */
  lemma PairPlaced(m: Machine, mk: Machine, m1: Machine, id: nat, n: nat, entries: seq<Entry>, key: Bytes)
    requires Inside(m, id, MapNode(entries, n)) && Ready(mk) && mk.stack == m.stack && mk.result == m.result
    requires |mk.nodes| == |m.nodes| + 1 && m.nodes == mk.nodes[..|m.nodes|] && mk.nodes[id] == m.nodes[id]
    requires mk.nodes[mk.key.value] == Leaf(Text(key)) && Placed(mk, m1)
    ensures var r := Insert(entries, key, |mk.nodes|);
      && m1.nodes[id] == MapNode(r, n) && |m.nodes| <= |m1.nodes|
      && (forall j :: 0 <= j < id ==> m1.nodes[j] == m.nodes[j])
      && (|r| < n ==> Inside(m1, id, MapNode(r, n)) && Stays(m, m1, id))
      && (|r| >= n ==> Closed(m, m1, id))
  {
    forall j | 0 <= j < id ensures m1.nodes[j] == m.nodes[j] {
      assert mk.nodes[j] == mk.nodes[..|m.nodes|][j];
    }
  }

  // ---------- a whole map ----------

  /** The n-th key comes with the last of the pairs. */
  ghost predicate FullAtLast(pairs: seq<Pair>, n: nat) {
    |KeysOf(pairs)| == n && (pairs == [] || |KeysOf(pairs[..|pairs| - 1])| < n)
  }

  /** What is to come of a map of n keys and these pairs. */
  ghost predicate Outcomes(r: Outcome, pairs: seq<Pair>, n: nat) {
    if FullAtLast(pairs, n) then r.Decoded? && ShowsMap(r.nodes, r.id, pairs) else r == Threw
  }

  lemma {:induction false} FewerKeys(pairs: seq<Pair>, k: nat)
    requires k <= |pairs|
    ensures |KeysOf(pairs[..k])| <= |KeysOf(pairs)|
    decreases |pairs| - k
  {
    if k < |pairs| {
      KeysMore(pairs[..k], pairs[k]);
      assert pairs[..k] + [pairs[k]] == pairs[..k + 1];
      FewerKeys(pairs, k + 1);
    } else {
      assert pairs[..k] == pairs;
    }
  }

  lemma PairsTo(pairs: seq<Pair>, k: nat)
    requires k < |pairs|
    ensures pairs[..k] + [pairs[k]] == pairs[..k + 1]
  {
  }

  /** One of the pairs. */
  lemma PairStep(data: Bytes, m: Machine, n: nat, entries: seq<Entry>, o: Cbor, k: nat)
          returns (m1: Machine, r: seq<Entry>)
    requires o.Map? && AllPlain(o.pairs) && k < |o.pairs| && Holding(m, 0, n, entries, o.pairs[..k])
    requires m.stack == [0] && m.result == Some(0)
    requires At(data, m.off, EncodePairs(o, o.pairs[k..])) && m.off + |EncodePairs(o, o.pairs[k..])| == |data|
    ensures Leads(data, m, m1) && m1.result == Some(0) && |KeysOf(o.pairs[..k + 1])| == |r|
    ensures At(data, m1.off, EncodePairs(o, o.pairs[k + 1..]))
    ensures m1.off + |EncodePairs(o, o.pairs[k + 1..])| == |data|
    ensures |r| < n ==> Holding(m1, 0, n, r, o.pairs[..k + 1]) && m1.stack == [0]
    ensures |r| >= n ==>
        |r| == n && m1.stack == [] && Sound(m1) && m1.state.TypeState? && m1.nodes != [] &&
        m1.nodes[0] == MapNode(r, n) && ShowsPairs(m1.nodes, 0, r, o.pairs[..k + 1])
  {
    PairAt(data, m.off, o, k);
    m1, r := AnyPair(data, m, 0, n, entries, o.pairs[..k], o.pairs[k]);
    PairsTo(o.pairs, k);
  }

  /** Pairs from the k-th on are read into a map that is all there is; the run ends with the map, or throws. */
  lemma {:induction false} RunPairs(data: Bytes, m: Machine, n: nat, entries: seq<Entry>, o: Cbor, k: nat)
          returns (r: Outcome)
    requires o.Map? && AllPlain(o.pairs) && k <= |o.pairs| && Holding(m, 0, n, entries, o.pairs[..k])
    requires m.stack == [0] && m.result == Some(0)
    requires At(data, m.off, EncodePairs(o, o.pairs[k..])) && m.off + |EncodePairs(o, o.pairs[k..])| == |data|
    ensures Ends(data, m, r)
    ensures Outcomes(r, o.pairs, n)
    decreases |o.pairs| - k
  {
    var ps := o.pairs;
    if k == |ps| {
      r := PairsMissing(data, m, n, entries, o);
    } else {
      var m1, e1 := PairStep(data, m, n, entries, o, k);
      if |e1| < n {
        r := RunPairs(data, m1, n, e1, o, k + 1);
      } else {
        r := FullAfter(data, m1, n, e1, o, k);
      }
      LeadsOn(data, m, m1);
    }
  }

  lemma PairsMissing(data: Bytes, m: Machine, n: nat, entries: seq<Entry>, o: Cbor) returns (r: Outcome)
    requires o.Map? && Holding(m, 0, n, entries, o.pairs[..|o.pairs|]) && m.off == |data|
    ensures Ends(data, m, r) && Outcomes(r, o.pairs, n)
  {
    assert o.pairs[..|o.pairs|] == o.pairs;
    NoTurn(data, m);
    r := Threw;
  }

  /** The map is full: it is the result, unless there are more pairs. */
  lemma FullAfter(data: Bytes, m: Machine, n: nat, entries: seq<Entry>, o: Cbor, k: nat) returns (r: Outcome)
    requires o.Map? && AllPlain(o.pairs) && k < |o.pairs| && ShowsPairs(m.nodes, 0, entries, o.pairs[..k + 1])
    requires |KeysOf(o.pairs[..k])| < n == |KeysOf(o.pairs[..k + 1])|
    requires m.nodes != [] && m.nodes[0] == MapNode(entries, n)
    requires Sound(m) && m.state.TypeState? && m.stack == [] && m.result == Some(0)
    requires At(data, m.off, EncodePairs(o, o.pairs[k + 1..])) && m.off + |EncodePairs(o, o.pairs[k + 1..])| == |data|
    ensures Ends(data, m, r)
    ensures Outcomes(r, o.pairs, n)
  {
    var ps := o.pairs;
    if k + 1 == |ps| {
      assert ps[..k + 1] == ps;
      PairsFrom(o, k + 1);
      NoTurn(data, m);
      r := Decoded(m.nodes, 0);
    } else {
      PairAt(data, m.off, o, k + 1);
      NothingMore(data, m, ps[k + 1]);
      FullBefore(ps, n, k + 1);
      r := Threw;
    }
  }

  lemma FullBefore(pairs: seq<Pair>, n: nat, k: nat)
    requires k < |pairs| && n == |KeysOf(pairs[..k])|
    ensures !FullAtLast(pairs, n)
  {
    assert pairs[..|pairs| - 1][..k] == pairs[..k];
    FewerKeys(pairs[..|pairs| - 1], k);
  }

  /** Once there is a result, another pair is rejected. */
  lemma NothingMore(data: Bytes, m: Machine, p: Pair)
    requires Sound(m) && m.state.TypeState? && m.stack == [] && m.result.Some?
    requires PlainPair(p) && At(data, m.off, EncodePair(p))
    ensures Ends(data, m, Threw)
  {
    AtParts(data, m.off, EncodeText(p.key), Encode(p.value));
    var m1, n := FirstActs(data, m, Text(p.key));
    ActsPut(data, m, m1, n, Put(m1, n));
  }

  /** The head of a map of n keys, and pairs in any order: this decodes if and only if the n-th key comes with the
      last pair, and then it is the map of the last value of each key; otherwise the decoder throws. */
  lemma AnyOrder(n: nat, pairs: seq<Pair>)
    requires n < 0x1_0000_0000 && AllPlain(pairs)
    ensures Outcomes(Decode(TypeValue(5, n) + EncodePairs(Map(pairs), pairs)), pairs, n)
  {
    var o, h := Map(pairs), TypeValue(5, n);
    var data := h + EncodePairs(o, pairs);
    assert data[0..0 + |data|] == data && pairs[0..] == pairs;
    AtParts(data, 0, h, EncodePairs(o, pairs));
    var m2, m0 := ContainerHead(data, START, 5, n);
    var r;
    if n > 0 {
      assert pairs[..0] == [];
      r := RunPairs(data, m2, n, [], o, 0);
    } else {
      r := EmptyMap(data, m2, o);
    }
    LeadsOn(data, START, m2);
    assert Key(0) && Open(0);
  }

  lemma EmptyMap(data: Bytes, m: Machine, o: Cbor) returns (r: Outcome)
    requires o.Map? && AllPlain(o.pairs) && m.nodes == [MapNode([], 0)]
    requires Sound(m) && m.state.TypeState? && m.stack == [] && m.result == Some(0)
    requires At(data, m.off, EncodePairs(o, o.pairs[0..])) && m.off + |EncodePairs(o, o.pairs[0..])| == |data|
    ensures Ends(data, m, r)
    ensures Outcomes(r, o.pairs, 0)
  {
    if o.pairs == [] {
      NoTurn(data, m);
      r := Decoded(m.nodes, 0);
    } else {
      PairAt(data, m.off, o, 0);
      NothingMore(data, m, o.pairs[0]);
      r := Threw;
    }
  }
}
