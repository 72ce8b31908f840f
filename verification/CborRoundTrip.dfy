/**
  Decoding undoes encoding (src/cborcpp/encoder.cpp:34-82, 110-116, 179-242;
  src/cborcpp/decoder.cpp:44-101, 103-629).
 */
module CborRoundTrip {
  import opened Options
  import opened Locks
  import opened Arith
  import opened CborBytes
  import opened CborEncoder
  import opened CborDecoder
  import opened CborHeads

  // ---------- objects up to numeric equality ----------

  function Number(o: Cbor): Option<int> {
    match o
    case Int(v) => Some(v)
    case ExtraInt(n, positive) => Some(if positive then n as int else -(n as int))
    case _ => None
  }

  predicate SameScalar(l: Cbor, o: Cbor) {
    !o.Arr? && !o.Map? && (l == o || (Number(l).Some? && Number(l) == Number(o)))
  }

  /** The object at `id` reads as o, integers compared by value.  References only go forward, so the
      object contains no cycle. */
  ghost predicate Shows(nodes: seq<Node>, id: nat, o: Cbor)
    decreases o
  {
    id < |nodes| &&
    match nodes[id]
    case Leaf(l) => SameScalar(l, o)
    case ArrNode(items, size) =>
      o.Arr? && |items| == |o.items| == size &&
      forall k :: 0 <= k < |items| ==> id < items[k] && Shows(nodes, items[k], o.items[k])
    case MapNode(entries, size) =>
      o.Map? && |entries| == |o.pairs| == size &&
      forall k :: 0 <= k < |entries| ==>
        entries[k].key == o.pairs[k].key && id < entries[k].id && Shows(nodes, entries[k].id, o.pairs[k].value)
  }

  lemma {:induction false} ShowsFrame(nodes: seq<Node>, nodes': seq<Node>, id: nat, o: Cbor)
    requires Shows(nodes, id, o)
    requires |nodes| <= |nodes'| && forall j :: id <= j < |nodes| ==> nodes'[j] == nodes[j]
    ensures Shows(nodes', id, o)
    decreases o
  {
    match nodes[id]
    case Leaf(_) =>
    case ArrNode(items, _) =>
      forall k | 0 <= k < |items| ensures Shows(nodes', items[k], o.items[k]) {
        ShowsFrame(nodes, nodes', items[k], o.items[k]);
      }
    case MapNode(entries, _) =>
      forall k | 0 <= k < |entries| ensures Shows(nodes', entries[k].id, o.pairs[k].value) {
        assert id < entries[k].id;
        ShowsFrame(nodes, nodes', entries[k].id, o.pairs[k].value);
      }
  }

  // ---------- the objects for which it holds ----------

  /** Null, undefined, booleans, integers above -2^32, unsigned 64-bit integers, 32-bit tags, strings and texts of
      floats shorter than 2^31 bytes, the latter not of 20 to 23, and arrays and string-keyed maps of these.  A map
      lists its keys in order, as std::map does. */
  ghost predicate Plain(o: Cbor)
    decreases o
  {
    match o
    case Null => true
    case Undefined => true
    case Bool(_) => true
    case Int(v) => -0x1_0000_0000 < v < 0x8000_0000_0000_0000
    case ExtraInt(n, positive) => positive && n < 0x1_0000_0000_0000_0000
    case Text(s) => |s| < 0x8000_0000
    case ByteStr(s) => |s| < 0x8000_0000
    case Tag(t) => t < 0x1_0000_0000
    case ExtraTag(_) => false
    case Float(text) => |text| < 0x8000_0000 && !Mistaken(|text|)
    case Arr(items) => |items| < 0x1_0000_0000 && forall k :: 0 <= k < |items| ==> Plain(items[k])
    case Map(pairs) =>
      && |pairs| < 0x1_0000_0000
      && (forall k :: 0 <= k < |pairs| ==> |pairs[k].key| < 0x8000_0000 && Plain(pairs[k].value))
      && (forall j, k :: 0 <= j < k < |pairs| ==> Less(pairs[j].key, pairs[k].key))
  }

  // ---------- where the next object goes ----------

  /** The decoder is between objects, and the next one is wanted: as the result, as the next item of the
      array on top of the stack, or as the value of the key read last. */
  ghost predicate Ready(m: Machine) {
    && Sound(m) && m.state.TypeState?
    && (if m.stack == [] then m.result.None? && m.inKey else
          match m.nodes[m.stack[|m.stack| - 1]]
          case Leaf(_) => false
          case ArrNode(items, size) => m.inKey && |items| < size
          case MapNode(entries, size) =>
            !m.inKey && |entries| < size && m.key.Some? && m.nodes[m.key.value].Leaf? && m.nodes[m.key.value].o.Text?)
  }

  predicate Full(n: Node) {
    match n
    case Leaf(_) => true
    case ArrNode(items, size) => |items| >= size
    case MapNode(entries, size) => |entries| >= size
  }

  /** The container on top of the stack with the next object added. */
  ghost function Filled(m: Machine): Node
    requires Ready(m) && m.stack != []
  {
    match m.nodes[m.stack[|m.stack| - 1]]
    case ArrNode(items, size) => ArrNode(items + [|m.nodes|], size)
    case MapNode(entries, size) => MapNode(Insert(entries, m.nodes[m.key.value].o.s, |m.nodes|), size)
  }

  /** m' is m with one more object, |m.nodes|, placed where it belongs, and possibly objects after it. */
  ghost predicate Placed(m: Machine, m': Machine)
    requires Ready(m)
  {
    && Sound(m') && m'.state.TypeState? && m'.inKey && |m.nodes| < |m'.nodes|
    && (if m.stack == [] then
          m'.stack == [] && m'.result == Some(|m.nodes|) && forall j :: 0 <= j < |m.nodes| ==> m'.nodes[j] == m.nodes[j]
        else
          var last := m.stack[|m.stack| - 1];
          && m'.result == m.result && m'.nodes[last] == Filled(m)
          && m'.stack == (if Full(Filled(m)) then Pop(m.stack) else m.stack)
          && forall j :: 0 <= j < |m.nodes| && j != last ==> m'.nodes[j] == m.nodes[j])
  }

  /** The object o has been read, from n bytes. */
  ghost predicate Consumed(m: Machine, m': Machine, n: nat, o: Cbor)
    requires Ready(m)
  {
    Placed(m, m') && m'.off == m.off + n && Shows(m'.nodes, |m.nodes|, o)
  }

  lemma AttachPlaces(m: Machine, m1: Machine, n: Node, r: StepResult)
    requires Ready(m) && m1 == m.(off := m1.off, len := m1.len, nodes := m.nodes + [n]) && Sound(m1) &&
        r == Attach(m1, |m.nodes|)
    ensures r.Go? && Placed(m, r.m) && r.m.nodes[|m.nodes|] == n && r.m.off == m1.off && |r.m.nodes| == |m.nodes| + 1
  {
    AttachSound(m1, |m.nodes|);
  }

  /** Placing a scalar or an empty container. */
  lemma PutCloses(m: Machine, m1: Machine, n: Node, r: StepResult)
    requires Ready(m) && m1 == m.(off := m1.off, len := m1.len) && !Unfilled(n) && r == Put(m1, n)
    ensures r.Go? && Placed(m, r.m) && r.m.nodes[|m.nodes|] == n && r.m.off == m1.off
  {
    AttachPlaces(m, m1.(nodes := m1.nodes + [n]), n, Attach(m1.(nodes := m1.nodes + [n]), |m.nodes|));
  }

  /** Placing a container that expects entries: it goes on the stack. */
  lemma PutOpens(m: Machine, m1: Machine, n: Node, r: StepResult) returns (m': Machine)
    requires Ready(m) && m1 == m.(off := m1.off, len := m1.len) && Unfilled(n) && r == Put(m1, n)
    ensures r.Go? && r.m == m'.(stack := m'.stack + [|m.nodes|])
    ensures Placed(m, m') && m'.nodes[|m.nodes|] == n && m'.off == m1.off && |m'.nodes| == |m.nodes| + 1
  {
    var a := Attach(m1.(nodes := m1.nodes + [n]), |m.nodes|);
    AttachPlaces(m, m1.(nodes := m1.nodes + [n]), n, a);
    m' := a.m;
  }

  // ---------- scalars ----------

  /** The scalar that a decision places. */
  ghost predicate Gives(a: Action, o: Cbor) {
    a.Place? && a == Object(a.node) && a.node.Leaf? && SameScalar(a.node.o, o)
  }

  lemma ScalarPlaced(data: Bytes, m: Machine, m1: Machine, a: Action, o: Cbor) returns (m': Machine)
    requires Ready(m) && Acts(data, m, m1, a) && m1 == m.(off := m1.off, len := m1.len) && m.off <= m1.off &&
        Gives(a, o)
    ensures Leads(data, m, m') && Consumed(m, m', m1.off - m.off, o)
  {
    var r := Put(m1, a.node);
    ActsPut(data, m, m1, a.node, r);
    PutCloses(m, m1, a.node, r);
    m' := r.m;
  }

  lemma IntGives(v: int)
    requires -0x1_0000_0000 < v < 0x8000_0000_0000_0000
    ensures Gives(HeadAction(if v < 0 then 1 else 0, if v < 0 then -(v + 1) else v), Int(v))
  {
  }

  lemma ExtraGives(n: nat)
    requires n < 0x1_0000_0000_0000_0000
    ensures Gives(HeadAction(0, n), ExtraInt(n, true))
  {
  }

  lemma TagGives(t: nat)
    requires t < 0x1_0000_0000
    ensures Gives(HeadAction(6, t), Tag(t)) && Word32(t) == t
  {
  }

  lemma SpecialActs(data: Bytes, m: Machine, o: Cbor) returns (m1: Machine, a: Action)
    requires Sound(m) && m.state.TypeState? && (o.Null? || o.Undefined? || o.Bool?) && At(data, m.off, Encode(o))
    ensures Acts(data, m, m1, a) && m1 == m.(off := m.off + |Encode(o)|) && Gives(a, o)
  {
    OneTurn(data, m, Encode(o));
    m1, a := m.(off := m.off + 1), Object(Leaf(o));
    assert Decide(m, Encode(o)) == a;
  }

  lemma StringActs(data: Bytes, m: Machine, o: Cbor) returns (m1: Machine, a: Action)
    requires Sound(m) && m.state.TypeState? && (o.Text? || o.ByteStr?) && Plain(o) && At(data, m.off, Encode(o))
    ensures Acts(data, m, m1, a) && m1 == m.(off := m.off + |Encode(o)|, len := m1.len) && Gives(a, o)
  {
    var major := if o.Text? then 3 else 2;
    assert Word32(|o.s|) == |o.s|;
    m1, a := PastContents(m, major, o.s), Object(Leaf(o));
    Contents(data, m, major, o.s);
  }

  lemma FloatActs(data: Bytes, m: Machine, o: Cbor) returns (m1: Machine, a: Action)
    requires Sound(m) && m.state.TypeState? && o.Float? && Plain(o) && At(data, m.off, Encode(o))
    ensures Acts(data, m, m1, a) && m1 == m.(off := m.off + |Encode(o)|, len := m1.len) && Gives(a, o)
  {
    assert Word32(|o.text|) == |o.text|;
    var s := TypeValue(7, |o.text|) + o.text;
    assert Encode(o) == s + seq(Padding(o.text), _ => 0);
    AtParts(data, m.off, s, seq(Padding(o.text), _ => 0));
    m1, a := PastFloat(m, o.text), Object(Leaf(o));
    FloatContents(data, m, o.text);
  }

  /** The head of a scalar that is nothing but a head. */
  function ScalarHead(o: Cbor): (r: (nat, nat))
    ensures r.0 <= 6
  {
    match o
    case Int(v) => if v < 0 then (1, -(v + 1)) else (0, v)
    case ExtraInt(n, _) => (0, n)
    case Tag(t) => (6, t)
    case _ => (0, 0)
  }

  lemma ScalarHeadIs(o: Cbor)
    requires Plain(o) && (o.Int? || o.ExtraInt? || o.Tag?)
    ensures Encode(o) == TypeValue(ScalarHead(o).0, ScalarHead(o).1) && ScalarHead(o).1 < 0x1_0000_0000_0000_0000
    ensures Gives(HeadAction(ScalarHead(o).0, ScalarHead(o).1), o)
  {
    match o
    case Int(v) => IntGives(v);
    case ExtraInt(n, _) => ExtraGives(n);
    case Tag(t) => TagGives(t);
  }

  /** The decision that a scalar's encoding leads to, and where. */
  lemma ScalarActs(data: Bytes, m: Machine, o: Cbor) returns (m1: Machine, a: Action)
    requires Sound(m) && m.state.TypeState? && Plain(o) && !o.Arr? && !o.Map? && At(data, m.off, Encode(o))
    ensures Acts(data, m, m1, a) && m1 == m.(off := m.off + |Encode(o)|, len := m1.len) && Gives(a, o)
  {
    if o.Null? || o.Undefined? || o.Bool? {
      m1, a := SpecialActs(data, m, o);
    } else if o.Text? || o.ByteStr? {
      m1, a := StringActs(data, m, o);
    } else if o.Float? {
      m1, a := FloatActs(data, m, o);
    } else {
      var h := ScalarHead(o);
      ScalarHeadIs(o);
      m1, a := PastHead(m, h.0, h.1), HeadAction(h.0, h.1);
      Head(data, m, h.0, h.1);
    }
  }

  // ---------- containers ----------

  /** A container has been placed and is on top of the stack; the decoder is between its entries. */
  ghost predicate Inside(m: Machine, id: nat, n: Node) {
    && Sound(m) && m.state.TypeState? && m.inKey && m.stack != [] && m.stack[|m.stack| - 1] == id
    && id < |m.nodes| && m.nodes[id] == n
  }

  /** m' is m with the container `id`, on top of the stack in m, finished. */
  ghost predicate Closed(m: Machine, m': Machine, id: nat)
    requires m.stack != []
  {
    && Sound(m') && m'.state.TypeState? && m'.inKey && m'.stack == Pop(m.stack) && m'.result == m.result
    && |m.nodes| <= |m'.nodes| && id < |m.nodes| && forall j :: 0 <= j < id ==> m'.nodes[j] == m.nodes[j]
  }

  /** The head of a container leads inside it, or closes it if it is empty. */
  lemma ContainerHead(data: Bytes, m: Machine, major: nat, n: nat) returns (m2: Machine, m0: Machine)
    requires Ready(m) && (major == 4 || major == 5) && n < 0x1_0000_0000 && At(data, m.off, TypeValue(major, n))
    ensures var node := if major == 4 then ArrNode([], n) else MapNode([], n);
      && Leads(data, m, m2) && Placed(m, m0) && m0.nodes[|m.nodes|] == node && |m0.nodes| == |m.nodes| + 1
      && m0.off == m.off + |TypeValue(major, n)|
      && m2 == if n > 0 then m0.(stack := m0.stack + [|m.nodes|]) else m0
  {
    Head(data, m, major, n);
    var m1 := PastHead(m, major, n);
    var node := if major == 4 then ArrNode([], n) else MapNode([], n);
    assert HeadAction(major, n) == Object(node);
    var r := Put(m1, node);
    ActsPut(data, m, m1, node, r);
    if n > 0 {
      m0 := PutOpens(m, m1, node, r);
    } else {
      PutCloses(m, m1, node, r);
      m0 := r.m;
      PutSound(m1, node);
    }
    m2 := r.m;
  }

  /** A container placed and then finished is an object consumed. */
  lemma CloseContainer(m: Machine, m0: Machine, m2: Machine, m': Machine, n: nat, o: Cbor)
    requires Ready(m) && Placed(m, m0) && |m0.nodes| == |m.nodes| + 1 && m2 == m0.(stack := m0.stack + [|m.nodes|])
    requires Closed(m2, m', |m.nodes|) && Shows(m'.nodes, |m.nodes|, o) && m'.off == m.off + n
    ensures Consumed(m, m', n, o)
  {
    assert Pop(m2.stack) == m0.stack;
  }

  // ---------- reading one object ----------

  /** The array on top of the stack has k of its items. */
  ghost predicate HasItems(m: Machine, id: nat, o: Cbor, k: nat, items: seq<nat>)
    requires o.Arr?
  {
    && Inside(m, id, ArrNode(items, |o.items|)) && |items| == k <= |o.items|
    && forall j :: 0 <= j < k ==> id < items[j] && Shows(m.nodes, items[j], o.items[j])
  }

  /** Once the next item is there, the others still are. */
  lemma ItemAdded(m: Machine, m1: Machine, n: nat, id: nat, o: Cbor, k: nat, items: seq<nat>)
    requires o.Arr? && HasItems(m, id, o, k, items) && k < |o.items| && Ready(m) && Consumed(m, m1, n, o.items[k])
    ensures k + 1 < |o.items| ==> HasItems(m1, id, o, k + 1, items + [|m.nodes|]) && m1.stack == m.stack
    ensures k + 1 == |o.items| ==> Closed(m, m1, id) && Shows(m1.nodes, id, o)
    ensures forall j :: 0 <= j < id ==> m1.nodes[j] == m.nodes[j]
  {
    var items' := items + [|m.nodes|];
    forall j | 0 <= j < k + 1 ensures id < items'[j] && Shows(m1.nodes, items'[j], o.items[j]) {
      if j < k {
        ShowsFrame(m.nodes, m1.nodes, items[j], o.items[j]);
      }
    }
  }

  /** The map on top of the stack has k of its entries. */
  ghost predicate HasPairs(m: Machine, id: nat, o: Cbor, k: nat, entries: seq<Entry>)
    requires o.Map?
  {
    && Inside(m, id, MapNode(entries, |o.pairs|)) && |entries| == k <= |o.pairs|
    && forall j :: 0 <= j < k ==>
      entries[j].key == o.pairs[j].key && id < entries[j].id && Shows(m.nodes, entries[j].id, o.pairs[j].value)
  }

  /** A key larger than those there is added at the end. */
  lemma {:induction false} InsertLast(entries: seq<Entry>, key: Bytes, id: nat)
    requires forall j :: 0 <= j < |entries| ==> Less(entries[j].key, key)
    ensures Insert(entries, key, id) == entries + [Entry(key, id)]
  {
    if entries != [] {
      assert Less(entries[0].key, key);
      LessTotal(key, key);
      if Less(key, entries[0].key) {
        LessTrans(key, entries[0].key, key);
      }
      InsertLast(entries[1..], key, id);
      assert entries == [entries[0]] + entries[1..];
    }
  }

  /** Reading a key of the map on top of the stack. */
  lemma AnyKey(data: Bytes, m: Machine, id: nat, entries: seq<Entry>, n: nat, key: Bytes) returns (m1: Machine)
    requires Inside(m, id, MapNode(entries, n)) && |entries| < n && |key| < 0x8000_0000
    requires At(data, m.off, EncodeText(key))
    ensures Leads(data, m, m1) && Ready(m1) && m1.stack == m.stack && m1.result == m.result
    ensures m1.off == m.off + |EncodeText(key)| && |m1.nodes| == |m.nodes| + 1 && m.nodes == m1.nodes[..|m.nodes|]
    ensures m1.nodes[m1.key.value] == Leaf(Text(key))
  {
    assert Word32(|key|) == |key|;
    Contents(data, m, 3, key);
    var m2 := PastContents(m, 3, key);
    var r := Put(m2, Leaf(Text(key)));
    ActsPut(data, m, m2, Leaf(Text(key)), r);
    m1 := r.m;
    PutSound(m2, Leaf(Text(key)));
  }

  /** Reading a key. */
  lemma ReadKey(data: Bytes, m: Machine, id: nat, o: Cbor, k: nat, entries: seq<Entry>) returns (m1: Machine)
    requires o.Map? && Plain(o) && k < |o.pairs| && HasPairs(m, id, o, k, entries) &&
        At(data, m.off, EncodeText(o.pairs[k].key))
    ensures Leads(data, m, m1) && Ready(m1) && m1.stack == m.stack && m1.result == m.result
    ensures m1.off == m.off + |EncodeText(o.pairs[k].key)| && |m1.nodes| == |m.nodes| + 1 &&
        m.nodes == m1.nodes[..|m.nodes|]
    ensures m1.nodes[m1.key.value] == Leaf(Text(o.pairs[k].key))
  {
    m1 := AnyKey(data, m, id, entries, |o.pairs|, o.pairs[k].key);
  }

  lemma PairAdded(m: Machine, mk: Machine, m1: Machine, n: nat, id: nat, o: Cbor, k: nat, entries: seq<Entry>)
    requires o.Map? && Plain(o) && HasPairs(m, id, o, k, entries) && k < |o.pairs|
    requires Ready(mk) && mk.stack == m.stack && mk.result == m.result && |mk.nodes| == |m.nodes| + 1 &&
        m.nodes == mk.nodes[..|m.nodes|]
    requires mk.nodes[mk.key.value] == Leaf(Text(o.pairs[k].key)) && Consumed(mk, m1, n, o.pairs[k].value)
    ensures k + 1 < |o.pairs| ==>
        HasPairs(m1, id, o, k + 1, entries + [Entry(o.pairs[k].key, |mk.nodes|)]) && m1.stack == m.stack
    ensures k + 1 == |o.pairs| ==> Closed(m, m1, id) && Shows(m1.nodes, id, o)
    ensures forall j :: 0 <= j < id ==> m1.nodes[j] == m.nodes[j]
  {
    assert mk.nodes[id] == mk.nodes[..|m.nodes|][id] == m.nodes[id];
    forall j | 0 <= j < k ensures Less(entries[j].key, o.pairs[k].key) { }
    InsertLast(entries, o.pairs[k].key, |mk.nodes|);
    PairsShown(m, mk, m1, id, o, k, entries);
  }

  /** The entries there were still show their pairs, and the new one its own. */
  lemma PairsShown(m: Machine, mk: Machine, m1: Machine, id: nat, o: Cbor, k: nat, entries: seq<Entry>)
    requires o.Map? && HasPairs(m, id, o, k, entries) && k < |o.pairs|
    requires |mk.nodes| == |m.nodes| + 1 <= |m1.nodes| && m.nodes == mk.nodes[..|m.nodes|]
    requires forall j :: 0 <= j < |mk.nodes| && j != id ==> m1.nodes[j] == mk.nodes[j]
    requires Shows(m1.nodes, |mk.nodes|, o.pairs[k].value)
    ensures var entries' := entries + [Entry(o.pairs[k].key, |mk.nodes|)];
      forall j :: 0 <= j < k + 1 ==>
        entries'[j].key == o.pairs[j].key && id < entries'[j].id && Shows(m1.nodes, entries'[j].id, o.pairs[j].value)
  {
    forall j | 0 <= j < k ensures Shows(m1.nodes, entries[j].id, o.pairs[j].value) {
      KeyFrame(m.nodes, mk.nodes, m1.nodes, id, entries[j].id, o.pairs[j].value);
    }
  }

  lemma KeyFrame(nodes: seq<Node>, nodes1: seq<Node>, nodes2: seq<Node>, id: nat, x: nat, o: Cbor)
    requires id < x && Shows(nodes, x, o) && |nodes1| == |nodes| + 1 && nodes == nodes1[..|nodes|] &&
        |nodes1| <= |nodes2|
    requires forall j :: 0 <= j < |nodes1| && j != id ==> nodes2[j] == nodes1[j]
    ensures Shows(nodes2, x, o)
  {
    forall j | x <= j < |nodes| ensures nodes2[j] == nodes[j] {
      assert nodes1[j] == nodes1[..|nodes|][j];
    }
    ShowsFrame(nodes, nodes2, x, o);
  }

  lemma ItemsFrom(o: Cbor, k: nat)
    requires o.Arr? && k <= |o.items|
    ensures EncodeItems(o, o.items[k..])
         == if k < |o.items| then Encode(o.items[k]) + EncodeItems(o, o.items[k + 1..]) else []
  {
    assert k < |o.items| ==> o.items[k..][1..] == o.items[k + 1..];
  }

  lemma PairsFrom(o: Cbor, k: nat)
    requires o.Map? && k <= |o.pairs|
    ensures EncodePairs(o, o.pairs[k..])
         == if k < |o.pairs| then EncodePair(o.pairs[k]) + EncodePairs(o, o.pairs[k + 1..]) else []
  {
    assert k < |o.pairs| ==> o.pairs[k..][1..] == o.pairs[k + 1..];
  }

  lemma PairAt(data: Bytes, off: nat, o: Cbor, k: nat)
    requires o.Map? && k < |o.pairs| && At(data, off, EncodePairs(o, o.pairs[k..]))
    ensures At(data, off, EncodePair(o.pairs[k]))
    ensures At(data, off + |EncodePair(o.pairs[k])|, EncodePairs(o, o.pairs[k + 1..]))
    ensures |EncodePairs(o, o.pairs[k..])| == |EncodePair(o.pairs[k])| + |EncodePairs(o, o.pairs[k + 1..])|
    ensures k + 1 == |o.pairs| ==> |EncodePairs(o, o.pairs[k + 1..])| == 0
  {
    PairsFrom(o, k);
    PairsFrom(o, k + 1);
    AtParts(data, off, EncodePair(o.pairs[k]), EncodePairs(o, o.pairs[k + 1..]));
  }

  /** The run reads exactly one object and goes on behind it. */
  lemma {:induction false} Consume(data: Bytes, m: Machine, o: Cbor) returns (m': Machine)
    requires Ready(m) && Plain(o) && At(data, m.off, Encode(o))
    ensures Leads(data, m, m') && Consumed(m, m', |Encode(o)|, o)
    decreases o, 2
  {
    if o.Arr? {
      m' := ConsumeArr(data, m, o);
    } else if o.Map? {
      m' := ConsumeMap(data, m, o);
    } else {
      var m1, a := ScalarActs(data, m, o);
      m' := ScalarPlaced(data, m, m1, a, o);
    }
  }

  lemma ArrHead(data: Bytes, off: nat, o: Cbor)
    requires o.Arr? && |o.items| < 0x1_0000_0000 && At(data, off, Encode(o))
    ensures var h, s := TypeValue(4, |o.items|), EncodeItems(o, o.items[0..]);
      At(data, off, h) && At(data, off + |h|, s) && |Encode(o)| == |h| + |s| && (o.items == [] ==> s == [])
  {
    assert o.items[0..] == o.items && Word32(|o.items|) == |o.items|;
    AtParts(data, off, TypeValue(4, |o.items|), EncodeItems(o, o.items));
  }

  lemma {:induction false} ConsumeArr(data: Bytes, m: Machine, o: Cbor) returns (m': Machine)
    requires Ready(m) && o.Arr? && Plain(o) && At(data, m.off, Encode(o))
    ensures Leads(data, m, m') && Consumed(m, m', |Encode(o)|, o)
    decreases o, 1
  {
    ArrHead(data, m.off, o);
    var m2, m0 := ContainerHead(data, m, 4, |o.items|);
    if o.items == [] {
      m' := m2;
    } else {
      m' := ConsumeItems(data, m2, |m.nodes|, o, 0, []);
      LeadsOn(data, m, m2);
      CloseContainer(m, m0, m2, m', |Encode(o)|, o);
    }
  }

  lemma MapHead(data: Bytes, off: nat, o: Cbor)
    requires o.Map? && |o.pairs| < 0x1_0000_0000 && At(data, off, Encode(o))
    ensures var h, s := TypeValue(5, |o.pairs|), EncodePairs(o, o.pairs[0..]);
      At(data, off, h) && At(data, off + |h|, s) && |Encode(o)| == |h| + |s| && (o.pairs == [] ==> s == [])
  {
    assert o.pairs[0..] == o.pairs && Word32(|o.pairs|) == |o.pairs|;
    AtParts(data, off, TypeValue(5, |o.pairs|), EncodePairs(o, o.pairs));
  }

  lemma {:induction false} ConsumeMap(data: Bytes, m: Machine, o: Cbor) returns (m': Machine)
    requires Ready(m) && o.Map? && Plain(o) && At(data, m.off, Encode(o))
    ensures Leads(data, m, m') && Consumed(m, m', |Encode(o)|, o)
    decreases o, 1
  {
    MapHead(data, m.off, o);
    var m2, m0 := ContainerHead(data, m, 5, |o.pairs|);
    if o.pairs == [] {
      m' := m2;
    } else {
      m' := ConsumePairs(data, m2, |m.nodes|, o, 0, []);
      LeadsOn(data, m, m2);
      CloseContainer(m, m0, m2, m', |Encode(o)|, o);
    }
  }

  lemma {:induction false} ConsumeItems(data: Bytes, m: Machine, id: nat, o: Cbor, k: nat, items: seq<nat>)
          returns (m': Machine)
    requires o.Arr? && Plain(o) && HasItems(m, id, o, k, items) && k < |o.items| &&
        At(data, m.off, EncodeItems(o, o.items[k..]))
    ensures Leads(data, m, m') && Closed(m, m', id) && Shows(m'.nodes, id, o) &&
        m'.off == m.off + |EncodeItems(o, o.items[k..])|
    decreases o, 0, |o.items| - k
  {
    ItemsFrom(o, k);
    AtParts(data, m.off, Encode(o.items[k]), EncodeItems(o, o.items[k + 1..]));
    m' := ConsumeItem(data, m, id, o, k, items);
    if k + 1 < |o.items| {
      var m1 := m';
      m' := ConsumeItems(data, m1, id, o, k + 1, items + [|m.nodes|]);
      LeadsOn(data, m, m1);
      ClosedVia(m, m1, m', id);
    } else {
      ItemsFrom(o, k + 1);
    }
  }

  /** One item of the array on top of the stack. */
  lemma {:induction false} ConsumeItem(data: Bytes, m: Machine, id: nat, o: Cbor, k: nat, items: seq<nat>)
          returns (m1: Machine)
    requires o.Arr? && Plain(o) && HasItems(m, id, o, k, items) && k < |o.items| && At(data, m.off, Encode(o.items[k]))
    ensures Leads(data, m, m1) && m1.off == m.off + |Encode(o.items[k])|
    ensures k + 1 < |o.items| ==> HasItems(m1, id, o, k + 1, items + [|m.nodes|]) && Stays(m, m1, id)
    ensures k + 1 == |o.items| ==> Closed(m, m1, id) && Shows(m1.nodes, id, o)
    decreases o, 0, 0
  {
    m1 := Consume(data, m, o.items[k]);
    ItemAdded(m, m1, |Encode(o.items[k])|, id, o, k, items);
  }

  /** m1 is m with more objects, inside the container `id`. */
  ghost predicate Stays(m: Machine, m1: Machine, id: nat) {
    m1.stack == m.stack && m1.result == m.result && id < |m.nodes| <= |m1.nodes| &&
      forall j :: 0 <= j < id ==> m1.nodes[j] == m.nodes[j]
  }

  lemma ClosedVia(m: Machine, m1: Machine, m': Machine, id: nat)
    requires Stays(m, m1, id) && m1.stack != [] && Closed(m1, m', id)
    ensures Closed(m, m', id)
  {
  }

  lemma {:induction false} ConsumePairs(data: Bytes, m: Machine, id: nat, o: Cbor, k: nat, entries: seq<Entry>)
          returns (m': Machine)
    requires o.Map? && Plain(o) && HasPairs(m, id, o, k, entries) && k < |o.pairs| &&
        At(data, m.off, EncodePairs(o, o.pairs[k..]))
    ensures Leads(data, m, m') && Closed(m, m', id) && Shows(m'.nodes, id, o) &&
        m'.off == m.off + |EncodePairs(o, o.pairs[k..])|
    decreases o, 0, |o.pairs| - k
  {
    PairAt(data, m.off, o, k);
    var ids;
    m', ids := ConsumePair(data, m, id, o, k, entries);
    if k + 1 < |o.pairs| {
      var m1 := m';
      m' := ConsumePairs(data, m1, id, o, k + 1, ids);
      LeadsOn(data, m, m1);
      ClosedVia(m, m1, m', id);
    }
  }

  lemma {:induction false} ConsumePair(data: Bytes, m: Machine, id: nat, o: Cbor, k: nat, entries: seq<Entry>)
          returns (m1: Machine, entries1: seq<Entry>)
    requires o.Map? && Plain(o) && HasPairs(m, id, o, k, entries) && k < |o.pairs| &&
        At(data, m.off, EncodePair(o.pairs[k]))
    ensures Leads(data, m, m1) && m1.off == m.off + |EncodePair(o.pairs[k])|
    ensures k + 1 < |o.pairs| ==> HasPairs(m1, id, o, k + 1, entries1) && Stays(m, m1, id)
    ensures k + 1 == |o.pairs| ==> Closed(m, m1, id) && Shows(m1.nodes, id, o)
    decreases o, 0, 0
  {
    var p := o.pairs[k];
    AtParts(data, m.off, EncodeText(p.key), Encode(p.value));
    var mk := ReadKey(data, m, id, o, k, entries);
    m1 := Consume(data, mk, p.value);
    LeadsOn(data, m, mk);
    PairAdded(m, mk, m1, |Encode(p.value)|, id, o, k, entries);
    entries1 := entries + [Entry(p.key, |mk.nodes|)];
  }

  /** Decoding an encoding gives the object back, integers compared by value. */
  lemma RoundTrip(o: Cbor)
    requires Plain(o)
    ensures var r := Decode(Encode(o));
      r.Decoded? && Shows(r.nodes, r.id, o)
  {
    var data := Encode(o);
    assert data[0..0 + |data|] == data;
    var m' := Consume(data, START, o);
    NoTurn(data, m');
    LeadsOn(data, START, m');
    assert Key(0) && Open(0);
  }
}
