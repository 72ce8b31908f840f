/**
  The decoder accepts an encoding only as a whole, and what becomes of integers at and below -2^32
  (src/cborcpp/decoder.cpp:46-48, 66-69, 85-88, 97-99, 395-418, 624-627).
 */
module CborWhole {
  import opened Options
  import opened Locks
  import opened Arith
  import opened CborBytes
  import opened CborEncoder
  import opened CborDecoder
  import opened CborHeads
  import opened CborRoundTrip

  // ---------- nothing may follow ----------

  /** The decision that begins any object's encoding: it is placed at once. */
  lemma FirstActs(data: Bytes, m: Machine, o: Cbor) returns (m1: Machine, n: Node)
    requires Sound(m) && m.state.TypeState? && Plain(o) && At(data, m.off, Encode(o))
    ensures Acts(data, m, m1, Object(n)) && m1 == m.(off := m1.off, len := m1.len)
  {
    if o.Arr? {
      assert Word32(|o.items|) == |o.items|;
      AtParts(data, m.off, TypeValue(4, |o.items|), EncodeItems(o, o.items));
      m1, n := PastHead(m, 4, |o.items|), ArrNode([], |o.items|);
      Head(data, m, 4, |o.items|);
    } else if o.Map? {
      assert Word32(|o.pairs|) == |o.pairs|;
      AtParts(data, m.off, TypeValue(5, |o.pairs|), EncodePairs(o, o.pairs));
      m1, n := PastHead(m, 5, |o.pairs|), MapNode([], |o.pairs|);
      Head(data, m, 5, |o.pairs|);
    } else {
      var a;
      m1, a := ScalarActs(data, m, o);
      n := a.node;
    }
  }

  /** Two encodings, one after the other, are rejected. */
  lemma ConcatenationFails(o: Cbor, o': Cbor)
    requires Plain(o) && Plain(o')
    ensures Decode(Encode(o) + Encode(o')) == Threw
  {
    var data := Encode(o) + Encode(o');
    assert data[0..0 + |data|] == data;
    AtParts(data, 0, Encode(o), Encode(o'));
    var m := Consume(data, START, o);
    var m1, n := FirstActs(data, m, o');
    ActsPut(data, m, m1, n, Put(m1, n));
    LeadsOn(data, START, m);
    assert Key(0) && Open(0);
  }

  // ---------- nothing may be missing ----------

  /** data ends inside s, which was to start at off. */
  ghost predicate CutShort(data: Bytes, off: nat, s: Bytes) {
    off <= |data| < off + |s| && data[off..] == s[..|data| - off]
  }

  lemma CutParts(data: Bytes, off: nat, s: Bytes, t: Bytes)
    requires CutShort(data, off, s + t)
    ensures CutShort(data, off, s) || (At(data, off, s) && CutShort(data, off + |s|, t))
  {
    var u := s + t;
    if |data| < off + |s| {
      assert u[..|data| - off] == s[..|data| - off];
    } else {
      assert data[off..off + |s|] == data[off..][..|s|] == u[..|data| - off][..|s|] == s;
      assert data[off + |s|..] == data[off..][|s|..] == u[..|data| - off][|s|..] == t[..|data| - off - |s|];
    }
  }

  /** The zeros that fill up a float at the end need not be there, so these are left out here. */
  ghost predicate Floatless(o: Cbor)
    decreases o
  {
    match o
    case Float(_) => false
    case Arr(items) => forall k :: 0 <= k < |items| ==> Floatless(items[k])
    case Map(pairs) => forall k :: 0 <= k < |pairs| ==> Floatless(pairs[k].value)
    case _ => true
  }

  lemma ScalarCut(data: Bytes, m: Machine, o: Cbor)
    requires Ready(m) && Plain(o) && Floatless(o) && !o.Arr? && !o.Map? && CutShort(data, m.off, Encode(o))
    ensures Ends(data, m, Threw)
  {
    if o.Text? || o.ByteStr? {
      assert Word32(|o.s|) == |o.s|;
      ContentsCut(data, m, if o.Text? then 3 else 2, o.s);
    } else if o.Null? || o.Undefined? || o.Bool? {
      NoTurn(data, m);
    } else {
      ScalarHeadIs(o);
      HeadCut(data, m, ScalarHead(o).0, ScalarHead(o).1);
    }
  }

  /** An object that breaks off: the run throws. */
  lemma {:induction false} Cut(data: Bytes, m: Machine, o: Cbor)
    requires Ready(m) && Plain(o) && Floatless(o) && CutShort(data, m.off, Encode(o))
    ensures Ends(data, m, Threw)
    decreases o, 2
  {
    if o.Arr? {
      ArrCut(data, m, o);
    } else if o.Map? {
      MapCut(data, m, o);
    } else {
      ScalarCut(data, m, o);
    }
  }

  lemma ArrIs(o: Cbor)
    requires o.Arr? && |o.items| < 0x1_0000_0000
    ensures Encode(o) == TypeValue(4, |o.items|) + EncodeItems(o, o.items[0..])
  {
    assert o.items[0..] == o.items;
  }

  lemma MapIs(o: Cbor)
    requires o.Map? && |o.pairs| < 0x1_0000_0000
    ensures Encode(o) == TypeValue(5, |o.pairs|) + EncodePairs(o, o.pairs[0..])
  {
    assert o.pairs[0..] == o.pairs;
  }

  /** The head of an array that is not empty leads into it. */
  lemma ArrOpens(data: Bytes, m: Machine, o: Cbor) returns (m2: Machine)
    requires Ready(m) && o.Arr? && 0 < |o.items| < 0x1_0000_0000 && At(data, m.off, TypeValue(4, |o.items|))
    ensures Leads(data, m, m2) && HasItems(m2, |m.nodes|, o, 0, []) && m2.off == m.off + |TypeValue(4, |o.items|)|
  {
    var m0;
    m2, m0 := ContainerHead(data, m, 4, |o.items|);
  }

  lemma MapOpens(data: Bytes, m: Machine, o: Cbor) returns (m2: Machine)
    requires Ready(m) && o.Map? && 0 < |o.pairs| < 0x1_0000_0000 && At(data, m.off, TypeValue(5, |o.pairs|))
    ensures Leads(data, m, m2) && HasPairs(m2, |m.nodes|, o, 0, []) && m2.off == m.off + |TypeValue(5, |o.pairs|)|
  {
    var m0;
    m2, m0 := ContainerHead(data, m, 5, |o.pairs|);
  }

  lemma {:induction false} ArrCut(data: Bytes, m: Machine, o: Cbor)
    requires Ready(m) && o.Arr? && Plain(o) && Floatless(o) && CutShort(data, m.off, Encode(o))
    ensures Ends(data, m, Threw)
    decreases o, 1
  {
    ArrIs(o);
    var h := TypeValue(4, |o.items|);
    CutParts(data, m.off, h, EncodeItems(o, o.items[0..]));
    if CutShort(data, m.off, h) {
      HeadCut(data, m, 4, |o.items|);
    } else {
      var m2 := ArrOpens(data, m, o);
      ItemsCut(data, m2, |m.nodes|, o, 0, []);
      LeadsOn(data, m, m2);
    }
  }

  lemma MapParts(data: Bytes, off: nat, o: Cbor)
    requires o.Map? && |o.pairs| < 0x1_0000_0000 && CutShort(data, off, Encode(o))
    ensures var h := TypeValue(5, |o.pairs|);
      || CutShort(data, off, h)
      || (At(data, off, h) && |o.pairs| > 0 && CutShort(data, off + |h|, EncodePairs(o, o.pairs[0..])))
  {
    MapIs(o);
    CutParts(data, off, TypeValue(5, |o.pairs|), EncodePairs(o, o.pairs[0..]));
  }

  lemma {:induction false} MapCut(data: Bytes, m: Machine, o: Cbor)
    requires Ready(m) && o.Map? && Plain(o) && Floatless(o) && CutShort(data, m.off, Encode(o))
    ensures Ends(data, m, Threw)
    decreases o, 1
  {
    var h := TypeValue(5, |o.pairs|);
    MapParts(data, m.off, o);
    if CutShort(data, m.off, h) {
      HeadCut(data, m, 5, |o.pairs|);
    } else {
      var m2 := MapOpens(data, m, o);
      PairsCut(data, m2, |m.nodes|, o, 0, []);
      LeadsOn(data, m, m2);
    }
  }

  lemma {:induction false} ItemsCut(data: Bytes, m: Machine, id: nat, o: Cbor, k: nat, items: seq<nat>)
    requires o.Arr? && Plain(o) && Floatless(o) && HasItems(m, id, o, k, items) && k < |o.items| &&
        CutShort(data, m.off, EncodeItems(o, o.items[k..]))
    ensures Ends(data, m, Threw)
    decreases o, 0, |o.items| - k
  {
    var x := o.items[k];
    assert o.items[k..][1..] == o.items[k + 1..];
    CutParts(data, m.off, Encode(x), EncodeItems(o, o.items[k + 1..]));
    if CutShort(data, m.off, Encode(x)) {
      Cut(data, m, x);
    } else {
      var m1 := Consume(data, m, x);
      ItemAdded(m, m1, |Encode(x)|, id, o, k, items);
      ItemsCut(data, m1, id, o, k + 1, items + [|m.nodes|]);
      LeadsOn(data, m, m1);
    }
  }

  lemma {:induction false} PairsCut(data: Bytes, m: Machine, id: nat, o: Cbor, k: nat, entries: seq<Entry>)
    requires o.Map? && Plain(o) && Floatless(o) && HasPairs(m, id, o, k, entries) && k < |o.pairs| &&
        CutShort(data, m.off, EncodePairs(o, o.pairs[k..]))
    ensures Ends(data, m, Threw)
    decreases o, 0, |o.pairs| - k
  {
    var p := o.pairs[k];
    assert o.pairs[k..][1..] == o.pairs[k + 1..];
    CutParts(data, m.off, EncodePair(p), EncodePairs(o, o.pairs[k + 1..]));
    if CutShort(data, m.off, EncodePair(p)) {
      PairCut(data, m, id, o, k, entries);
    } else {
      var m1, entries1 := ConsumePair(data, m, id, o, k, entries);
      PairsCut(data, m1, id, o, k + 1, entries1);
      LeadsOn(data, m, m1);
    }
  }

  lemma {:induction false} PairCut(data: Bytes, m: Machine, id: nat, o: Cbor, k: nat, entries: seq<Entry>)
    requires o.Map? && Plain(o) && Floatless(o) && HasPairs(m, id, o, k, entries) && k < |o.pairs| &&
        CutShort(data, m.off, EncodePair(o.pairs[k]))
    ensures Ends(data, m, Threw)
    decreases o, 0, 0
  {
    var p := o.pairs[k];
    CutParts(data, m.off, EncodeText(p.key), Encode(p.value));
    if CutShort(data, m.off, EncodeText(p.key)) {
      assert Word32(|p.key|) == |p.key|;
      ContentsCut(data, m, 3, p.key);
    } else {
      var mk := ReadKey(data, m, id, o, k, entries);
      Cut(data, mk, p.value);
      LeadsOn(data, m, mk);
    }
  }

  /** Every proper prefix of an encoding without floats is rejected. */
  lemma PrefixFails(o: Cbor, n: nat)
    requires Plain(o) && Floatless(o) && n < |Encode(o)|
    ensures Decode(Encode(o)[..n]) == Threw
  {
    var data := Encode(o)[..n];
    assert data[0..] == data;
    Cut(data, START, o);
    assert Key(0) && Open(0);
  }

  // ---------- integers at and below -2^32 ----------

  /** A placed object that leaves the decoder in state st. */
  lemma ActsPlace(data: Bytes, m: Machine, m1: Machine, n: Node, st: State, r: StepResult)
    requires Acts(data, m, m1, Place(n, st, 0)) && m1.state.TypeState? && Sound(m1.(state := st)) &&
        r == Put(m1.(state := st), n)
    ensures r.Go? ==> Leads(data, m, r.m)
  {
    assert Key(0) && Open(0);
    assert m1.(off := m1.off + 0, state := st) == m1.(state := st);
    ThenIs(data, m1, Place(n, st, 0), r);
  }

  /** An 8-byte negative integer is placed, and the decoder waits for another one. */
  lemma LongNegative(data: Bytes, m: Machine, v: int) returns (m': Machine)
    requires Ready(m) && -0x8000_0000_0000_0000 <= v < -0x1_0000_0000 && At(data, m.off, EncodeInt(v))
    ensures Leads(data, m, m') && m'.state == Nint && m'.len == 8 && Placed(m, m'.(state := TypeState)) &&
        Shows(m'.nodes, |m.nodes|, Int(v))
    ensures m'.off == m.off + |EncodeInt(v)| && Sound(m')
  {
    var n := -(v + 1);
    var m1 := PastHead(m, 1, n);
    var node := Leaf(ExtraInt(n + 1, false));
    Head(data, m, 1, n);
    assert HeadAction(1, n) == Place(node, Nint, 0);
    m' := LongPlaced(m, m1, node);
    ActsPlace(data, m, m1, node, Nint, Go(m'));
  }

  /** The object is placed as ever, and the state and the length stay. */
  lemma LongPlaced(m: Machine, m1: Machine, node: Node) returns (m': Machine)
    requires Ready(m) && m1 == m.(off := m1.off, len := 8) && node.Leaf?
    ensures Put(m1.(state := Nint), node) == Go(m') && m'.state == Nint && m'.len == 8 && m'.off == m1.off && Sound(m')
    ensures Placed(m, m'.(state := TypeState)) && m'.nodes[|m.nodes|] == node
  {
    var r := Put(m1, node);
    PutCloses(m, m1, node, r);
    PutAnyState(m1, Nint, node, r);
    m' := r.m.(state := Nint);
    assert m'.(state := TypeState) == r.m;
    PutSound(m1, node);
  }

  lemma PutAnyState(m: Machine, st: State, n: Node, r: StepResult)
    requires Sound(m) && (Sized(st) ==> m.len in [1, 2, 4, 8]) && r == Put(m, n)
    ensures r.Go? ==> Put(m.(state := st), n) == Go(r.m.(state := st))
  {
  }

  /** On its own, a 64-bit integer comes back with its value if and only if it is not -2^32. */
  lemma IntRoundTrip(v: int)
    requires -0x8000_0000_0000_0000 <= v < 0x8000_0000_0000_0000
    ensures var r := Decode(Encode(Int(v)));
      (r.Decoded? && Shows(r.nodes, r.id, Int(v))) <==> v != -0x1_0000_0000
  {
    var data := Encode(Int(v));
    assert data[0..0 + |data|] == data;
    if v > -0x1_0000_0000 {
      RoundTrip(Int(v));
    } else if v == -0x1_0000_0000 {
      MinusTwo32(data);
    } else {
      var m := LongNegative(data, START, v);
      NoTurn(data, m);
      LeadsOn(data, START, m);
      assert Key(0) && Open(0);
    }
  }

  /** -2^32 comes back as 0. */
  lemma MinusTwo32(data: Bytes)
    requires data == Encode(Int(-0x1_0000_0000))
    ensures Decode(data).Decoded? && !Shows(Decode(data).nodes, Decode(data).id, Int(-0x1_0000_0000))
    ensures Decode(data).nodes[..] == [Leaf(ExtraInt(0, false))]
  {
    var n := 0xffff_ffff;
    assert data[0..0 + |data|] == data;
    Head(data, START, 1, n);
    var m1 := PastHead(START, 1, n);
    var node := Leaf(ExtraInt(0, false));
    assert HeadAction(1, n) == Object(node);
    var r := Put(m1, node);
    ActsPut(data, START, m1, node, r);
    PutCloses(START, m1, node, r);
    PutSound(m1, node);
    NoTurn(data, r.m);
    LeadsOn(data, START, r.m);
    assert Key(0) && Open(0);
  }
}
