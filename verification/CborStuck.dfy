/**
  What the decoder makes of an array that starts with an integer below -2^32: it stays in the state in which
  it has read that integer, and takes every 8 bytes that follow for another (src/cborcpp/decoder.cpp:392-421).
 */
module CborStuck {
  import opened Options
  import opened Locks
  import opened CborBytes
  import opened CborEncoder
  import opened CborDecoder
  import opened CborHeads
  import opened CborRoundTrip
  import opened CborWhole

  /** The negative integer that 8 bytes are taken for. */
  function Chunk(data: Bytes, off: nat): Node
    requires off + 8 <= |data|
  {
    Leaf(ExtraInt((FromBigEndian(data[off..off + 8]) + 1) % 0x1_0000_0000_0000_0000, false))
  }

  /** The array, alone on the stack, has some of its n items and waits for 8 bytes. */
  ghost predicate Waiting(m: Machine, items: seq<nat>, n: nat) {
    && Sound(m) && m.state == Nint && m.len == 8 && m.stack == [0] && m.result == Some(0)
    && |m.nodes| > 0 && m.nodes[0] == ArrNode(items, n) && |items| < n
  }

  lemma Turn(data: Bytes, m: Machine, items: seq<nat>, n: nat) returns (m': Machine)
    requires Waiting(m, items, n) && m.off + 8 <= |data|
    ensures Sound(m') && Step(data, m) == Go(m') && m'.off == m.off + 8
    ensures m'.nodes == m.nodes[0 := ArrNode(items + [|m.nodes|], n)] + [Chunk(data, m.off)]
    ensures m'.state == Nint && m'.len == 8 && m'.result == Some(0)
    ensures m'.stack == if |items| + 1 == n then [] else [0]
  {
    var s := data[m.off..m.off + 8];
    var m1 := m.(off := m.off + 8, state := TypeState);
    Argument(m, s, FromBigEndian(s));
    var node := Chunk(data, m.off);
    assert Decide(m, s) == Place(node, Nint, 0);
    m' := Put(m1.(state := Nint), node).m;
    assert (m.nodes + [node])[0 := ArrNode(items + [|m.nodes|], n)]
        == m.nodes[0 := ArrNode(items + [|m.nodes|], n)] + [node];
    StepSound(data, m);
  }

  /** Item j, where item k is read at off. */
  ghost predicate ItemAt(data: Bytes, off: nat, nodes: seq<Node>, id: nat, k: nat, j: nat)
    requires k <= j
  {
    off + 8 * (j - k) + 8 <= |data| && id < |nodes| && nodes[id] == Chunk(data, off + 8 * (j - k))
  }

  /** What is read of an array of n items from item k on. */
  ghost predicate Chunks(data: Bytes, off: nat, nodes: seq<Node>, k: nat, n: nat) {
    |nodes| > 0 && nodes[0].ArrNode? && |nodes[0].items| == nodes[0].size == n &&
    forall j :: k <= j < n ==> ItemAt(data, off, nodes, nodes[0].items[j], k, j)
  }

  lemma FirstChunk(data: Bytes, off: nat, nodes: seq<Node>, k: nat, n: nat)
    requires k < n && off + 8 <= |data| && Chunks(data, off + 8, nodes, k + 1, n)
    requires nodes[0].items[k] < |nodes| && nodes[nodes[0].items[k]] == Chunk(data, off)
    ensures Chunks(data, off, nodes, k, n)
  {
    forall j | k <= j < n ensures ItemAt(data, off, nodes, nodes[0].items[j], k, j) {
      if j > k {
        assert ItemAt(data, off + 8, nodes, nodes[0].items[j], k + 1, j);
      }
    }
  }

  /** The array is filled, and the run decodes, if and only if as many times 8 bytes are left as items are missing,
      and less than 8 more. */
  ghost predicate Fills(data: Bytes, m: Machine, items: seq<nat>, n: nat, r: Outcome)
    requires m.off <= |data|
  {
    && (r.Decoded? <==> (|data| - m.off) / 8 == n - |items|) && (!r.Decoded? ==> r == Threw)
    && (r.Decoded? ==>
        && r.id == 0 && |r.nodes| >= |m.nodes| && |items| <= n && Chunks(data, m.off, r.nodes, |items|, n)
        && r.nodes[0].items[..|items|] == items && forall i :: 0 < i < |m.nodes| ==> r.nodes[i] == m.nodes[i])
  }

  lemma MoreFilled(data: Bytes, m: Machine, m': Machine, items: seq<nat>, n: nat, r: Outcome)
    requires |items| < n && m.off + 8 == m'.off <= |data| && |m.nodes| > 0
    requires m'.nodes == m.nodes[0 := ArrNode(items + [|m.nodes|], n)] + [Chunk(data, m.off)]
    requires Fills(data, m', items + [|m.nodes|], n, r)
    ensures Fills(data, m, items, n, r)
  {
    var items' := items + [|m.nodes|];
    if r.Decoded? {
      assert r.nodes[0].items[..|items|] == items'[..|items|] == items;
      assert r.nodes[0].items[|items|] == r.nodes[0].items[..|items'|][|items|] == |m.nodes|;
      FirstChunk(data, m.off, r.nodes, |items|, n);
    }
  }

  lemma {:induction false} RunChunks(data: Bytes, m: Machine, items: seq<nat>, n: nat)
    requires Waiting(m, items, n) && m.off <= |data|
    ensures Fills(data, m, items, n, Run(data, m))
    decreases n - |items|
  {
    if |data| - m.off < 8 {
      NoTurn(data, m);
      assert Key(0) && Open(0);
    } else {
      var m' := Turn(data, m, items, n);
      RunIs(data, m, Go(m'));
      var items' := items + [|m.nodes|];
      if |items'| < n {
        RunChunks(data, m', items', n);
      } else {
        LastChunk(data, m', items', n);
        assert items'[..|items'|] == items';
      }
      MoreFilled(data, m, m', items, n, Run(data, m'));
    }
  }

  /** With the array full, the run ends well if less than 8 bytes are left; another number has no place. */
  lemma LastChunk(data: Bytes, m: Machine, items: seq<nat>, n: nat)
    requires Sound(m) && m.state == Nint && m.len == 8 && m.stack == [] && m.result == Some(0) && m.off <= |data|
    requires |m.nodes| > 0 && m.nodes[0] == ArrNode(items, n)
    ensures Run(data, m) == if |data| - m.off < 8 then Decoded(m.nodes, 0) else Threw
  {
    if |data| - m.off < 8 {
      NoTurn(data, m);
      assert Key(0) && Open(0);
    } else {
      var s := data[m.off..m.off + 8];
      Argument(m, s, FromBigEndian(s));
      var node := Chunk(data, m.off);
      assert Put(m.(off := m.off + 8, state := Nint), node) == Fail;
      RunIs(data, m, Fail);
    }
  }

  /** The array's head and its first item. */
  lemma FirstRead(data: Bytes, n: nat, v: int) returns (m: Machine)
    requires 2 <= n < 0x1_0000_0000 && -0x8000_0000_0000_0000 <= v < -0x1_0000_0000
    requires At(data, 0, TypeValue(4, n)) && At(data, |TypeValue(4, n)|, EncodeInt(v))
    ensures Waiting(m, [1], n) && m.off == |TypeValue(4, n)| + |EncodeInt(v)| && Leads(data, START, m)
    ensures |m.nodes| > 1 && Shows(m.nodes, 1, Int(v)) && m.nodes[1].Leaf?
  {
    var m2 := ArrayOpened(data, n);
    m := LongNegative(data, m2, v);
    LeadsOn(data, START, m2);
  }

  /** The head of the array. */
  lemma ArrayOpened(data: Bytes, n: nat) returns (m2: Machine)
    requires 2 <= n < 0x1_0000_0000 && At(data, 0, TypeValue(4, n))
    ensures Leads(data, START, m2) && Ready(m2) && m2.off == |TypeValue(4, n)|
    ensures m2.nodes == [ArrNode([], n)] && m2.stack == [0] && m2.result == Some(0)
  {
    var m0;
    m2, m0 := ContainerHead(data, START, 4, n);
  }

  lemma FirstItem(o: Cbor)
    requires o.Arr? && 1 <= |o.items| < 0x1_0000_0000
    ensures Encode(o) == TypeValue(4, |o.items|) + (Encode(o.items[0]) + EncodeItems(o, o.items[1..]))
  {
    ArrIs(o);
  }

  lemma TwoParts(h: Bytes, s: Bytes, rest: Bytes)
    ensures At(h + (s + rest), 0, h) && At(h + (s + rest), |h|, s)
  {
    assert (h + (s + rest))[0..|h|] == h;
    assert (h + (s + rest))[|h|..|h| + |s|] == s;
  }

  lemma Reads(o: Cbor, v: int) returns (m: Machine)
    requires o.Arr? && 2 <= |o.items| < 0x1_0000_0000 && o.items[0] == Int(v)
    requires -0x8000_0000_0000_0000 <= v < -0x1_0000_0000
    ensures m.off + |EncodeItems(o, o.items[1..])| == |Encode(o)|
    ensures Fills(Encode(o), m, [1], |o.items|, Decode(Encode(o)))
    ensures |m.nodes| > 1 && Shows(m.nodes, 1, Int(v)) && m.nodes[1].Leaf?
  {
    FirstItem(o);
    TwoParts(TypeValue(4, |o.items|), EncodeInt(v), EncodeItems(o, o.items[1..]));
    m := FirstRead(Encode(o), |o.items|, v);
    RunChunks(Encode(o), m, [1], |o.items|);
    assert Key(0) && Open(0);
  }

  /** An array whose first item is an integer below -2^32 decodes if and only if the other items take 8 bytes each
      on the average, rounded down; any other one makes the decoder throw. */
  lemma NotReset(o: Cbor, v: int)
    requires o.Arr? && 2 <= |o.items| < 0x1_0000_0000 && o.items[0] == Int(v)
    requires -0x8000_0000_0000_0000 <= v < -0x1_0000_0000
    ensures var r := Decode(Encode(o));
      && (r.Decoded? <==> |EncodeItems(o, o.items[1..])| / 8 == |o.items| - 1)
      && (!r.Decoded? ==> r == Threw)
  {
    var m := Reads(o, v);
  }

  /** The items that the bytes after the first one are read as are the items that were encoded. */
  ghost predicate ReadRight(o: Cbor, data: Bytes, off: nat)
    requires o.Arr?
  {
    forall j :: 1 <= j < |o.items| ==>
      off + 8 * (j - 1) + 8 <= |data| && SameScalar(Chunk(data, off + 8 * (j - 1)).o, o.items[j])
  }

  lemma LeafShows(nodes: seq<Node>, id: nat, o: Cbor)
    requires id < |nodes| && nodes[id].Leaf?
    ensures Shows(nodes, id, o) <==> SameScalar(nodes[id].o, o)
  {
  }

  lemma ItemsRight(o: Cbor, data: Bytes, m: Machine, r: Outcome)
    requires o.Arr? && 2 <= |o.items| && m.off <= |data| && Fills(data, m, [1], |o.items|, r) && r.Decoded?
    requires |m.nodes| > 1 && Shows(m.nodes, 1, o.items[0]) && m.nodes[1].Leaf?
    ensures r.id == 0 && (Shows(r.nodes, 0, o) <==> ReadRight(o, data, m.off))
  {
    var ids := r.nodes[0].items;
    assert ids[0] == ids[..1][0] == 1;
    LeafShows(r.nodes, 1, o.items[0]);
    LeafShows(m.nodes, 1, o.items[0]);
    forall j | 1 <= j < |o.items|
      ensures m.off + 8 * (j - 1) + 8 <= |data| && 0 < ids[j]
      ensures Shows(r.nodes, ids[j], o.items[j]) <==> SameScalar(Chunk(data, m.off + 8 * (j - 1)).o, o.items[j]) {
      assert ItemAt(data, m.off, r.nodes, ids[j], 1, j);
      LeafShows(r.nodes, ids[j], o.items[j]);
    }
  }

  /** Such an array comes back whole if and only if it decodes and each of the other items is the number that its
      8 bytes are taken for. */
  lemma WholeWhen(o: Cbor, v: int)
    requires o.Arr? && 2 <= |o.items| < 0x1_0000_0000 && o.items[0] == Int(v)
    requires -0x8000_0000_0000_0000 <= v < -0x1_0000_0000
    ensures var data, rest := Encode(o), |EncodeItems(o, o.items[1..])|;
      var r := Decode(data);
      rest <= |data| &&
      (r.Decoded? && Shows(r.nodes, r.id, o) <==>
        rest / 8 == |o.items| - 1 && ReadRight(o, data, |data| - rest))
  {
    var m := Reads(o, v);
    WholeFrom(o, Encode(o), m, Decode(Encode(o)), |EncodeItems(o, o.items[1..])|);
  }

  lemma WholeFrom(o: Cbor, data: Bytes, m: Machine, r: Outcome, rest: nat)
    requires o.Arr? && 2 <= |o.items| && m.off + rest == |data| && Fills(data, m, [1], |o.items|, r)
    requires |m.nodes| > 1 && Shows(m.nodes, 1, o.items[0]) && m.nodes[1].Leaf?
    ensures r.Decoded? && Shows(r.nodes, r.id, o) <==> rest / 8 == |o.items| - 1 && ReadRight(o, data, m.off)
  {
    if r.Decoded? {
      ItemsRight(o, data, m, r);
    }
  }

  const SAME: nat := 0x3b3b_3b3b_3b3b_3b3b

  /** One that comes back whole: of the nine bytes 0x3b of its second item, the head of the integer and its
      argument, the first eight are read as the argument. */
  lemma RightByChance(v: int)
    requires -0x8000_0000_0000_0000 <= v < -0x1_0000_0000
    ensures var o := Arr([Int(v), Int(-1 - SAME)]);
      var r := Decode(Encode(o)); r.Decoded? && Shows(r.nodes, r.id, o)
  {
    var o := Arr([Int(v), Int(-1 - SAME)]);
    SecondItem(o);
    WholeWhen(o, v);
    SecondRight(o, Encode(o));
  }

  lemma SecondItem(o: Cbor)
    requires o.Arr? && |o.items| == 2 && o.items[1] == Int(-1 - SAME)
    ensures |EncodeItems(o, o.items[1..])| == 9 && |Encode(o)| >= 9
    ensures FromBigEndian(Encode(o)[|Encode(o)| - 9..|Encode(o)| - 9 + 8]) == SAME
  {
    var w := o.items[1];
    FirstItem(o);
    var rest := o.items[1..];
    assert rest[0] == w && rest[1..] == [];
    LastItem(o, rest);
    SameBytes(w);
    FirstEight(TypeValue(4, 2), Encode(o.items[0]), Encode(w));
  }

  lemma LastItem(o: Cbor, items: seq<Cbor>)
    requires |items| == 1 && items[0] < o
    ensures EncodeItems(o, items) == Encode(items[0])
  {
    assert items[1..] == [];
  }

  lemma SecondRight(o: Cbor, data: Bytes)
    requires o.Arr? && |o.items| == 2 && o.items[1] == Int(-1 - SAME) && |data| >= 9
    requires FromBigEndian(data[|data| - 9..|data| - 9 + 8]) == SAME
    ensures ReadRight(o, data, |data| - 9)
  {
  }

  lemma FirstEight(h: Bytes, s: Bytes, t: Bytes)
    requires |t| == 9
    ensures var data := h + (s + t); data[|data| - 9..|data| - 9 + 8] == t[..8]
  {
  }

  lemma SameBytes(w: Cbor)
    requires w == Int(-1 - SAME)
    ensures |Encode(w)| == 9 && FromBigEndian(Encode(w)[..8]) == SAME
  {
    TypeValueIs(1, SAME);
    var b := BigEndian(SAME, 8);
    Eight(b);
    ArgBack(SAME);
    assert Encode(w) == [0x3b] + b;
    assert Encode(w)[..8] == b;
  }

  lemma Eight(b: Bytes)
    requires b == BigEndian(SAME, 8)
    ensures forall i :: 0 <= i < 8 ==> b[i] == 0x3b
  {
    assert Repeated(4) == 0x3b3b_3b3b;
    assert Repeated(8) == SAME;
    SameDigits(8, SAME);
  }

  lemma {:induction false} SameDigits(k: nat, n: nat)
    requires k <= 8 && n == Repeated(k)
    ensures forall i :: 0 <= i < k ==> BigEndian(n, k)[i] == 0x3b
    decreases k
  {
    if k > 0 {
      SameDigits(k - 1, n / 256);
    }
  }

  /** The number of k bytes 0x3b. */
  function Repeated(k: nat): nat {
    if k == 0 then 0 else 256 * Repeated(k - 1) + 0x3b
  }
}
