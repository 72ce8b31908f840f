/**
  Encodings given in appendix A of RFC 8949, and heads with an argument of any width, as the decoder reads them
  (src/cborcpp/encoder.cpp:34-82, 110-116, 179-242; src/cborcpp/decoder.cpp:103-510).
 */
module CborExamples {
  import opened Options
  import opened Locks
  import opened Arith
  import opened CborBytes
  import opened CborEncoder
  import opened CborDecoder
  import opened CborHeads
  import opened CborRoundTrip

  // ---------- appendix A of RFC 8949 ----------

  lemma SmallIntegers()
    ensures Encode(Int(0)) == [0x00] && Encode(Int(23)) == [0x17] && Encode(Int(-1)) == [0x20]
    ensures Encode(Int(24)) == [0x18, 0x18] && Encode(Int(-100)) == [0x38, 0x63]
  {
    assert BigEndian(24, 1) == [24] && BigEndian(99, 1) == [99];
  }

  lemma ShortIntegers()
    ensures Encode(Int(1000)) == [0x19, 0x03, 0xe8] && Encode(Int(-1000)) == [0x39, 0x03, 0xe7]
  {
    Two(1000, 0x03, 0xe8);
    Two(999, 0x03, 0xe7);
  }

  lemma LongerInteger()
    ensures Encode(Int(1000000)) == [0x1a, 0x00, 0x0f, 0x42, 0x40]
  {
    Two(15, 0x00, 0x0f);
    assert BigEndian(1000000, 4) == BigEndian(15, 2) + [0x42] + [0x40];
  }

  lemma Two(n: nat, a: Byte, b: Byte)
    requires n == 256 * a + b
    ensures BigEndian(n, 2) == [a, b]
  {
    assert BigEndian(n / 256, 1) == BigEndian(n / 256 / 256, 0) + [n / 256 % 256];
  }

  lemma LongInteger()
    ensures Encode(ExtraInt(1000000000000, true)) == [0x1b, 0x00, 0x00, 0x00, 0xe8, 0xd4, 0xa5, 0x10, 0x00]
  {
    Two(0, 0x00, 0x00);
    assert BigEndian(232, 4) == BigEndian(0, 2) + [0x00] + [0xe8];
    assert BigEndian(15258789, 6) == BigEndian(232, 4) + [0xd4] + [0xa5];
    assert BigEndian(1000000000000, 8) == BigEndian(15258789, 6) + [0x10] + [0x00];
  }

  lemma SimpleValues()
    ensures Encode(Bool(false)) == [0xf4] && Encode(Bool(true)) == [0xf5] && Encode(Null) == [0xf6]
    ensures Encode(Undefined) == [0xf7] && Encode(Tag(1)) == [0xc1]
    ensures Encode(ByteStr([1, 2, 3, 4])) == [0x44, 0x01, 0x02, 0x03, 0x04]
    ensures Encode(Text([0x49, 0x45, 0x54, 0x46])) == [0x64, 0x49, 0x45, 0x54, 0x46]
    ensures Encode(Arr([])) == [0x80] && Encode(Map([])) == [0xa0]
  {
  }

  /** [2, 3] */
  lemma Array()
    ensures Encode(Arr([Int(2), Int(3)])) == [0x82, 0x02, 0x03]
  {
    var o := Arr([Int(2), Int(3)]);
    assert o.items[1..] == [Int(3)] && [Int(3)][1..] == [];
    assert EncodeItems(o, [Int(3)]) == [0x03];
    assert EncodeItems(o, o.items) == [0x02, 0x03];
  }

  /** {"a": 1, "b": [2, 3]} */
  lemma Dictionary()
    ensures Encode(Map([Pair([0x61], Int(1)), Pair([0x62], Arr([Int(2), Int(3)]))]))
         == [0xa2, 0x61, 0x61, 0x01, 0x61, 0x62, 0x82, 0x02, 0x03]
  {
    var p, q := Pair([0x61], Int(1)), Pair([0x62], Arr([Int(2), Int(3)]));
    var o := Map([p, q]);
    Array();
    assert EncodePair(p) == [0x61, 0x61, 0x01] && EncodePair(q) == [0x61, 0x62] + [0x82, 0x02, 0x03];
    assert o.pairs[1..] == [q] && [q][1..] == [];
    assert EncodePairs(o, [q]) == EncodePair(q) + [];
    assert EncodePairs(o, o.pairs) == EncodePair(p) + EncodePairs(o, [q]);
  }

  // ---------- arguments of any width ----------

  /** The head of a major type with an argument of 1, 2, 4 or 8 bytes. */
  function WideHead(major: nat, k: nat, n: nat): Bytes
    requires major <= 6
  {
    [32 * major + (if k == 1 then 24 else if k == 2 then 25 else if k == 4 then 26 else 27)] + BigEndian(n, k)
  }

  lemma WideActs(major: nat, k: nat, n: nat)
    requires major <= 6 && k in [1, 2, 4, 8] && n < Pow(256, k)
    ensures Acts(WideHead(major, k, n), START, START.(off := 1 + k, len := k), ReadSized(SizeState(major), k, n))
  {
    var data := WideHead(major, k, n);
    var b := data[0];
    assert b / 32 == major && b % 32 == b - 32 * major;
    assert data[0..1] == [b] && data[1..1 + k] == BigEndian(n, k);
    OneTurn(data, START, [b]);
    var m1 := START.(off := 1, state := SizeState(major), len := k);
    ActsAwait(data, START, START.(off := 1), SizeState(major), k);
    BigEndianBack(n, k);
    ArgumentRead(data, m1, major, BigEndian(n, k), k, n, START.(off := 1 + k, len := k));
    LeadsOn(data, START, m1);
  }

  /** An object that is placed at the end of the data is the result. */
  lemma LonePlaced(data: Bytes, m: Machine, n: Node, st: State)
    requires Acts(data, START, m, Place(n, st, 0)) && m == START.(off := |data|, len := m.len)
    requires Sound(m.(state := st)) && !Unfilled(n) && Need(m.(state := st)) > 0
    ensures Decode(data) == Decoded([n], 0)
  {
    assert Key(0) && Open(0);
    var m1 := m.(state := st);
    assert m.(off := m.off + 0, state := st) == m1;
    ThenIs(data, m, Place(n, st, 0), Put(m1, n));
    var m' := m1.(nodes := [n], result := Some(0));
    assert Put(m1, n) == Go(m');
    NoTurn(data, m');
  }

  /** A head on its own is read as a number, a tag, or an empty string or container, however wide its argument, and
      nothing else is; 64-bit lengths are rejected.  A negative number of 32 or 64 bits that is -2^32 or -2^64
      becomes 0. */
  lemma AnyWidth(major: nat, k: nat, n: nat)
    requires major <= 6 && k in [1, 2, 4, 8] && n < Pow(256, k)
    ensures var r := Decode(WideHead(major, k, n));
      match major
      case 0 => r.Decoded? && |r.nodes| == 1 && r.nodes[0].Leaf? && Number(r.nodes[0].o) == Some(n)
      case 1 =>
        var v := if k >= 4 && n + 1 == Pow(256, k) then 0 else -1 - (n as int);
        r.Decoded? && |r.nodes| == 1 && r.nodes[0].Leaf? && Number(r.nodes[0].o) == Some(v)
      case 6 => r == Decoded([Leaf(if k == 8 then ExtraTag(n) else Tag(n))], 0)
      case _ =>
        if k == 8 || n > 0 then r == Threw
        else r == Decoded([match major case 2 => Leaf(ByteStr([])) case 3 => Leaf(Text([]))
                                       case 4 => ArrNode([], 0) case _ => MapNode([], 0)], 0)
  {
    WideActs(major, k, n);
    var data, m := WideHead(major, k, n), START.(off := 1 + k, len := k);
    if major == 0 || major == 1 || major == 6 {
      WideScalar(data, m, major, k, n);
    } else {
      WideContainer(data, m, major, k, n);
    }
  }

  lemma WideScalar(data: Bytes, m: Machine, major: nat, k: nat, n: nat)
    requires (major == 0 || major == 1 || major == 6) && k in [1, 2, 4, 8] && n < Pow(256, k) && |data| == 1 + k
    requires m == START.(off := 1 + k, len := k) && Acts(data, START, m, ReadSized(SizeState(major), k, n))
    ensures var a := ReadSized(SizeState(major), k, n);
      && a.Place? && Decode(data) == Decoded([a.node], 0) && a.node.Leaf?
      && (major == 0 ==> Number(a.node.o) == Some(n))
      && (major == 1 ==> Number(a.node.o) == Some(if k >= 4 && n + 1 == Pow(256, k) then 0 else -1 - (n as int)))
      && (major == 6 ==> a.node.o == if k == 8 then ExtraTag(n) else Tag(n))
  {
    WideNode(major, k, n);
    var a := ReadSized(SizeState(major), k, n);
    LonePlaced(data, m, a.node, a.state);
  }

  lemma WideNode(major: nat, k: nat, n: nat)
    requires (major == 0 || major == 1 || major == 6) && k in [1, 2, 4, 8] && n < Pow(256, k)
    ensures var a := ReadSized(SizeState(major), k, n);
      && a.Place? && a.skip == 0 && a.node.Leaf? && (a.state == TypeState || (a.state == Nint && k == 8))
      && (major == 0 ==> Number(a.node.o) == Some(n))
      && (major == 1 ==> Number(a.node.o) == Some(if k >= 4 && n + 1 == Pow(256, k) then 0 else -1 - (n as int)))
      && (major == 6 ==> a.node.o == if k == 8 then ExtraTag(n) else Tag(n))
  {
    Powers();
  }

  lemma Powers()
    ensures Pow(256, 4) == 0x1_0000_0000 && Pow(256, 8) == 0x1_0000_0000_0000_0000
  {
    assert Pow(256, 2) == 65536;
    PowAdd(256, 2, 2);
    PowAdd(256, 4, 4);
  }

  lemma WideContainer(data: Bytes, m: Machine, major: nat, k: nat, n: nat)
    requires 2 <= major <= 5 && k in [1, 2, 4, 8] && n < Pow(256, k) && |data| == 1 + k
    requires m == START.(off := 1 + k, len := k) && Acts(data, START, m, ReadSized(SizeState(major), k, n))
    ensures if k == 8 || n > 0 then Decode(data) == Threw
            else Decode(data) == Decoded([match major case 2 => Leaf(ByteStr([])) case 3 => Leaf(Text([]))
                                                      case 4 => ArrNode([], 0) case _ => MapNode([], 0)], 0)
  {
    assert Key(0) && Open(0);
    Powers();
    var a := ReadSized(SizeState(major), k, n);
    if k == 8 {
      ThenIs(data, m, Throw, Fail);
    } else if major >= 4 {
      if n == 0 {
        LonePlaced(data, m, a.node, TypeState);
      } else {
        LoneUnfilled(data, m, a.node);
      }
    } else {
      LoneContents(data, m, a.state, a.len);
    }
  }

  lemma LoneUnfilled(data: Bytes, m: Machine, n: Node)
    requires Acts(data, START, m, Object(n)) && m == START.(off := |data|, len := m.len) && Unfilled(n)
    ensures Decode(data) == Threw
  {
    assert Key(0) && Open(0);
    ActsPut(data, START, m, n, Put(m, n));
    PutSound(m, n);
    NoTurn(data, Put(m, n).m);
  }

  lemma LoneContents(data: Bytes, m: Machine, st: State, len: int)
    requires Acts(data, START, m, Await(st, len)) && m == START.(off := |data|, len := m.len)
    requires st == BytesData || st == StringData
    ensures if len == 0 then Decode(data) == Decoded([Leaf(if st == BytesData then ByteStr([]) else Text([]))], 0)
            else Decode(data) == Threw
  {
    assert Key(0) && Open(0);
    ActsAwait(data, START, m, st, len);
    var m1 := m.(state := st, len := len);
    if len == 0 {
      OneTurn(data, m1, []);
      LeadsOn(data, START, m1);
      assert m1.(off := m1.off + 0, state := TypeState) == m.(len := 0);
      LonePlaced(data, m.(len := 0), Leaf(if st == BytesData then ByteStr([]) else Text([])), TypeState);
    } else if len > 0 {
      NoTurn(data, m1);
    } else {
      RunIs(data, m1, Fail);
    }
  }

  // ---------- what does not come back ----------

  lemma LoneHead(major: nat, n: nat)
    requires (major == 1 || major == 6) && n < 0x1_0000_0000_0000_0000
    ensures var a := HeadAction(major, n); a.Place? && Decode(TypeValue(major, n)) == Decoded([a.node], 0)
  {
    var data, a := TypeValue(major, n), HeadAction(major, n);
    assert data[0..0 + |data|] == data;
    Head(data, START, major, n);
    LonePlaced(data, PastHead(START, major, n), a.node, a.state);
  }

  /** A negative extra integer is encoded as if it were one less; none comes back. */
  lemma ExtraNegativeFails(n: nat)
    requires n < 0x1_0000_0000_0000_0000
    ensures var r := Decode(Encode(ExtraInt(n, false)));
      && r.Decoded? && r.id == 0 && |r.nodes| == 1 && r.nodes[0].Leaf? && Number(r.nodes[0].o)
      == Some(if n == 0xffff_ffff || n == 0xffff_ffff_ffff_ffff then 0 else -1 - (n as int))
      && !Shows(r.nodes, r.id, ExtraInt(n, false))
  {
    LoneHead(1, n);
  }

  /** A 64-bit tag is encoded in 32 bits, and comes back as a tag of 32 bits. */
  lemma ExtraTagFails(t: nat)
    ensures var r := Decode(Encode(ExtraTag(t)));
      && r == Decoded([Leaf(Tag(t % 0x1_0000_0000))], 0) && !Shows(r.nodes, r.id, ExtraTag(t))
  {
    LoneHead(6, Word32(t));
  }
}
