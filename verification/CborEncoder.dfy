/**
  CBOR objects and their encoding (src/cborcpp/encoder.cpp, RFC 8949 sections 3.1 and 4.2.1).
 */
module CborEncoder {
  import opened Arith
  import opened CborBytes

  datatype Pair = Pair(key: Bytes, value: Cbor)

  /** CborObject, by type.  A float is its decimal text. */
  datatype Cbor =
    | Null
    | Undefined
    | Bool(b: bool)
    | Int(v: int)
    | ExtraInt(n: nat, positive: bool)
    | Text(s: Bytes)
    | ByteStr(s: Bytes)
    | Tag(t: nat)
    | ExtraTag(t: nat)
    | Float(text: Bytes)
    | Arr(items: seq<Cbor>)
    | Map(pairs: seq<Pair>)

  /** The order of std::string keys. */
  predicate Less(s: Bytes, t: Bytes) {
    if t == [] then false
    else if s == [] then true
    else s[0] < t[0] || (s[0] == t[0] && Less(s[1..], t[1..]))
  }

  lemma {:induction false} LessTrans(s: Bytes, t: Bytes, u: Bytes)
    requires Less(s, t) && Less(t, u)
    ensures Less(s, u)
  {
    if s != [] && s[0] == t[0] && t[0] == u[0] {
      LessTrans(s[1..], t[1..], u[1..]);
    }
  }

  lemma {:induction false} LessTotal(s: Bytes, t: Bytes)
    ensures !Less(s, s)
    ensures s == t || Less(s, t) || Less(t, s)
  {
    if s != [] {
      if t != [] {
        LessTotal(s[1..], t[1..]);
        assert s == [s[0]] + s[1..] && t == [t[0]] + t[1..];
      } else {
        LessTotal(s[1..], []);
      }
    }
  }

  /** write_type_value: the shortest argument that holds n. */
  function TypeValue(major: nat, n: nat): Bytes
    requires major < 8
  {
    if n < 24 then [32 * major + n]
    else if n < 256 then [32 * major + 24] + BigEndian(n, 1)
    else if n < 65536 then [32 * major + 25] + BigEndian(n, 2)
    else if n < 0x1_0000_0000 then [32 * major + 26] + BigEndian(n, 4)
    else [32 * major + 27] + BigEndian(n, 8)
  }

  /** A length or tag is passed on in 32 bits. */
  function Word32(n: nat): nat {
    n % 0x1_0000_0000
  }

  function EncodeInt(v: int): Bytes {
    if v < 0 then TypeValue(1, -(v + 1)) else TypeValue(0, v)
  }

  function EncodeText(s: Bytes): Bytes {
    TypeValue(3, Word32(|s|)) + s
  }

  /** A float's text, filled up with zeros to 40 bytes. */
  function EncodeFloat(text: Bytes): Bytes {
    TypeValue(7, Word32(|text|)) + text + (if |text| < 40 then seq(40 - |text|, _ => 0) else [])
  }

  function Encode(o: Cbor): Bytes
    decreases o, 1
  {
    match o
    case Null => [0xf6]
    case Undefined => [0xf7]
    case Bool(b) => if b then [0xf5] else [0xf4]
    case Int(v) => EncodeInt(v)
    case ExtraInt(n, positive) => TypeValue(if positive then 0 else 1, n)
    case Text(s) => EncodeText(s)
    case ByteStr(s) => TypeValue(2, Word32(|s|)) + s
    case Tag(t) => TypeValue(6, Word32(t))
    case ExtraTag(t) => TypeValue(6, Word32(t))
    case Float(text) => EncodeFloat(text)
    case Arr(items) => TypeValue(4, Word32(|items|)) + EncodeItems(o, items)
    case Map(pairs) => TypeValue(5, Word32(|pairs|)) + EncodePairs(o, pairs)
  }

  function EncodeItems(o: Cbor, items: seq<Cbor>): Bytes
    requires forall k :: 0 <= k < |items| ==> items[k] < o
    decreases o, 0, |items|
  {
    if items == [] then [] else Encode(items[0]) + EncodeItems(o, items[1..])
  }

  function EncodePair(p: Pair): Bytes
    decreases p.value, 2
  {
    EncodeText(p.key) + Encode(p.value)
  }

  function EncodePairs(o: Cbor, pairs: seq<Pair>): Bytes
    requires forall k :: 0 <= k < |pairs| ==> pairs[k].value < o
    decreases o, 0, |pairs|
  {
    if pairs == [] then [] else EncodePair(pairs[0]) + EncodePairs(o, pairs[1..])
  }

  // ---------- the encoder writes to an output ----------

  class Encoder {
    var out: Output

    constructor (o: Output)
      ensures out == o
    {
      out := o;
    }

    method WriteTypeValue(major: nat, n: nat)
      requires out.Valid() && major < 8
      modifies out, out.buffer
      ensures out.Valid() && (out.buffer == old(out.buffer) || fresh(out.buffer))
      ensures out.Contents() == old(out.Contents()) + TypeValue(major, n)
    {
      if n < 24 {
        out.PutByte(32 * major + n);
      } else if n < 256 {
        WriteHead(32 * major + 24, n, 1);
      } else if n < 65536 {
        WriteHead(32 * major + 25, n, 2);
      } else if n < 0x1_0000_0000 {
        WriteHead(32 * major + 26, n, 4);
      } else {
        WriteHead(32 * major + 27, n, 8);
      }
    }

    /** A type byte and the k bytes of its argument. */
    method WriteHead(head: Byte, n: nat, k: nat)
      requires out.Valid()
      modifies out, out.buffer
      ensures out.Valid() && (out.buffer == old(out.buffer) || fresh(out.buffer))
      ensures out.Contents() == old(out.Contents()) + ([head] + BigEndian(n, k))
    {
      out.PutByte(head);
      out.PutBytes(BigEndian(n, k));
    }

    method WriteInt(v: int)
      requires out.Valid()
      modifies out, out.buffer
      ensures out.Valid() && (out.buffer == old(out.buffer) || fresh(out.buffer))
      ensures out.Contents() == old(out.Contents()) + EncodeInt(v)
    {
      if v < 0 {
        WriteTypeValue(1, -(v + 1));
      } else {
        WriteTypeValue(0, v);
      }
    }

    method WriteBytes(major: nat, s: Bytes)
      requires out.Valid() && major < 8
      modifies out, out.buffer
      ensures out.Valid() && (out.buffer == old(out.buffer) || fresh(out.buffer))
      ensures out.Contents() == old(out.Contents()) + (TypeValue(major, Word32(|s|)) + s)
    {
      WriteTypeValue(major, Word32(|s|));
      out.PutBytes(s);
    }

    method WriteFloat(text: Bytes)
      requires out.Valid()
      modifies out, out.buffer
      ensures out.Valid() && (out.buffer == old(out.buffer) || fresh(out.buffer))
      ensures out.Contents() == old(out.Contents()) + EncodeFloat(text)
    {
      WriteBytes(7, text);
      if |text| < 40 {
        out.PutBytes(seq(40 - |text|, _ => 0));
      }
    }

    /** write_cbor_object appends the encoding, for every object. */
    method WriteObject(o: Cbor)
      requires out.Valid()
      modifies out, out.buffer
      ensures out.Valid() && (out.buffer == old(out.buffer) || fresh(out.buffer))
      ensures out.Contents() == old(out.Contents()) + Encode(o)
      decreases o, 1
    {
      match o {
        case Null => out.PutByte(0xf6);
        case Undefined => out.PutByte(0xf7);
        case Bool(b) => out.PutByte(if b then 0xf5 else 0xf4);
        case Int(v) => WriteInt(v);
        case ExtraInt(n, positive) => WriteTypeValue(if positive then 0 else 1, n);
        case Text(s) => WriteBytes(3, s);
        case ByteStr(s) => WriteBytes(2, s);
        case Tag(t) => WriteTypeValue(6, Word32(t));
        case ExtraTag(t) => WriteTypeValue(6, Word32(t));
        case Float(text) => WriteFloat(text);
        case Arr(_) => WriteArray(o);
        case Map(_) => WriteMap(o);
      }
    }

    method WriteArray(o: Cbor)
      requires out.Valid() && o.Arr?
      modifies out, out.buffer
      ensures out.Valid() && (out.buffer == old(out.buffer) || fresh(out.buffer))
      ensures out.Contents() == old(out.Contents()) + Encode(o)
      decreases o, 0, |o.items| + 1
    {
      ghost var before := out.Contents();
      WriteTypeValue(4, Word32(|o.items|));
      WriteItems(o, o.items);
      Joined(before, TypeValue(4, Word32(|o.items|)), EncodeItems(o, o.items));
    }

    method WriteMap(o: Cbor)
      requires out.Valid() && o.Map?
      modifies out, out.buffer
      ensures out.Valid() && (out.buffer == old(out.buffer) || fresh(out.buffer))
      ensures out.Contents() == old(out.Contents()) + Encode(o)
      decreases o, 0, |o.pairs| + 1
    {
      ghost var before := out.Contents();
      WriteTypeValue(5, Word32(|o.pairs|));
      WritePairs(o, o.pairs);
      Joined(before, TypeValue(5, Word32(|o.pairs|)), EncodePairs(o, o.pairs));
    }

    method WriteItems(ghost o: Cbor, items: seq<Cbor>)
      requires out.Valid() && forall k :: 0 <= k < |items| ==> items[k] < o
      modifies out, out.buffer
      ensures out.Valid() && (out.buffer == old(out.buffer) || fresh(out.buffer))
      ensures out.Contents() == old(out.Contents()) + EncodeItems(o, items)
      decreases o, 0, |items|
    {
      if items != [] {
        ghost var before := out.Contents();
        WriteObject(items[0]);
        WriteItems(o, items[1..]);
        Joined(before, Encode(items[0]), EncodeItems(o, items[1..]));
      } else {
        Nothing(out.Contents());
      }
    }

    method WritePairs(ghost o: Cbor, pairs: seq<Pair>)
      requires out.Valid() && forall k :: 0 <= k < |pairs| ==> pairs[k].value < o
      modifies out, out.buffer
      ensures out.Valid() && (out.buffer == old(out.buffer) || fresh(out.buffer))
      ensures out.Contents() == old(out.Contents()) + EncodePairs(o, pairs)
      decreases o, 0, |pairs|
    {
      if pairs != [] {
        ghost var before := out.Contents();
        WritePair(o, pairs[0]);
        WritePairs(o, pairs[1..]);
        Joined(before, EncodePair(pairs[0]), EncodePairs(o, pairs[1..]));
      } else {
        Nothing(out.Contents());
      }
    }

    method WritePair(ghost o: Cbor, p: Pair)
      requires out.Valid() && p.value < o
      modifies out, out.buffer
      ensures out.Valid() && (out.buffer == old(out.buffer) || fresh(out.buffer))
      ensures out.Contents() == old(out.Contents()) + EncodePair(p)
      decreases o, 0, 0
    {
      ghost var before := out.Contents();
      WriteBytes(3, p.key);
      WriteObject(p.value);
      Joined(before, EncodeText(p.key), Encode(p.value));
    }
  }

  lemma Joined(s: Bytes, t: Bytes, u: Bytes)
    ensures (s + t) + u == s + (t + u)
  {
  }

  lemma Nothing(s: Bytes)
    ensures s + [] == s
  {
  }
}
