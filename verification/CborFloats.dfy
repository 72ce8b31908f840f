/**
  A float on its own: when it comes back from its encoding, and what the bytes that fill it up are for
  (src/cborcpp/encoder.cpp:84-97, src/cborcpp/decoder.cpp:323-360, 487-524).
 */
module CborFloats {
  import opened Options
  import opened Locks
  import opened CborBytes
  import opened CborEncoder
  import opened CborDecoder
  import opened CborHeads
  import opened CborRoundTrip

  /** The text starts with a minus sign or a digit. */
  predicate Numeral(text: Bytes) {
    text != [] && (text[0] == 0x2d || 0x30 <= text[0] <= 0x39)
  }

  /** The float's head is taken for one of the special values. */
  lemma MistakenHead(data: Bytes, text: Bytes) returns (m: Machine, n: Node)
    requires Mistaken(|text|) && At(data, 0, TypeValue(7, |text|) + text)
    ensures Leads(data, START, m) && m == START.(off := 1, nodes := [n], result := Some(0))
    ensures At(data, 1, text)
  {
    AtParts(data, 0, TypeValue(7, |text|), text);
    TypeValueIs(7, |text|);
    assert BigEndian(|text|, 0) == [];
    var b := [32 * 7 + |text|];
    OneTurn(data, START, b);
    var m1 := START.(off := 1);
    n := Decide(START, b).node;
    var r := Put(m1, n);
    ActsPut(data, START, m1, n, r);
    m := r.m;
  }

  /** A second object is rejected. */
  lemma SecondObject(data: Bytes, m: Machine, m1: Machine, n: Node)
    requires Acts(data, m, m1, Object(n)) && m1.state.TypeState? && m1.stack == [] && m1.result.Some?
    ensures Ends(data, m, Threw)
  {
    ActsPut(data, m, m1, n, Put(m1, n));
  }

  /** The text is then read as a second object, a negative number. */
  lemma NumeralThrows(data: Bytes, m: Machine, text: Bytes)
    requires Sound(m) && m.state.TypeState? && m.stack == [] && m.result.Some?
    requires Numeral(text) && |text| >= 3 && At(data, m.off, text)
    ensures Ends(data, m, Threw)
  {
    var c := text[0];
    AtParts(data, m.off, [c], text[1..]) by { assert text == [c] + text[1..]; }
    OneTurn(data, m, [c]);
    var m1 := m.(off := m.off + 1);
    if c < 0x38 {
      SecondObject(data, m, m1, Leaf(Int(Minus1(c - 32))));
    } else {
      var k := c - 0x37;
      var s := text[1..1 + k];
      AtParts(data, m.off + 1, s, text[1 + k..]) by { assert text[1..] == s + text[1 + k..]; }
      ActsAwait(data, m, m1, Nint, k);
      SecondArgument(data, m1.(state := Nint, len := k), s);
      LeadsOn(data, m, m1.(state := Nint, len := k));
    }
  }

  lemma SecondArgument(data: Bytes, m: Machine, s: Bytes)
    requires Sound(m) && m.state == Nint && m.stack == [] && m.result.Some? && (m.len == 1 || m.len == 2)
    requires |s| == m.len && At(data, m.off, s)
    ensures Ends(data, m, Threw)
  {
    OneTurn(data, m, s);
    var m1 := m.(off := m.off + |s|, state := TypeState);
    SecondObject(data, m, m1, Decide(m, s).node);
  }

  /** A float comes back if and only if its text is not of 20 to 23 characters: those are the numbers from 10 to
      below 100000, and the negative ones above -10000. */
  lemma FloatRoundTrip(text: Bytes)
    requires Numeral(text) && |text| < 0x8000_0000
    ensures var r := Decode(Encode(Float(text)));
      (r.Decoded? && Shows(r.nodes, r.id, Float(text))) <==> !(20 <= |text| <= 23)
  {
    if !Mistaken(|text|) {
      RoundTrip(Float(text));
    } else {
      var data := Encode(Float(text));
      var s := TypeValue(7, |text|) + text;
      assert Word32(|text|) == |text| && data == s + seq(Padding(text), _ => 0) && data[0..0 + |data|] == data;
      AtParts(data, 0, s, seq(Padding(text), _ => 0));
      var m, n := MistakenHead(data, text);
      NumeralThrows(data, m, text);
      LeadsOn(data, START, m);
      assert Key(0) && Open(0);
    }
  }

  /** The encoding of a float without the zeros, or without some of them, is as good. */
  lemma PaddingUnread(text: Bytes, n: nat)
    requires |text| < 0x8000_0000 && !Mistaken(|text|)
    requires |TypeValue(7, |text|)| + |text| <= n <= |Encode(Float(text))|
    ensures var r := Decode(Encode(Float(text))[..n]); r.Decoded? && r.nodes == [Leaf(Float(text))] && r.id == 0
  {
    var data := Encode(Float(text))[..n];
    var s := TypeValue(7, |text|) + text;
    assert Word32(|text|) == |text| && Encode(Float(text)) == s + seq(Padding(text), _ => 0);
    assert data[0..0 + |s|] == s;
    FloatContents(data, START, text);
    var m1 := PastFloat(START, text);
    var r := Put(m1, Leaf(Float(text)));
    ActsPut(data, START, m1, Leaf(Float(text)), r);
    PutSound(m1, Leaf(Float(text)));
    NoTurn(data, r.m);
    LeadsOn(data, START, r.m);
    assert Key(0) && Open(0);
  }
}
