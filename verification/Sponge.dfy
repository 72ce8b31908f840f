/**
  What a Keccak digest is: absorb the padded message block by block, then read bytes off the state
  (uvm_single/Keccak.cpp; sections 4 and 5.1 of FIPS 202, without the domain bits of SHA-3).  The
  permutation is any function of the state and a block.
 */
module Sponge {
  import opened Locks
  import Arith
  import Digits

  type byte = b: nat | b < 256
  const LANES: nat := 25
  type State = s: seq<nat> | |s| == LANES witness seq(LANES, _ => 0)
  type Mix = (State, seq<byte>) -> State

  /** The state once every whole block of `data` is mixed in. */
  function Absorb(f: Mix, r: nat, s: State, data: seq<byte>): State
    requires r > 0
    decreases |data|
  {
    if |data| < r then s else Absorb(f, r, f(s, data[..r]), data[r..])
  }

  /** What is left of `data` after its whole blocks. */
  function Rest(r: nat, data: seq<byte>): (rest: seq<byte>)
    requires r > 0
    ensures |rest| < r && |rest| <= |data|
    decreases |data|
  {
    if |data| < r then data else Rest(r, data[r..])
  }

  lemma {:induction false} RestLength(r: nat, data: seq<byte>)
    requires r > 0
    ensures |Rest(r, data)| == |data| % r
    decreases |data|
  {
    if |data| >= r {
      RestLength(r, data[r..]);
      Arith.ModPlus(|data| - r, 1, r);
    } else {
      Arith.DivModIs(|data|, r, 0, |data|);
    }
  }

  /** Absorbing in two goes is absorbing in one: what the first left over is put before the second. */
  lemma {:induction false} Joined(f: Mix, r: nat, s: State, a: seq<byte>, b: seq<byte>)
    requires r > 0
    ensures Absorb(f, r, s, a + b) == Absorb(f, r, Absorb(f, r, s, a), Rest(r, a) + b)
    ensures Rest(r, a + b) == Rest(r, Rest(r, a) + b)
    decreases |a|
  {
    if |a| >= r {
      assert (a + b)[..r] == a[..r] && (a + b)[r..] == a[r..] + b;
      Joined(f, r, f(s, a[..r]), a[r..], b);
    }
  }

  // ---------- streaming ----------

  /** A message on its way in: the state, and the bytes short of a block. */
  datatype Stream = Stream(state: State, pending: seq<byte>)

  function Feed(f: Mix, r: nat, t: Stream, piece: seq<byte>): Stream
    requires r > 0
  {
    Stream(Absorb(f, r, t.state, t.pending + piece), Rest(r, t.pending + piece))
  }

  function FeedAll(f: Mix, r: nat, t: Stream, pieces: seq<seq<byte>>): Stream
    requires r > 0
    decreases |pieces|
  {
    if |pieces| == 0 then t else FeedAll(f, r, Feed(f, r, t, pieces[0]), pieces[1..])
  }

  function Whole(pieces: seq<seq<byte>>): seq<byte> {
    if |pieces| == 0 then [] else pieces[0] + Whole(pieces[1..])
  }

  lemma FeedJoins(f: Mix, r: nat, t: Stream, a: seq<byte>, b: seq<byte>)
    requires r > 0
    ensures Feed(f, r, Feed(f, r, t, a), b) == Feed(f, r, t, a + b)
  {
    Joined(f, r, t.state, t.pending + a, b);
    assert t.pending + (a + b) == t.pending + a + b;
  }

  /** However a message is cut into pieces, feeding them one by one is feeding it whole. */
  lemma {:induction false} CutAnywhere(f: Mix, r: nat, t: Stream, pieces: seq<seq<byte>>)
    requires r > 0 && |t.pending| < r
    ensures FeedAll(f, r, t, pieces) == Feed(f, r, t, Whole(pieces))
    decreases |pieces|
  {
    if |pieces| == 0 {
      assert t.pending + [] == t.pending;
    } else {
      CutAnywhere(f, r, Feed(f, r, t, pieces[0]), pieces[1..]);
      FeedJoins(f, r, t, pieces[0], Whole(pieces[1..]));
    }
  }

  // ---------- padding ----------

  function Zeros(n: nat): (z: seq<byte>)
    ensures |z| == n && forall i :: 0 <= i < n ==> z[i] == 0
  {
    if n == 0 then [] else [0] + Zeros(n - 1)
  }

  lemma ZerosGrow(n: nat)
    ensures Zeros(n) + [0] == Zeros(n + 1)
  {
  }

  /** What is put after `n` message bytes to fill blocks of `r`. */
  function Padding(r: nat, n: nat): (p: seq<byte>)
    requires r > 0
    ensures 0 < |p| == r - n % r
  {
    Fill(r - n % r)
  }

  function Fill(q: nat): (p: seq<byte>)
    requires q > 0
    ensures |p| == q
  {
    if q == 1 then [0x81] else [1] + Zeros(q - 2) + [0x80]
  }

  /** Setting the top bit of the last byte finishes the padding. */
  lemma Capped(kept: seq<byte>, q: nat, full: seq<byte>)
    requires q > 0 && full == kept + [1] + Zeros(q - 1)
    ensures full[|full| - 1] < 0x80 && full[|full| - 1 := full[|full| - 1] + 0x80] == kept + Fill(q)
  {
    if q > 1 { ZerosGrow(q - 2); }
  }

  function Padded(r: nat, message: seq<byte>): seq<byte>
    requires r > 0
  {
    message + Padding(r, |message|)
  }

  /** The bits of a byte, lowest first, and of bytes in order (section B.1 of FIPS 202). */
  function ByteBits(b: byte): seq<bool> {
    [b % 2 == 1, b / 2 % 2 == 1, b / 4 % 2 == 1, b / 8 % 2 == 1, b / 16 % 2 == 1, b / 32 % 2 == 1, b / 64 % 2 == 1,
      b / 128 % 2 == 1]
  }

  /** Bit i of a byte is the one that counts 2^i. */
  lemma ByteBitsAre(b: byte, i: nat)
    requires i < 8
    ensures Arith.Pow(2, i) > 0 && (ByteBits(b)[i] <==> b / Arith.Pow(2, i) % 2 == 1)
  {
    assert Arith.Pow(2, 1) == 2 && Arith.Pow(2, 2) == 4 && Arith.Pow(2, 3) == 8;
    if i >= 4 {
      Arith.PowAdd(2, 4, i - 4);
    }
  }

  function Bits(data: seq<byte>): (r: seq<bool>)
    ensures |r| == 8 * |data|
  {
    if |data| == 0 then [] else ByteBits(data[0]) + Bits(data[1..])
  }

  function Off(n: nat): (z: seq<bool>)
    ensures |z| == n && forall i :: 0 <= i < n ==> !z[i]
  {
    if n == 0 then [] else [false] + Off(n - 1)
  }

  /** pad10*1 (section 5.1 of FIPS 202): what fills `m` bits up to a multiple of `x`. */
  function PadTenStarOne(x: nat, m: int): seq<bool>
    requires x > 0
  {
    [true] + Off((-m - 2) % (x as int)) + [true]
  }

  lemma {:induction false} BitsJoin(a: seq<byte>, b: seq<byte>)
    ensures Bits(a + b) == Bits(a) + Bits(b)
  {
    if |a| == 0 {
      assert a + b == b;
    } else {
      assert (a + b)[1..] == a[1..] + b;
      BitsJoin(a[1..], b);
    }
  }

  lemma {:induction false} BitsOfZeros(n: nat)
    ensures Bits(Zeros(n)) == Off(8 * n)
  {
    if n > 0 {
      assert Zeros(n)[1..] == Zeros(n - 1);
      BitsOfZeros(n - 1);
      assert ByteBits(0) == Off(8);
      OffJoin(8, 8 * (n - 1));
    }
  }

  lemma OffJoin(a: nat, b: nat)
    ensures Off(a) + Off(b) == Off(a + b)
  {
  }

  lemma PaddingGap(r: nat, n: nat)
    requires r > 0
    ensures (-(8 * n) - 2) % (8 * r) == 8 * (r - n % r) - 2
  {
    var q := r - n % r;
    assert n + q == (n / r + 1) * r;
    Arith.DivModIs(-(8 * n) - 2, 8 * r, -(n / r + 1), 8 * q - 2);
  }

  /** The bytes the code appends are the bits of pad10*1, for every rate and message length. */
  lemma PaddingIsTenStarOne(r: nat, message: seq<byte>)
    requires r > 0
    ensures Bits(Padded(r, message)) == Bits(message) + PadTenStarOne(8 * r, 8 * |message|)
  {
    var p := Padding(r, |message|);
    BitsJoin(message, p);
    PaddingFits(r, |message|);
  }

  /** A padded message is whole blocks. */
  lemma PaddedWhole(r: nat, message: seq<byte>)
    requires r > 0
    ensures |Padded(r, message)| % r == 0 && Rest(r, Padded(r, message)) == []
  {
    PaddedLength(r, |message|);
    RestLength(r, Padded(r, message));
  }

  lemma PaddingFits(r: nat, n: nat)
    requires r > 0
    ensures Bits(Padding(r, n)) == PadTenStarOne(8 * r, 8 * n)
  {
    PaddingBits(r, n);
    PaddingGap(r, n);
  }

  lemma PaddedLength(r: nat, n: nat)
    requires r > 0
    ensures (n + (r - n % r)) % r == 0
  {
    assert n + (r - n % r) == (n / r + 1) * r;
    Arith.DivModIs(n + (r - n % r), r, n / r + 1, 0);
  }

  lemma PaddingBits(r: nat, n: nat)
    requires r > 0
    ensures Bits(Padding(r, n)) == [true] + Off(8 * (r - n % r) - 2) + [true]
  {
    FillBits(|Padding(r, n)|);
  }

  lemma FillBits(q: nat)
    requires q > 0
    ensures Bits(Fill(q)) == [true] + Off(8 * q - 2) + [true]
  {
    if q == 1 {
      OneByte(0x81);
      assert ByteBits(0x81) == [true] + Off(6) + [true];
    } else {
      LongFill(q - 2);
    }
  }

  lemma OneByte(b: byte)
    ensures Bits([b]) == ByteBits(b)
  {
    assert [b][1..] == [];
    assert Bits([b]) == ByteBits(b) + Bits([]);
  }

  lemma LongFill(n: nat)
    ensures Bits([1] + Zeros(n) + [0x80]) == [true] + Off(8 * n + 14) + [true]
  {
    BitsJoin([1] + Zeros(n), [0x80]);
    BitsJoin([1], Zeros(n));
    BitsOfZeros(n);
    OneByte(1);
    OneByte(0x80);
    EndBits();
    OffThree(7, 8 * n, 7);
  }

  lemma EndBits()
    ensures ByteBits(1) == [true] + Off(7) && ByteBits(0x80) == Off(7) + [true]
  {
  }

  lemma OffThree(a: nat, b: nat, c: nat)
    ensures Off(a) + Off(b) + Off(c) == Off(a + b + c)
  {
    OffJoin(a, b);
    OffJoin(a + b, c);
  }

  // ---------- squeezing ----------

  /** (unsigned char)(lane >> 8 * j) */
  function LaneByte(lane: nat, j: nat): byte {
    Arith.PowPos(2, 8 * j);
    lane / Arith.Pow(2, 8 * j) % 256
  }

  /** The sum of the lane's first n bytes, the first one counting least. */
  function LaneSum(lane: nat, n: nat): nat {
    if n == 0 then 0 else LaneSum(lane, n - 1) + LaneByte(lane, n - 1) * Arith.Pow(256, n - 1)
  }

  lemma {:induction false} PowOf256(n: nat)
    ensures Arith.Pow(2, 8 * n) == Arith.Pow(256, n) > 0
  {
    if n > 0 {
      PowOf256(n - 1);
      Arith.PowAdd(2, 8, 8 * (n - 1));
      assert Arith.Pow(2, 4) == 16;
      Arith.PowAdd(2, 4, 4);
    }
  }

  /** A lane's bytes, the least significant first, are the lane. */
  lemma {:induction false} LaneBytes(lane: nat, n: nat)
    ensures Arith.Pow(256, n) > 0 && LaneSum(lane, n) == lane % Arith.Pow(256, n)
  {
    PowOf256(n);
    if n == 0 {
      Arith.DivModIs(lane, 1, lane, 0);
    } else {
      LaneBytes(lane, n - 1);
      PowOf256(n - 1);
      OneByteMore(lane, Arith.Pow(256, n - 1));
    }
  }

  lemma OneByteMore(lane: nat, p: nat)
    requires p > 0
    ensures 256 * p > 0 && lane % (256 * p) == lane % p + lane / p % 256 * p
  {
    var q, r := lane / p, lane % p;
    Arith.DivModIs(q, 256, q / 256, q % 256);
    Arith.MulMono(q % 256 + 1, 256, p);
    Arith.DivModIs(lane, p, q, r);
    SplitLane(lane, p, q, q / 256, q % 256, r);
    Arith.DivModIs(lane, 256 * p, q / 256, r + q % 256 * p);
  }

  lemma SplitLane(lane: nat, p: nat, q: nat, h: nat, d: nat, r: nat)
    requires lane == q * p + r && q == h * 256 + d
    ensures lane == h * (256 * p) + (r + d * p)
  {
  }

  /** Byte `k` of the state, lanes little-endian. */
  function StateByte(s: State, k: nat): byte
    requires k < 8 * LANES
  {
    LaneByte(s[k / 8], k % 8)
  }

  lemma ByteAt(s: State, n: nat, i: nat, j: nat)
    requires i < LANES && j < 8 && n == 8 * i + j
    ensures StateByte(s, n) == LaneByte(s[i], j)
  {
    Arith.DivModIs(n, 8, i, j);
  }

  lemma SqueezedMore(s: State, n: nat)
    requires n < 8 * LANES
    ensures Squeezed(s, n + 1) == Squeezed(s, n) + HexByte(StateByte(s, n))
  {
  }

  function HexByte(b: byte): (r: string)
    ensures |r| == 2
  {
    [Digits.HEX[b / 16], Digits.HEX[b % 16]]
  }

  /** The first `n` bytes of the state in hex. */
  function Squeezed(s: State, n: nat): (r: string)
    requires n <= 8 * LANES
    ensures |r| == 2 * n
  {
    if n == 0 then "" else Squeezed(s, n - 1) + HexByte(StateByte(s, n - 1))
  }

  lemma SqueezedLane(s: State, n: nat, i: nat, j: nat)
    requires i < LANES && j < 8 && n == 8 * i + j
    ensures Squeezed(s, n + 1) == Squeezed(s, n) + HexByte(LaneByte(s[i], j))
  {
    SqueezedMore(s, n);
    ByteAt(s, n, i, j);
  }

  predicate IsHex(c: char) {
    '0' <= c <= '9' || 'a' <= c <= 'f'
  }

  /** The digest's two digits for each byte give that byte back. */
  lemma {:induction false} SqueezedDigits(s: State, n: nat, k: nat)
    requires k < n <= 8 * LANES
    ensures IsHex(Squeezed(s, n)[2 * k]) && IsHex(Squeezed(s, n)[2 * k + 1])
    ensures 16 * Digits.DigitValue(Squeezed(s, n)[2 * k]) + Digits.DigitValue(Squeezed(s, n)[2 * k + 1]) ==
        StateByte(s, k)
  {
    if k < n - 1 {
      SqueezedDigits(s, n - 1, k);
    } else {
      HexByteBack(StateByte(s, k));
    }
  }

  lemma HexIs(d: nat)
    requires d < 16
    ensures IsHex(Digits.HEX[d]) && Digits.DigitValue(Digits.HEX[d]) == d
  {
    Digits.HexDigit(d);
    if d >= 10 {
      Digits.HexLetter(d);
    }
  }

  lemma HexByteBack(b: byte)
    ensures IsHex(HexByte(b)[0]) && IsHex(HexByte(b)[1])
    ensures 16 * Digits.DigitValue(HexByte(b)[0]) + Digits.DigitValue(HexByte(b)[1]) == b
  {
    HexIs(b / 16);
    HexIs(b % 16);
  }

  /** Whole lanes and the half lane of Keccak-224 come to `bits` bits. */
  lemma DigestSize(bits: nat, lanes: nat, remainder: nat)
    requires bits in {224, 256, 384, 512} && lanes == bits / 64 && remainder == (bits - lanes * 64) / 8
    ensures 8 * lanes + remainder == bits / 8 <= 64 && remainder <= 4
  {
    if bits == 224 {
    } else if bits == 256 {
    } else if bits == 384 {
    }
  }

  /** The digest of a message: absorb it padded, from the zero state. */
  function Digest(f: Mix, bits: nat, message: seq<byte>): string
    requires bits in {224, 256, 384, 512}
  {
    Squeezed(Absorb(f, Rate(bits), Zero(), Padded(Rate(bits), message)), bits / 8)
  }

  function Rate(bits: nat): (r: nat)
    requires bits in {224, 256, 384, 512}
    ensures 0 < r <= 144
  {
    200 - 2 * (bits / 8)
  }

  function Zero(): State {
    seq(LANES, _ => 0)
  }

  /** Rate and capacity, twice the digest, make up the 1600 bits of the state (section 4 of FIPS 202). */
  lemma RateIs(bits: nat, r: nat)
    requires bits in {224, 256, 384, 512}
    ensures r == Rate(bits) <==> 8 * r + 2 * bits == 1600
  {
  }

  /** A digest of `bits` bits: the padded message is absorbed with that rate into a state that is all zeros, and the
      first bytes of the state are written in hex, two digits each. */
  lemma DigestIs(f: Mix, bits: nat, message: seq<byte>, r: nat, zero: State)
    requires bits in {224, 256, 384, 512} && 8 * r + 2 * bits == 1600 && forall i :: 0 <= i < LANES ==> zero[i] == 0
    ensures r > 0 && |Digest(f, bits, message)| == bits / 4
    ensures InHex(Digest(f, bits, message), Absorb(f, r, zero, Padded(r, message)), bits / 8)
  {
    RateIs(bits, r);
    assert zero == Zero();
    SqueezedHex(Absorb(f, r, zero, Padded(r, message)), bits / 8);
  }

  lemma DigestDone(f: Mix, bits: nat, message: seq<byte>, r: nat, s: State)
    requires bits in {224, 256, 384, 512} && 8 * r + 2 * bits == 1600 && r > 0
    requires s == Absorb(f, r, Zero(), Padded(r, message))
    ensures bits / 8 <= 8 * LANES && Squeezed(s, bits / 8) == Digest(f, bits, message)
  {
    RateIs(bits, r);
  }

  /** d is the first n bytes of the state in hex. */
  ghost predicate InHex(d: string, s: State, n: nat)
    requires n <= 8 * LANES
  {
    |d| == 2 * n && forall k :: 0 <= k < n ==>
      IsHex(d[2 * k]) && IsHex(d[2 * k + 1]) &&
      16 * Digits.DigitValue(d[2 * k]) + Digits.DigitValue(d[2 * k + 1]) == StateByte(s, k)
  }

  lemma SqueezedHex(s: State, n: nat)
    requires n <= 8 * LANES
    ensures InHex(Squeezed(s, n), s, n)
  {
    forall k | 0 <= k < n
      ensures IsHex(Squeezed(s, n)[2 * k]) && IsHex(Squeezed(s, n)[2 * k + 1]) &&
        16 * Digits.DigitValue(Squeezed(s, n)[2 * k]) + Digits.DigitValue(Squeezed(s, n)[2 * k + 1])
        == StateByte(s, k) {
      SqueezedDigits(s, n, k);
    }
  }

  /** Absorbing the message and then its last block, padded, is absorbing the padded message. */
  lemma LastBlock(f: Mix, r: nat, s: State, message: seq<byte>)
    requires r > 0
    ensures |Rest(r, message) + Fill(r - |Rest(r, message)|)| == r
    ensures Absorb(f, r, s, Padded(r, message)) == f(Absorb(f, r, s, message), Rest(r, message) +
        Fill(r - |Rest(r, message)|))
  {
    RestLength(r, message);
    var last := Rest(r, message) + Padding(r, |message|);
    Joined(f, r, s, message, Padding(r, |message|));
    assert last[..r] == last && last[r..] == [];
  }

  // ---------- the streaming object ----------

  /** The state `s` and the bytes `pending` are where `message` leads. */
  ghost predicate Streamed(f: Mix, r: nat, s: State, pending: seq<byte>, message: seq<byte>)
    requires r > 0
  {
    |pending| < r && forall n: nat {:trigger Key(n)} :: Open(n) ==>
      s == Absorb(f, r, Zero(), message) && pending == Rest(r, message)
  }

  /** Absorbing `message` comes to absorbing `rest` from `s`. */
  ghost predicate Owes(f: Mix, r: nat, s: State, rest: seq<byte>, message: seq<byte>)
    requires r > 0
  {
    forall n: nat {:trigger Key(n)} :: Open(n) ==>
      Absorb(f, r, Zero(), message) == Absorb(f, r, s, rest) && Rest(r, message) == Rest(r, rest)
  }

  lemma StreamedStart(f: Mix, r: nat)
    requires r > 0
    ensures Streamed(f, r, Zero(), [], [])
  {
    assert Absorb(f, r, Zero(), []) == Zero() && Rest(r, []) == [];
  }

  lemma OwesMore(f: Mix, r: nat, s: State, pending: seq<byte>, message: seq<byte>, data: seq<byte>)
    requires r > 0 && Streamed(f, r, s, pending, message)
    ensures Owes(f, r, s, pending + data, message + data)
  {
    assert Key(0) && Open(0);
    Joined(f, r, Zero(), message, data);
  }

  lemma OwesBlock(f: Mix, r: nat, s: State, block: seq<byte>, rest: seq<byte>, message: seq<byte>)
    requires r > 0 && |block| == r && Owes(f, r, s, block + rest, message)
    ensures Owes(f, r, f(s, block), rest, message)
  {
    assert Key(0) && Open(0);
    assert (block + rest)[..r] == block && (block + rest)[r..] == rest;
  }

  lemma OwesLess(f: Mix, r: nat, s: State, rest: seq<byte>, message: seq<byte>)
    requires r > 0 && |rest| < r && Owes(f, r, s, rest, message)
    ensures Streamed(f, r, s, rest, message)
  {
    assert Key(0) && Open(0);
  }

  /** Mixing the pending bytes in, filled up, completes the padded message. */
  lemma StreamedEnd(f: Mix, r: nat, s: State, pending: seq<byte>, message: seq<byte>)
    requires r > 0 && Streamed(f, r, s, pending, message)
    ensures f(s, pending + Fill(r - |pending|)) == Absorb(f, r, Zero(), Padded(r, message))
  {
    assert Key(0) && Open(0);
    LastBlock(f, r, Zero(), message);
  }
}
