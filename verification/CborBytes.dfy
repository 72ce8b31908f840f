/**
  Bytes, big-endian numbers and the growing output buffer
  (src/cborcpp/input.cpp, src/cborcpp/output_dynamic.cpp).
 */
module CborBytes {
  import opened Arith

  type Byte = n: int | 0 <= n < 256
  type Bytes = seq<Byte>

  /** The low k bytes of n, the most significant first. */
  function BigEndian(n: nat, k: nat): (s: Bytes)
    ensures |s| == k
  {
    if k == 0 then [] else BigEndian(n / 256, k - 1) + [n % 256]
  }

  /** get_byte, get_short, get_int and get_long: shifting and or-ing the bytes together. */
  function FromBigEndian(s: Bytes): (n: nat)
    decreases |s|
  {
    if s == [] then 0 else FromBigEndian(s[..|s| - 1]) * 256 + s[|s| - 1]
  }

  lemma {:induction false} BigEndianBack(n: nat, k: nat)
    requires n < Pow(256, k)
    ensures FromBigEndian(BigEndian(n, k)) == n
    decreases k
  {
    if k > 0 {
      DivLess(n, 256, Pow(256, k - 1));
      BigEndianBack(n / 256, k - 1);
      assert BigEndian(n, k)[..k - 1] == BigEndian(n / 256, k - 1);
    }
  }

  lemma {:induction false} FromBigEndianBound(s: Bytes)
    ensures FromBigEndian(s) < Pow(256, |s|)
    decreases |s|
  {
    if s != [] {
      FromBigEndianBound(s[..|s| - 1]);
    }
  }

  /** output_dynamic: a buffer that doubles when it is full. */
  class Output {
    var buffer: array<Byte>
    var capacity: nat
    var offset: nat

    ghost predicate Valid() reads this {
      offset <= capacity == buffer.Length && capacity > 0
    }

    ghost function Contents(): Bytes reads this, buffer requires Valid() {
      buffer[..offset]
    }

    constructor (initialCapacity: nat)
      requires initialCapacity > 0
      ensures Valid() && fresh(buffer) && Contents() == []
    {
      buffer := new Byte[initialCapacity];
      capacity := initialCapacity;
      offset := 0;
    }

    /** realloc to twice the capacity: what was written stays. */
    method Grow()
      requires Valid()
      modifies this`buffer, this`capacity
      ensures Valid() && fresh(buffer) && capacity == 2 * old(capacity) && Contents() == old(Contents())
    {
      var bigger := new Byte[2 * capacity];
      var i := 0;
      while i < offset
        modifies bigger
        invariant 0 <= i <= offset && bigger[..i] == buffer[..i]
      {
        bigger[i] := buffer[i];
        i := i + 1;
      }
      buffer := bigger;
      capacity := 2 * capacity;
    }

    method PutByte(b: Byte)
      requires Valid()
      modifies this, buffer
      ensures Valid() && (buffer == old(buffer) || fresh(buffer)) && Contents() == old(Contents()) + [b]
    {
      if offset >= capacity {
        Grow();
      }
      buffer[offset] := b;
      offset := offset + 1;
    }

    method PutBytes(s: Bytes)
      requires Valid()
      modifies this, buffer
      ensures Valid() && (buffer == old(buffer) || fresh(buffer)) && Contents() == old(Contents()) + s
    {
      while offset + |s| > capacity
        invariant Valid() && offset == old(offset) && Contents() == old(Contents())
        invariant buffer == old(buffer) || fresh(buffer)
        decreases offset + |s| - capacity
      {
        Grow();
      }
      var i := 0;
      while i < |s|
        modifies buffer
        invariant 0 <= i <= |s| && offset + |s| <= capacity == buffer.Length && offset == old(offset)
        invariant buffer == old(buffer) || fresh(buffer)
        invariant buffer[..offset + i] == old(Contents()) + s[..i]
      {
        buffer[offset + i] := s[i];
        i := i + 1;
      }
      offset := offset + |s|;
    }
  }
}
