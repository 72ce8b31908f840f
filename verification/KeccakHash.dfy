/**
  The streaming object of uvm_single/Keccak.cpp: a state, a buffer of bytes short of a block, and loops
  that copy bytes and process blocks.
 */
module KeccakHash {
  import opened Sponge

  const MAX_BLOCK_SIZE: nat := 144

  class Keccak {
    const mix: Mix           // processBlock
    const bits: nat
    const blockSize: nat
    var hash: State
    var buffer: array<byte>
    var bufferSize: nat
    var numBytes: nat
    ghost var message: seq<byte>   // all that was added since the last reset

    ghost predicate Sized()
      reads this
    {
      bits in {224, 256, 384, 512} && 8 * blockSize + 2 * bits == 1600 && buffer.Length == MAX_BLOCK_SIZE &&
        0 < blockSize <= MAX_BLOCK_SIZE && bufferSize <= blockSize
    }

    /** The object is where absorbing the whole message at once would be. */
    ghost predicate Valid()
      reads this, buffer
    {
      && Sized()
      && Streamed(mix, blockSize, hash, buffer[..bufferSize], message)
      && numBytes + bufferSize == |message|
    }

    constructor (mix: Mix, bits: nat)
      requires bits in {224, 256, 384, 512}
      ensures Valid() && message == [] && this.mix == mix && this.bits == bits && 8 * blockSize + 2 * bits == 1600
    {
      this.mix, this.bits, blockSize := mix, bits, 200 - 2 * (bits / 8);
      buffer := new byte[MAX_BLOCK_SIZE](_ => 0);
      hash, numBytes, bufferSize, message := Zero(), 0, 0, [];
      new;
      StreamedStart(mix, blockSize);
    }

    method Reset()
      requires Sized()
      modifies this
      ensures Valid() && message == [] && buffer == old(buffer)
    {
      hash, numBytes, bufferSize, message := Zero(), 0, 0, [];
      StreamedStart(mix, blockSize);
    }

    /** However much was buffered, the object ends up as if it had been given all at once. */
    method Add(data: seq<byte>)
      requires Valid()
      modifies this, buffer
      ensures Valid() && message == old(message) + data && buffer == old(buffer)
    {
      OwesMore(mix, blockSize, hash, buffer[..bufferSize], message, data);
      message := message + data;
      var current := FillBuffer(data);
      if bufferSize == blockSize {
        ProcessBlock(buffer[..blockSize], data[current..]);
        bufferSize := 0;
      }
      if current == |data| {
        assert buffer[..bufferSize] + data[current..] == buffer[..bufferSize];
        OwesLess(mix, blockSize, hash, buffer[..bufferSize], message);
        return;
      }
      assert buffer[..bufferSize] + data[current..] == data[current..];
      current := WholeBlocks(data, current);
      KeepRest(data[current..]);
    }

    /** Whole blocks are mixed in straight from the data. */
    method WholeBlocks(data: seq<byte>, start: nat) returns (current: nat)
      requires Sized() && start <= |data| && Owes(mix, blockSize, hash, data[start..], message)
      requires numBytes + |data| - start == |message|
      modifies `hash, `numBytes
      ensures Sized() && start <= current <= |data| && |data| - current < blockSize
      ensures Owes(mix, blockSize, hash, data[current..], message) && numBytes + |data| - current == |message|
    {
      current := start;
      while |data| - current >= blockSize
        invariant Sized() && start <= current <= |data|
        invariant Owes(mix, blockSize, hash, data[current..], message) && numBytes + |data| - current == |message|
      {
        assert data[current..] == data[current..current + blockSize] + data[current + blockSize..];
        ProcessBlock(data[current..current + blockSize], data[current + blockSize..]);
        current := current + blockSize;
      }
    }

    /** Mixes a block in, the data still owed being that block and then `rest`. */
    method ProcessBlock(block: seq<byte>, ghost rest: seq<byte>)
      requires Sized() && |block| == blockSize && Owes(mix, blockSize, hash, block + rest, message)
      modifies `hash, `numBytes
      ensures Sized() && Owes(mix, blockSize, hash, rest, message) && numBytes == old(numBytes) + blockSize
    {
      OwesBlock(mix, blockSize, hash, block, rest, message);
      hash := mix(hash, block);
      numBytes := numBytes + blockSize;
    }

    /** A buffer that is not empty is filled first. */
    method FillBuffer(data: seq<byte>) returns (current: nat)
      requires Sized() && bufferSize < blockSize
      modifies `bufferSize, buffer
      ensures Sized() && current <= |data| && buffer == old(buffer)
      ensures buffer[..bufferSize] + data[current..] == old(buffer[..bufferSize]) + data
      ensures current == |data| || bufferSize == blockSize || (bufferSize == 0 && current == 0)
    {
      current := 0;
      if bufferSize > 0 {
        while current < |data| && bufferSize < blockSize
          invariant Sized() && current <= |data|
          invariant buffer[..bufferSize] + data[current..] == old(buffer[..bufferSize]) + data
          modifies `bufferSize, buffer
        {
          buffer[bufferSize] := data[current];
          bufferSize, current := bufferSize + 1, current + 1;
        }
      }
    }

    /** What is short of a block goes into the buffer. */
    method KeepRest(rest: seq<byte>)
      requires Sized() && bufferSize == 0 && |rest| < blockSize && Owes(mix, blockSize, hash, rest, message) &&
          numBytes + |rest| == |message|
      modifies `bufferSize, buffer
      ensures Valid()
    {
      var i := 0;
      while i < |rest|
        invariant Sized() && i <= |rest| && bufferSize == i && buffer[..i] == rest[..i]
        modifies `bufferSize, buffer
      {
        buffer[bufferSize] := rest[i];
        bufferSize, i := bufferSize + 1, i + 1;
      }
      assert rest[..i] == rest;
      OwesLess(mix, blockSize, hash, rest, message);
    }

    /** The last block: the buffer, a one bit, zeros, a one bit. */
    method ProcessBuffer()
      requires Valid()
      modifies this, buffer
      ensures Sized() && hash == Absorb(mix, blockSize, Zero(), Padded(blockSize, old(message))) &&
          buffer == old(buffer)
    {
      StreamedEnd(mix, blockSize, hash, buffer[..bufferSize], message);
      PadBuffer();
      hash := mix(hash, buffer[..blockSize]);
    }

    method PadBuffer()
      requires Sized() && bufferSize < blockSize
      modifies buffer
      ensures buffer[..blockSize] == old(buffer[..bufferSize]) + Fill(blockSize - bufferSize)
    {
      ghost var kept := buffer[..bufferSize];
      buffer[bufferSize] := 1;
      var offset := bufferSize + 1;
      assert Zeros(0) == [];
      while offset < blockSize
        invariant bufferSize < offset <= blockSize
        invariant buffer[..offset] == kept + [1] + Zeros(offset - bufferSize - 1)
        modifies buffer
      {
        PutZero(kept + [1], offset);
        offset := offset + 1;
      }
      CapBuffer(kept);
    }

    method PutZero(ghost before: seq<byte>, offset: nat)
      requires |before| <= offset < buffer.Length && buffer[..offset] == before + Zeros(offset - |before|)
      modifies buffer
      ensures buffer[..offset + 1] == before + Zeros(offset + 1 - |before|)
    {
      ZerosGrow(offset - |before|);
      ghost var was := buffer[..offset];
      buffer[offset] := 0;
      assert buffer[..offset + 1] == was + [0];
    }

    method CapBuffer(ghost kept: seq<byte>)
      requires Sized() && bufferSize < blockSize && |kept| == bufferSize
      requires buffer[..blockSize] == kept + [1] + Zeros(blockSize - bufferSize - 1)
      modifies buffer
      ensures buffer[..blockSize] == kept + Fill(blockSize - bufferSize)
    {
      ghost var full := buffer[..blockSize];
      Capped(kept, blockSize - bufferSize, full);
      SetTopBit(blockSize, full, kept + Fill(blockSize - bufferSize));
    }

    method SetTopBit(size: nat, ghost full: seq<byte>, ghost capped: seq<byte>)
      requires 0 < size <= buffer.Length && full == buffer[..size] && full[size - 1] < 0x80
      requires full[size - 1 := full[size - 1] + 0x80] == capped
      modifies buffer
      ensures buffer[..size] == capped
    {
      var last := buffer[size - 1];
      buffer[size - 1] := if last < 0x80 then last + 0x80 else last;
    }

    /** The digest of everything added since the last reset. */
    method GetHash() returns (result: string)
      requires Valid()
      modifies this, buffer
      ensures Sized() && result == Digest(mix, bits, old(message)) && buffer == old(buffer)
    {
      ProcessBuffer();
      result := DigestToHex(hash, bits);
      DigestDone(mix, bits, old(message), blockSize, hash);
    }

    /** operator(): a digest in one go, whatever was added before. */
    method Hash(data: seq<byte>) returns (result: string)
      requires Sized()
      modifies this, buffer
      ensures result == Digest(mix, bits, data)
    {
      Reset();
      assert [] + data == data;
      Add(data);
      result := GetHash();
    }
  }

  /** The first `bits` bits of the state in hex. */
  method DigestToHex(hash: State, bits: nat) returns (result: string)
    requires bits in {224, 256, 384, 512}
    ensures bits / 8 <= 8 * LANES && result == Squeezed(hash, bits / 8)
  {
    var lanes := bits / 64;
    var remainder := bits - lanes * 64;
    DigestSize(bits, lanes, remainder / 8);
    result := ToHex(hash, lanes, remainder / 8);
  }

  /** `lanes` whole lanes in hex, then `remainder` bytes of the next. */
  method ToHex(hash: State, lanes: nat, remainder: nat) returns (result: string)
    requires 8 * lanes + remainder <= 8 * LANES && remainder <= 8
    ensures result == Squeezed(hash, 8 * lanes + remainder)
  {
    result := "";
    var i := 0;
    while i < lanes
      invariant i <= lanes && result == Squeezed(hash, 8 * i)
    {
      result := AppendLane(hash, result, i, 8);
      i := i + 1;
    }
    result := AppendLane(hash, result, lanes, remainder);
  }

  /** The low `count` bytes of a lane, low byte first. */
  method AppendLane(hash: State, before: string, i: nat, count: nat) returns (result: string)
    requires 8 * i + count <= 8 * LANES && count <= 8 && before == Squeezed(hash, 8 * i)
    ensures result == Squeezed(hash, 8 * i + count)
  {
    result := before;
    var j := 0;
    ghost var n := 8 * i;
    while j < count
      invariant j <= count && n == 8 * i + j && result == Squeezed(hash, n)
    {
      result := AppendByte(hash, result, i, j, n);
      j, n := j + 1, n + 1;
    }
  }

  /** One byte of a lane, the n-th of the state. */
  method AppendByte(hash: State, before: string, i: nat, j: nat, ghost n: nat) returns (result: string)
    requires i < LANES && j < 8 && n == 8 * i + j && before == Squeezed(hash, n)
    ensures result == Squeezed(hash, n + 1)
  {
    SqueezedLane(hash, n, i, j);
    var oneByte: byte := LaneByte(hash[i], j);
    result := before + HexByte(oneByte);
  }
}
