/**
  decoder::run as the source runs it: a loop over the decoder's fields (src/cborcpp/decoder.cpp).
*/
module CborMachine {
  import opened Options
  import opened CborBytes
  import opened CborEncoder
  import opened CborDecoder

  datatype Turned = Continue | Stop | Error

  class Decoder {
    var data: Bytes
    var offset: nat
    var state: State
    var currentLength: int
    var nodes: seq<Node>
    var result: Option<nat>
    var stack: seq<nat>
    var inKey: bool
    var key: Option<nat>

    ghost function Now(): Machine reads this {
      Machine(offset, state, currentLength, nodes, result, stack, inKey, key)
    }

    constructor (d: Bytes)
      ensures data == d && Now() == START
    {
      data, offset := d, 0;
      state, currentLength := TypeState, 0;
      nodes, result, stack := [], None, [];
      inKey, key := true, None;
    }

    // ---------- input ----------

    method HasBytes(count: int) returns (b: bool)
      ensures b <==> Has(data, Now(), count)
    {
      b := |data| - offset >= count;
    }

    method GetByte() returns (b: Byte)
      requires offset < |data|
      modifies this`offset
      ensures offset == old(offset) + 1 && b == data[old(offset)]
    {
      b := data[offset];
      offset := offset + 1;
    }

    /** get_short, get_int, get_long, and get_byte as a number. */
    method GetNumber(count: nat) returns (n: nat)
      requires offset + count <= |data|
      modifies this`offset
      ensures offset == old(offset) + count && n == FromBigEndian(data[old(offset)..offset])
    {
      n := 0;
      var i := 0;
      while i < count
        modifies {}
        invariant 0 <= i <= count && n == FromBigEndian(data[offset..offset + i])
      {
        n := n * 256 + data[offset + i];
        i := i + 1;
        assert data[offset..offset + i][..i - 1] == data[offset..offset + i - 1];
      }
      offset := offset + count;
    }

    method GetBytes(count: nat) returns (s: Bytes)
      requires offset + count <= |data|
      modifies this`offset
      ensures offset == old(offset) + count && s == data[old(offset)..offset]
    {
      s := data[offset..offset + count];
      offset := offset + count;
    }

    // ---------- put_decoded_value ----------

    method PutDecodedValue(n: Node) returns (ok: bool)
      requires Sound(Now())
      modifies this`nodes, this`result, this`stack, this`inKey, this`key
      ensures ok == Put(old(Now()), n).Go?
      ensures ok ==> Now() == Put(old(Now()), n).m
    {
      var id := |nodes|;
      nodes := nodes + [n];
      if stack == [] {
        if result.Some? {
          return false;
        }
        result := Some(id);
      } else {
        ok := PutIntoLast(id);
        if !ok {
          return;
        }
      }
      if (n.ArrNode? || n.MapNode?) && n.size > 0 {
        stack := stack + [id];
      }
      return true;
    }

    method PutIntoLast(id: nat) returns (ok: bool)
      requires Sound(Now()) && stack != []
      modifies this`nodes, this`stack, this`inKey, this`key
      ensures ok == Attach(old(Now()), id).Go?
      ensures ok ==> Now() == Attach(old(Now()), id).m
    {
      var last := stack[|stack| - 1];
      match nodes[last]
      case Leaf(_) =>
        return false;
      case ArrNode(items, size) =>
        nodes := nodes[last := ArrNode(items + [id], size)];
        if |items| + 1 >= size {
          stack := stack[..|stack| - 1];
        }
        return true;
      case MapNode(entries, size) =>
        if inKey {
          key := Some(id);
        } else {
          if key.None? || !nodes[key.value].Leaf? || !nodes[key.value].o.Text? {
            return false;
          }
          var entries' := Insert(entries, nodes[key.value].o.s, id);
          nodes := nodes[last := MapNode(entries', size)];
          if |entries'| >= size {
            stack := stack[..|stack| - 1];
          }
        }
        inKey := !inKey;
        return true;
    }

    // ---------- one turn of the loop ----------

    /** Places an object and goes back to reading type bytes. */
    method PutAndReset(n: Node) returns (r: Turned)
      requires Sound(Now())
      modifies this`nodes, this`result, this`stack, this`inKey, this`key, this`state
      ensures Did(Apply(old(Now()), Object(n)), r, Now())
    {
      PutIgnoresState(Now(), TypeState, n);
      var ok := PutDecodedValue(n);
      state := TypeState;
      r := if ok then Continue else Error;
    }

    method AwaitSize(minor: nat, s: State) returns (r: Turned)
      requires 24 <= minor < 32 && Sound(Now())
      modifies this`state, this`currentLength
      ensures Did(Apply(old(Now()), if minor == 24 then Await(s, 1) else if minor == 25 then Await(s, 2)
                                    else if minor == 26 then Await(s, 4) else if minor == 27 then Await(s, 8)
                                      else Throw), r, Now())
    {
      if minor == 24 {
        currentLength := 1;
      } else if minor == 25 {
        currentLength := 2;
      } else if minor == 26 {
        currentLength := 4;
      } else if minor == 27 {
        currentLength := 8;
      } else {
        return Error;
      }
      state := s;
      return Continue;
    }

    /** STATE_TYPE */
    method TurnType() returns (r: Turned)
      requires Sound(Now()) && state.TypeState? && offset < |data|
      modifies this`offset, this`nodes, this`result, this`stack, this`inKey, this`key, this`state, this`currentLength
      ensures Did(Step(data, old(Now())), r, Now())
    {
      ghost var s := data[offset..offset + 1];
      var b := GetByte();
      var major, minor := b / 32, b % 32;
      assert s[0] == b;
      if minor >= 24 {
        r := AwaitSize(minor, SizeState(major));
        return;
      }
      r := TurnImmediate(major, minor);
    }

    method TurnImmediate(major: nat, minor: nat) returns (r: Turned)
      requires Sound(Now()) && state.TypeState? && major < 8 && minor < 24
      modifies this`nodes, this`result, this`stack, this`inKey, this`key, this`state, this`currentLength
      ensures Did(Apply(old(Now()), ReadType(major, minor)), r, Now())
    {
      match major
      case 0 => r := PutAndReset(Leaf(Int(minor)));
      case 1 => r := PutAndReset(Leaf(Int(Minus1(minor))));
      case 2 =>
        state, currentLength := BytesData, minor;
        return Continue;
      case 3 =>
        state, currentLength := StringData, minor;
        return Continue;
      case 4 => r := PutAndReset(ArrNode([], minor));
      case 5 => r := PutAndReset(MapNode([], minor));
      case 6 => r := PutAndReset(Leaf(Tag(minor)));
      case _ =>
        if minor == 20 {
          r := PutAndReset(Leaf(Bool(false)));
        } else if minor == 21 {
          r := PutAndReset(Leaf(Bool(true)));
        } else if minor == 22 {
          r := PutAndReset(Leaf(Null));
        } else if minor == 23 {
          r := PutAndReset(Leaf(Undefined));
        } else {
          state, currentLength := FloatData, minor;
          return Continue;
        }
    }

    /** The states that read a number. */
    method TurnSized() returns (r: Turned)
      requires Sound(Now()) && Sized(state) && Has(data, Now(), currentLength)
      modifies this`offset, this`nodes, this`result, this`stack, this`inKey, this`key, this`state, this`currentLength
      ensures Did(Acted(data, old(Now())), r, Now())
    {
      ghost var m := Now();
      var n := GetNumber(currentLength);
      NumberActs(data, m, Now(), n);
      r := TurnNumber(n);
    }

    method TurnNumber(n: nat) returns (r: Turned)
      requires Sound(Now()) && Sized(state)
      modifies this`nodes, this`result, this`stack, this`inKey, this`key, this`state, this`currentLength
      ensures Did(Apply(old(Now()), ReadSized(old(state), old(currentLength), n)), r, Now())
    {
      if state.Pint? || state.Nint? {
        r := TurnInteger(n);
      } else if state.BytesSize? || state.StringSize? || state.FloatSize? {
        r := TurnSize(if state.BytesSize? then BytesData else if state.StringSize? then StringData else FloatData, n);
      } else {
        r := TurnContainer(n);
      }
    }

    method TurnInteger(n: nat) returns (r: Turned)
      requires Sound(Now()) && (state.Pint? || state.Nint?)
      modifies this`nodes, this`result, this`stack, this`inKey, this`key, this`state
      ensures Did(Apply(old(Now()), ReadSized(old(state), currentLength, n)), r, Now())
    {
      if state.Pint? {
        if currentLength == 8 || (currentLength == 4 && n > INT_MAX) {
          r := PutAndReset(Leaf(ExtraInt(n, true)));
        } else {
          r := PutAndReset(Leaf(Int(n)));
        }
      } else if currentLength == 8 {
        var ok := PutDecodedValue(Leaf(ExtraInt((n + 1) % 0x1_0000_0000_0000_0000, false)));
        r := if ok then Continue else Error;
      } else if currentLength == 4 && n > INT_MAX {
        r := PutAndReset(Leaf(ExtraInt((n + 1) % 0x1_0000_0000, false)));
      } else {
        r := PutAndReset(Leaf(Int(Minus1(n))));
      }
    }

    method TurnContainer(n: nat) returns (r: Turned)
      requires Sound(Now()) && (state.ArrayState? || state.MapState? || state.TagState?)
      modifies this`nodes, this`result, this`stack, this`inKey, this`key, this`state
      ensures Did(Apply(old(Now()), ReadSized(old(state), currentLength, n)), r, Now())
    {
      if state.TagState? {
        r := PutAndReset(Leaf(if currentLength == 8 then ExtraTag(n) else Tag(n)));
      } else if currentLength == 8 {
        r := Error;
      } else if state.ArrayState? {
        r := PutAndReset(ArrNode([], n));
      } else {
        r := PutAndReset(MapNode([], n));
      }
    }

    method TurnSize(s: State, n: nat) returns (r: Turned)
      requires Sound(Now())
      modifies this`state, this`currentLength
      ensures Did(Apply(old(Now()), if old(currentLength) == 8 then Throw else Await(s, if old(currentLength) == 4
          then Int32(n) else n)), r, Now())
    {
      if currentLength == 8 {
        return Error;
      }
      currentLength := if currentLength == 4 then Int32(n) else n;
      state := s;
      return Continue;
    }

    /** The states that read contents. */
    method TurnData() returns (r: Turned)
      requires Sound(Now()) && !Sized(state) && !state.TypeState? && Has(data, Now(), currentLength)
      modifies this`offset, this`nodes, this`result, this`stack, this`inKey, this`key, this`state
      ensures if old(currentLength) < 0 then r.Error? else Did(Acted(data, old(Now())), r, Now())
    {
      if currentLength < 0 {
        return Error;
      }
      var s := GetBytes(currentLength);
      var was := state;
      state := TypeState;
      r := TurnContents(was, s);
    }

    method TurnContents(was: State, s: Bytes) returns (r: Turned)
      requires Sound(Now()) && state.TypeState? && (was.BytesData? || was.StringData? || was.FloatData?)
      modifies this`offset, this`nodes, this`result, this`stack, this`inKey, this`key
      ensures Did(Apply(old(Now()), ReadData(was, s)), r, Now())
    {
      if was.FloatData? && |s| < 40 {
        offset := offset + 40 - |s|;
      }
      var ok := PutDecodedValue(Leaf(if was.BytesData? then ByteStr(s) else if was.StringData? then Text(s)
        else Float(s)));
      r := if ok then Continue else Error;
    }

    /** run */
    method Run() returns (r: Outcome)
      requires Sound(Now())
      modifies this
      ensures r == CborDecoder.Run(old(data), old(Now()))
    {
      var turned := Continue;
      while turned.Continue?
        invariant data == old(data) && (turned.Continue? ==> Sound(Now()))
        invariant CborDecoder.Run(old(data), old(Now())) ==
          match turned case Continue => CborDecoder.Run(data, Now()) case Stop => Finish(Now()) case Error => Threw
        decreases turned.Continue?, if turned.Continue? then Measure(data, Now()) else 0
      {
        StepSound(data, Now());
        if Has(data, Now(), Need(Now())) {
          StepIs(data, Now());
        }
        var ready := HasBytes(if state.TypeState? then 1 else currentLength);
        if !ready {
          turned := Stop;
        } else if state.TypeState? {
          turned := TurnType();
        } else if Sized(state) {
          turned := TurnSized();
        } else {
          turned := TurnData();
        }
      }
      if turned.Error? || result.None? || stack != [] {
        return Threw;
      }
      return Decoded(nodes, result.value);
    }
  }

  /** What a turn reports, and the state it leaves, are those of the step. */
  ghost predicate Did(s: StepResult, r: Turned, now: Machine) {
    match s
    case Go(m) => r.Continue? && now == m
    case Break => r.Stop?
    case Fail => r.Error?
  }

  /** What a machine that has the bytes it needs does with them. */
  ghost function Acted(data: Bytes, m: Machine): StepResult
    requires Sound(m) && Need(m) >= 0 && m.off + Need(m) <= |data|
  {
    DecideFits(m, data[m.off..m.off + Need(m)]);
    Apply(m.(off := m.off + Need(m), state := TypeState), Decide(m, data[m.off..m.off + Need(m)]))
  }

  lemma StepIs(data: Bytes, m: Machine)
    requires Sound(m) && Has(data, m, Need(m))
    ensures Step(data, m) == if Need(m) < 0 then Fail else Acted(data, m)
  {
  }

  lemma NumberActs(data: Bytes, m: Machine, m': Machine, n: nat)
    requires Sound(m) && Sized(m.state) && m.off + m.len <= |data| && m' == m.(off := m.off + m.len)
    requires n == FromBigEndian(data[m.off..m.off + m.len])
    ensures Fits(m.len, ReadSized(m.state, m.len, n)) && Apply(m', ReadSized(m.state, m.len, n)) == Acted(data, m)
  {
    DecideFits(m, data[m.off..m.off + m.len]);
    ApplyIgnoresState(m', ReadSized(m.state, m.len, n));
  }

  lemma PutIgnoresState(m: Machine, st: State, n: Node)
    requires Sound(m) && (Sized(st) ==> m.len in [1, 2, 4, 8])
    ensures Put(m.(state := st), n) == if Put(m, n).Go? then Go(Put(m, n).m.(state := st)) else Put(m, n)
  {
  }

  lemma ApplyIgnoresState(m: Machine, a: Action)
    requires Sound(m) && Fits(m.len, a)
    ensures Apply(m.(state := TypeState), a) == Apply(m, a)
  {
  }
}
