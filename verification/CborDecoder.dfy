/**
  The CBOR decoder as a state machine (src/cborcpp/decoder.cpp): one step, and a whole run.

  The objects being built live in an arena: an object is its index, so that a container on the stack
  and the same container inside its parent are one object, filled in place.
 */
module CborDecoder {
  import opened Options
  import opened Arith
  import opened CborBytes
  import opened CborEncoder

  /** A decoded object: a scalar, or a container with the number of entries announced for it. */
  datatype Node =
    | Leaf(o: Cbor)
    | ArrNode(items: seq<nat>, size: nat)
    | MapNode(entries: seq<Entry>, size: nat)

  datatype Entry = Entry(key: Bytes, id: nat)

  datatype State =
    | TypeState | Pint | Nint | BytesSize | BytesData | StringSize | StringData | FloatSize | FloatData
    | ArrayState | MapState | TagState

  /** The decoder and the local variables of run. */
  datatype Machine = Machine(off: nat, state: State, len: int, nodes: seq<Node>, result: Option<nat>,
                             stack: seq<nat>, inKey: bool, key: Option<nat>)

  datatype Outcome = Threw | Decoded(nodes: seq<Node>, id: nat)

  datatype StepResult = Go(m: Machine) | Break | Fail

  const START: Machine := Machine(0, TypeState, 0, [], None, [], true, None)

  predicate Sized(s: State) {
    s.Pint? || s.Nint? || s.BytesSize? || s.StringSize? || s.FloatSize? || s.ArrayState? || s.MapState? || s.TagState?
  }

  /** Every reference is to an existing object; sizes are read in 1, 2, 4 or 8 bytes. */
  predicate Sound(m: Machine) {
    && (forall k :: 0 <= k < |m.stack| ==> m.stack[k] < |m.nodes|)
    && (m.key.Some? ==> m.key.value < |m.nodes|)
    && (m.result.Some? ==> m.result.value < |m.nodes|)
    && (Sized(m.state) ==> m.len in [1, 2, 4, 8])
  }

  // ---------- put_decoded_value ----------

  /** std::map's operator[]=: replaces the entry of the key, or inserts one in key order. */
  function Insert(entries: seq<Entry>, key: Bytes, id: nat): (r: seq<Entry>)
    ensures |entries| <= |r| <= |entries| + 1
  {
    if entries == [] then [Entry(key, id)]
    else if entries[0].key == key then [Entry(key, id)] + entries[1..]
    else if Less(key, entries[0].key) then [Entry(key, id)] + entries
    else [entries[0]] + Insert(entries[1..], key, id)
  }

  function Pop(stack: seq<nat>): seq<nat>
    requires stack != []
  {
    stack[..|stack| - 1]
  }

  /** Object `id` is placed where the next object belongs; a container that is then full leaves the stack. */
  function Attach(m: Machine, id: nat): StepResult
    requires Sound(m)
  {
    if m.stack == [] then
      if m.result.Some? then Fail else Go(m.(result := Some(id)))
    else
      var last := m.stack[|m.stack| - 1];
      match m.nodes[last]
      case Leaf(_) => Fail
      case ArrNode(items, size) =>
        var items' := items + [id];
        Go(m.(nodes := m.nodes[last := ArrNode(items', size)], stack := if |items'| >= size then Pop(m.stack)
          else m.stack))
      case MapNode(entries, size) =>
        if m.inKey then Go(m.(key := Some(id), inKey := false))
        else if m.key.None? then Fail
        else
          var k := m.nodes[m.key.value];
          if !(k.Leaf? && k.o.Text?) then Fail
          else
            var entries' := Insert(entries, k.o.s, id);
            Go(m.(nodes := m.nodes[last := MapNode(entries', size)],
                  stack := if |entries'| >= size then Pop(m.stack) else m.stack, inKey := true))
  }

  /** Is the new object a container that expects entries? */
  predicate Unfilled(n: Node) {
    (n.ArrNode? || n.MapNode?) && n.size > 0
  }

  /** put_decoded_value of a new object. */
  function Put(m: Machine, n: Node): StepResult
    requires Sound(m)
  {
    var id := |m.nodes|;
    match Attach(m.(nodes := m.nodes + [n]), id)
    case Go(m') => Go(if Unfilled(n) then m'.(stack := m'.stack + [id]) else m')
    case r => r
  }

  // ---------- one step ----------

  predicate Has(data: Bytes, m: Machine, count: int) {
    |data| - m.off >= count
  }

  /** int(n) for an unsigned 32-bit n */
  function Int32(n: nat): int {
    if n >= 0x8000_0000 then n - 0x1_0000_0000 else n
  }

  const INT_MAX := 0x7fff_ffff

  /** -1 - n */
  function Minus1(n: int): int {
    -1 - n
  }

  /** What one turn of the loop decides to do with what it has read: place an object, going on in some
      state, wait for more bytes, or throw. */
  datatype Action = Place(node: Node, state: State, skip: nat) | Await(state: State, len: int) | Throw

  function Object(n: Node): Action {
    Place(n, TypeState, 0)
  }

  /** The argument n is in the type byte itself. */
  function Immediate(major: nat, n: nat): Action
    requires major <= 6
  {
    match major
    case 0 => Object(Leaf(Int(n)))
    case 1 => Object(Leaf(Int(Minus1(n))))
    case 2 => Await(BytesData, n)
    case 3 => Await(StringData, n)
    case 4 => Object(ArrNode([], n))
    case 5 => Object(MapNode([], n))
    case _ => Object(Leaf(Tag(n)))
  }

  function SizeState(major: nat): State
    requires major < 8
  {
    match major
    case 0 => Pint
    case 1 => Nint
    case 2 => BytesSize
    case 3 => StringSize
    case 4 => ArrayState
    case 5 => MapState
    case 6 => TagState
    case _ => FloatSize
  }

  function ReadType(major: nat, minor: nat): Action
    requires major < 8
  {
    if minor < 24 then
      if major < 7 then Immediate(major, minor)
      else if minor == 20 then Object(Leaf(Bool(false)))
      else if minor == 21 then Object(Leaf(Bool(true)))
      else if minor == 22 then Object(Leaf(Null))
      else if minor == 23 then Object(Leaf(Undefined))
      else Await(FloatData, minor)
    else if minor == 24 then Await(SizeState(major), 1)
    else if minor == 25 then Await(SizeState(major), 2)
    else if minor == 26 then Await(SizeState(major), 4)
    else if minor == 27 then Await(SizeState(major), 8)
    else Throw
  }

  /** The argument n was read from `len` bytes. */
  function ReadSized(state: State, len: int, n: nat): Action
    requires Sized(state)
  {
    match state
    case Pint => Object(Leaf(if len == 8 || (len == 4 && n > INT_MAX) then ExtraInt(n, true) else Int(n)))
    case Nint =>
      if len == 8 then Place(Leaf(ExtraInt((n + 1) % 0x1_0000_0000_0000_0000, false)), Nint, 0)  // _state is not reset
      else if len == 4 && n > INT_MAX then Object(Leaf(ExtraInt((n + 1) % 0x1_0000_0000, false)))
      else Object(Leaf(Int(Minus1(n))))
    case BytesSize => if len == 8 then Throw else Await(BytesData, if len == 4 then Int32(n) else n)
    case StringSize => if len == 8 then Throw else Await(StringData, if len == 4 then Int32(n) else n)
    case FloatSize => if len == 8 then Throw else Await(FloatData, if len == 4 then Int32(n) else n)
    case ArrayState => if len == 8 then Throw else Object(ArrNode([], n))
    case MapState => if len == 8 then Throw else Object(MapNode([], n))
    case TagState => Object(Leaf(if len == 8 then ExtraTag(n) else Tag(n)))
  }

  function ReadData(state: State, s: Bytes): Action
    requires !Sized(state) && !state.TypeState?
  {
    match state
    case BytesData => Object(Leaf(ByteStr(s)))
    case StringData => Object(Leaf(Text(s)))
    case FloatData => Place(Leaf(Float(s)), TypeState, if |s| < 40 then 40 - |s| else 0)
  }

  function Apply(m: Machine, a: Action): StepResult
    requires Sound(m)
    requires a.Place? ==> (Sized(a.state) ==> m.len in [1, 2, 4, 8])
  {
    match a
    case Place(n, state, skip) => Put(m.(off := m.off + skip, state := state), n)
    case Await(state, len) => Go(m.(state := state, len := len))
    case Throw => Fail
  }

  /** How many bytes the next turn of the loop reads. */
  function Need(m: Machine): int {
    if m.state.TypeState? then 1 else m.len
  }

  /** What the next turn decides, given the bytes it reads. */
  function Decide(m: Machine, s: Bytes): Action
    requires |s| == Need(m)
  {
    if m.state.TypeState? then ReadType(s[0] / 32, s[0] % 32)
    else if Sized(m.state) then ReadSized(m.state, m.len, FromBigEndian(s))
    else ReadData(m.state, s)
  }

  /** One turn of the loop of decoder::run. */
  function Step(data: Bytes, m: Machine): StepResult
    requires Sound(m)
  {
    if !Has(data, m, Need(m)) then Break
    else if Need(m) < 0 then Fail  // a vector of negative size
    else
      Apply(m.(off := m.off + Need(m), state := TypeState), Decide(m, data[m.off..m.off + Need(m)]))
  }

  /** m' differs from m in the objects and their places only. */
  ghost predicate Later(m: Machine, m': Machine) {
    Sound(m') && m'.off == m.off && m'.state == m.state && m'.len == m.len && |m.nodes| <= |m'.nodes|
  }

  lemma PutSound(m: Machine, n: Node)
    requires Sound(m)
    ensures Put(m, n).Go? ==> Later(m, Put(m, n).m) && |Put(m, n).m.nodes| == |m.nodes| + 1
  {
    var m1 := m.(nodes := m.nodes + [n]);
    assert Sound(m1);
    AttachSound(m1, |m.nodes|);
  }

  lemma AttachSound(m: Machine, id: nat)
    requires Sound(m) && id < |m.nodes|
    ensures Attach(m, id).Go? ==> Later(m, Attach(m, id).m) && |Attach(m, id).m.nodes| == |m.nodes|
  {
  }

  /** A decision that leaves the machine sound. */
  predicate Fits(len: int, a: Action) {
    match a
    case Place(_, state, _) => state.TypeState? || (state.Nint? && len == 8)
    case Await(state, len') => !state.TypeState? && (Sized(state) ==> len' in [1, 2, 4, 8])
    case Throw => true
  }

  lemma DecideFits(m: Machine, s: Bytes)
    requires Sound(m) && |s| == Need(m)
    ensures Fits(m.len, Decide(m, s)) && (!m.state.TypeState? && !Sized(m.state) ==>
        Decide(m, s).Place? && Decide(m, s).state.TypeState?)
  {
  }

  lemma PlaceSound(m: Machine, m1: Machine, n: Node)
    requires Sound(m) && m1 == m.(off := m1.off, state := m1.state) && m1.off >= m.off
    requires m1.state.TypeState? || (m1.state.Nint? && m.len == 8)
    ensures Sound(m1)
    ensures var r := Put(m1, n);
      r.Go? ==> Sound(r.m) && |m.nodes| <= |r.m.nodes| && r.m.off >= m.off && r.m.state == m1.state
  {
    assert Sound(m1);
    PutSound(m1, n);
  }

  lemma AwaitSound(m: Machine, m1: Machine)
    requires Sound(m) && m1 == m.(state := m1.state, len := m1.len) && (Sized(m1.state) ==> m1.len in [1, 2, 4, 8])
    ensures Sound(m1)
  {
  }

  lemma ApplySound(m: Machine, a: Action)
    requires Sound(m) && Fits(m.len, a)
    ensures var r := Apply(m, a);
      r.Go? ==> Sound(r.m) && |m.nodes| <= |r.m.nodes| && r.m.off >= m.off && r.m.state == a.state
  {
    match a
    case Place(n, state, skip) => PlaceSound(m, m.(off := m.off + skip, state := state), n);
    case Await(state, len) => AwaitSound(m, m.(state := state, len := len));
    case Throw =>
  }

  /** Every step keeps the machine sound and the objects there are, and brings the end nearer. */
  lemma StepSound(data: Bytes, m: Machine)
    requires Sound(m)
    ensures var r := Step(data, m);
      r.Go? ==> Sound(r.m) && |m.nodes| <= |r.m.nodes| && Measure(data, r.m) < Measure(data, m)
  {
    if Has(data, m, Need(m)) && Need(m) >= 0 {
      var s := data[m.off..m.off + Need(m)];
      DecideFits(m, s);
      AppliedSound(data, m, m.(off := m.off + Need(m), state := TypeState), Decide(m, s), Step(data, m));
    }
  }

  lemma AppliedSound(data: Bytes, m: Machine, m1: Machine, a: Action, r: StepResult)
    requires Sound(m) && Need(m) >= 0 && m.off + Need(m) <= |data| &&
        m1 == m.(off := m.off + Need(m), state := TypeState)
    requires Fits(m.len, a) && (!m.state.TypeState? && !Sized(m.state) ==> a.Place? && a.state.TypeState?)
    requires r == Apply(m1, a)
    ensures r.Go? ==> Sound(r.m) && |m.nodes| <= |r.m.nodes| && Measure(data, r.m) < Measure(data, m)
  {
    ApplySound(m1, a);
  }

  function Measure(data: Bytes, m: Machine): nat {
    2 * (if m.off <= |data| then |data| - m.off else 0) + (if m.state.TypeState? then 0 else 1)
  }

  /** After the loop: an unfinished result is an error. */
  function Finish(m: Machine): Outcome {
    if m.result.None? || m.stack != [] then Threw else Decoded(m.nodes, m.result.value)
  }

  /** decoder::run from state m. */
  function Run(data: Bytes, m: Machine): Outcome
    requires Sound(m)
    decreases Measure(data, m)
  {
    StepSound(data, m);
    match Step(data, m)
    case Break => Finish(m)
    case Fail => Threw
    case Go(m') => Run(data, m')
  }

  function Decode(data: Bytes): Outcome {
    Run(data, START)
  }
}
