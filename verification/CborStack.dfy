/**
  What holds in every state of the decoder, whatever its input (src/cborcpp/decoder.cpp:44-101).
 */
module CborStack {
  import opened Options
  import opened Locks
  import opened Arith
  import opened CborBytes
  import opened CborEncoder
  import opened CborDecoder
  import opened CborRoundTrip

  predicate Expecting(n: Node) {
    match n
    case Leaf(_) => false
    case ArrNode(items, size) => |items| < size
    case MapNode(entries, size) => |entries| < size
  }

  ghost predicate Stacked(nodes: seq<Node>, stack: seq<nat>) {
    && (forall k :: 0 <= k < |stack| ==> stack[k] < |nodes| && Expecting(nodes[stack[k]]))
    && (forall j, k :: 0 <= j < k < |stack| ==> stack[j] < stack[k])
  }

  /** The stack holds containers that still expect entries, each below those created later. */
  ghost predicate Neat(m: Machine) {
    Sound(m) && Stacked(m.nodes, m.stack)
  }

  // ---------- the key flag ----------

  /** The object taken for a key is a text. */
  predicate TextKey(m: Machine)
    requires Sound(m)
  {
    m.key.Some? && m.nodes[m.key.value].Leaf? && m.nodes[m.key.value].o.Text?
  }

  /** The object read last is a text, and the key of the map on top of the stack. */
  predicate AwaitsValue(m: Machine)
    requires Sound(m)
  {
    m.stack != [] && m.nodes[m.stack[|m.stack| - 1]].MapNode? && TextKey(m) && m.key.value == |m.nodes| - 1
  }

  predicate HasMap(nodes: seq<Node>, stack: seq<nat>) {
    exists k :: 0 <= k < |stack| && stack[k] < |nodes| && nodes[stack[k]].MapNode?
  }

  /** An object that is no text was taken for a key, and the map it was meant for is still open. */
  predicate Doomed(m: Machine)
    requires Sound(m)
  {
    !m.inKey && m.key.Some? && !TextKey(m) && HasMap(m.nodes, m.stack)
  }

  /** The flag says that a key is read next unless a value is awaited, or a key that is no text was read. */
  predicate Keyed(m: Machine)
    requires Sound(m)
  {
    && (m.inKey ==> m.key.Some? ==> m.key.value < |m.nodes| - 1)
    && (!m.inKey ==> AwaitsValue(m) || Doomed(m))
  }

  /** In such a state the flag is down in these two cases and no other. */
  lemma FlagIs(m: Machine)
    requires Sound(m) && Keyed(m)
    ensures !m.inKey <==> AwaitsValue(m) || Doomed(m)
  {
  }

  lemma AttachNeat(m: Machine, id: nat)
    requires Sound(m) && id == |m.nodes| - 1 && Neat(m) && forall k :: 0 <= k < |m.stack| ==> m.stack[k] < id
    ensures Attach(m, id).Go? ==> Neat(Attach(m, id).m) && (forall k :: 0 <= k < |Attach(m, id).m.stack| ==>
        Attach(m, id).m.stack[k] < id)
    ensures Attach(m, id).Go? ==> Attach(m, id).m.nodes[id] == m.nodes[id]
  {
    AttachSound(m, id);
  }

  lemma PutNeat(m: Machine, n: Node)
    requires Neat(m) && (Unfilled(n) ==> Expecting(n))
    ensures Put(m, n).Go? ==> Neat(Put(m, n).m)
  {
    var m1 := m.(nodes := m.nodes + [n]);
    assert Sound(m1);
    AttachNeat(m1, |m.nodes|);
  }

  /** A new object keeps what the flag says, and nothing saves a doomed run. */
  lemma PutKeyed(m: Machine, n: Node)
    requires Sound(m) && Keyed(m)
    ensures Put(m, n).Go? ==> Sound(Put(m, n).m) && Keyed(Put(m, n).m) && (Doomed(m) ==> Doomed(Put(m, n).m))
  {
    var r := Put(m, n);
    if r.Go? {
      KindsKept(m, n);
      var top := |m.stack| - 1;
      if m.inKey {
        assert !r.m.inKey ==>
          r.m.stack[top] == m.stack[top] && r.m.nodes[r.m.stack[top]].MapNode? && r.m.key == Some(|m.nodes|);
      } else if Doomed(m) {
        var k :| 0 <= k < |m.stack| && m.nodes[m.stack[k]].MapNode?;
        assert m.nodes[m.stack[top]].ArrNode? && k < top;
        assert r.m.stack[k] == m.stack[k];
      }
    }
  }

  /** Objects stay of their kind. */
  lemma KindsKept(m: Machine, n: Node)
    requires Sound(m) && Put(m, n).Go?
    ensures Sound(Put(m, n).m) && |Put(m, n).m.nodes| == |m.nodes| + 1
    ensures forall i :: 0 <= i < |m.nodes| ==> (m.nodes[i].MapNode? <==> Put(m, n).m.nodes[i].MapNode?)
    ensures forall i :: 0 <= i < |m.nodes| && (m.nodes[i].Leaf? || Put(m, n).m.nodes[i].Leaf?) ==>
        m.nodes[i] == Put(m, n).m.nodes[i]
    ensures Put(m, n).m.nodes[|m.nodes|] == n
  {
    PutSound(m, n);
  }

  /** One turn of the loop, on any input. */
  lemma StepNeat(data: Bytes, m: Machine, r: StepResult)
    requires Neat(m) && r == Step(data, m)
    ensures r.Go? ==> Neat(r.m)
  {
    if Has(data, m, Need(m)) && Need(m) >= 0 {
      var s := data[m.off..m.off + Need(m)];
      var m1 := m.(off := m.off + Need(m), state := TypeState);
      DecideFits(m, s);
      DecideFresh(m, s);
      assert r == Apply(m1, Decide(m, s));
      ApplyNeat(m1, Decide(m, s), r);
    }
  }

  lemma ApplyKeyed(m: Machine, a: Action, r: StepResult)
    requires Sound(m) && Keyed(m) && Fits(m.len, a) && r == Apply(m, a)
    ensures r.Go? ==> Sound(r.m) && Keyed(r.m) && (Doomed(m) ==> Doomed(r.m))
  {
    ApplySound(m, a);
    if a.Place? {
      PutKeyed(m.(off := m.off + a.skip, state := a.state), a.node);
    }
  }

  lemma StepKeyed(data: Bytes, m: Machine, r: StepResult)
    requires Sound(m) && Keyed(m) && r == Step(data, m)
    ensures r.Go? ==> Sound(r.m) && Keyed(r.m) && (Doomed(m) ==> Doomed(r.m))
  {
    if Has(data, m, Need(m)) && Need(m) >= 0 {
      var s := data[m.off..m.off + Need(m)];
      var m1 := m.(off := m.off + Need(m), state := TypeState);
      DecideFits(m, s);
      assert r == Apply(m1, Decide(m, s));
      ApplyKeyed(m1, Decide(m, s), r);
    }
  }

  lemma DecideFresh(m: Machine, s: Bytes)
    requires |s| == Need(m)
    ensures Decide(m, s).Place? ==> (Unfilled(Decide(m, s).node) ==> Expecting(Decide(m, s).node))
  {
  }

  lemma ApplyNeat(m: Machine, a: Action, r: StepResult)
    requires Neat(m) && Fits(m.len, a) && (a.Place? ==> (Unfilled(a.node) ==> Expecting(a.node))) && r == Apply(m, a)
    ensures r.Go? ==> Neat(r.m)
  {
    ApplySound(m, a);
    if a.Place? {
      PutNeat(m.(off := m.off + a.skip, state := a.state), a.node);
    }
  }

  /** One turn takes m to m' (kept shut, see Locks). */
  ghost predicate Turns(data: Bytes, m: Machine, m': Machine) {
    Sound(m) && forall k: nat {:trigger Key(k)} :: Open(k) ==> Step(data, m) == Go(m')
  }

  lemma TurnNeat(data: Bytes, m: Machine, m': Machine)
    requires Neat(m) && Keyed(m) && Turns(data, m, m')
    ensures Neat(m') && Keyed(m') && Run(data, m) == Run(data, m')
  {
    assert Key(0) && Open(0);
    StepNeat(data, m, Go(m'));
    StepKeyed(data, m, Go(m'));
  }

  /** The states of a run. */
  ghost predicate Reaches(data: Bytes, m: Machine, n: nat)
    decreases n
  {
    if n == 0 then m == START else exists m' :: Reaches(data, m', n - 1) && Turns(data, m', m)
  }

  /** In every run on any input, only unfinished containers are on the stack; and the flag is down exactly when
      the object read last is the text key of the map on top, or a key that is no text was read. */
  lemma {:induction false} ReachableNeat(data: Bytes, m: Machine, n: nat)
    requires Reaches(data, m, n)
    ensures Neat(m) && Keyed(m) && (!m.inKey <==> AwaitsValue(m) || Doomed(m))
    ensures Run(data, m) == Decode(data)
    decreases n
  {
    if n > 0 {
      var m' :| Reaches(data, m', n - 1) && Turns(data, m', m);
      ReachableNeat(data, m', n - 1);
      TurnNeat(data, m', m);
    }
    FlagIs(m);
  }

  /** Once a key that is no text is read, the run throws, whatever follows. */
  lemma {:induction false} DoomedThrows(data: Bytes, m: Machine)
    requires Sound(m) && Keyed(m) && Doomed(m)
    ensures Run(data, m) == Threw
    decreases Measure(data, m)
  {
    StepSound(data, m);
    var r := Step(data, m);
    StepKeyed(data, m, r);
    if r.Go? {
      DoomedThrows(data, r.m);
    }
  }

  /** On every input that decodes, the flag is down exactly when a value is awaited. */
  lemma DecodedFlag(data: Bytes, m: Machine, n: nat)
    requires Reaches(data, m, n) && Decode(data).Decoded?
    ensures Sound(m) && (!m.inKey <==> AwaitsValue(m))
  {
    ReachableNeat(data, m, n);
    if Doomed(m) {
      DoomedThrows(data, m);
    }
  }

  /** So on every encoding. */
  lemma EncodingFlag(o: Cbor, m: Machine, n: nat)
    requires Plain(o) && Reaches(Encode(o), m, n)
    ensures Sound(m) && (!m.inKey <==> AwaitsValue(m))
  {
    RoundTrip(o);
    DecodedFlag(Encode(o), m, n);
  }

  /** Where the flag does not say so: a map whose key is an array.  After two turns the flag is down and the
      array is on top. */
  lemma ArrayAsKey(data: Bytes) returns (m: Machine)
    requires data == [0xa1, 0x81]
    ensures Reaches(data, m, 2) && !m.inKey && m.stack == [0, 1] && m.nodes[..] == [MapNode([], 1), ArrNode([], 1)]
    ensures Sound(m) && Doomed(m) && Decode(data) == Threw
  {
    var m1 := Machine(1, TypeState, 0, [MapNode([], 1)], Some(0), [0], true, None);
    m := Machine(2, TypeState, 0, [MapNode([], 1), ArrNode([], 1)], Some(0), [0, 1], false, Some(1));
    assert data[0..1] == [0xa1] && data[1..2] == [0x81];
    assert Turns(data, START, m1) by { MapHead(data, m1); }
    assert Turns(data, m1, m) by { ArrayHead(data, m1, m); }
    assert Reaches(data, START, 0);
    assert Reaches(data, m1, 1);
    assert m.nodes[m.stack[0]].MapNode?;
    ReachableNeat(data, m, 2);
    DoomedThrows(data, m);
  }

  lemma MapHead(data: Bytes, m1: Machine)
    requires |data| == 2 && data[0..1] == [0xa1]
    requires m1 == Machine(1, TypeState, 0, [MapNode([], 1)], Some(0), [0], true, None)
    ensures Step(data, START) == Go(m1)
  {
    assert Decide(START, [0xa1]) == Object(MapNode([], 1));
  }

  lemma ArrayHead(data: Bytes, m1: Machine, m: Machine)
    requires |data| == 2 && data[1..2] == [0x81]
    requires m1 == Machine(1, TypeState, 0, [MapNode([], 1)], Some(0), [0], true, None)
    requires m == Machine(2, TypeState, 0, [MapNode([], 1), ArrNode([], 1)], Some(0), [0, 1], false, Some(1))
    ensures Step(data, m1) == Go(m)
  {
    assert Decide(m1, [0x81]) == Object(ArrNode([], 1));
  }
}
