/**
  How the decoder reads the heads and contents that the encoder writes.
 */
module CborHeads {
  import opened Locks
  import opened Arith
  import opened CborBytes
  import opened CborEncoder
  import opened CborDecoder

  /** data continues at `off` with s. */
  ghost predicate At(data: Bytes, off: nat, s: Bytes) {
    off + |s| <= |data| && data[off..off + |s|] == s
  }

  lemma AtParts(data: Bytes, off: nat, s: Bytes, t: Bytes)
    requires At(data, off, s + t)
    ensures At(data, off, s) && At(data, off + |s|, t)
  {
    var u := s + t;
    assert data[off..off + |s|] == data[off..off + |u|][..|s|];
    assert data[off + |s|..off + |s| + |t|] == data[off..off + |u|][|s|..];
  }

  /** What follows a decision. */
  function Then(data: Bytes, m: Machine, a: Action): Outcome
    requires Sound(m) && Fits(m.len, a)
  {
    ApplySound(m, a);
    match Apply(m, a)
    case Go(m') => Run(data, m')
    case _ => Threw
  }

  // Facts about runs, kept shut except where they are put together (see Locks).

  /** The run from m comes to m1 with decision a. */
  ghost predicate Acts(data: Bytes, m: Machine, m1: Machine, a: Action) {
    Sound(m) && Sound(m1) && Fits(m1.len, a) && forall k: nat {:trigger Key(k)} :: Open(k) ==>
      Run(data, m) == Then(data, m1, a)
  }

  /** The run from m is the run from m'. */
  ghost predicate Leads(data: Bytes, m: Machine, m': Machine) {
    Sound(m) && Sound(m') && forall k: nat {:trigger Key(k)} :: Open(k) ==> Run(data, m) == Run(data, m')
  }

  ghost predicate Ends(data: Bytes, m: Machine, o: Outcome) {
    Sound(m) && forall k: nat {:trigger Key(k)} :: Open(k) ==> Run(data, m) == o
  }

  lemma LeadsOn(data: Bytes, m: Machine, m': Machine)
    requires Leads(data, m, m')
    ensures forall m'' :: Leads(data, m', m'') ==> Leads(data, m, m'')
    ensures forall o :: Ends(data, m', o) ==> Ends(data, m, o)
    ensures forall m1, a :: Acts(data, m', m1, a) ==> Acts(data, m, m1, a)
  {
    assert Key(0) && Open(0);
  }

  lemma RunIs(data: Bytes, m: Machine, r: StepResult)
    requires Sound(m) && r == Step(data, m) && !r.Break?
    ensures r.Go? ==> Sound(r.m)
    ensures Run(data, m) == if r.Go? then Run(data, r.m) else Threw
  {
    StepSound(data, m);
  }

  lemma ThenIs(data: Bytes, m: Machine, a: Action, r: StepResult)
    requires Sound(m) && Fits(m.len, a) && r == Apply(m, a)
    ensures r.Go? ==> Sound(r.m)
    ensures Then(data, m, a) == if r.Go? then Run(data, r.m) else Threw
  {
    ApplySound(m, a);
  }

  lemma TurnIs(data: Bytes, m: Machine, s: Bytes, r: StepResult)
    requires Sound(m) && 0 <= Need(m) == |s| && At(data, m.off, s) && r == Step(data, m)
    ensures Fits(m.len, Decide(m, s)) && !r.Break?
    ensures r == Apply(m.(off := m.off + |s|, state := TypeState), Decide(m, s))
  {
    DecideFits(m, s);
  }

  /** A turn that has its bytes. */
  lemma OneTurn(data: Bytes, m: Machine, s: Bytes)
    requires Sound(m) && 0 <= Need(m) == |s| && At(data, m.off, s)
    ensures Acts(data, m, m.(off := m.off + |s|, state := TypeState), Decide(m, s))
  {
    var r := Step(data, m);
    TurnIs(data, m, s, r);
    RunIs(data, m, r);
    ThenIs(data, m.(off := m.off + |s|, state := TypeState), Decide(m, s), r);
  }

  /** A turn that lacks bytes ends the run. */
  lemma NoTurn(data: Bytes, m: Machine)
    requires Sound(m) && 0 <= Need(m) && |data| < m.off + Need(m)
    ensures Ends(data, m, Finish(m))
  {
    assert Run(data, m) == Finish(m);
  }

  /** A decision to wait for more bytes. */
  lemma ActsAwait(data: Bytes, m: Machine, m1: Machine, state: State, len: int)
    requires Acts(data, m, m1, Await(state, len))
    ensures Leads(data, m, m1.(state := state, len := len))
  {
    assert Key(0) && Open(0);
  }

  /** A decision to place an object where there is room for it, or not. */
  lemma ActsPut(data: Bytes, m: Machine, m1: Machine, n: Node, r: StepResult)
    requires Acts(data, m, m1, Object(n)) && m1.state.TypeState? && r == Put(m1, n)
    ensures r.Go? ==> Leads(data, m, r.m)
    ensures !r.Go? ==> Ends(data, m, Threw)
  {
    assert Key(0) && Open(0);
    assert m1.(off := m1.off + 0, state := TypeState) == m1;
    ThenIs(data, m1, Object(n), r);
  }

  // ---------- heads ----------

  function ArgSize(n: nat): nat {
    if n < 24 then 0 else if n < 256 then 1 else if n < 65536 then 2 else if n < 0x1_0000_0000 then 4 else 8
  }

  function Minor(n: nat): nat {
    if n < 24 then n else if n < 256 then 24 else if n < 65536 then 25 else if n < 0x1_0000_0000 then 26 else 27
  }

  lemma TypeValueIs(major: nat, n: nat)
    requires major < 8
    ensures TypeValue(major, n) == [32 * major + Minor(n)] + BigEndian(n, ArgSize(n))
    ensures (32 * major + Minor(n)) / 32 == major && (32 * major + Minor(n)) % 32 == Minor(n)
  {
    assert BigEndian(n, 0) == [];
  }

  lemma ArgBack(n: nat)
    requires 24 <= n < 0x1_0000_0000_0000_0000
    ensures FromBigEndian(BigEndian(n, ArgSize(n))) == n
  {
    assert Pow(256, 1) == 256 && Pow(256, 2) == 65536;
    PowAdd(256, 2, 2);
    PowAdd(256, 4, 4);
    BigEndianBack(n, ArgSize(n));
  }

  /** The decision that a head of the encoder leads to. */
  function HeadAction(major: nat, n: nat): Action
    requires major <= 6
  {
    if n < 24 then Immediate(major, n) else ReadSized(SizeState(major), ArgSize(n), n)
  }

  function PastHead(m: Machine, major: nat, n: nat): Machine
    requires major < 8
  {
    m.(off := m.off + |TypeValue(major, n)|, len := if n < 24 then m.len else ArgSize(n))
  }

  /** What the first byte of a head decides. */
  lemma FirstByte(m: Machine, major: nat, n: nat)
    requires Sound(m) && m.state.TypeState? && major <= 6
    ensures Need(m) == 1
    ensures Decide(m, [32 * major + Minor(n)])
         == if n < 24 then Immediate(major, n) else Await(SizeState(major), ArgSize(n))
  {
    TypeValueIs(major, n);
  }

  /** What an argument decides. */
  lemma Argument(m: Machine, s: Bytes, n: nat)
    requires Sized(m.state) && |s| == m.len && FromBigEndian(s) == n
    ensures Need(m) == |s|
    ensures Decide(m, s) == ReadSized(m.state, |s|, n)
  {
  }

  /** Reading a head. */
  lemma Head(data: Bytes, m: Machine, major: nat, n: nat)
    requires Sound(m) && m.state.TypeState? && major <= 6 && n < 0x1_0000_0000_0000_0000
    requires At(data, m.off, TypeValue(major, n))
    ensures Acts(data, m, PastHead(m, major, n), HeadAction(major, n))
  {
    TypeValueIs(major, n);
    var b := [32 * major + Minor(n)];
    AtParts(data, m.off, b, BigEndian(n, ArgSize(n)));
    FirstByte(m, major, n);
    OneTurn(data, m, b);
    if n >= 24 {
      var m1 := m.(off := m.off + 1, state := SizeState(major), len := ArgSize(n));
      ActsAwait(data, m, m.(off := m.off + 1), SizeState(major), ArgSize(n));
      HeadArgument(data, m1, major, n, PastHead(m, major, n));
      LeadsOn(data, m, m1);
    }
  }

  lemma HeadArgument(data: Bytes, m1: Machine, major: nat, n: nat, m2: Machine)
    requires major <= 6 && 24 <= n < 0x1_0000_0000_0000_0000 && Sound(m1) && m1.state == SizeState(major)
    requires m1.len == ArgSize(n) && At(data, m1.off, BigEndian(n, ArgSize(n)))
    requires m2 == m1.(off := m1.off + ArgSize(n), state := TypeState)
    ensures Acts(data, m1, m2, ReadSized(SizeState(major), ArgSize(n), n))
  {
    ArgBack(n);
    ArgumentRead(data, m1, major, BigEndian(n, ArgSize(n)), ArgSize(n), n, m2);
  }

  /** The argument after a head of any width. */
  lemma ArgumentRead(data: Bytes, m1: Machine, major: nat, s: Bytes, k: nat, n: nat, m2: Machine)
    requires major <= 6 && Sound(m1) && m1.state == SizeState(major) && m1.len == k == |s| && FromBigEndian(s) == n
    requires k in [1, 2, 4, 8] && At(data, m1.off, s) && m2 == m1.(off := m1.off + k, state := TypeState)
    ensures Acts(data, m1, m2, ReadSized(SizeState(major), k, n))
  {
    Argument(m1, s, n);
    OneTurn(data, m1, s);
  }

  /** The encoding breaks off inside a head. */
  lemma HeadCut(data: Bytes, m: Machine, major: nat, n: nat)
    requires Sound(m) && m.state.TypeState? && major <= 6 && m.off <= |data|
    requires |data| < m.off + |TypeValue(major, n)| && data[m.off..] == TypeValue(major, n)[..|data| - m.off]
    ensures Ends(data, m, Finish(m))
  {
    TypeValueIs(major, n);
    if |data| == m.off {
      NoTurn(data, m);
    } else {
      var b := [32 * major + Minor(n)];
      assert data[m.off] == data[m.off..][0] == b[0];
      assert data[m.off..m.off + 1] == b;
      HeadBroken(data, m, major, n, b);
    }
  }

  /** The first byte is there, the argument is not. */
  lemma HeadBroken(data: Bytes, m: Machine, major: nat, n: nat, b: Bytes)
    requires Sound(m) && m.state.TypeState? && major <= 6 && 24 <= n && b == [32 * major + Minor(n)]
    requires At(data, m.off, b) && |data| < m.off + 1 + ArgSize(n)
    ensures Ends(data, m, Finish(m))
  {
    FirstByte(m, major, n);
    OneTurn(data, m, b);
    var m1 := m.(off := m.off + 1, state := SizeState(major), len := ArgSize(n));
    ActsAwait(data, m, m.(off := m.off + 1), SizeState(major), ArgSize(n));
    NoTurn(data, m1);
    LeadsOn(data, m, m1);
  }

  // ---------- strings ----------

  /** The machine that has read the head of a string (major 3) or byte string (major 2). */
  function InContents(m: Machine, major: nat, n: nat): Machine
    requires major < 8
  {
    PastHead(m, major, n).(state := if major == 2 then BytesData else StringData, len := n)
  }

  lemma ContentsHead(data: Bytes, m: Machine, major: nat, n: nat)
    requires Sound(m) && m.state.TypeState? && (major == 2 || major == 3) && n < 0x8000_0000
    requires At(data, m.off, TypeValue(major, n))
    ensures Leads(data, m, InContents(m, major, n))
  {
    Head(data, m, major, n);
    ActsAwait(data, m, PastHead(m, major, n), InContents(m, major, n).state, n);
  }

  /** Reading a string of at most 2^31 - 1 bytes. */
  lemma Contents(data: Bytes, m: Machine, major: nat, s: Bytes)
    requires Sound(m) && m.state.TypeState? && (major == 2 || major == 3) && |s| < 0x8000_0000
    requires At(data, m.off, TypeValue(major, |s|) + s)
    ensures Acts(data, m, PastContents(m, major, s), Object(Leaf(if major == 2 then ByteStr(s) else Text(s))))
  {
    AtParts(data, m.off, TypeValue(major, |s|), s);
    ContentsHead(data, m, major, |s|);
    var m1 := InContents(m, major, |s|);
    OneTurn(data, m1, s);
    LeadsOn(data, m, m1);
  }

  function PastContents(m: Machine, major: nat, s: Bytes): Machine
    requires major < 8
  {
    m.(off := m.off + |TypeValue(major, |s|)| + |s|, state := TypeState, len := |s|)
  }

  /** A string that breaks off. */
  lemma ContentsCut(data: Bytes, m: Machine, major: nat, s: Bytes)
    requires Sound(m) && m.state.TypeState? && (major == 2 || major == 3) && |s| < 0x8000_0000 && m.off <= |data|
    requires var t := TypeValue(major, |s|) + s;
      |data| < m.off + |t| && data[m.off..] == t[..|data| - m.off]
    ensures Ends(data, m, Finish(m))
  {
    var h := TypeValue(major, |s|);
    if |data| < m.off + |h| {
      assert (h + s)[..|data| - m.off] == h[..|data| - m.off];
      HeadCut(data, m, major, |s|);
    } else {
      assert data[m.off..m.off + |h|] == data[m.off..][..|h|] == h;
      ContentsHead(data, m, major, |s|);
      NoTurn(data, InContents(m, major, |s|));
      LeadsOn(data, m, InContents(m, major, |s|));
    }
  }

  // ---------- floats ----------

  /** The lengths that are taken for false, true, null and undefined when they stand in the head of a float. */
  predicate Mistaken(n: nat) {
    20 <= n <= 23
  }

  /** The machine that has read the head of a float. */
  function InFloat(m: Machine, n: nat): Machine {
    PastHead(m, 7, n).(state := FloatData, len := n)
  }

  lemma FloatHead(data: Bytes, m: Machine, n: nat)
    requires Sound(m) && m.state.TypeState? && n < 0x8000_0000 && !Mistaken(n) && At(data, m.off, TypeValue(7, n))
    ensures Leads(data, m, InFloat(m, n))
  {
    TypeValueIs(7, n);
    var b := [32 * 7 + Minor(n)];
    AtParts(data, m.off, b, BigEndian(n, ArgSize(n)));
    OneTurn(data, m, b);
    if n < 24 {
      ActsAwait(data, m, m.(off := m.off + 1), FloatData, n);
      assert m.(off := m.off + 1, state := FloatData, len := n) == InFloat(m, n);
    } else {
      var m1 := m.(off := m.off + 1, state := FloatSize, len := ArgSize(n));
      ActsAwait(data, m, m.(off := m.off + 1), FloatSize, ArgSize(n));
      FloatArgument(data, m1, n, InFloat(m, n));
      LeadsOn(data, m, m1);
    }
  }

  lemma FloatArgument(data: Bytes, m1: Machine, n: nat, m2: Machine)
    requires Sound(m1) && 24 <= n < 0x8000_0000 && m1.state == FloatSize && m1.len == ArgSize(n)
    requires At(data, m1.off, BigEndian(n, ArgSize(n)))
    requires m2 == m1.(off := m1.off + ArgSize(n), state := FloatData, len := n)
    ensures Leads(data, m1, m2)
  {
    ArgBack(n);
    Argument(m1, BigEndian(n, ArgSize(n)), n);
    OneTurn(data, m1, BigEndian(n, ArgSize(n)));
    ActsAwait(data, m1, m1.(off := m1.off + ArgSize(n), state := TypeState), FloatData, n);
  }

  /** Skipping bytes before an object is placed is having read them. */
  lemma ActsSkip(data: Bytes, m: Machine, m1: Machine, n: Node, skip: nat)
    requires Acts(data, m, m1, Place(n, TypeState, skip))
    ensures Acts(data, m, m1.(off := m1.off + skip), Object(n))
  {
    assert Key(0) && Open(0);
    var m2 := m1.(off := m1.off + skip);
    SkipApplies(m1, m2, n, skip);
    ThenIs(data, m1, Place(n, TypeState, skip), Apply(m1, Place(n, TypeState, skip)));
    ThenIs(data, m2, Object(n), Apply(m2, Object(n)));
  }

  lemma SkipApplies(m1: Machine, m2: Machine, n: Node, skip: nat)
    requires Sound(m1) && Sound(m2) && m2 == m1.(off := m1.off + skip)
    ensures Apply(m1, Place(n, TypeState, skip)) == Apply(m2, Object(n))
  {
    assert m2.(off := m2.off + 0, state := TypeState) == m1.(off := m1.off + skip, state := TypeState);
  }

  function Padding(text: Bytes): nat {
    if |text| < 40 then 40 - |text| else 0
  }

  /** Reading a float, unless its length is mistaken; the bytes that fill it up need not be there. */
  lemma FloatContents(data: Bytes, m: Machine, text: Bytes)
    requires Sound(m) && m.state.TypeState? && |text| < 0x8000_0000 && !Mistaken(|text|)
    requires At(data, m.off, TypeValue(7, |text|) + text)
    ensures Acts(data, m, PastFloat(m, text), Object(Leaf(Float(text))))
  {
    AtParts(data, m.off, TypeValue(7, |text|), text);
    FloatHead(data, m, |text|);
    var m1 := InFloat(m, |text|);
    OneTurn(data, m1, text);
    LeadsOn(data, m, m1);
    var m2 := m1.(off := m1.off + |text|, state := TypeState);
    ActsSkip(data, m, m2, Leaf(Float(text)), Padding(text));
    assert m2.(off := m2.off + Padding(text)) == PastFloat(m, text);
  }

  function PastFloat(m: Machine, text: Bytes): Machine {
    m.(off := m.off + |TypeValue(7, |text|)| + |text| + Padding(text), state := TypeState, len := |text|)
  }
}
