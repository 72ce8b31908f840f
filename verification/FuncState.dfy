/**
  The low-level code generator (src/uvm/lcode.cpp:54-226, 229-313): jump lists walked and patched in
  place, instructions emitted, registers reserved.  Each method is specified by a function of
  JumpLists or CodeSem on the state before.
 */
module FuncStates {
  import opened Opcodes
  import opened LuaMachine
  import opened JumpLists
  import opened CodeSem

  /** luaX_syntaxerror throws; so does a failed lua_assert on the width of a constant index. */
  datatype Status = Good | TooManyRegs | TooLong | TooManyConsts

  class FuncState {
    var codes: seq<Instr>
    var pc: nat
    var lasttarget: nat
    var jpc: int
    var ks: seq<Value>
    /** Where the scanner's table, which all functions being compiled share, says a constant is. */
    var h: map<Value, nat>
    var nactvar: nat
    var freereg: nat
    var maxstacksize: nat
    /** The members of the list at jpc, and all jumps still pending. */
    ghost var J: seq<int>
    ghost var pend: set<int>

    ghost function Now(): Snap reads this {
      Snap(Code(codes, pc, ks, pend), lasttarget, J)
    }

    ghost predicate RegsOk() reads this {
      nactvar <= freereg <= maxstacksize < MAXREGS
    }

    ghost predicate Valid() reads this {
      Ok(Now()) && IsList(codes, jpc, J) && RegsOk()
    }

    /** A new function (open_func in lparser.cpp), with `n` locals in its first registers, and the scanner's table
        as the functions around it have left it. */
    constructor (n: nat, table: map<Value, nat>)
      requires n < MAXREGS
      ensures Valid() && codes == [] && pc == 0 && ks == [] && nactvar == freereg == n && J == [] && pend == {}
    {
      codes, pc, lasttarget, jpc, ks := [], 0, 0, NO_JUMP, [];
      h := table;
      nactvar, freereg, maxstacksize := n, n, if n < 2 then 2 else n;
      J, pend := [], {};
    }

    // ---------- jump lists ----------

    method FixJump(j: int, dest: int) returns (st: Status)
      requires 0 <= j < |codes|
      modifies this`codes
      ensures st.Good? <==> Fits(j, dest)
      ensures st.Good? || st.TooLong?
      ensures st.Good? ==> codes == JumpLists.FixJump(old(codes), j, dest)
      ensures !st.Good? ==> codes == old(codes)
    {
      var offset := dest - (j + 1);
      if offset > MAXARG_SBX || offset < -MAXARG_SBX {
        return TooLong;
      }
      codes := codes[j := WithSBx(codes[j].op, codes[j].a, offset)];
      return Good;
    }

    /** luaK_concat(&l1, l2): the first list followed by the second. */
    method Concat(l1: int, l2: int, ghost s1: seq<int>, ghost s2: seq<int>) returns (st: Status, l: int)
      requires IsList(codes, l1, s1) && IsList(codes, l2, s2) && Disjoint(s1, s2)
      modifies this`codes
      ensures st.Good? ==> IsList(codes, l, s1 + s2)
      ensures st.Good? || (st.TooLong? && s1 != [] && s2 != [] && !Fits(s1[|s1| - 1], l2))
      ensures |codes| == |old(codes)|
      ensures forall p :: 0 <= p < |codes| && p !in s1 ==> codes[p] == old(codes)[p]
      ensures forall p :: 0 <= p < |codes| ==> codes[p].op == old(codes)[p].op && codes[p].a == old(codes)[p].a
      ensures s1 == [] || s2 == [] ==> codes == old(codes)
    {
      Positions(codes, l1, s1);
      Positions(codes, l2, s2);
      if l2 == NO_JUMP {
        assert s1 + s2 == s1;
        return Good, l1;
      } else if l1 == NO_JUMP {
        assert s1 + s2 == s2;
        return Good, l2;
      }
      var list := l1;
      ghost var k := 0;
      assert Linked(codes, s1, 0);
      var next := GetJump(codes, list);
      while next != NO_JUMP
        invariant 0 <= k < |s1| && list == s1[k]
        invariant next == if k + 1 < |s1| then s1[k + 1] else NO_JUMP
        decreases |s1| - k
      {
        list := next;
        k := k + 1;
        assert Linked(codes, s1, k);
        next := GetJump(codes, list);
      }
      assert s1[k] in s1;
      if Fits(list, l2) {
        ConcatLists(codes, l1, s1, l2, s2);
      }
      st := FixJump(list, l2);
      l := l1;
    }

    /** Does some jump of the list not carry the value in a register? */
    method NeedValue(l: int, ghost s: seq<int>) returns (b: bool)
      requires IsList(codes, l, s)
      ensures b <==> exists k :: 0 <= k < |s| && Ctl(codes, s[k]).op != TESTSET
    {
      Positions(codes, l, s);
      var list := l;
      ghost var k := 0;
      while list != NO_JUMP
        invariant 0 <= k <= |s| && list == (if k < |s| then s[k] else NO_JUMP)
        invariant forall i :: 0 <= i < k ==> Ctl(codes, s[i]).op == TESTSET
        decreases |s| - k
      {
        assert k < |s|;
        if Ctl(codes, list).op != TESTSET {
          return true;
        }
        assert Linked(codes, s, k);
        list := GetJump(codes, list);
        k := k + 1;
      }
      return false;
    }

    method PatchTestReg(node: int, reg: ArgA) returns (b: bool)
      requires 0 <= node < |codes|
      modifies this`codes
      ensures codes == JumpLists.PatchTestReg(old(codes), node, reg)
      ensures b <==> Ctl(old(codes), node).op == TESTSET
    {
      var at := CtlPos(codes, node);
      var i := codes[at];
      if i.op != TESTSET {
        return false;
      }
      if reg != NO_REG && reg != i.b {
        codes := codes[at := i.(a := reg)];
      } else {
        codes := codes[at := Instr(TEST, i.b % 256, 0, i.c)];
      }
      return true;
    }

    method RemoveValues(l: int, ghost s: seq<int>)
      requires IsList(codes, l, s)
      modifies this`codes
      ensures codes == RemoveAll(old(codes), s)
      ensures |codes| == |old(codes)| && forall p :: 0 <= p < |codes| ==>
          codes[p] == if p + 1 in s && old(codes)[p].op == TESTSET then TestInto(old(codes)[p], NO_REG)
                      else old(codes)[p]
    {
      RemoveAllIs(codes, l, s);
      Positions(codes, l, s);
      var list := l;
      ghost var rest := s;
      while list != NO_JUMP
        invariant IsList(codes, list, rest) && (list == NO_JUMP ==> rest == [])
        invariant |codes| == |old(codes)| && RemoveAll(codes, rest) == RemoveAll(old(codes), s)
        decreases |rest|
      {
        assert rest != [];
        ghost var before := codes;
        var _ := PatchTestReg(list, NO_REG);
        forall j | j in rest ensures 0 <= j < |before| && codes[j] == before[j] {
          var i :| 0 <= i < |rest| && rest[i] == j;
          assert Linked(before, rest, i);
        }
        ListKept(before, codes, list, rest);
        TailList(codes, list, rest);
        list := GetJump(codes, list);
        rest := rest[1..];
        Positions(codes, list, rest);
      }
    }

    method PatchListAux(l: int, ghost s: seq<int>, vtarget: int, reg: ArgA, dtarget: int) returns (st: Status)
      requires IsList(codes, l, s)
      modifies this`codes
      ensures st.Good? ==> codes == PatchAll(old(codes), s, vtarget, reg, dtarget)
      ensures st.Good? ==> |codes| == |old(codes)| && forall p :: 0 <= p < |codes| ==>
          PatchedAt(old(codes), s, vtarget, reg, dtarget, p, codes[p])
      ensures st.Good? ==> forall k :: 0 <= k < |s| ==> Fits(s[k], Target(old(codes), s[k], vtarget, dtarget))
      ensures st.Good? || (st.TooLong? && exists k ::
          0 <= k < |s| && !Fits(s[k], Target(old(codes), s[k], vtarget, dtarget)))
    {
      Positions(codes, l, s);
      var list := l;
      ghost var rest := s;
      ghost var k := 0;
      while list != NO_JUMP
        invariant 0 <= k <= |s| && rest == s[k..]
        invariant IsList(codes, list, rest) && (list == NO_JUMP ==> rest == [])
        invariant |codes| == |old(codes)| && PatchAll(codes, rest, vtarget, reg, dtarget) == PatchAll(old(codes), s,
            vtarget, reg, dtarget)
        invariant forall i :: 0 <= i < k ==> Fits(s[i], Target(old(codes), s[i], vtarget, dtarget))
        invariant forall i :: k <= i < |s| ==>
            CtlPos(codes, s[i]) == CtlPos(old(codes), s[i]) && Ctl(codes, s[i]) == Ctl(old(codes), s[i])
        decreases |rest|
      {
        assert rest != [];
        var next := GetJump(codes, list);
        ghost var before := codes;
        var b := PatchTestReg(list, reg);
        st := FixJump(list, if b then vtarget else dtarget);
        if !st.Good? {
          assert !Fits(s[k], Target(old(codes), s[k], vtarget, dtarget));
          return;
        }
        PatchOneKeepsRest(before, list, rest, vtarget, reg, dtarget);
        list := next;
        rest := rest[1..];
        k := k + 1;
        Positions(codes, list, rest);
      }
      PatchAllIs(old(codes), l, s, vtarget, reg, dtarget);
      return Good;
    }

    // ---------- emitting ----------

    /** luaK_code: the jumps to here are sent here, then the instruction is stored. */
    method Emit(i: Instr) returns (st: Status, at: nat)
      requires Sane(Now()) && IsList(codes, jpc, J)
      modifies this`codes, this`pc, this`jpc, this`J, this`pend
      ensures st.Good? ==> JpcFits(old(Now())) && Now() == Emitted(old(Now()), i) && at == old(pc)
      ensures st.Good? ==> jpc == NO_JUMP && J == []
      ensures st.Good? || (st.TooLong? && pc == old(pc) && exists k :: 0 <= k < |old(J)| && !Fits(old(J)[k], pc))
    {
      ghost var was := Now();
      at := pc;
      st := PatchListAux(jpc, J, pc, NO_REG, pc);
      if !st.Good? {
        return;
      }
      pend := pend - Members(J);
      jpc, J := NO_JUMP, [];
      assert Now() == Discharged(was);
      codes := if pc < |codes| then codes[pc := i] else codes + [i];
      at := pc;
      pc := pc + 1;
    }

    /** luaK_jump: the jumps to here join the new jump's list, to go wherever it will go. */
    method Jump() returns (st: Status, j: int, ghost link: Instr)
      requires Ok(Now()) && IsList(codes, jpc, J)
      modifies this`codes, this`pc, this`jpc, this`J, this`pend
      ensures st.Good? ==> link.op == JMP && link.a == 0 && Now() == Jumped(old(Now()), link)
      ensures st.Good? ==> IsList(codes, j, [old(pc)] + old(J)) && jpc == NO_JUMP
      ensures st.Good? && old(J) == [] ==> link == OPEN_JUMP
      ensures st.Good? || (st.TooLong? && pc == old(pc) + 1 && old(J) != [] && !Fits(old(pc), old(J)[0]))
    {
      ghost var was := Now();
      var hold := jpc;
      ghost var s := J;
      jpc, J := NO_JUMP, [];
      DischargeNone(Now());
      var at;
      st, at := Emit(OPEN_JUMP);
      assert codes == Append(was.c, OPEN_JUMP).ins;
      pend := pend + {at};
      HoldList(was, hold, s);
      ghost var before := codes;
      st, j := Concat(at, hold, [at], s);
      link := codes[at];
      JumpCodes(was.c, before, codes);
    }

    /** condjump: a test and its jump. */
    method CondJump(op: Op, a: ArgA, b: ArgBC, c: ArgBC) returns (st: Status, j: int)
      requires Ok(Now()) && IsList(codes, jpc, J) && TestMode(op)
      modifies this`codes, this`pc, this`jpc, this`J, this`pend
      ensures st.Good? ==> JpcFits(old(Now())) && Now() == Tested(old(Now()), Instr(op, a, b, c))
      ensures st.Good? ==> j == old(pc) + 1 && IsList(codes, j, [j]) && jpc == NO_JUMP
      ensures st.Good? || (st.TooLong? && pc == old(pc) && exists k :: 0 <= k < |old(J)| && !Fits(old(J)[k], pc))
    {
      ghost var was := Now();
      j := NO_JUMP;
      var at;
      st, at := Emit(Instr(op, a, b, c));
      if !st.Good? {
        return;
      }
      // luaK_jump, with no jumps to here left to put on hold
      st, at := Emit(OPEN_JUMP);
      assert st.Good?;
      ghost var none: seq<int> := [];
      assert Members(none) == {};
      pend := pend + {at};
      j := at;
      assert Now() == Tested(was, Instr(op, a, b, c));
    }

    method GetLabel() returns (at: nat)
      modifies this`lasttarget
      ensures at == lasttarget == pc
    {
      lasttarget := pc;
      return pc;
    }

    /** luaK_patchtohere: the jumps of the list are now jumps to here. */
    method PatchToHere(l: int, ghost s: seq<int>) returns (st: Status)
      requires IsList(codes, jpc, J) && IsList(codes, l, s) && Disjoint(J, s)
      modifies this`codes, this`lasttarget, this`jpc, this`J
      ensures lasttarget == pc
      ensures st.Good? ==> J == old(J) + s && IsList(codes, jpc, J)
      ensures st.Good? || (st.TooLong? && old(J) != [] && s != [] && !Fits(old(J)[|old(J)| - 1], l))
      ensures |codes| == |old(codes)|
      ensures forall p :: 0 <= p < |codes| && p !in old(J) ==> codes[p] == old(codes)[p]
      ensures forall p :: 0 <= p < |codes| ==> codes[p].op == old(codes)[p].op && codes[p].a == old(codes)[p].a
    {
      var _ := GetLabel();
      st, jpc := Concat(jpc, l, J, s);
      J := J + s;
    }

    /** luaK_nil: clear n registers, by growing the LOADNIL just before if no jump leads here. */
    method LoadNil(from: ArgA, n: nat) returns (st: Status)
      requires Ok(Now()) && IsList(codes, jpc, J) && 1 <= n && from + n <= MAXREGS
      requires 1 <= pc ==> codes[pc - 1].op == LOADNIL ==> codes[pc - 1].a + codes[pc - 1].b < MAXREGS
      modifies this`codes, this`pc, this`jpc, this`J, this`pend
      ensures st.Good? ==> JpcFits(old(Now())) && Now() == Nilled(old(Now()), from, n) && IsList(codes, jpc, J)
      ensures st.Good? || (st.TooLong? && pc == old(pc) && exists k :: 0 <= k < |old(J)| && !Fits(old(J)[k], pc))
    {
      var l := from + n - 1;
      if pc > lasttarget {
        var previous := codes[pc - 1];
        if previous.op == LOADNIL {
          var pfrom := previous.a;
          var pl := pfrom + previous.b;
          if (pfrom <= from && from <= pl + 1) || (from <= pfrom && pfrom <= l + 1) {
            var first := if pfrom < from then pfrom else from;
            if pl > l {
              l := pl;
            }
            codes := codes[pc - 1 := previous.(a := first, b := l - first)];
            return Good;
          }
        }
      }
      var at;
      st, at := Emit(Instr(LOADNIL, from, n - 1, 0));
    }

    // ---------- constants and registers ----------

    /** Does the scanner's table lead to an equal constant of this function? */
    predicate Cached(v: Value) reads this {
      v in h && h[v] < |ks| && ks[h[v]] == v
    }

    /** addk: a constant that the scanner's table leads to is reused, otherwise one is added. */
    method AddK(v: Value) returns (k: nat)
      modifies this`ks, this`h
      ensures k < |ks| && ks[k] == v && Cached(v) && h[v] == k
      ensures if old(Cached(v)) then ks == old(ks) && h == old(h)
              else ks == old(ks) + [v] && h == old(h)[v := |old(ks)|]
    {
      if v in h {
        k := h[v];
        if k < |ks| && ks[k] == v {
          return;
        }
      }
      k := |ks|;
      h := h[v := k];
      ks := ks + [v];
    }

    /** luaK_codek */
    method CodeK(reg: ArgA, k: nat) returns (st: Status)
      requires Ok(Now()) && IsList(codes, jpc, J)
      modifies this`codes, this`pc, this`jpc, this`J, this`pend
      ensures st.Good? ==>
          k <= MAXARG_AX && JpcFits(old(Now())) && Now() == LoadedK(old(Now()), reg, k) && IsList(codes, jpc, J)
      ensures st.Good? || (st.TooManyConsts? && k > MAXARG_AX) ||
          (st.TooLong? && pc == old(pc) && exists k :: 0 <= k < |old(J)| && !Fits(old(J)[k], pc))
    {
      var at;
      if k <= MAXARG_BX {
        st, at := Emit(WithBx(LOADK, reg, k));
      } else {
        if k > MAXARG_AX {
          return TooManyConsts;
        }
        ghost var was := Now();
        st, at := Emit(WithBx(LOADKX, reg, 0));
        if !st.Good? {
          return;
        }
        st, at := Emit(WithAx(EXTRAARG, k));
        assert st.Good?;
        ghost var none: seq<int> := [];
        assert Members(none) == {};
        assert Now() == LoadedK(was, reg, k);
      }
    }

    /** luaK_reserveregs(1), with luaK_checkstack: a frame has fewer than MAXREGS registers. */
    method ReserveReg() returns (st: Status)
      requires RegsOk()
      modifies this`freereg, this`maxstacksize
      ensures RegsOk()
      ensures st.Good? ==> freereg == old(freereg) + 1
      ensures maxstacksize == if freereg > old(maxstacksize) then freereg else old(maxstacksize)
      ensures st.Good? || (st.TooManyRegs? && freereg == old(freereg) == MAXREGS - 1)
    {
      var newstack := freereg + 1;
      if newstack > maxstacksize {
        if newstack >= MAXREGS {
          return TooManyRegs;
        }
        maxstacksize := newstack;
      }
      freereg := freereg + 1;
      return Good;
    }

    /** freereg: only a temporary that is no constant, and the last one. */
    method FreeReg(reg: int)
      requires nactvar <= reg < BITRK ==> freereg > nactvar && reg == freereg - 1
      modifies this`freereg
      ensures freereg == if nactvar <= reg < BITRK then old(freereg) - 1 else old(freereg)
    {
      if reg < BITRK && reg >= nactvar {
        freereg := freereg - 1;
      }
    }
  }

  /** A list is empty exactly when its head is NO_JUMP: members are positions. */
  lemma Positions(ins: seq<Instr>, l: int, s: seq<int>)
    requires IsList(ins, l, s)
    ensures (l == NO_JUMP) == (s == [])
    ensures forall k :: 0 <= k < |s| ==> 0 <= s[k] < |ins|
  {
  }

  lemma TailList(ins: seq<Instr>, l: int, s: seq<int>)
    requires s != [] && IsList(ins, l, s)
    ensures IsList(ins, GetJump(ins, l), s[1..])
  {
    var t := s[1..];
    assert Linked(ins, s, 0);
    forall k | 0 <= k < |t| ensures 0 <= t[k] < |ins| && Linked(ins, t, k) {
      assert Linked(ins, s, k + 1);
    }
  }

  lemma PatchOneKeepsRest(ins: seq<Instr>, l: int, s: seq<int>, vtarget: int, reg: ArgA, dtarget: int)
    requires s != [] && IsList(ins, l, s)
    ensures var ins' := PatchOne(ins, l, vtarget, reg, dtarget);
      && IsList(ins', GetJump(ins, l), s[1..])
      && forall i :: 1 <= i < |s| ==> CtlPos(ins', s[i]) == CtlPos(ins, s[i]) && Ctl(ins', s[i]) == Ctl(ins, s[i])
  {
    var ins' := PatchOne(ins, l, vtarget, reg, dtarget);
    TailList(ins, l, s);
    forall j | j in s[1..] ensures 0 <= j < |ins| && j < |ins'| && ins'[j] == ins[j] {
      var k :| 1 <= k < |s| && s[k] == j;
      assert Linked(ins, s, k);
    }
    forall i | 1 <= i < |s| ensures CtlPos(ins', s[i]) == CtlPos(ins, s[i]) && Ctl(ins', s[i]) == Ctl(ins, s[i]) {
      assert Linked(ins, s, i) && Linked(ins, s, 0);
    }
    ListKept(ins, ins', GetJump(ins, l), s[1..]);
  }

  /** What patching one jump does to one instruction. */
  lemma PatchOneAt(ins: seq<Instr>, j: int, vtarget: int, reg: ArgA, dtarget: int, p: int)
    requires 0 <= j < |ins| && 0 <= p < |ins| && ins[j].op == JMP && Fits(j, Target(ins, j, vtarget, dtarget))
    ensures var i := PatchOne(ins, j, vtarget, reg, dtarget)[p];
      && (p == j ==> i.op == JMP && i.a == ins[p].a && p + 1 + SBx(i) == Target(ins, j, vtarget, dtarget))
      && (p != j ==> i == if p + 1 == j && ins[p].op == TESTSET then TestInto(ins[p], reg) else ins[p])
  {
  }

  /** Patching a list: every member leads to vtarget or dtarget by its control, every TESTSET that controls one
      gets the register or becomes a TEST, and no other instruction changes. */
  lemma {:induction false} PatchAllAt(ins: seq<Instr>, l: int, s: seq<int>, vtarget: int, reg: ArgA, dtarget: int,
          p: int)
    requires IsList(ins, l, s) && 0 <= p < |ins| && forall k :: 0 <= k < |s| ==> 0 <= s[k] < |ins|
    requires forall k :: 0 <= k < |s| ==> Fits(s[k], Target(ins, s[k], vtarget, dtarget))
    ensures PatchedAt(ins, s, vtarget, reg, dtarget, p, PatchAll(ins, s, vtarget, reg, dtarget)[p])
    decreases |s|
  {
    if s != [] {
      var ins1 := PatchOne(ins, s[0], vtarget, reg, dtarget);
      assert Linked(ins, s, 0);
      PatchOneKeepsRest(ins, l, s, vtarget, reg, dtarget);
      PatchOneAt(ins, s[0], vtarget, reg, dtarget, p);
      forall k | 0 <= k < |s[1..]| ensures Fits(s[1..][k], Target(ins1, s[1..][k], vtarget, dtarget)) {
        assert s[1..][k] == s[k + 1];
      }
      PatchAllAt(ins1, GetJump(ins, l), s[1..], vtarget, reg, dtarget, p);
      PatchedBoth(ins, ins1, l, s, vtarget, reg, dtarget, p, PatchAll(ins, s, vtarget, reg, dtarget)[p]);
    }
  }

  lemma PatchedBoth(ins: seq<Instr>, ins1: seq<Instr>, l: int, s: seq<int>, vtarget: int, reg: ArgA, dtarget: int,
          p: int, i: Instr)
    requires s != [] && IsList(ins, l, s) && 0 <= p < |ins| == |ins1|
    requires PatchedAt(ins, [s[0]], vtarget, reg, dtarget, p, ins1[p])
    requires forall k :: 1 <= k < |s| ==> 0 <= s[k] < |ins| && Ctl(ins1, s[k]) == Ctl(ins, s[k])
    requires PatchedAt(ins1, s[1..], vtarget, reg, dtarget, p, i)
    ensures PatchedAt(ins, s, vtarget, reg, dtarget, p, i)
  {
    assert p in s <==> p == s[0] || p in s[1..];
    assert p + 1 in s <==> p + 1 == s[0] || p + 1 in s[1..];
    if p in s {
      var k :| 0 <= k < |s| && s[k] == p;
      assert Linked(ins, s, k);
    }
    if p + 1 in s {
      var k :| 0 <= k < |s| && s[k] == p + 1;
      assert Linked(ins, s, k);
    }
  }

  lemma PatchAllIs(ins: seq<Instr>, l: int, s: seq<int>, vtarget: int, reg: ArgA, dtarget: int)
    requires IsList(ins, l, s) && forall k :: 0 <= k < |s| ==> 0 <= s[k] < |ins|
    requires forall k :: 0 <= k < |s| ==> Fits(s[k], Target(ins, s[k], vtarget, dtarget))
    ensures forall p :: 0 <= p < |ins| ==>
        PatchedAt(ins, s, vtarget, reg, dtarget, p, PatchAll(ins, s, vtarget, reg, dtarget)[p])
  {
    forall p | 0 <= p < |ins|
      ensures PatchedAt(ins, s, vtarget, reg, dtarget, p, PatchAll(ins, s, vtarget, reg, dtarget)[p]) {
      PatchAllAt(ins, l, s, vtarget, reg, dtarget, p);
    }
  }

  lemma RemoveOneKeeps(ins: seq<Instr>, ins1: seq<Instr>, l: int, s: seq<int>)
    requires s != [] && IsList(ins, l, s) && 0 <= s[0] < |ins| && ins1 == JumpLists.PatchTestReg(ins, s[0], NO_REG)
    ensures IsList(ins1, GetJump(ins1, l), s[1..])
  {
    assert Linked(ins, s, 0);
    forall j | j in s ensures 0 <= j < |ins| && ins1[j] == ins[j] {
      var k :| 0 <= k < |s| && s[k] == j;
      assert Linked(ins, s, k);
    }
    ListKept(ins, ins1, l, s);
    TailList(ins1, l, s);
  }

  /** Removing the values of a list turns every TESTSET that controls a member into a TEST, and changes no other
      instruction. */
  lemma {:induction false} RemoveAllAt(ins: seq<Instr>, l: int, s: seq<int>, p: int)
    requires IsList(ins, l, s) && 0 <= p < |ins| && forall k :: 0 <= k < |s| ==> 0 <= s[k] < |ins|
    ensures RemoveAll(ins, s)[p]
         == if p + 1 in s && ins[p].op == TESTSET then TestInto(ins[p], NO_REG) else ins[p]
    decreases |s|
  {
    if s != [] {
      var ins1 := JumpLists.PatchTestReg(ins, s[0], NO_REG);
      assert Linked(ins, s, 0);
      RemoveOneKeeps(ins, ins1, l, s);
      RemoveAllAt(ins1, GetJump(ins1, l), s[1..], p);
      assert p + 1 in s <==> p + 1 == s[0] || p + 1 in s[1..];
    }
  }

  lemma RemoveAllIs(ins: seq<Instr>, l: int, s: seq<int>)
    requires IsList(ins, l, s) && forall k :: 0 <= k < |s| ==> 0 <= s[k] < |ins|
    ensures forall p :: 0 <= p < |ins| ==>
        RemoveAll(ins, s)[p] == if p + 1 in s && ins[p].op == TESTSET then TestInto(ins[p], NO_REG) else ins[p]
  {
    forall p | 0 <= p < |ins|
      ensures RemoveAll(ins, s)[p]
           == if p + 1 in s && ins[p].op == TESTSET then TestInto(ins[p], NO_REG) else ins[p] {
      RemoveAllAt(ins, l, s, p);
    }
  }

  lemma DischargeNone(s: Snap)
    requires Sane(s) && s.J == []
    ensures Discharged(s) == s && JpcFits(s)
  {
    assert s.c.pend - Members(s.J) == s.c.pend;
  }

  /** The list put on hold by luaK_jump is still a list once the new jump is there. */
  lemma HoldList(s: Snap, l: int, J: seq<int>)
    requires Ok(s) && J == s.J && IsList(s.c.ins, l, J)
    ensures var ins := Append(s.c, OPEN_JUMP).ins;
      IsList(ins, l, J) && IsList(ins, s.c.pc, [s.c.pc]) && Disjoint([s.c.pc], J)
  {
    var ins := Append(s.c, OPEN_JUMP).ins;
    forall j | j in J ensures 0 <= j < s.c.pc && j < |s.c.ins| && j < |ins| && ins[j] == s.c.ins[j] {
    }
    ListKept(s.c.ins, ins, l, J);
    assert Linked(ins, [s.c.pc], 0);
  }

  lemma JumpCodes(c: Code, before: seq<Instr>, after: seq<Instr>)
    requires c.pc <= |c.ins| && before == Append(c, OPEN_JUMP).ins && |after| == |before|
    requires forall p :: 0 <= p < |after| && p != c.pc ==> after[p] == before[p]
    ensures after == Append(c, after[c.pc]).ins
  {
  }
}
