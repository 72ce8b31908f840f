/**
  Operands, conditions and operators (src/uvm/lcode.cpp:507-609, 651-753, 844-920), called in the
  order in which subexpr (src/uvm/lparser.cpp:1105-1132) calls them.

  Each operation keeps what its descriptors mean; `Compiler` puts them together.
 */
module Operators {
  import opened Locks
  import opened Opcodes
  import opened LuaMachine
  import opened JumpLists
  import opened CodeSem
  import opened ExpSem
  import opened FinishSem
  import opened CondSem
  import opened FuncStates
  import opened CodeGen
  import opened CondLists

  /** x has been coded as e says, in the registers from n up. */
  ghost predicate Coding(fs: FuncState, e: ExpDesc, s0: Snap, x: Expr, n: int)
    reads fs, e
  {
    Holds(fs, e, s0, x, n, -1) && RegsFor(e.k, fs.nactvar, n, fs.freereg)
  }

  // ---------- operands ----------

  /** freeexp */
  method FreeExp(fs: FuncState, e: ExpDesc, ghost n: int)
    requires RegsFor(e.k, fs.nactvar, n, fs.freereg) && fs.nactvar <= n < MAXREGS && fs.RegsOk()
    modifies fs`freereg
    ensures fs.freereg == n && fs.RegsOk()
  {
    if e.k.VNONRELOC? {
      fs.FreeReg(e.k.reg);
    }
  }

  /** discharge2anyreg */
  method Discharge2AnyReg(fs: FuncState, e: ExpDesc, ghost s0: Snap, ghost x: Expr, ghost n: int) returns (st: Status)
    requires Coding(fs, e, s0, x, n) && !e.k.VJMP? && !e.k.VLOCAL?
    modifies fs`codes, fs`pc, fs`jpc, fs`J, fs`pend, fs`ks, fs`h, fs`freereg, fs`maxstacksize, e`k
    ensures Explained(fs, st)
    ensures st.Good? ==> Coding(fs, e, s0, x, n) && e.k.VNONRELOC?
  {
    if e.k.VNONRELOC? {
      return Good;
    }
    st := fs.ReserveReg();
    if st.Good? {
      st := Discharge2Reg(fs, e, fs.freereg - 1, s0, x, n, -1);
    }
    if st.Good? {
      ForgetDone(s0, fs.Now(), e.D(), x, n, n, fs.jpc, e.t, e.f);
    }
  }

  /** luaK_exp2nextreg */
  method Exp2NextReg(fs: FuncState, e: ExpDesc, ghost s0: Snap, ghost x: Expr, ghost n: int) returns (st: Status)
    requires Coding(fs, e, s0, x, n)
    modifies fs`codes, fs`pc, fs`jpc, fs`J, fs`pend, fs`ks, fs`h, fs`lasttarget, fs`freereg, fs`maxstacksize, e
    ensures Explained(fs, st)
    ensures st.Good? ==>
        Coding(fs, e, s0, x, n) && e.D() == ED(VNONRELOC(n), [], []) && e.t == e.f == NO_JUMP && fs.freereg == n + 1
  {
    DischargeVars(fs, e, s0, x, n, -1);
    FreeExp(fs, e, n);
    st := fs.ReserveReg();
    if st.Good? {
      st := Exp2Temp(fs, e, fs.freereg - 1, s0, x, n);
    }
  }

  /** exp2reg into the first register that is not in use. */
  method Exp2Temp(fs: FuncState, e: ExpDesc, reg: ArgA, ghost s0: Snap, ghost x: Expr, ghost n: int)
          returns (st: Status)
    requires Holds(fs, e, s0, x, n, -1) && reg == n && fs.freereg == n + 1
    modifies fs`codes, fs`pc, fs`jpc, fs`J, fs`pend, fs`ks, fs`h, fs`lasttarget, e
    ensures Explained(fs, st)
    ensures st.Good? ==> Coding(fs, e, s0, x, n) && e.D() == ED(VNONRELOC(n), [], []) && e.t == e.f == NO_JUMP
  {
    st := Exp2Reg(fs, e, reg, s0, x, n, -1);
    if st.Good? {
      ForgetDone(s0, fs.Now(), e.D(), x, n, n, fs.jpc, e.t, e.f);
    }
  }

  /** luaK_exp2anyreg */
  method Exp2AnyReg(fs: FuncState, e: ExpDesc, ghost s0: Snap, ghost x: Expr, ghost n: int) returns (st: Status, r: int)
    requires Coding(fs, e, s0, x, n)
    modifies fs`codes, fs`pc, fs`jpc, fs`J, fs`pend, fs`ks, fs`h, fs`lasttarget, fs`freereg, fs`maxstacksize, e
    ensures Explained(fs, st)
    ensures st.Good? ==> Coding(fs, e, s0, x, n) && e.D() == ED(VNONRELOC(r), [], []) && e.t == e.f == NO_JUMP
  {
    r := NO_REG;
    DischargeVars(fs, e, s0, x, n, -1);
    Known(s0, fs.Now(), e.D(), x, n, -1, fs.jpc, e.t, e.f);
    HasJumps(fs.codes, e.D(), e.t, e.f);
    Positions(fs.codes, e.t, e.T);
    if e.k.VNONRELOC? {
      if e.t == e.f {
        return Good, e.k.reg;
      }
      if e.k.reg >= fs.nactvar {
        r := e.k.reg;
        st := Exp2Temp(fs, e, r, s0, x, n);
        return;
      }
    }
    st := Exp2NextReg(fs, e, s0, x, n);
    if st.Good? {
      r := e.k.reg;
    }
  }

  /** luaK_exp2val: no exits are left, but the value may still be a constant. */
  method Exp2Val(fs: FuncState, e: ExpDesc, ghost s0: Snap, ghost x: Expr, ghost n: int) returns (st: Status)
    requires Coding(fs, e, s0, x, n)
    modifies fs`codes, fs`pc, fs`jpc, fs`J, fs`pend, fs`ks, fs`h, fs`lasttarget, fs`freereg, fs`maxstacksize, e
    ensures Explained(fs, st)
    ensures st.Good? ==> Coding(fs, e, s0, x, n) && !e.k.VLOCAL? && e.T == e.F == [] && e.t == e.f == NO_JUMP
  {
    Known(s0, fs.Now(), e.D(), x, n, -1, fs.jpc, e.t, e.f);
    HasJumps(fs.codes, e.D(), e.t, e.f);
    Positions(fs.codes, e.t, e.T);
    if e.t != e.f {
      var r;
      st, r := Exp2AnyReg(fs, e, s0, x, n);
    } else {
      DischargeVars(fs, e, s0, x, n, -1);
      st := Good;
    }
  }

  /** The constants that exp2RK makes of nil, true and false. */
  function LiteralValue(k: ExpKind): Value {
    match k case VTRUE => Bool(true) case VFALSE => Bool(false) case _ => Nil
  }

  method Constant(fs: FuncState, e: ExpDesc, ghost s0: Snap, ghost x: Expr, ghost n: int)
    requires Coding(fs, e, s0, x, n) && e.T == e.F == [] && (e.k.VNIL? || e.k.VTRUE? || e.k.VFALSE?)
    modifies fs`ks, fs`h, e`k
    ensures Coding(fs, e, s0, x, n) && e.k.VK? && 0 <= e.k.info <= |old(fs.ks)| && e.k.info < |fs.ks|
  {
    ghost var s := fs.Now();
    var k := fs.AddK(LiteralValue(e.k));
    LiteralDone(s0, s, fs.Now(), e.D(), k, x, n, fs.jpc, e.t, e.f);
    e.k := VK(k);
  }

  lemma LiteralDone(s0: Snap, s: Snap, s': Snap, e: ED, i: nat, x: Expr, n: int, jpc: int, t: int, f: int)
    requires Correct(s0, s, e, x, n, -1, jpc, t, f) && (e.k.VNIL? || e.k.VTRUE? || e.k.VFALSE?)
    requires s' == s.(c := s.c.(ks := s'.c.ks)) && s.c.ks <= s'.c.ks && i < |s'.c.ks| && s'.c.ks[i] == LiteralValue(e.k)
    ensures Correct(s0, s', e.(k := VK(i)), x, n, -1, jpc, t, f)
  {
    assert Key(0) && Open(0);
    MoreConstantsOk(s, s');
    GrowsTrans(s0, s, s');
    MoreConstantsAll(s0, s, s', e, x, n, -1);
    RenameSem(s0, s', e, VK(i), x, n, -1);
    Lock(s0, s', e.(k := VK(i)), x, n, -1, jpc, t, f);
  }

  /** luaK_exp2RK: an operand that is a constant in reach, or in a register. */
  method Exp2RK(fs: FuncState, e: ExpDesc, ghost s0: Snap, ghost x: Expr, ghost n: int) returns (st: Status, o: int)
    requires Coding(fs, e, s0, x, n)
    modifies fs`codes, fs`pc, fs`jpc, fs`J, fs`pend, fs`ks, fs`h, fs`lasttarget, fs`freereg, fs`maxstacksize, e
    ensures Explained(fs, st)
    ensures st.Good? ==> Coding(fs, e, s0, x, n) && e.T == e.F == [] && e.t == e.f == NO_JUMP
    ensures st.Good? ==> IsOperand(e.k, fs.Now().c) && o == OperandOf(e.k) && 0 <= o <= MAXARG_B
  {
    o := 0;
    st := Exp2Val(fs, e, s0, x, n);
    if !st.Good? {
      return;
    }
    var inReach := MakeConstant(fs, e, s0, x, n);
    if inReach {
      return Good, e.k.info + BITRK;
    }
    st, o := Exp2AnyReg(fs, e, s0, x, n);
  }

  /** The switch of exp2RK: constants get their index if it can be in reach of an operand. */
  method MakeConstant(fs: FuncState, e: ExpDesc, ghost s0: Snap, ghost x: Expr, ghost n: int) returns (inReach: bool)
    requires Coding(fs, e, s0, x, n) && !e.k.VLOCAL? && e.T == e.F == []
    modifies fs`ks, fs`h, e`k
    ensures Coding(fs, e, s0, x, n)
    ensures inReach ==> e.k.VK? && 0 <= e.k.info <= MAXINDEXRK && e.k.info < |fs.ks|
    ensures inReach || e.k == old(e.k) || e.k.VK?
  {
    if e.k.VNIL? || e.k.VTRUE? || e.k.VFALSE? {
      if |fs.ks| <= MAXINDEXRK {
        Constant(fs, e, s0, x, n);
        return true;
      }
      return false;
    }
    if IsNumeral(e.k) {
      NumberConstant(fs, e, s0, x, n, -1);
    }
    Known(s0, fs.Now(), e.D(), x, n, -1, fs.jpc, e.t, e.f);
    return e.k.VK? && e.k.info <= MAXINDEXRK;
  }

  // ---------- conditions ----------

  /** invertjump: the comparison's condition is turned round. */
  method InvertJump(fs: FuncState, e: ExpDesc)
    requires Ok(fs.Now()) && e.k.VJMP? && EndsInJump(fs.Now().c, fs.lasttarget) && e.k.pc == fs.pc - 1
    modifies fs`codes
    ensures fs.Now() == old(fs.Now()).(c := Invert(old(fs.Now().c)))
  {
    assert TestMode(fs.codes[fs.pc - 2].op);
    var at := CtlPos(fs.codes, e.k.pc);
    var i := fs.codes[at];
    fs.codes := fs.codes[at := i.(a := if i.a == 0 then 1 else 0)];
  }

  /** condjump with the test of jumponcond. */
  method TestJump(fs: FuncState, i: Instr) returns (st: Status, j: int)
    requires Ok(fs.Now()) && IsList(fs.codes, fs.jpc, fs.J) && TestMode(i.op)
    modifies fs`codes, fs`pc, fs`jpc, fs`J, fs`pend
    ensures Explained(fs, st)
    ensures st.Good? ==> JpcFits(old(fs.Now())) && fs.Now() == Tested(old(fs.Now()), i)
    ensures st.Good? ==> j == old(fs.pc) + 1 && IsList(fs.codes, j, [j]) && fs.jpc == NO_JUMP
  {
    ghost var s := fs.Now();
    if !JpcFits(s) { TooLongFor(s); }
    st, j := fs.CondJump(i.op, i.a, i.b, i.c);
  }

  /** jumponcond on a `not`: the NOT is taken back and its operand tested the other way round. */
  method TestOperand(fs: FuncState, e: ExpDesc, b: bool, ghost s0: Snap, ghost x: Expr, ghost n: int)
          returns (st: Status, j: int)
    requires Coding(fs, e, s0, x, n) && e.k.VRELOCABLE? && 0 <= e.k.pc < |fs.codes| && fs.codes[e.k.pc].op == NOT
    modifies fs`codes, fs`pc, fs`jpc, fs`J, fs`pend
    ensures Explained(fs, st)
    ensures st.Good? ==> Branched(s0, fs.Now(), e.T, e.F, [j], x, n, b, fs.jpc, e.t, e.f, j)
  {
    ghost var s := fs.Now();
    ghost var jpc := fs.jpc;
    Known(s0, s, e.D(), x, n, -1, jpc, e.t, e.f);
    ViewIsOk(s0, s, e.D(), x, n, -1, jpc, e.t, e.f);
    var ie := fs.codes[e.k.pc];
    fs.pc := fs.pc - 1;
    assert fs.Now() == View(s, e.k);
    st, j := TestJump(fs, Instr(TEST, ie.b, 0, if b then 1 else 0));
    if st.Good? {
      BranchTest(s0, s, fs.Now(), e.D(), x, n, b, jpc, e.t, e.f, j);
    }
  }

  method TestRegister(fs: FuncState, e: ExpDesc, b: bool, ghost s0: Snap, ghost x: Expr, ghost n: int)
          returns (st: Status, j: int)
    requires Coding(fs, e, s0, x, n) && e.k.VNONRELOC?
    modifies fs`codes, fs`pc, fs`jpc, fs`J, fs`pend, fs`freereg
    ensures Explained(fs, st)
    ensures st.Good? ==>
        Branched(s0, fs.Now(), e.T, e.F, [j], x, n, b, fs.jpc, e.t, e.f, j) && fs.freereg == n && fs.RegsOk()
  {
    ghost var s := fs.Now();
    ghost var jpc := fs.jpc;
    Known(s0, s, e.D(), x, n, -1, jpc, e.t, e.f);
    FreeExp(fs, e, n);
    st, j := TestJump(fs, Instr(TESTSET, NO_REG, e.k.reg, if b then 0 else 1));
    if st.Good? {
      BranchTest(s0, s, fs.Now(), e.D(), x, n, b, jpc, e.t, e.f, j);
    }
  }

  /** jumponcond: jump away when the value's truth is not b. */
  method JumpOnCond(fs: FuncState, e: ExpDesc, b: bool, ghost s0: Snap, ghost x: Expr, ghost n: int)
          returns (st: Status, j: int)
    requires Coding(fs, e, s0, x, n) && !e.k.VJMP? && !e.k.VLOCAL?
    modifies fs`codes, fs`pc, fs`jpc, fs`J, fs`pend, fs`ks, fs`h, fs`freereg, fs`maxstacksize, e`k
    ensures Explained(fs, st)
    ensures st.Good? ==>
        Branched(s0, fs.Now(), e.T, e.F, [j], x, n, b, fs.jpc, e.t, e.f, j) && fs.freereg == n && fs.RegsOk()
  {
    j := NO_JUMP;
    Known(s0, fs.Now(), e.D(), x, n, -1, fs.jpc, e.t, e.f);
    if e.k.VRELOCABLE? {
      if fs.codes[e.k.pc].op == NOT {
        st, j := TestOperand(fs, e, b, s0, x, n);
        return;
      }
    }
    st := Discharge2AnyReg(fs, e, s0, x, n);
    if st.Good? {
      st, j := TestRegister(fs, e, b, s0, x, n);
    }
  }

  /** luaK_concat(&e->f, pc) in goiftrue, luaK_concat(&e->t, pc) in goiffalse. */
  method AddExit(fs: FuncState, e: ExpDesc, b: bool, j: int, ghost js: seq<int>, ghost s0: Snap, ghost x: Expr,
          ghost n: int) returns (st: Status)
    requires Branched(s0, fs.Now(), e.T, e.F, js, x, n, b, fs.jpc, e.t, e.f, j)
    modifies fs`codes, e`t, e`f, e`T, e`F
    ensures Explained(fs, st)
    ensures st.Good? ==> Branched(s0, fs.Now(), e.T, e.F, [], x, n, b, fs.jpc, e.t, e.f, NO_JUMP)
  {
    ghost var s := fs.Now();
    ghost var d, t, f := e.D(), e.t, e.f;
    KnownBranch(s0, s, d.T, d.F, js, x, n, b, fs.jpc, t, f, j);
    RoomToAdd(s0, s, d.T, d.F, js, x, n, b, fs.jpc, t, f, j);
    var h;
    if b {
      st, h := fs.Concat(e.f, j, e.F, js);
      e.f, e.F := h, e.F + js;
    } else {
      st, h := fs.Concat(e.t, j, e.T, js);
      e.t, e.T := h, e.T + js;
    }
    if st.Good? {
      ExitAdded(s0, s, fs.Now(), d.T, d.F, js, x, n, b, fs.jpc, t, f, j, h);
    }
  }

  /** luaK_patchtohere on the exits of truth b, which are then forgotten. */
  method PatchExits(fs: FuncState, e: ExpDesc, b: bool, ghost s0: Snap, ghost x: Expr, ghost n: int)
          returns (st: Status)
    requires Branched(s0, fs.Now(), e.T, e.F, [], x, n, b, fs.jpc, e.t, e.f, NO_JUMP)
    modifies fs`codes, fs`lasttarget, fs`jpc, fs`J, e`t, e`f, e`T, e`F
    ensures Explained(fs, st)
    ensures st.Good? ==> Passed(s0, fs.Now(), if b then e.F else e.T, x, n, b, fs.jpc, if b then e.f else e.t)
    ensures st.Good? ==> (if b then e.T == [] && e.t == NO_JUMP else e.F == [] && e.f == NO_JUMP)
  {
    ghost var s := fs.Now();
    ghost var d, t, f, jpc := e.D(), e.t, e.f, fs.jpc;
    KnownBranch(s0, s, d.T, d.F, [], x, n, b, jpc, t, f, NO_JUMP);
    RoomHere(s0, s, d.T, d.F, [], x, n, b, jpc, t, f, NO_JUMP);
    if b {
      st := fs.PatchToHere(e.t, e.T);
      e.t, e.T := NO_JUMP, [];
    } else {
      st := fs.PatchToHere(e.f, e.F);
      e.f, e.F := NO_JUMP, [];
    }
    if st.Good? {
      ExitsHere(s0, s, fs.Now(), d.T, d.F, x, n, b, jpc, t, f, fs.jpc);
    }
  }

  /** A constant in the table is true: only strings and numbers get there before an operand is needed. */
  ghost predicate TrueConstant(fs: FuncState, k: ExpKind)
    reads fs
  {
    k.VK? ==> 0 <= k.info < |fs.ks| && Truthy(fs.ks[k.info])
  }

  method BranchIfTrue(fs: FuncState, e: ExpDesc, ghost s0: Snap, ghost x: Expr, ghost n: int)
          returns (st: Status, j: int, ghost js: seq<int>)
    requires Coding(fs, e, s0, x, n) && TrueConstant(fs, e.k) && !e.k.VLOCAL?
    modifies fs`codes, fs`pc, fs`jpc, fs`J, fs`pend, fs`ks, fs`h, fs`freereg, fs`maxstacksize, e`k
    ensures Explained(fs, st)
    ensures st.Good? ==>
        Branched(s0, fs.Now(), e.T, e.F, js, x, n, true, fs.jpc, e.t, e.f, j) && fs.freereg == n && fs.RegsOk()
  {
    ghost var s := fs.Now();
    Known(s0, s, e.D(), x, n, -1, fs.jpc, e.t, e.f);
    if e.k.VJMP? {
      InvertJump(fs, e);
      BranchInvert(s0, s, fs.Now(), e.D(), x, n, fs.jpc, e.t, e.f);
      st, j, js := Good, e.k.pc, [e.k.pc];
    } else if e.k.VK? || IsNumeral(e.k) || e.k.VTRUE? {
      BranchConstant(s0, s, e.D(), x, n, true, fs.jpc, e.t, e.f);
      st, j, js := Good, NO_JUMP, [];
    } else {
      st, j := JumpOnCond(fs, e, true, s0, x, n);
      js := [j];
    }
  }

  /** luaK_goiftrue */
  method GoIfTrue(fs: FuncState, e: ExpDesc, ghost s0: Snap, ghost x: Expr, ghost n: int) returns (st: Status)
    requires Coding(fs, e, s0, x, n) && TrueConstant(fs, e.k)
    modifies fs`codes, fs`pc, fs`jpc, fs`J, fs`pend, fs`ks, fs`h, fs`lasttarget, fs`freereg, fs`maxstacksize, e
    ensures Explained(fs, st)
    ensures st.Good? ==> Passed(s0, fs.Now(), e.F, x, n, true, fs.jpc, e.f) && fs.freereg == n && fs.RegsOk()
  {
    DischargeVars(fs, e, s0, x, n, -1);
    var j;
    ghost var js;
    st, j, js := BranchIfTrue(fs, e, s0, x, n);
    if st.Good? {
      st := AddExit(fs, e, true, j, js, s0, x, n);
    }
    if st.Good? {
      st := PatchExits(fs, e, true, s0, x, n);
    }
  }

  method BranchIfFalse(fs: FuncState, e: ExpDesc, ghost s0: Snap, ghost x: Expr, ghost n: int)
          returns (st: Status, j: int, ghost js: seq<int>)
    requires Coding(fs, e, s0, x, n) && !e.k.VLOCAL?
    modifies fs`codes, fs`pc, fs`jpc, fs`J, fs`pend, fs`ks, fs`h, fs`freereg, fs`maxstacksize, e`k
    ensures Explained(fs, st)
    ensures st.Good? ==>
        Branched(s0, fs.Now(), e.T, e.F, js, x, n, false, fs.jpc, e.t, e.f, j) && fs.freereg == n && fs.RegsOk()
  {
    ghost var s := fs.Now();
    Known(s0, s, e.D(), x, n, -1, fs.jpc, e.t, e.f);
    if e.k.VJMP? {
      BranchJump(s0, s, e.D(), x, n, fs.jpc, e.t, e.f);
      st, j, js := Good, e.k.pc, [e.k.pc];
    } else if e.k.VNIL? || e.k.VFALSE? {
      BranchConstant(s0, s, e.D(), x, n, false, fs.jpc, e.t, e.f);
      st, j, js := Good, NO_JUMP, [];
    } else {
      st, j := JumpOnCond(fs, e, false, s0, x, n);
      js := [j];
    }
  }

  /** luaK_goiffalse */
  method GoIfFalse(fs: FuncState, e: ExpDesc, ghost s0: Snap, ghost x: Expr, ghost n: int) returns (st: Status)
    requires Coding(fs, e, s0, x, n)
    modifies fs`codes, fs`pc, fs`jpc, fs`J, fs`pend, fs`ks, fs`h, fs`lasttarget, fs`freereg, fs`maxstacksize, e
    ensures Explained(fs, st)
    ensures st.Good? ==> Passed(s0, fs.Now(), e.T, x, n, false, fs.jpc, e.t) && fs.freereg == n && fs.RegsOk()
  {
    DischargeVars(fs, e, s0, x, n, -1);
    var j;
    ghost var js;
    st, j, js := BranchIfFalse(fs, e, s0, x, n);
    if st.Good? {
      st := AddExit(fs, e, false, j, js, s0, x, n);
    }
    if st.Good? {
      st := PatchExits(fs, e, false, s0, x, n);
    }
  }

  // ---------- operators ----------

  /** luaK_posfix for `and` (b) and `or`: the exits of the first operand follow those of the second. */
  method Join(fs: FuncState, e1: ExpDesc, e2: ExpDesc, b: bool, ghost s0: Snap, ghost s1: Snap, ghost jpc1: int,
              ghost x: Expr, ghost y: Expr, ghost xy: Expr, ghost n: int) returns (st: Status)
    requires e1 != e2 && Coding(fs, e2, s1, y, n) && LocalsBelow(x, fs.nactvar) && xy == if b then And(x, y)
        else Or(x, y)
    requires Passed(s0, s1, if b then e1.F else e1.T, x, n, b, jpc1, if b then e1.f else e1.t)
    modifies fs`codes, e1, e2
    ensures Explained(fs, st)
    ensures st.Good? ==> Coding(fs, e1, s0, xy, n)
    ensures e1.k == if old(e2.k).VLOCAL? then VNONRELOC(old(e2.k).reg) else old(e2.k)
  {
    DischargeVars(fs, e2, s1, y, n, -1);
    JoinLocals(x, y, fs.nactvar, n, b);
    st := JoinExits(fs, e1, e2, b, s0, s1, jpc1, x, y, xy, n);
    e1.Copy(e2);
  }

  method JoinExits(fs: FuncState, e1: ExpDesc, e2: ExpDesc, b: bool, ghost s0: Snap, ghost s1: Snap, ghost jpc1: int,
                   ghost x: Expr, ghost y: Expr, ghost xy: Expr, ghost n: int) returns (st: Status)
    requires e1 != e2 && Correct(s1, fs.Now(), e2.D(), y, n, -1, fs.jpc, e2.t, e2.f)
    requires Passed(s0, s1, if b then e1.F else e1.T, x, n, b, jpc1, if b then e1.f else e1.t)
    requires LocalsBelow(xy, MAXREGS) && LocalsBelow(y, n) && n <= MAXREGS && xy == if b then And(x, y) else Or(x, y)
    modifies fs`codes, e2`t, e2`f, e2`T, e2`F
    ensures Explained(fs, st)
    ensures st.Good? ==> Correct(s0, fs.Now(), e2.D(), xy, n, -1, fs.jpc, e2.t, e2.f)
  {
    ghost var l, h := if b then e1.F else e1.T, if b then e1.f else e1.t;
    ghost var s, d, t, f := fs.Now(), e2.D(), e2.t, e2.f;
    Known(s1, s, d, y, n, -1, fs.jpc, t, f);
    JoinLists(s0, s1, s, l, d, x, y, n, b, jpc1, h, fs.jpc, t, f);
    st := MergeExits(fs, e1, e2, b);
    assert fs.Now() == s.(c := s.c.(ins := fs.codes));
    if st.Good? {
      ghost var s', h', jpc := fs.Now(), if b then e2.f else e2.t, fs.jpc;
      JoinDone(s0, s1, s, s', l, d, x, y, xy, n, b, jpc1, h, jpc, t, f, h');
      assert e2.D() == ED(d.k, if b then d.T else d.T + l, if b then d.F + l else d.F);
    }
  }

  /** The exits of the first operand join those of the second. */
  method MergeExits(fs: FuncState, e1: ExpDesc, e2: ExpDesc, b: bool) returns (st: Status)
    requires e1 != e2 && IsList(fs.codes, if b then e2.f else e2.t, if b then e2.F else e2.T)
    requires IsList(fs.codes, if b then e1.f else e1.t, if b then e1.F else e1.T)
    requires Disjoint(if b then e2.F else e2.T, if b then e1.F else e1.T)
    modifies fs`codes, e2`t, e2`f, e2`T, e2`F
    ensures var m, l, h := if b then old(e2.F) else old(e2.T), if b then e1.F else e1.T, if b then e1.f else e1.t;
      && (st.Good? ==> IsList(fs.codes, if b then e2.f else e2.t, m + l))
      && (st.Good? || (st.TooLong? && m != [] && l != [] && !Fits(m[|m| - 1], h)))
      && |fs.codes| == |old(fs.codes)|
      && (forall p :: 0 <= p < |fs.codes| && p !in m ==> fs.codes[p] == old(fs.codes)[p])
      && forall p :: 0 <= p < |fs.codes| ==>
          fs.codes[p].op == old(fs.codes)[p].op && fs.codes[p].a == old(fs.codes)[p].a
    ensures if b then e2.F == old(e2.F) + e1.F && e2.t == old(e2.t) && e2.T == old(e2.T)
            else e2.T == old(e2.T) + e1.T && e2.f == old(e2.f) && e2.F == old(e2.F)
  {
    if b {
      var h;
      st, h := fs.Concat(e2.f, e1.f, e2.F, e1.F);
      e2.f, e2.F := h, e2.F + e1.F;
    } else {
      var h;
      st, h := fs.Concat(e2.t, e1.t, e2.T, e1.T);
      e2.t, e2.T := h, e2.T + e1.T;
    }
  }

  lemma JoinLocals(x: Expr, y: Expr, m: int, n: int, b: bool)
    requires LocalsBelow(x, m) && LocalsBelow(y, m) && m <= n < MAXREGS
    ensures LocalsBelow(y, n) && LocalsBelow(if b then And(x, y) else Or(x, y), MAXREGS) &&
        LocalsBelow(if b then And(x, y) else Or(x, y), m)
  {
    LocalsBelowMono(y, m, n);
    LocalsBelowMono(x, m, MAXREGS);
    LocalsBelowMono(y, m, MAXREGS);
  }

  /** The switch of codenot. */
  method Negate(fs: FuncState, e: ExpDesc, ghost s0: Snap, ghost x: Expr, ghost n: int) returns (st: Status)
    requires Coding(fs, e, s0, x, n) && TrueConstant(fs, e.k) && !e.k.VLOCAL?
    modifies fs`codes, fs`pc, fs`jpc, fs`J, fs`pend, fs`ks, fs`h, fs`freereg, fs`maxstacksize, e`k
    ensures Explained(fs, st)
    ensures st.Good? ==> Flipped(s0, fs.Now(), e.D(), x, n, fs.jpc, e.t, e.f) && fs.freereg == n && fs.RegsOk()
    ensures st.Good? ==> e.k.VTRUE? || e.k.VFALSE? || e.k.VJMP? || e.k.VRELOCABLE?
  {
    ghost var s := fs.Now();
    Known(s0, s, e.D(), x, n, -1, fs.jpc, e.t, e.f);
    st := Good;
    if e.k.VNIL? || e.k.VFALSE? {
      FlipConstant(s0, s, e.D(), VTRUE, x, n, fs.jpc, e.t, e.f);
      e.k := VTRUE;
    } else if e.k.VK? || IsNumeral(e.k) || e.k.VTRUE? {
      FlipConstant(s0, s, e.D(), VFALSE, x, n, fs.jpc, e.t, e.f);
      e.k := VFALSE;
    } else if e.k.VJMP? {
      InvertJump(fs, e);
      FlipJump(s0, s, fs.Now(), e.D(), x, n, fs.jpc, e.t, e.f);
    } else {
      st := Discharge2AnyReg(fs, e, s0, x, n);
      if st.Good? {
        st := EmitNot(fs, e, s0, x, n);
      }
    }
  }

  method EmitNot(fs: FuncState, e: ExpDesc, ghost s0: Snap, ghost x: Expr, ghost n: int) returns (st: Status)
    requires Coding(fs, e, s0, x, n) && e.k.VNONRELOC?
    modifies fs`codes, fs`pc, fs`jpc, fs`J, fs`pend, fs`freereg, e`k
    ensures Explained(fs, st)
    ensures st.Good? ==>
        Flipped(s0, fs.Now(), e.D(), x, n, fs.jpc, e.t, e.f) && fs.freereg == n && fs.RegsOk() && e.k.VRELOCABLE?
  {
    ghost var s := fs.Now();
    ghost var jpc := fs.jpc;
    Known(s0, s, e.D(), x, n, -1, jpc, e.t, e.f);
    FreeExp(fs, e, n);
    if !JpcFits(s) { TooLongFor(s); }
    var at;
    st, at := fs.Emit(Instr(NOT, 0, e.k.reg, 0));
    if st.Good? {
      FlipReg(s0, s, fs.Now(), e.D(), x, n, jpc, e.t, e.f);
      e.k := VRELOCABLE(at);
    }
  }

  /** The end of codenot: the lists change places, and their jumps stop carrying values. */
  method SwapLists(fs: FuncState, e: ExpDesc, ghost s0: Snap, ghost x: Expr, ghost n: int)
    requires Flipped(s0, fs.Now(), e.D(), x, n, fs.jpc, e.t, e.f) && LocalsBelow(Not(x), MAXREGS)
    modifies fs`codes, e`t, e`f, e`T, e`F
    ensures Correct(s0, fs.Now(), e.D(), Not(x), n, -1, fs.jpc, e.t, e.f)
  {
    ghost var s, d, t, f := fs.Now(), e.D(), e.t, e.f;
    e.t, e.f := e.f, e.t;
    e.T, e.F := e.F, e.T;
    KnownFlipped(s0, s, s, d, x, n, fs.jpc, t, f);
    fs.RemoveValues(e.f, e.F);
    ghost var s1 := fs.Now();
    KnownFlipped(s0, s, s1, d, x, n, fs.jpc, t, f);
    Positions(fs.codes, e.t, e.T);
    fs.RemoveValues(e.t, e.T);
    NotDone(s0, s, s1, fs.Now(), d, x, n, fs.jpc, t, f);
  }

  /** codenot */
  method CodeNot(fs: FuncState, e: ExpDesc, ghost s0: Snap, ghost x: Expr, ghost n: int) returns (st: Status)
    requires Coding(fs, e, s0, x, n) && TrueConstant(fs, e.k)
    modifies fs`codes, fs`pc, fs`jpc, fs`J, fs`pend, fs`ks, fs`h, fs`freereg, fs`maxstacksize, e
    ensures Explained(fs, st)
    ensures st.Good? ==> Coding(fs, e, s0, Not(x), n) && !e.k.VK?
  {
    DischargeVars(fs, e, s0, x, n, -1);
    st := Negate(fs, e, s0, x, n);
    if st.Good? {
      LocalsBelowMono(x, fs.nactvar, MAXREGS);
      SwapLists(fs, e, s0, x, n);
    }
  }

  /** codecomp, the first operand already coded by luaK_infix: reading it again emits nothing. */
  method CodeComp(fs: FuncState, op: CmpOp, e1: ExpDesc, e2: ExpDesc, ghost s0: Snap, ghost s1: Snap, ghost jpc1: int,
                  ghost x: Expr, ghost y: Expr, ghost n: int, ghost n1: int) returns (st: Status)
    requires e1 != e2 && Coding(fs, e2, s1, y, n1) && LocalsBelow(x, fs.nactvar) && fs.nactvar <= n <= n1
    requires Correct(s0, s1, ED(e1.k, [], []), x, n, -1, jpc1, NO_JUMP, NO_JUMP) && IsOperand(e1.k, s1.c)
    requires RegsFor(e1.k, fs.nactvar, n, n1) && e1.t == e1.f == NO_JUMP && e1.T == e1.F == []
    modifies fs`codes, fs`pc, fs`jpc, fs`J, fs`pend, fs`ks, fs`h, fs`lasttarget, fs`freereg, fs`maxstacksize, e1, e2
    ensures Explained(fs, st)
    ensures st.Good? ==> Coding(fs, e1, s0, Cmp(op, x, y), n) && e1.k.VJMP?
  {
    var o1: ArgBC := if e1.k.VK? then e1.k.info + BITRK else e1.k.reg;
    var o2;
    st, o2 := Exp2RK(fs, e2, s1, y, n1);
    if st.Good? {
      FreeExp(fs, e2, n1);
      FreeExp(fs, e1, n);
      st := EmitCompare(fs, op, e1, e2, o1, o2, s0, s1, jpc1, x, y, n, n1);
    }
  }

  method EmitCompare(fs: FuncState, op: CmpOp, e1: ExpDesc, e2: ExpDesc, o1: ArgBC, o2: ArgBC, ghost s0: Snap,
          ghost s1: Snap,
                     ghost jpc1: int, ghost x: Expr, ghost y: Expr, ghost n: int, ghost n1: int) returns (st: Status)
    requires e1 != e2 && Correct(s1, fs.Now(), ED(e2.k, [], []), y, n1, -1, fs.jpc, NO_JUMP, NO_JUMP) &&
        IsOperand(e2.k, fs.Now().c)
    requires Correct(s0, s1, ED(e1.k, [], []), x, n, -1, jpc1, NO_JUMP, NO_JUMP) && IsOperand(e1.k, s1.c)
    requires o1 == OperandOf(e1.k) && o2 == OperandOf(e2.k) && RegsFor(e1.k, fs.nactvar, n, n1)
    requires LocalsBelow(x, fs.nactvar) && LocalsBelow(y, fs.nactvar) && fs.nactvar <= n <= n1 && n < MAXREGS &&
        fs.freereg == n && fs.RegsOk()
    requires e1.t == e1.f == NO_JUMP && e1.T == e1.F == []
    modifies fs`codes, fs`pc, fs`jpc, fs`J, fs`pend, e1`k
    ensures Explained(fs, st)
    ensures st.Good? ==> Coding(fs, e1, s0, Cmp(op, x, y), n) && e1.k.VJMP?
  {
    ghost var s, jpc := fs.Now(), fs.jpc;
    Known(s1, s, ED(e2.k, [], []), y, n1, -1, jpc, NO_JUMP, NO_JUMP);
    CompareLocals(op, x, y, fs.nactvar, n);
    var i := Comparison(op, o1, o2);
    var j;
    st, j := TestJump(fs, i);
    if st.Good? {
      ghost var t := fs.Now();
      CompareDone(s0, s1, s, t, op, e1.k, e2.k, x, y, n, n1, jpc1, jpc);
      e1.k := VJMP(j);
      assert fs.Now() == t;
    }
  }

  lemma CompareLocals(op: CmpOp, x: Expr, y: Expr, m: int, n: int)
    requires LocalsBelow(x, m) && LocalsBelow(y, m) && m <= n < MAXREGS
    ensures LocalsBelow(y, n) && LocalsBelow(Cmp(op, x, y), MAXREGS) && LocalsBelow(Cmp(op, x, y), m)
  {
    LocalsBelowMono(y, m, n);
    LocalsBelowMono(x, m, MAXREGS);
    LocalsBelowMono(y, m, MAXREGS);
  }

  /** The operands in the order, and with the condition, that codecomp gives its instruction. */
  method Comparison(op: CmpOp, o1: ArgBC, o2: ArgBC) returns (i: Instr)
    ensures i == CompInstr(op, o1, o2) && TestMode(i.op)
  {
    var cond := if op.OpEq? || op.OpLt? || op.OpLe? then 1 else 0;
    var a, b := o1, o2;
    if cond == 0 && CompOp(op) != EQ {
      a, b := o2, o1;
      cond := 1;
    }
    i := Instr(CompOp(op), cond, a, b);
  }
}
