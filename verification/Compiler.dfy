/**
  Whole expressions: the recursion of subexpr (src/uvm/lparser.cpp:1105-1132), and the statements that
  put an expression's value in a register.
 */
module Compiler {
  import opened Options
  import opened Locks
  import opened Opcodes
  import opened LuaMachine
  import opened JumpLists
  import opened CodeSem
  import opened ExpSem
  import opened CondSem
  import opened FuncStates
  import opened CodeGen
  import opened CondLists
  import opened Operators

  const RETURN: Op := 38

  /** simpleexp and singlevar, for the literals and variables modelled. */
  method Simple(fs: FuncState, x: Expr) returns (e: ExpDesc)
    requires fs.Valid() && LocalsBelow(x, fs.nactvar)
    requires x.Local? || x.NilLit? || x.TrueLit? || x.FalseLit? || x.IntLit? || x.FloatLit? || x.StrLit?
    modifies fs`ks, fs`h
    ensures fresh(e) && Coding(fs, e, old(fs.Now()), x, fs.freereg) && TrueConstant(fs, e.k)
  {
    LocalsBelowMono(x, fs.nactvar, MAXREGS);
    match x
    case Local(r) => e := Start(fs, x, VLOCAL(r));
    case NilLit => e := Start(fs, x, VNIL);
    case TrueLit => e := Start(fs, x, VTRUE);
    case FalseLit => e := Start(fs, x, VFALSE);
    case IntLit(i) => e := Start(fs, x, VKINT(i));
    case FloatLit(bits) => e := Start(fs, x, VKFLT(bits));
    case StrLit(str) =>
      ghost var s0 := fs.Now();
      var k := fs.AddK(Str(str));
      MoreConstantsOk(s0, fs.Now());
      e := Start(fs, x, VK(k));
      AddedConstant(s0, fs.Now(), e.D(), x, fs.freereg, fs.jpc);
  }

  /** init_exp: nothing is emitted for what the kind already says. */
  method Start(fs: FuncState, ghost x: Expr, k: ExpKind) returns (e: ExpDesc)
    requires fs.Valid() && LocalsBelow(x, fs.nactvar) && LocalsBelow(x, MAXREGS) && !k.VJMP? && !k.VRELOCABLE? &&
        !k.VNONRELOC?
    requires EndsFor(fs.Now(), fs.Now(), ED(k, [], [])) && (k.VLOCAL? ==> k.reg < fs.nactvar)
    requires forall env: Env, r: Regs :: Eval(x, r, env).Some? && ValueOf(fs.Now().c, k, r) == Eval(x, r, env)
    ensures fresh(e) && Coding(fs, e, fs.Now(), x, fs.freereg) && e.D() == ED(k, [], []) && e.t == e.f == NO_JUMP
  {
    e := new ExpDesc(k);
    StartDone(fs.Now(), k, x, fs.freereg, fs.jpc);
  }

  /** The code of an expression.  It uses registers from the first free one up, and what it leaves of
      the value's whereabouts is in the descriptor. */
  method Compile(fs: FuncState, x: Expr) returns (st: Status, e: ExpDesc)
    requires fs.Valid() && LocalsBelow(x, fs.nactvar)
    modifies fs`codes, fs`pc, fs`jpc, fs`J, fs`pend, fs`ks, fs`h, fs`lasttarget, fs`freereg, fs`maxstacksize
    ensures fresh(e) && Explained(fs, st)
    ensures st.Good? ==> Coding(fs, e, old(fs.Now()), x, old(fs.freereg)) && TrueConstant(fs, e.k)
    decreases x
  {
    match x
    case Not(_) =>
      st, e := CompileNot(fs, x);
    case And(y, z) =>
      st, e := CompileLogic(fs, x, y, z, true);
    case Or(y, z) =>
      st, e := CompileLogic(fs, x, y, z, false);
    case Cmp(_, _, _) =>
      st, e := CompileCmp(fs, x);
    case _ =>
      e := Simple(fs, x);
      st := Good;
  }

  method CompileNot(fs: FuncState, x: Expr) returns (st: Status, e: ExpDesc)
    requires fs.Valid() && LocalsBelow(x, fs.nactvar) && x.Not?
    modifies fs`codes, fs`pc, fs`jpc, fs`J, fs`pend, fs`ks, fs`h, fs`lasttarget, fs`freereg, fs`maxstacksize
    ensures fresh(e) && Explained(fs, st)
    ensures st.Good? ==> Coding(fs, e, old(fs.Now()), x, old(fs.freereg)) && TrueConstant(fs, e.k)
    decreases x, 0
  {
    ghost var s0, n := fs.Now(), fs.freereg;
    st, e := Compile(fs, x.x);
    if st.Good? {
      st := CodeNot(fs, e, s0, x.x, n);
    }
  }

  /** y and z, y or z: luaK_infix, the second operand, luaK_posfix. */
  method CompileLogic(fs: FuncState, ghost x: Expr, y: Expr, z: Expr, b: bool) returns (st: Status, e: ExpDesc)
    requires fs.Valid() && LocalsBelow(x, fs.nactvar) && x == if b then And(y, z) else Or(y, z)
    modifies fs`codes, fs`pc, fs`jpc, fs`J, fs`pend, fs`ks, fs`h, fs`lasttarget, fs`freereg, fs`maxstacksize
    ensures fresh(e) && Explained(fs, st)
    ensures st.Good? ==> Coding(fs, e, old(fs.Now()), x, old(fs.freereg)) && TrueConstant(fs, e.k)
    decreases x, 0
  {
    ghost var s0, n := fs.Now(), fs.freereg;
    st, e := Compile(fs, y);
    if !st.Good? {
      return;
    }
    if b {
      st := GoIfTrue(fs, e, s0, y, n);
    } else {
      st := GoIfFalse(fs, e, s0, y, n);
    }
    if !st.Good? {
      return;
    }
    ghost var s1, jpc1 := fs.Now(), fs.jpc;
    KnownPassed(s0, s1, if b then e.F else e.T, y, n, b, jpc1, if b then e.f else e.t);
    var e2;
    st, e2 := Compile(fs, z);
    if st.Good? {
      st := Join(fs, e, e2, b, s0, s1, jpc1, y, z, x, n);
    }
  }

  method CompileCmp(fs: FuncState, x: Expr) returns (st: Status, e: ExpDesc)
    requires fs.Valid() && LocalsBelow(x, fs.nactvar) && x.Cmp?
    modifies fs`codes, fs`pc, fs`jpc, fs`J, fs`pend, fs`ks, fs`h, fs`lasttarget, fs`freereg, fs`maxstacksize
    ensures fresh(e) && Explained(fs, st)
    ensures st.Good? ==> Coding(fs, e, old(fs.Now()), x, old(fs.freereg)) && TrueConstant(fs, e.k)
    decreases x, 0
  {
    ghost var s0, n := fs.Now(), fs.freereg;
    st, e := Compile(fs, x.x);
    if !st.Good? {
      return;
    }
    var o;
    st, o := Exp2RK(fs, e, s0, x.x, n);
    if !st.Good? {
      return;
    }
    ghost var s1, jpc1, n1 := fs.Now(), fs.jpc, fs.freereg;
    Known(s0, s1, e.D(), x.x, n, -1, jpc1, e.t, e.f);
    var e2;
    st, e2 := Compile(fs, x.y);
    if st.Good? {
      st := CodeComp(fs, x.op, e, e2, s0, s1, jpc1, x.x, x.y, n, n1);
    }
  }

  // ---------- what the next instruction sees ----------

  /** The code that runs before the instruction at `at`: stopping there means that it comes next. */
  function Before(c: Code, at: nat): Code {
    c.(pc := at)
  }

  /** The outcome t of a run that had registers r0 when the expression began: it throws if the expression
      throws, and otherwise comes to `at` with the value in reg and the registers below n kept. */
  ghost predicate Delivers(x: Expr, n: int, reg: int, but: int, env: Env, r0: Regs, t: Res, at: int)
    requires LocalsBelow(x, MAXREGS) && 0 <= reg < MAXREGS
  {
    match Eval(x, r0, env)
    case None => t == Threw
    case Some(v) => t.Stop? && t.pc == at && t.r[reg] == v && AgreeBut(r0, t.r, n, but)
  }

  /** Once the next instruction i has been emitted, every run that used to reach the end of the code from
      one of its entries executes the expression and then i; no other run changes. */
  lemma NextInstruction(s0: Snap, s: Snap, s': Snap, x: Expr, n: int, reg: int, but: int, i: Instr, env: Env, q: int,
          r: Regs)
    requires Coded(s0, s, ED(VNONRELOC(reg), [], []), x, n, but) && 0 <= reg < MAXREGS
    requires JpcFits(s) && Plain(i) && Sane(s) && s' == Emitted(s, i) && q <= s0.last && Entry(s0.c.ins, q)
    ensures var t0 := Run(s0.c, env, q, r);
      var t := Run(Before(s'.c, s.c.pc), env, q, r);
      && Undisturbed(s0, t0, t)
      && (t0.Stop? && End(s0, t0.pc) ==> Delivers(x, n, reg, but, env, t0.r, t, s.c.pc))
      && (t.Stop? && t.pc == s.c.pc ==> Run(s'.c, env, q, r) == Run(s'.c, env, s.c.pc, t.r))
  {
    var d := Discharged(s);
    var v := d.(c := Before(s'.c, s.c.pc));
    BeforeRun(s, s', i, v, env, q, r);
    NextOutcome(s0, s, x, n, reg, but, env, q, r, Run(v.c, env, q, r));
  }

  lemma NextOutcome(s0: Snap, s: Snap, x: Expr, n: int, reg: int, but: int, env: Env, q: int, r: Regs, t: Res)
    requires Coded(s0, s, ED(VNONRELOC(reg), [], []), x, n, but) && 0 <= reg < MAXREGS
    requires q <= s0.last && Entry(s0.c.ins, q)
    requires Run(s.c, env, q, r) != Stuck ==> t == AtEnd(s, Run(s.c, env, q, r))
    ensures var t0 := Run(s0.c, env, q, r);
      && Undisturbed(s0, t0, t)
      && (t0.Stop? && End(s0, t0.pc) ==> Delivers(x, n, reg, but, env, t0.r, t, s.c.pc))
  {
    assert SemAt(s0, s, ED(VNONRELOC(reg), [], []), x, n, but, env, q, r);
    var t0 := Run(s0.c, env, q, r);
    if t0.Stop? && Outer(s0, t0.pc) {
      OuterStays(s0, s, t0.pc);
    }
  }

  lemma BeforeRun(s: Snap, s': Snap, i: Instr, v: Snap, env: Env, q: int, r: Regs)
    requires Ok(s) && JpcFits(s) && Plain(i) && s' == Emitted(s, i) && q <= s.last && Entry(s.c.ins, q)
    requires v == Discharged(s).(c := Before(s'.c, s.c.pc))
    ensures var t := Run(s.c, env, q, r);
      var t' := Run(v.c, env, q, r);
      && (t != Stuck ==> t' == AtEnd(s, t))
      && (t'.Stop? && t'.pc == s.c.pc ==> Run(s'.c, env, q, r) == Run(s'.c, env, s.c.pc, t'.r))
  {
    var d := Discharged(s);
    DischargeSem(s);
    assert v == d.(c := d.c.(ins := Append(d.c, i).ins));
    ViewOk(d, i, v);
    EmitSem(s, i, s');
    DischargeRun(s, env, q, r);
    ExtendRun(d.c, v.c, d.last, env, q, r);
    ExtendRun(v.c, s'.c, d.last, env, q, r);
  }

  /** luaK_storevar to a local: the local is the register the value is built in. */
  method StoreLocal(fs: FuncState, e: ExpDesc, r: nat, ghost s0: Snap, ghost x: Expr, ghost n: int) returns (st: Status)
    requires Coding(fs, e, s0, x, n) && r < fs.nactvar
    modifies fs`codes, fs`pc, fs`jpc, fs`J, fs`pend, fs`ks, fs`h, fs`lasttarget, fs`freereg, e
    ensures Explained(fs, st)
    ensures st.Good? ==> Holds(fs, e, s0, x, n, r) && e.D() == ED(VNONRELOC(r), [], []) && fs.freereg == n
  {
    FreeExp(fs, e, n);
    st := Exp2Reg(fs, e, r, s0, x, n, -1);
  }

  /** `return x` as the body of a function whose n parameters are its first locals, whatever the scanner's table
      holds. */
  method ReturnStat(n: nat, table: map<Value, nat>, x: Expr) returns (st: Status, fs: FuncState, reg: int, at: nat)
    requires n < MAXREGS && LocalsBelow(x, n) && LocalsBelow(x, MAXREGS)
    ensures fresh(fs) && Explained(fs, st)
    ensures st.Good? ==> at < |fs.codes| && fs.codes[at].op == RETURN && fs.codes[at].a == reg && fs.codes[at].b == 2
    ensures st.Good? ==> 0 <= reg < MAXREGS && forall env: Env, r: Regs :: Delivers(x, n, reg, -1, env, r,
        Run(Before(fs.Now().c, at), env, 0, r), at)
  {
    reg, at := NO_REG, 0;
    fs := new FuncState(n, table);
    ghost var s0 := fs.Now();
    var e;
    st, e := Compile(fs, x);
    if st.Good? {
      st, reg := Exp2AnyReg(fs, e, s0, x, n);
    }
    if st.Good? {
      st, at := EmitReturn(fs, e, reg, s0, x, n);
    }
  }

  method EmitReturn(fs: FuncState, e: ExpDesc, reg: int, ghost s0: Snap, ghost x: Expr, ghost n: int)
          returns (st: Status, at: nat)
    requires Coding(fs, e, s0, x, n) && e.D() == ED(VNONRELOC(reg), [], []) && s0.c.pc == s0.last == 0 &&
        0 <= reg < MAXREGS
    modifies fs`codes, fs`pc, fs`jpc, fs`J, fs`pend
    ensures Explained(fs, st)
    ensures st.Good? ==> at < |fs.codes| && fs.codes[at] == Instr(RETURN, reg, 2, 0)
    ensures LocalsBelow(x, MAXREGS)
    ensures st.Good? ==> forall env: Env, r: Regs :: Delivers(x, n, reg, -1, env, r,
        Run(Before(fs.Now().c, at), env, 0, r), at)
  {
    ghost var s := fs.Now();
    Known(s0, s, e.D(), x, n, -1, fs.jpc, e.t, e.f);
    ghost var t, f, jpc := e.t, e.f, fs.jpc;
    if !JpcFits(s) { TooLongFor(s); }
    st, at := fs.Emit(Instr(RETURN, reg, 2, 0));
    if st.Good? {
      FromTheStart(s0, s, fs.Now(), x, n, reg, Instr(RETURN, reg, 2, 0), jpc, t, f);
    }
  }

  lemma FromTheStart(s0: Snap, s: Snap, s': Snap, x: Expr, n: int, reg: int, i: Instr, jpc: int, t: int, f: int)
    requires Correct(s0, s, ED(VNONRELOC(reg), [], []), x, n, -1, jpc, t, f) && 0 <= reg < MAXREGS &&
        LocalsBelow(x, MAXREGS)
    requires s0.c.pc == s0.last == 0 && JpcFits(s) && Plain(i) && Sane(s) && s' == Emitted(s, i)
    ensures s.c.pc < |s'.c.ins| && s'.c.ins[s.c.pc] == i
    ensures forall env: Env, r: Regs :: Delivers(x, n, reg, -1, env, r, Run(Before(s'.c, s.c.pc), env, 0, r), s.c.pc)
  {
    assert Key(0) && Open(0);
    EmitSem(s, i, s');
    forall env: Env, r: Regs ensures Delivers(x, n, reg, -1, env, r, Run(Before(s'.c, s.c.pc), env, 0, r), s.c.pc) {
      NextInstruction(s0, s, s', x, n, reg, -1, i, env, 0, r);
      assert Run(s0.c, env, 0, r) == Stop(0, r);
    }
  }
}
