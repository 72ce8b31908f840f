/**
  How each step of the expression generator keeps `Sem`: one lemma a step, from the meaning of the
  descriptor before it to the meaning after it.
 */
module ExpSem {
  import opened Options
  import opened Opcodes
  import opened LuaMachine
  import opened JumpLists
  import opened CodeSem

  /** The exit lists of a descriptor hold jumps of the expression's own code, all still pending; and
      the code ends as its kind needs. */
  ghost predicate Described(s0: Snap, s: Snap, e: ED) {
    true == (
    && (forall j :: j in e.T ==> s0.c.pc <= j < s.c.pc && Outer(s, j))
    && (forall j :: j in e.F ==> s0.c.pc <= j < s.c.pc && Outer(s, j))
    && Disjoint(e.T, e.F) && NoDup(e.T) && NoDup(e.F)
    && EndsFor(s0, s, e)
    )
  }

  ghost predicate EndsFor(s0: Snap, s: Snap, e: ED) {
    match e.k
    case VVOID => false
    case VK(i) => 0 <= i < |s.c.ks|
    case VNONRELOC(r) => 0 <= r < MAXREGS
    case VLOCAL(r) => 0 <= r < MAXREGS
    case VJMP(p) =>
      && EndsInJump(s.c, s.last) && s.J == [] && p == s.c.pc - 1 && s0.c.pc <= p - 1
      && p !in e.T && p !in e.F && s.c.ins[p] == OPEN_JUMP
    case VRELOCABLE(p) =>
      && s0.c.pc <= p == s.c.pc - 1 && s.c.pc <= |s.c.ins| && s.last <= p && s.J == []
      && s.c.ins[p].op == NOT && s.c.ins[p].b < MAXREGS && p !in s.c.pend
    case _ => true
  }

  /** The expression has been coded so far as the descriptor says. */
  ghost predicate Coded(s0: Snap, s: Snap, e: ED, x: Expr, n: int, but: int) {
    true == (
    && Ok(s0) && Ok(s) && Ok(View(s, e.k)) && Grows(s0, View(s, e.k))
    && Described(s0, s, e)
    && LocalsBelow(x, MAXREGS) && Sem(s0, View(s, e.k), e, x, n, but)
    )
  }

  /** Starting to code: nothing emitted, the value is known. */
  lemma StartSem(s0: Snap, k: ExpKind, x: Expr, n: int)
    requires Ok(s0) && LocalsBelow(x, MAXREGS) && EndsFor(s0, s0, ED(k, [], []))
    requires !k.VJMP? && !k.VRELOCABLE?
    requires forall env: Env, r: Regs :: Eval(x, r, env).Some? && ValueOf(s0.c, k, r) == Eval(x, r, env)
    ensures Coded(s0, s0, ED(k, [], []), x, n, -1)
  {
    GrowsRefl(s0);
    var e := ED(k, [], []);
    forall env: Env, q: int, r: Regs | q <= s0.last && Entry(s0.c.ins, q)
      ensures SemAt(s0, s0, e, x, n, -1, env, q, r) {
      var t := Run(s0.c, env, q, r);
      if t.Stop? {
        assert Eval(x, t.r, env).Some?;
      }
    }
  }

  /** A change of kind that keeps the meaning (a local variable is already in its register). */
  lemma RenameSem(s0: Snap, s: Snap, e: ED, k: ExpKind, x: Expr, n: int, but: int)
    requires Coded(s0, s, e, x, n, but) && !e.k.VJMP? && !k.VJMP? && !e.k.VRELOCABLE? && !k.VRELOCABLE?
    requires EndsFor(s0, s, e.(k := k))
    requires forall r: Regs :: ValueOf(s.c, k, r) == ValueOf(s.c, e.k, r)
    ensures Coded(s0, s, e.(k := k), x, n, but)
  {
    forall env: Env, q: int, r: Regs | q <= s0.last && Entry(s0.c.ins, q)
      ensures SemAt(s0, s, e.(k := k), x, n, but, env, q, r) {
      assert SemAt(s0, s, e, x, n, but, env, q, r);
    }
  }

  // ---------- loading the value into a register (discharge2reg) ----------

  /** The jumps of the exit lists carry their values unchanged into later code. */
  lemma KeepsJumps(s0: Snap, s: Snap, s': Snap, e: ED)
    requires Ok(s) && Grows(s, s')
    requires forall j :: j in e.T + e.F ==> 0 <= j < s.c.pc && Outer(s, j)
    ensures forall j, r, v, b :: j in e.T + e.F && JumpVal(s.c.ins, j, r, v, b) ==> JumpVal(s'.c.ins, j, r, v, b)
  {
  }

  lemma LoadSemAt(s0: Snap, s: Snap, s': Snap, e: ED, x: Expr, n: int, but: int, reg: int, v: Value, env: Env, q: int,
          r: Regs)
    requires Ok(s0) && Ok(s) && Grows(s0, s) && Grows(s, s') && LocalsBelow(x, MAXREGS)
    requires 0 <= reg < MAXREGS && (but == -1 || but == reg) && !e.k.VJMP?
    requires forall j :: j in e.T + e.F ==> 0 <= j < s.c.pc && Outer(s, j)
    requires SemAt(s0, s, e, x, n, but, env, q, r)
    requires Loads(s, s', Run(s.c, env, q, r), Run(s'.c, env, q, r), reg, v)
    requires var t := Run(s.c, env, q, r); t.Stop? && End(s, t.pc) ==> ValueOf(s.c, e.k, t.r) == Some(v)
    ensures SemAt(s0, s', e.(k := VNONRELOC(reg)), x, n, reg, env, q, r)
  {
    KeepsJumps(s0, s, s', e);
    var t0 := Run(s0.c, env, q, r);
    var t := Run(s.c, env, q, r);
    if t0.Stop? && Outer(s0, t0.pc) {
      OuterStays(s0, s, t0.pc);
    } else if t0.Stop? && End(s0, t0.pc) {
      match Eval(x, t0.r, env)
      case None =>
      case Some(w) =>
        if t.pc in e.T && JumpVal(s.c.ins, t.pc, t.r, w, true) {
          assert t.pc in e.T + e.F && JumpVal(s'.c.ins, t.pc, t.r, w, true);
        } else if t.pc in e.F && JumpVal(s.c.ins, t.pc, t.r, w, false) {
          assert t.pc in e.T + e.F && JumpVal(s'.c.ins, t.pc, t.r, w, false);
        } else {
          assert End(s, t.pc) && w == v;
        }
    }
  }

  lemma OuterStays(s0: Snap, s: Snap, p: int)
    requires Ok(s0) && Grows(s0, s) && Outer(s0, p)
    ensures Outer(s, p)
  {
  }

  /** Where discharge2reg takes the state, kind by kind. */
  ghost function Loaded(s: Snap, k: ExpKind, reg: ArgA): Snap
    requires Ok(s) && reg < MAXREGS
    requires k.VK? ==> 0 <= k.info <= MAXARG_AX
    requires k.VNONRELOC? ==> 0 <= k.reg < MAXREGS
    requires k.VRELOCABLE? ==> s.c.pc < |s.c.ins|
  {
    NilBound(s);
    match k
    case VNIL => Nilled(s, reg, 1)
    case VTRUE => Emitted(s, Instr(LOADBOOL, reg, 1, 0))
    case VFALSE => Emitted(s, Instr(LOADBOOL, reg, 0, 0))
    case VK(i) => LoadedK(s, reg, i)
    case VNONRELOC(r) => if r != reg then Emitted(s, Instr(MOVE, reg, r, 0)) else s
    case VRELOCABLE(p) => Emitted(s, s.c.ins[s.c.pc].(a := reg))
    case _ => s
  }

  ghost predicate IsLoadable(k: ExpKind) {
    !k.VVOID? && !k.VJMP? && !k.VLOCAL? && !IsNumeral(k)
  }

  lemma SetNilsOne(r: Regs, reg: int)
    requires 0 <= reg < MAXREGS
    ensures SetNils(r, reg, reg) == SetReg(r, reg, Nil)
  {
  }

  /** Loaded really loads what the kind denotes. */
  lemma LoadedLoads(s: Snap, k: ExpKind, reg: ArgA, s': Snap, env: Env, q: int, r: Regs) returns (v: Value)
    requires Ok(s) && JpcFits(s) && reg < MAXREGS && IsLoadable(k)
    requires k.VK? ==> 0 <= k.info <= MAXARG_AX && k.info < |s.c.ks|
    requires k.VNONRELOC? ==> 0 <= k.reg < MAXREGS && k.reg != reg
    requires k.VRELOCABLE? ==> k.pc == s.c.pc < |s.c.ins| && s.c.ins[s.c.pc].op == NOT && s.c.ins[s.c.pc].b < MAXREGS
    requires s' == Loaded(s, k, reg) && q <= s.last && Entry(s.c.ins, q)
    ensures Loads(s, s', Run(s.c, env, q, r), Run(s'.c, env, q, r), reg, v)
    ensures var t := Run(s.c, env, q, r); t.Stop? && End(s, t.pc) ==> ValueOf(s.c, k, t.r) == Some(v)
  {
    var t := Run(s.c, env, q, r);
    NilBound(s);
    match k
    case VNIL =>
      v := Nil;
      NilRun(s, reg, 1, s', env, q, r);
      if t.Stop? { SetNilsOne(t.r, reg); }
    case VTRUE =>
      v := Bool(true);
      EmitLoads(s, Instr(LOADBOOL, reg, 1, 0), s', env, q, r, v);
    case VFALSE =>
      v := Bool(false);
      EmitLoads(s, Instr(LOADBOOL, reg, 0, 0), s', env, q, r, v);
    case VK(i) =>
      v := s.c.ks[i];
      LoadKLoads(s, reg, i, s', env, q, r);
    case VNONRELOC(x) =>
      v := if t.Stop? then t.r[x] else Nil;
      EmitLoads(s, Instr(MOVE, reg, x, 0), s', env, q, r, v);
    case VRELOCABLE(p) =>
      var i := s.c.ins[p].(a := reg);
      v := if t.Stop? then Bool(!Truthy(t.r[i.b])) else Nil;
      EmitLoads(s, i, s', env, q, r, v);
  }

  lemma LoadedOk(s: Snap, k: ExpKind, reg: ArgA, s': Snap)
    requires Ok(s) && JpcFits(s) && reg < MAXREGS && IsLoadable(k)
    requires k.VK? ==> 0 <= k.info <= MAXARG_AX
    requires k.VNONRELOC? ==> 0 <= k.reg < MAXREGS && k.reg != reg
    requires k.VRELOCABLE? ==> s.c.pc < |s.c.ins| && s.c.ins[s.c.pc].op == NOT
    requires s' == Loaded(s, k, reg)
    ensures Ok(s') && Grows(s, s') && s'.J == [] && s'.c.ks == s.c.ks
  {
    NilBound(s);
    match k
    case VNIL => NilSem(s, reg, 1, s');
    case VTRUE => EmitSem(s, Instr(LOADBOOL, reg, 1, 0), s');
    case VFALSE => EmitSem(s, Instr(LOADBOOL, reg, 0, 0), s');
    case VK(i) => LoadKSem(s, reg, i, s');
    case VNONRELOC(x) => EmitSem(s, Instr(MOVE, reg, x, 0), s');
    case VRELOCABLE(p) => EmitSem(s, s.c.ins[s.c.pc].(a := reg), s');
  }

  ghost predicate CanLoad(s: Snap, k: ExpKind, reg: ArgA) {
    true == (
    && Ok(s) && JpcFits(s) && reg < MAXREGS && IsLoadable(k)
    && (k.VK? ==> 0 <= k.info <= MAXARG_AX && k.info < |s.c.ks|)
    && (k.VNONRELOC? ==> 0 <= k.reg < MAXREGS && k.reg != reg)
    && (k.VRELOCABLE? ==> k.pc == s.c.pc < |s.c.ins| && s.c.ins[s.c.pc].op == NOT && s.c.ins[s.c.pc].b < MAXREGS)
    )
  }

  lemma LoadSemAll(s0: Snap, v: Snap, s': Snap, e: ED, x: Expr, n: int, but: int, reg: ArgA)
    requires Ok(s0) && CanLoad(v, e.k, reg) && s' == Loaded(v, e.k, reg) && Grows(s0, v) && Grows(v, s')
    requires LocalsBelow(x, MAXREGS) && Sem(s0, v, e, x, n, but) && (but == -1 || but == reg)
    requires forall j :: j in e.T + e.F ==> 0 <= j < v.c.pc && Outer(v, j)
    ensures Sem(s0, s', e.(k := VNONRELOC(reg)), x, n, reg)
  {
    forall env: Env, q: int, r: Regs | q <= s0.last && Entry(s0.c.ins, q)
      ensures SemAt(s0, s', e.(k := VNONRELOC(reg)), x, n, reg, env, q, r)
    {
      var w := LoadedLoads(v, e.k, reg, s', env, q, r);
      LoadSemAt(s0, v, s', e, x, n, but, reg, w, env, q, r);
    }
  }

  /** Whatever is emitted after the view keeps the exit lists. */
  lemma StillDescribed(s0: Snap, s: Snap, s': Snap, e: ED, k: ExpKind)
    requires Ok(s) && Ok(View(s, e.k)) && Described(s0, s, e) && Grows(View(s, e.k), s') && EndsFor(s0, s', e.(k := k))
    ensures Described(s0, s', e.(k := k))
    ensures forall j :: j in e.T + e.F ==> 0 <= j < View(s, e.k).c.pc && Outer(View(s, e.k), j)
  {
  }

  /** discharge2reg keeps the meaning: the value is now in `reg`. */
  lemma LoadSem(s0: Snap, s: Snap, s': Snap, e: ED, x: Expr, n: int, but: int, reg: ArgA)
    requires Coded(s0, s, e, x, n, but) && CanLoad(View(s, e.k), e.k, reg) && (but == -1 || but == reg)
    requires s' == Loaded(View(s, e.k), e.k, reg)
    ensures Coded(s0, s', e.(k := VNONRELOC(reg)), x, n, reg)
    ensures Grows(View(s, e.k), s')
  {
    var v := View(s, e.k);
    LoadedOk(v, e.k, reg, s');
    GrowsTrans(s0, v, s');
    StillDescribed(s0, s, s', e, VNONRELOC(reg));
    LoadSemAll(s0, v, s', e, x, n, but, reg);
  }
}
