/**
  What the states of the code generator mean.

  A `Snap` is the function state at one moment: the code, the last label, and the list of pending
  jumps to the next instruction (`jpc`).  An `ED` is an expression descriptor: its kind and its two
  exit lists.  `Sem` says that an expression has been coded correctly so far: every run that used to
  reach the end of the code now either falls off the new end with the value where the descriptor
  says it is, or stops at a jump of the right exit list.
 */
module CodeSem {
  import opened Options
  import opened Opcodes
  import opened LuaMachine
  import opened JumpLists

  datatype ExpKind =
    | VVOID
    | VNIL
    | VTRUE
    | VFALSE
    | VK(info: int)
    | VKFLT(nval: nat)
    | VKINT(ival: int)
    | VNONRELOC(reg: int)
    | VLOCAL(reg: int)
    | VJMP(pc: int)
    | VRELOCABLE(pc: int)

  /** A numeral that is not among the constants yet. */
  predicate IsNumeral(k: ExpKind) {
    k.VKFLT? || k.VKINT?
  }

  datatype Snap = Snap(c: Code, last: int, J: seq<int>)

  datatype ED = ED(k: ExpKind, T: seq<int>, F: seq<int>)

  ghost predicate End(s: Snap, p: int) {
    p == s.c.pc || p in s.J
  }

  ghost predicate Outer(s: Snap, p: int) {
    p in s.c.pend && p !in s.J
  }

  ghost predicate Ok(s: Snap) {
    true == (
    && WF(s.c, s.last) && 0 <= s.last && Entry(s.c.ins, s.last)
    && NoDup(s.J)
    && (forall k :: 0 <= k < |s.J| ==> 0 <= s.J[k] < s.c.pc && s.J[k] in s.c.pend)
    && (s.J != [] ==> s.last == s.c.pc)
    )
  }

  /** Later states keep the entries, the constants, and the pending jumps of the surrounding code. */
  ghost predicate Grows(s: Snap, s': Snap) {
    true == (
    && s.c.pc <= s'.c.pc && s.last <= s'.last && s.c.ks <= s'.c.ks
    && s.c.pc <= |s.c.ins| && s'.c.pc <= |s'.c.ins|
    && (forall t :: t <= s.last && Entry(s.c.ins, t) ==> Entry(s'.c.ins, t))
    && (forall p :: Outer(s, p) && 0 <= p < s.c.pc ==>
          Outer(s', p) && s'.c.ins[p] == s.c.ins[p] && CtlPos(s'.c.ins, p) == CtlPos(s.c.ins, p) &&
            Ctl(s'.c.ins, p) == Ctl(s.c.ins, p))
    && (forall p :: p in s'.c.pend ==> p in s.c.pend || p >= s.c.pc)
    && (forall p :: p in s'.J ==> p in s.J || p >= s.c.pc)
    )
  }

  lemma GrowsTrans(s: Snap, s1: Snap, s2: Snap)
    requires Grows(s, s1) && Grows(s1, s2) && Ok(s)
    ensures Grows(s, s2)
  {
  }

  lemma GrowsRefl(s: Snap)
    requires Ok(s)
    ensures Grows(s, s)
  {
  }

  // ---------- the meaning of a descriptor ----------

  /** The registers below n are unchanged, except possibly `but`. */
  ghost predicate AgreeBut(r: Regs, s: Regs, n: int, but: int) {
    forall i :: 0 <= i < n && i < MAXREGS && i != but ==> r[i] == s[i]
  }

  /** The value of the expression when a run falls off the end of its code. */
  function ValueOf(c: Code, k: ExpKind, r: Regs): Option<Value> {
    match k
    case VVOID => None
    case VNIL => Some(Nil)
    case VTRUE => Some(Bool(true))
    case VFALSE => Some(Bool(false))
    case VK(i) => if 0 <= i < |c.ks| then Some(c.ks[i]) else None
    case VKFLT(x) => Some(Float(x))
    case VKINT(n) => Some(Int(n))
    case VNONRELOC(x) => if 0 <= x < MAXREGS then Some(r[x]) else None
    case VLOCAL(x) => if 0 <= x < MAXREGS then Some(r[x]) else None
    case VJMP(_) => Some(Bool(false))
    case VRELOCABLE(p) => if 0 <= p < |c.ins| && c.ins[p].b < MAXREGS then Some(Bool(!Truthy(r[c.ins[p].b]))) else None
  }

  /** Leaving through jump p with exit condition `b`, the value is v: it is in the tested register if
      the test is a TESTSET, and it is the boolean b otherwise. */
  ghost predicate JumpVal(ins: seq<Instr>, p: int, r: Regs, v: Value, b: bool) {
    && 0 <= p < |ins| && Truthy(v) == b
    && (if Ctl(ins, p).op == TESTSET then Ctl(ins, p).b < MAXREGS && v == r[Ctl(ins, p).b] else v == Bool(b))
  }

  ghost predicate Placed(s: Snap, e: ED, p: int, r: Regs, v: Value) {
    || (p in e.T && JumpVal(s.c.ins, p, r, v, true))
    || (p in e.F && JumpVal(s.c.ins, p, r, v, false))
    || (e.k.VJMP? && p == e.k.pc && v == Bool(true))
    || (End(s, p) && ValueOf(s.c, e.k, r) == Some(v))
  }

  /** The outcome t of a run that had registers r0 when the coding of x began. */
  ghost predicate ExpPost(s: Snap, e: ED, x: Expr, n: int, but: int, env: Env, r0: Regs, t: Res)
    requires LocalsBelow(x, MAXREGS)
  {
    match Eval(x, r0, env)
    case None => t == Threw
    case Some(v) => t.Stop? && AgreeBut(r0, t.r, n, but) && Placed(s, e, t.pc, t.r, v)
  }

  /** Runs that do not get to the coded expression are not affected by it. */
  ghost predicate Undisturbed(s0: Snap, t0: Res, t: Res) {
    && (t0 == Threw ==> t == Threw)
    && (t0.Stop? && Outer(s0, t0.pc) ==> t == t0)
  }

  ghost predicate SemAt(s0: Snap, s: Snap, e: ED, x: Expr, n: int, but: int, env: Env, q: int, r: Regs)
    requires LocalsBelow(x, MAXREGS)
  {
    var t0 := Run(s0.c, env, q, r);
    var t := Run(s.c, env, q, r);
    Undisturbed(s0, t0, t) && (t0.Stop? && End(s0, t0.pc) ==> ExpPost(s, e, x, n, but, env, t0.r, t))
  }

  /** From every entry of the code before the expression, with any registers and any comparison. */
  ghost predicate Sem(s0: Snap, s: Snap, e: ED, x: Expr, n: int, but: int)
    requires LocalsBelow(x, MAXREGS)
  {
    forall env: Env, q: int, r: Regs :: q <= s0.last && Entry(s0.c.ins, q) ==> SemAt(s0, s, e, x, n, but, env, q, r)
  }

  /** A relocatable expression's instruction is still to be finished: its code ends before it. */
  function View(s: Snap, k: ExpKind): Snap {
    if k.VRELOCABLE? && s.c.pc > 0 then s.(c := s.c.(pc := s.c.pc - 1)) else s
  }

  // ---------- emitting instructions ----------

  function Append(c: Code, i: Instr): (r: Code)
    requires c.pc <= |c.ins|
    ensures r.pc == c.pc + 1 <= |r.ins| && r.ins[c.pc] == i && r.ins[..c.pc] == c.ins[..c.pc]
  {
    c.(ins := if c.pc < |c.ins| then c.ins[c.pc := i] else c.ins + [i], pc := c.pc + 1)
  }

  ghost predicate Sane(s: Snap) {
    s.c.pc <= |s.c.ins| && forall k :: 0 <= k < |s.J| ==> 0 <= s.J[k] < |s.c.ins|
  }

  /** dischargejpc: the jumps to here get their target. */
  ghost function Discharged(s: Snap): Snap
    requires Sane(s)
  {
    Snap(PatchedAll(s.c, s.J, s.c.pc, NO_REG, s.c.pc), s.last, [])
  }

  ghost predicate JpcFits(s: Snap) {
    forall k :: 0 <= k < |s.J| ==> Fits(s.J[k], s.c.pc)
  }

  /** A run seen after discharging: a stop at a jump to here has become a stop here. */
  function AtEnd(s: Snap, t: Res): Res {
    if t.Stop? && t.pc in s.J then Stop(s.c.pc, t.r) else t
  }

  lemma DischargeSem(s: Snap)
    requires Ok(s) && JpcFits(s)
    ensures var s' := Discharged(s);
      && Ok(s') && Grows(s, s') && s'.c.pc == s.c.pc && s'.c.ks == s.c.ks
      && (forall p :: 0 <= p < |s.c.ins| && s.c.ins[p].op != JMP && !TestMode(s.c.ins[p].op) ==>
        s'.c.ins[p] == s.c.ins[p])
  {
    if s.J == [] {
      assert s.c.pend - Members(s.J) == s.c.pend;
      assert Discharged(s) == s;
    } else {
      CanDischarge(s);
      PatchAllWF(s.c, s.J, NO_REG, s.c.pc);
    }
  }

  lemma EndIsEntry(c: Code, last: int)
    requires WF(c, last)
    ensures Entry(c.ins, c.pc)
  {
    if 1 <= c.pc {
      assert Slot(c, last, c.pc - 1);
    }
  }

  lemma CanDischarge(s: Snap)
    requires Ok(s) && JpcFits(s)
    ensures CanPatchAll(s.c, s.J, s.c.pc)
  {
    EndIsEntry(s.c, s.last);
    forall k | 0 <= k < |s.J| ensures 0 <= s.J[k] < |s.c.ins| && CanPatch(s.c, s.J[k], s.c.pc) {
      assert Fits(s.J[k], s.c.pc);
    }
  }

  lemma DischargeRun(s: Snap, env: Env, q: int, r: Regs)
    requires Ok(s) && JpcFits(s) && q <= s.c.pc && Entry(s.c.ins, q)
    ensures Run(Discharged(s).c, env, q, r) == AtEnd(s, Run(s.c, env, q, r))
  {
    if s.J == [] {
      assert s.c.pend - Members(s.J) == s.c.pend;
      assert Discharged(s) == s;
    } else {
      CanDischarge(s);
      PatchAllRun(s.c, s.J, NO_REG, s.c.pc, env, q, r);
    }
  }

  /** The facts about old instructions hold in longer code. */
  lemma SlotExtends(c: Code, c': Code, last: int, last': int, q: int)
    requires WF(c, last) && Extends(c, c') && last <= last' && 0 <= q < c.pc
    ensures Slot(c', last', q)
  {
    assert Slot(c, last, q);
    assert forall p :: 0 <= p < c.pc ==> c'.ins[p] == c'.ins[..c.pc][p] == c.ins[..c.pc][p] == c.ins[p];
    EntryExtends(c, c', last);
  }

  lemma EntryExtends(c: Code, c': Code, last: int)
    requires WF(c, last) && Extends(c, c')
    ensures forall t :: t <= c.pc ==> Entry(c'.ins, t) == Entry(c.ins, t)
    ensures forall p :: 0 <= p < c.pc ==> c'.ins[p] == c.ins[p]
  {
    assert forall p :: 0 <= p < c.pc ==> c'.ins[p] == c'.ins[..c.pc][p] == c.ins[..c.pc][p] == c.ins[p];
  }

  /** Adding well-formed code after code with no jumps to here. */
  lemma ExtendSem(s: Snap, s': Snap)
    requires Ok(s) && s.J == [] && s'.J == [] && Extends(s.c, s'.c) && s.last <= s'.last <= s'.c.pc
    requires Entry(s'.c.ins, s'.last)
    requires forall j :: j in s'.c.pend ==> j in s.c.pend || s.c.pc <= j < s'.c.pc
    requires forall q :: s.c.pc <= q < s'.c.pc ==> Slot(s'.c, s'.last, q)
    ensures Ok(s') && Grows(s, s')
  {
    EntryExtends(s.c, s'.c, s.last);
    forall q | 0 <= q < s'.c.pc ensures Slot(s'.c, s'.last, q) {
      if q < s.c.pc {
        SlotExtends(s.c, s'.c, s.last, s'.last, q);
      }
    }
  }

  // one instruction that is neither a jump nor a test

  predicate Plain(i: Instr) {
    && !TestMode(i.op) && i.op != JMP && i.op != LOADKX && (i.op == LOADBOOL ==> i.c == 0)
    && (i.op == LOADNIL ==> i.a + i.b < MAXREGS)
  }

  ghost function Emitted(s: Snap, i: Instr): Snap
    requires Sane(s)
  {
    var d := Discharged(s);
    d.(c := Append(d.c, i))
  }

  lemma EmitSem(s: Snap, i: Instr, s': Snap)
    requires Ok(s) && s' == Emitted(s, i) && JpcFits(s) && Plain(i)
    ensures Ok(s') && Grows(s, s') && s'.c.pc == s.c.pc + 1 && s'.c.ins[s.c.pc] == i && s'.c.ks == s.c.ks
    ensures s'.last == s.last && s'.J == [] && Extends(Discharged(s).c, s'.c)
  {
    DischargeSem(s);
    var d := Discharged(s);
    EntryExtends(d.c, s'.c, d.last);
    assert Slot(s'.c, s'.last, s.c.pc);
    ExtendSem(d, s');
    GrowsTrans(s, d, s');
  }

  /** What emitting after s does to a run: it goes on at the new instruction. */
  ghost predicate GoesOn(s: Snap, c': Code, env: Env, t: Res, t': Res) {
    && Undisturbed(s, t, t')
    && (t.Stop? && End(s, t.pc) ==> t' == Run(c', env, s.c.pc, t.r))
  }

  lemma ContinueRun(s: Snap, c': Code, env: Env, q: int, r: Regs)
    requires Ok(s) && JpcFits(s) && Extends(Discharged(s).c, c') && q <= s.last && Entry(s.c.ins, q)
    ensures GoesOn(s, c', env, Run(s.c, env, q, r), Run(c', env, q, r))
  {
    DischargeSem(s);
    DischargeRun(s, env, q, r);
    ExtendRun(Discharged(s).c, c', s.last, env, q, r);
  }

  // a test and its pending jump (condjump)

  const OPEN_JUMP: Instr := WithSBx(JMP, 0, NO_JUMP)

  ghost function Tested(s: Snap, i: Instr): Snap
    requires Sane(s)
  {
    var d := Discharged(s);
    var c := Append(Append(d.c, i), OPEN_JUMP);
    d.(c := c.(pend := c.pend + {s.c.pc + 1}))
  }

  lemma TestSem(s: Snap, i: Instr, s': Snap)
    requires Ok(s) && s' == Tested(s, i) && JpcFits(s) && TestMode(i.op) &&
        (i.op == TESTSET ==> i.a == NO_REG && i.b < MAXREGS)
    ensures Ok(s') && Grows(s, s')
  {
    DischargeSem(s);
    TestFacts(s, i, s');
    TestSlots(Discharged(s), s', i);
    ExtendSem(Discharged(s), s');
    GrowsTrans(s, Discharged(s), s');
  }

  lemma TestFacts(s: Snap, i: Instr, s': Snap)
    requires Ok(s) && s' == Tested(s, i) && JpcFits(s)
    ensures s'.c.pc == s.c.pc + 2 && s'.c.ks == s.c.ks && s'.last == s.last && s'.J == []
    ensures s'.c.pc <= |s'.c.ins| && s'.c.ins[s.c.pc] == i && s'.c.ins[s.c.pc + 1] == OPEN_JUMP
    ensures s'.c.pend == Discharged(s).c.pend + {s.c.pc + 1}
    ensures Extends(Discharged(s).c, s'.c)
  {
    DischargeSem(s);
    TestExtends(Discharged(s).c, i);
  }

  lemma TestSlots(d: Snap, s': Snap, i: Instr)
    requires Ok(d) && d.J == [] && TestMode(i.op) && (i.op == TESTSET ==> i.a == NO_REG && i.b < MAXREGS)
    requires s'.last == d.last && Extends(d.c, s'.c) && s'.c.pc == d.c.pc + 2 && s'.c.pend == d.c.pend + {d.c.pc + 1}
    requires s'.c.ins[d.c.pc] == i && s'.c.ins[d.c.pc + 1] == OPEN_JUMP
    ensures Entry(s'.c.ins, s'.last)
    ensures Slot(s'.c, s'.last, d.c.pc) && Slot(s'.c, s'.last, d.c.pc + 1)
  {
    EntryExtends(d.c, s'.c, d.last);
  }

  lemma TestExtends(c: Code, i: Instr)
    requires c.pc <= |c.ins| && forall j :: j in c.pend ==> 0 <= j < c.pc
    ensures var c2 := Append(Append(c, i), OPEN_JUMP);
      var c' := c2.(pend := c2.pend + {c.pc + 1});
      Extends(c, c') && c'.pc == c.pc + 2 && c'.ins[c.pc] == i && c'.ins[c.pc + 1] == OPEN_JUMP
  {
    var c2 := Append(Append(c, i), OPEN_JUMP);
    assert c2.ins[..c.pc] == c2.ins[..c.pc + 1][..c.pc];
    assert c2.ins[c.pc] == c2.ins[..c.pc + 1][c.pc];
  }

  // an unconditional jump, with the jumps to here put on hold (luaK_jump)

  function Jumped(s: Snap, i: Instr): Snap
    requires s.c.pc <= |s.c.ins|
  {
    var c := Append(s.c, i);
    Snap(c.(pend := c.pend + {s.c.pc}), s.last, [])
  }

  lemma JumpSem(s: Snap, i: Instr, s': Snap)
    requires Ok(s) && s' == Jumped(s, i) && i.op == JMP && i.a == 0
    ensures WF(s'.c, s.last) && 0 <= s'.last && Entry(s'.c.ins, s'.last) && s'.c.pc == s.c.pc + 1
    ensures forall t :: t <= s.c.pc ==> Entry(s'.c.ins, t) == Entry(s.c.ins, t)
    ensures s'.c.pend == s.c.pend + {s.c.pc} && s'.c.ins[..s.c.pc] == s.c.ins[..s.c.pc] && s'.c.ins[s.c.pc] == i
  {
    EntryExtends(s.c, s'.c, s.last);
    EndIsEntry(s.c, s.last);
    forall q | 0 <= q < s'.c.pc ensures Slot(s'.c, s'.last, q) {
      if q < s.c.pc {
        SlotExtends(s.c, s'.c, s.last, s'.last, q);
      }
    }
  }

  /** One step of a run that ends right after it. */
  lemma LastStep(c: Code, env: Env, q: int, r: Regs, q': int, r': Regs)
    requires 0 <= q < q' && q < c.pc <= |c.ins| && q !in c.pend && (q' == c.pc || q' in c.pend)
    requires Step(c.ins, c.ks, env, q, r) == Next(q', r')
    ensures Run(c, env, q, r) == Stop(q', r')
  {
    assert Run(c, env, q', r') == Stop(q', r');
  }

  // ---------- loading a value into a register ----------

  /** The code added to s ends by putting v in register reg, where v may depend on the registers. */
  ghost predicate Loads(s: Snap, s': Snap, t: Res, t': Res, reg: int, v: Value) {
    && Undisturbed(s, t, t')
    && (t.Stop? && End(s, t.pc) ==> t' == Stop(s'.c.pc, SetReg(t.r, reg, v)))
  }

  /** A plain instruction that writes `v` to its register A. */
  lemma EmitLoads(s: Snap, i: Instr, s': Snap, env: Env, q: int, r: Regs, v: Value)
    requires Ok(s) && JpcFits(s) && Plain(i) && s' == Emitted(s, i) && q <= s.last && Entry(s.c.ins, q)
    requires var t := Run(s.c, env, q, r);
      t.Stop? && End(s, t.pc) ==> Step([i], s.c.ks, env, 0, t.r) == Next(1, SetReg(t.r, i.a, v))
    ensures Loads(s, s', Run(s.c, env, q, r), Run(s'.c, env, q, r), i.a, v)
  {
    EmitSem(s, i, s');
    ContinueRun(s, s'.c, env, q, r);
    var t := Run(s.c, env, q, r);
    if t.Stop? && End(s, t.pc) {
      assert s.c.pc !in s'.c.pend;
      StepSame([i], s'.c.ins[s.c.pc..], s.c.ks, s.c.ks, env, 0, t.r);
      LastStep(s'.c, env, s.c.pc, t.r, s'.c.pc, SetReg(t.r, i.a, v));
    }
  }

  // constants beyond the reach of LOADK

  ghost function LoadedK(s: Snap, reg: ArgA, k: nat): Snap
    requires Sane(s) && k <= MAXARG_AX
  {
    if k <= MAXARG_BX then Emitted(s, WithBx(LOADK, reg, k))
    else
      var d := Discharged(s);
      d.(c := Append(Append(d.c, WithBx(LOADKX, reg, 0)), WithAx(EXTRAARG, k)))
  }

  lemma LoadKxSem(s: Snap, reg: ArgA, k: nat, s': Snap)
    requires Ok(s) && JpcFits(s) && MAXARG_BX < k <= MAXARG_AX && s' == LoadedK(s, reg, k)
    ensures Ok(s') && Grows(s, s') && s'.c.pc == s.c.pc + 2 && s'.J == [] && s'.last == s.last && s'.c.ks == s.c.ks
    ensures Extends(Discharged(s).c, s'.c) && s'.c.pend == Discharged(s).c.pend
    ensures s'.c.ins[s.c.pc] == WithBx(LOADKX, reg, 0) && s'.c.ins[s.c.pc + 1] == WithAx(EXTRAARG, k)
  {
    DischargeSem(s);
    var d := Discharged(s);
    TwoExtend(d.c, WithBx(LOADKX, reg, 0), WithAx(EXTRAARG, k));
    EntryExtends(d.c, s'.c, d.last);
    assert Slot(s'.c, s'.last, s.c.pc) && Slot(s'.c, s'.last, s.c.pc + 1);
    ExtendSem(d, s');
    GrowsTrans(s, d, s');
  }

  lemma TwoExtend(c: Code, i: Instr, j: Instr)
    requires c.pc <= |c.ins| && forall p :: p in c.pend ==> 0 <= p < c.pc
    ensures var c' := Append(Append(c, i), j);
      Extends(c, c') && c'.pc == c.pc + 2 && c'.ins[c.pc] == i && c'.ins[c.pc + 1] == j
  {
    var c2 := Append(Append(c, i), j);
    assert c2.ins[..c.pc] == c2.ins[..c.pc + 1][..c.pc];
    assert c2.ins[c.pc] == c2.ins[..c.pc + 1][c.pc];
  }

  lemma LoadKSem(s: Snap, reg: ArgA, k: nat, s': Snap)
    requires Ok(s) && JpcFits(s) && k <= MAXARG_AX && s' == LoadedK(s, reg, k)
    ensures Ok(s') && Grows(s, s') && s'.J == [] && s'.last == s.last && s'.c.ks == s.c.ks && s.c.pc < s'.c.pc
    ensures s'.c.pend <= s.c.pend
  {
    DischargeSem(s);
    if k <= MAXARG_BX {
      EmitSem(s, WithBx(LOADK, reg, k), s');
    } else {
      LoadKxSem(s, reg, k, s');
    }
  }

  lemma LoadKLoads(s: Snap, reg: ArgA, k: nat, s': Snap, env: Env, q: int, r: Regs)
    requires Ok(s) && JpcFits(s) && k <= MAXARG_AX && s' == LoadedK(s, reg, k) && k < |s.c.ks|
    requires q <= s.last && Entry(s.c.ins, q)
    ensures Loads(s, s', Run(s.c, env, q, r), Run(s'.c, env, q, r), reg, s.c.ks[k])
  {
    if k <= MAXARG_BX {
      EmitLoads(s, WithBx(LOADK, reg, k), s', env, q, r, s.c.ks[k]);
    } else {
      LoadKxSem(s, reg, k, s');
      ContinueRun(s, s'.c, env, q, r);
      var t := Run(s.c, env, q, r);
      if t.Stop? && End(s, t.pc) {
        assert s.c.pc !in s'.c.pend;
        LastStep(s'.c, env, s.c.pc, t.r, s'.c.pc, SetReg(t.r, reg, s.c.ks[k]));
      }
    }
  }

  // luaK_nil

  ghost predicate CanMerge(s: Snap, from: int, l: int)
    requires s.c.pc <= |s.c.ins|
  {
    s.last < s.c.pc && 1 <= s.c.pc && Connects(s.c.ins[s.c.pc - 1], from, l)
  }

  ghost function Nilled(s: Snap, from: ArgA, n: nat): Snap
    requires Sane(s) && 1 <= n && from + n <= MAXREGS
    requires 1 <= s.c.pc ==> s.c.ins[s.c.pc - 1].op == LOADNIL ==>
        s.c.ins[s.c.pc - 1].a + s.c.ins[s.c.pc - 1].b < MAXREGS
  {
    if CanMerge(s, from, from + n - 1) then
      s.(c := s.c.(ins := s.c.ins[s.c.pc - 1 := Merged(s.c.ins[s.c.pc - 1], from, from + n - 1)]))
    else Emitted(s, Instr(LOADNIL, from, n - 1, 0))
  }

  lemma NilBound(s: Snap)
    requires Ok(s)
    ensures 1 <= s.c.pc ==> s.c.ins[s.c.pc - 1].op == LOADNIL ==>
        s.c.ins[s.c.pc - 1].a + s.c.ins[s.c.pc - 1].b < MAXREGS
  {
    if 1 <= s.c.pc {
      assert Slot(s.c, s.last, s.c.pc - 1);
    }
  }

  lemma NilSem(s: Snap, from: ArgA, n: nat, s': Snap)
    requires Ok(s) && JpcFits(s) && 1 <= n && from + n <= MAXREGS
    requires 1 <= s.c.pc ==> s.c.ins[s.c.pc - 1].op == LOADNIL ==>
        s.c.ins[s.c.pc - 1].a + s.c.ins[s.c.pc - 1].b < MAXREGS
    requires s' == Nilled(s, from, n)
    ensures Ok(s') && Grows(s, s') && s'.J == [] && s'.last == s.last && s'.c.ks == s.c.ks && s'.c.pend <= s.c.pend
  {
    DischargeSem(s);
    if CanMerge(s, from, from + n - 1) {
      forall q | 0 <= q < s'.c.pc ensures Slot(s'.c, s'.last, q) {
        assert Slot(s.c, s.last, q);
      }
      forall p | Outer(s, p) && 0 <= p < s.c.pc
        ensures s'.c.ins[p] == s.c.ins[p] && CtlPos(s'.c.ins, p) == CtlPos(s.c.ins, p) &&
        Ctl(s'.c.ins, p) == Ctl(s.c.ins, p) {
        assert Slot(s.c, s.last, p);
      }
    } else {
      EmitSem(s, Instr(LOADNIL, from, n - 1, 0), s');
    }
  }

  lemma NilRun(s: Snap, from: ArgA, n: nat, s': Snap, env: Env, q: int, r: Regs)
    requires Ok(s) && JpcFits(s) && 1 <= n && from + n <= MAXREGS
    requires 1 <= s.c.pc ==> s.c.ins[s.c.pc - 1].op == LOADNIL ==>
        s.c.ins[s.c.pc - 1].a + s.c.ins[s.c.pc - 1].b < MAXREGS
    requires s' == Nilled(s, from, n) && q <= s.last && Entry(s.c.ins, q)
    ensures var t := Run(s.c, env, q, r);
      var t' := Run(s'.c, env, q, r);
      Undisturbed(s, t, t') && (t.Stop? && End(s, t.pc) ==> t' == Stop(s'.c.pc, SetNils(t.r, from, from + n - 1)))
  {
    if CanMerge(s, from, from + n - 1) {
      MergeRun(s.c, s.last, from, from + n - 1, env, q, r);
    } else {
      var i := Instr(LOADNIL, from, n - 1, 0);
      EmitSem(s, i, s');
      ContinueRun(s, s'.c, env, q, r);
      var t := Run(s.c, env, q, r);
      if t.Stop? && End(s, t.pc) {
        assert s.c.pc !in s'.c.pend;
        LastStep(s'.c, env, s.c.pc, t.r, s'.c.pc, SetNils(t.r, from, from + n - 1));
      }
    }
  }

  // ---------- comparisons and tests ----------

  /** The two ends of a conditional jump: it is taken when `jump` holds, and falls through otherwise. */
  ghost predicate Tests(s: Snap, t: Res, t': Res, jump: bool) {
    && Undisturbed(s, t, t')
    && (t.Stop? && End(s, t.pc) ==> t' == Stop(if jump then s.c.pc + 1 else s.c.pc + 2, t.r))
  }

  /** TEST and TESTSET (still without a register) at the end of the code. */
  lemma TestRegRun(s: Snap, i: Instr, s': Snap, env: Env, q: int, r: Regs, jump: bool)
    requires Ok(s) && JpcFits(s) && s' == Tested(s, i) && q <= s.last && Entry(s.c.ins, q)
    requires (i.op == TESTSET && i.a == NO_REG && i.b < MAXREGS) || (i.op == TEST && i.a < MAXREGS)
    requires var t := Run(s.c, env, q, r);
      t.Stop? && End(s, t.pc) ==> jump == (Truthy(t.r[if i.op == TEST then i.a else i.b]) == (i.c != 0))
    ensures Tests(s, Run(s.c, env, q, r), Run(s'.c, env, q, r), jump)
  {
    DischargeSem(s);
    TestFacts(s, i, s');
    ContinueRun(s, s'.c, env, q, r);
    var t := Run(s.c, env, q, r);
    if t.Stop? && End(s, t.pc) {
      assert s.c.pc !in s'.c.pend;
      LastStep(s'.c, env, s.c.pc, t.r, if jump then s.c.pc + 1 else s.c.pc + 2, t.r);
    }
  }

  /** A comparison: throws when its operands do not compare. */
  lemma CompareRun(s: Snap, i: Instr, s': Snap, env: Env, q: int, r: Regs, v: Value, w: Value)
    requires Ok(s) && JpcFits(s) && s' == Tested(s, i) && q <= s.last && Entry(s.c.ins, q)
    requires i.op in [EQ, LT, LE] && i.a in [0, 1]
    requires var t := Run(s.c, env, q, r);
      t.Stop? && End(s, t.pc) ==> RK(i.b, t.r, s.c.ks) == Some(v) && RK(i.c, t.r, s.c.ks) == Some(w)
    ensures var t := Run(s.c, env, q, r);
      var t' := Run(s'.c, env, q, r);
      && Undisturbed(s, t, t')
      && (t.Stop? && End(s, t.pc) ==>
            match env.cmp(i.op, v, w)
            case None => t' == Threw
            case Some(b) => t' == Stop(if b == (i.a == 1) then s.c.pc + 1 else s.c.pc + 2, t.r))
  {
    DischargeSem(s);
    TestFacts(s, i, s');
    ContinueRun(s, s'.c, env, q, r);
    var t := Run(s.c, env, q, r);
    if t.Stop? && End(s, t.pc) {
      assert s.c.pc !in s'.c.pend;
      var st := Step(s'.c.ins, s.c.ks, env, s.c.pc, t.r);
      match env.cmp(i.op, v, w)
      case None =>
        assert st == Throws;
      case Some(b) =>
        LastStep(s'.c, env, s.c.pc, t.r, if b == (i.a == 1) then s.c.pc + 1 else s.c.pc + 2, t.r);
    }
  }

  // ---------- constants ----------

  /** New constants change no run. */
  lemma MoreConstantsOk(s: Snap, s': Snap)
    requires Ok(s) && s' == s.(c := s.c.(ks := s'.c.ks)) && s.c.ks <= s'.c.ks
    ensures Ok(s') && Grows(s, s')
  {
    forall p | 0 <= p < s.c.pc ensures Slot(s'.c, s'.last, p) {
      assert Slot(s.c, s.last, p);
    }
  }

  lemma MoreConstantsRun(s: Snap, s': Snap, env: Env, q: int, r: Regs)
    requires Ok(s) && s' == s.(c := s.c.(ks := s'.c.ks)) && s.c.ks <= s'.c.ks && q <= s.c.pc
    ensures var t := Run(s.c, env, q, r); t != Stuck ==> Run(s'.c, env, q, r) == t
  {
    ExtendRun(s.c, s'.c, s.last, env, q, r);
  }
}
