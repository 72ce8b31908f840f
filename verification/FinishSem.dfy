/**
  exp2reg (src/uvm/lcode.cpp:515-536): the expression's value, wherever its exits leave it, ends up in
  one register.  Exits that carry no value get it from a pair of LOADBOOLs.
 */
module FinishSem {
  import opened Options
  import opened Opcodes
  import opened LuaMachine
  import opened JumpLists
  import opened CodeSem
  import opened ExpSem

  lemma WeakenBut(s0: Snap, s: Snap, e: ED, x: Expr, n: int, reg: int)
    requires Coded(s0, s, e, x, n, -1)
    ensures Coded(s0, s, e, x, n, reg)
  {
    forall env: Env, q: int, r: Regs | q <= s0.last && Entry(s0.c.ins, q)
      ensures SemAt(s0, View(s, e.k), e, x, n, reg, env, q, r) {
      assert SemAt(s0, View(s, e.k), e, x, n, -1, env, q, r);
    }
  }

  /** s' is s with some links changed, of the jumps in the list `ch`. */
  ghost predicate Relinked(s: Snap, s': Snap, ch: seq<int>) {
    && s' == s.(c := s.c.(ins := s'.c.ins)) && |s'.c.ins| == |s.c.ins|
    && (forall j :: j in ch ==> j in s.c.pend)
    && (forall p :: 0 <= p < |s.c.ins| && p !in ch ==> s'.c.ins[p] == s.c.ins[p])
    && (forall p :: 0 <= p < |s.c.ins| ==> s'.c.ins[p].op == s.c.ins[p].op && s'.c.ins[p].a == s.c.ins[p].a)
  }

  lemma RelinkOk(s: Snap, s': Snap, ch: seq<int>)
    requires Ok(s) && Relinked(s, s', ch)
    ensures Ok(s') && forall t :: Entry(s'.c.ins, t) == Entry(s.c.ins, t)
  {
    forall q | 0 <= q < s.c.pc ensures Slot(s'.c, s.last, q) {
      assert Slot(s.c, s.last, q);
    }
  }

  lemma RelinkCtl(s: Snap, s': Snap, ch: seq<int>, p: int)
    requires Ok(s) && Relinked(s, s', ch) && p in s.c.pend
    ensures 0 <= p < |s.c.ins| && CtlPos(s'.c.ins, p) == CtlPos(s.c.ins, p)
    ensures TestMode(Ctl(s.c.ins, p).op) || p !in ch ==> Ctl(s'.c.ins, p) == Ctl(s.c.ins, p)
    ensures Ctl(s'.c.ins, p).op == Ctl(s.c.ins, p).op
    ensures forall r, v, b :: JumpVal(s.c.ins, p, r, v, b) ==> JumpVal(s'.c.ins, p, r, v, b)
  {
    assert Slot(s.c, s.last, p);
    assert 0 <= p - 1 ==> Slot(s.c, s.last, p - 1);
  }

  lemma RelinkGrows(s0: Snap, s: Snap, s': Snap, ch: seq<int>)
    requires Ok(s0) && Ok(s) && Grows(s0, s) && Relinked(s, s', ch) && forall j :: j in ch ==> !Outer(s0, j)
    ensures Grows(s0, s')
  {
    RelinkOk(s, s', ch);
    forall p | Outer(s0, p) && 0 <= p < s0.c.pc
      ensures s'.c.ins[p] == s0.c.ins[p] && CtlPos(s'.c.ins, p) == CtlPos(s0.c.ins, p) &&
          Ctl(s'.c.ins, p) == Ctl(s0.c.ins, p)
    {
      RelinkCtl(s, s', ch, p);
    }
  }

  /** Changing links of the expression's own pending jumps changes nothing. */
  lemma RelinkSem(s0: Snap, s: Snap, s': Snap, ch: seq<int>, e: ED, x: Expr, n: int, but: int)
    requires Ok(s) && Relinked(s, s', ch) && LocalsBelow(x, MAXREGS) && Sem(s0, s, e, x, n, but)
    requires e.k.VRELOCABLE? ==> e.k.pc !in ch
    requires forall j :: j in e.T + e.F ==> j in s.c.pend
    ensures Sem(s0, s', e, x, n, but)
  {
    forall env: Env, q: int, r: Regs | q <= s0.last && Entry(s0.c.ins, q)
      ensures SemAt(s0, s', e, x, n, but, env, q, r) {
      assert SemAt(s0, s, e, x, n, but, env, q, r);
      RelinkAt(s0, s, s', ch, e, x, n, but, env, q, r);
    }
  }

  lemma RelinkAt(s0: Snap, s: Snap, s': Snap, ch: seq<int>, e: ED, x: Expr, n: int, but: int, env: Env, q: int,
          r: Regs)
    requires Ok(s) && Relinked(s, s', ch) && LocalsBelow(x, MAXREGS) && SemAt(s0, s, e, x, n, but, env, q, r)
    requires e.k.VRELOCABLE? ==> e.k.pc !in ch
    requires forall j :: j in e.T + e.F ==> j in s.c.pend
    ensures SemAt(s0, s', e, x, n, but, env, q, r)
  {
    RelinkRun(s.c, s'.c, s.last, env, q, r);
    var t0, t := Run(s0.c, env, q, r), Run(s.c, env, q, r);
    if t0.Stop? && t.Stop? && Eval(x, t0.r, env).Some? {
      RelinkPlaced(s, s', ch, e, t.pc, t.r, Eval(x, t0.r, env).value);
    }
  }

  lemma RelinkPlaced(s: Snap, s': Snap, ch: seq<int>, e: ED, p: int, r: Regs, v: Value)
    requires Ok(s) && Relinked(s, s', ch) && (e.k.VRELOCABLE? ==> e.k.pc !in ch)
    requires forall j :: j in e.T + e.F ==> j in s.c.pend
    ensures Placed(s, e, p, r, v) ==> Placed(s', e, p, r, v)
  {
    if p in e.T || p in e.F {
      assert p in e.T + e.F;
      RelinkCtl(s, s', ch, p);
    }
  }

  /** A comparison's jump joins the true list; falling through then means false. */
  lemma JumpJoinsSem(s0: Snap, s: Snap, e: ED, x: Expr, n: int, but: int)
    requires Ok(s) && LocalsBelow(x, MAXREGS) && Sem(s0, s, e, x, n, but) && e.k.VJMP?
    requires EndsInJump(s.c, s.last) && e.k.pc == s.c.pc - 1
    ensures Sem(s0, s, ED(VFALSE, e.T + [e.k.pc], e.F), x, n, but)
    ensures Ctl(s.c.ins, e.k.pc).op != TESTSET
  {
    var e' := ED(VFALSE, e.T + [e.k.pc], e.F);
    forall env: Env, q: int, r: Regs | q <= s0.last && Entry(s0.c.ins, q)
      ensures SemAt(s0, s, e', x, n, but, env, q, r) {
      assert SemAt(s0, s, e, x, n, but, env, q, r);
      assert e.k.pc in e'.T;
      assert forall j :: j in e.T ==> j in e'.T;
    }
  }

  lemma JumpJoinsList(s0: Snap, s: Snap, s': Snap, e: ED, x: Expr, n: int, but: int)
    requires Coded(s0, s, e, x, n, but) && e.k.VJMP? && Relinked(s, s', e.T)
    ensures Coded(s0, s', ED(VFALSE, e.T + [e.k.pc], e.F), x, n, but)
    ensures Ctl(s'.c.ins, e.k.pc).op != TESTSET
  {
    var e' := ED(VFALSE, e.T + [e.k.pc], e.F);
    JumpJoinsSem(s0, s, e, x, n, but);
    RelinkOk(s, s', e.T);
    RelinkGrows(s0, s, s', e.T);
    assert Described(s0, s, e');
    RelinkSem(s0, s, s', e.T, e', x, n, but);
    RelinkCtl(s, s', e.T, e.k.pc);
  }

  // ---------- the value goes to the register ----------

  /** The LOADBOOLs at pf and pt, if there are any, put false and true in reg and go to the end. */
  ghost predicate HasBools(c: Code, reg: ArgA, pf: int) {
    && 0 <= pf && pf + 2 == c.pc <= |c.ins| && pf !in c.pend && pf + 1 !in c.pend
    && c.ins[pf] == Instr(LOADBOOL, reg, 0, 1) && c.ins[pf + 1] == Instr(LOADBOOL, reg, 1, 0)
  }

  lemma BoolRuns(c: Code, reg: ArgA, pf: int, env: Env, r: Regs)
    requires HasBools(c, reg, pf)
    ensures Run(c, env, pf, r) == Stop(c.pc, SetReg(r, reg, Bool(false)))
    ensures Run(c, env, pf + 1, r) == Stop(c.pc, SetReg(r, reg, Bool(true)))
  {
    LastStep(c, env, pf, r, c.pc, SetReg(r, reg, Bool(false)));
    LastStep(c, env, pf + 1, r, c.pc, SetReg(r, reg, Bool(true)));
  }

  /** Going to d puts the boolean b in reg and reaches the end. */
  ghost predicate BoolAt(c: Code, reg: ArgA, d: int, b: bool) {
    HasBools(c, reg, if b then d - 1 else d)
  }

  /** Every exit of the list either has its value in a register or can get it from a LOADBOOL. */
  ghost predicate ExitsServed(c: Code, l: seq<int>, reg: ArgA, d: int, b: bool) {
    BoolAt(c, reg, d, b) || forall j :: j in l ==> 0 <= j < |c.ins| && Ctl(c.ins, j).op == TESTSET
  }

  /** r' is r with v in reg. */
  ghost predicate Put(r: Regs, r': Regs, reg: int, v: Value) {
    0 <= reg < MAXREGS && r'[reg] == v && forall i :: 0 <= i < MAXREGS && i != reg ==> r'[i] == r[i]
  }

  /** Where a run that stopped at exit j, with its value in place, ends after the patching. */
  lemma ExitLands(c: Code, c': Code, l: seq<int>, reg: ArgA, d: int, b: bool, env: Env, t: Res, v: Value)
    requires WF(c, c.pc) && reg < MAXREGS && ExitsServed(c, l, reg, d, b) && c'.pc == c.pc
    requires BoolAt(c, reg, d, b) ==> BoolAt(c', reg, d, b)
    requires t.Stop? && t.pc in l && t.pc in c.pend && 0 <= t.pc < |c.ins| && JumpVal(c.ins, t.pc, t.r, v, b)
    ensures var t' := AfterPatch(c, c', l, reg, d, env, t); t'.Stop? && t'.pc == c.pc && Put(t.r, t'.r, reg, v)
  {
    if Ctl(c.ins, t.pc).op != TESTSET {
      BoolRuns(c', reg, if b then d - 1 else d, env, t.r);
    }
  }

  /** The run t of some code has the value of an exit of e. */
  ghost predicate AtExit(ins: seq<Instr>, e: ED, t: Res, v: Value) {
    t.Stop? && ((t.pc in e.T && JumpVal(ins, t.pc, t.r, v, true)) || (t.pc in e.F && JumpVal(ins, t.pc, t.r, v, false)))
  }

  /** The exits of a list can be sent to the end, or to the LOADBOOL at d. */
  ghost predicate Servable(c: Code, l: seq<int>, reg: ArgA, d: int, b: bool) {
    && NoDup(l) && (forall k :: 0 <= k < |l| ==> l[k] in c.pend && 0 <= l[k] < |c.ins|)
    && (forall k :: 0 <= k < |l| ==> Fits(l[k], Target(c.ins, l[k], c.pc, d)))
    && Entry(c.ins, d) && ExitsServed(c, l, reg, d, b)
    && (forall k :: 0 <= k < |l| ==> l[k] < Target(c.ins, l[k], c.pc, d) <= c.pc)
  }

  lemma ServeList(c: Code, l: seq<int>, reg: ArgA, d: int, b: bool, c': Code)
    requires WF(c, c.pc) && Servable(c, l, reg, d, b) && c' == PatchedAll(c, l, c.pc, reg, d)
    ensures CanPatchAll(c, l, d) && WF(c', c'.pc) && c'.pc == c.pc && |c'.ins| == |c.ins| && c'.ks == c.ks
    ensures forall t :: Entry(c'.ins, t) == Entry(c.ins, t)
    ensures forall p :: p in c.pend && p !in l && 0 <= p < |c.ins| ==>
      p in c'.pend && c'.ins[p] == c.ins[p] && CtlPos(c'.ins, p) == CtlPos(c.ins, p) && Ctl(c'.ins, p) == Ctl(c.ins, p)
    ensures forall f :: HasBools(c, reg, f) ==> HasBools(c', reg, f)
    ensures forall p :: p in c'.pend <==> p in c.pend && p !in l
  {
    EndIsEntry(c, c.pc);
    forall k | 0 <= k < |l| ensures 0 <= l[k] < |c.ins| && CanPatch(c, l[k], d) {
      assert l[k] in l;
    }
    PatchAllWF(c, l, reg, d);
  }

  /** exp2reg's two patchings. */
  ghost predicate Patching(c4: Code, c5: Code, c6: Code, e: ED, reg: ArgA, pf: int, pt: int) {
    true == (
    && WF(c4, c4.pc) && reg < MAXREGS && Disjoint(e.T, e.F)
    && Servable(c4, e.F, reg, pf, false) && c5 == PatchedAll(c4, e.F, c4.pc, reg, pf)
    && Servable(c4, e.T, reg, pt, true)
    && (forall k :: 0 <= k < |e.T| ==> Fits(e.T[k], Target(c4.ins, e.T[k], c4.pc, pt)))
    && c6 == PatchedAll(c5, e.T, c4.pc, reg, pt)
    )
  }

  lemma SecondServable(c4: Code, c5: Code, c6: Code, e: ED, reg: ArgA, pf: int, pt: int)
    requires Patching(c4, c5, c6, e, reg, pf, pt)
    ensures WF(c5, c5.pc) && c5.pc == c4.pc && Servable(c5, e.T, reg, pt, true)
    ensures forall j, r, v, b :: j in e.T && JumpVal(c4.ins, j, r, v, b) ==> JumpVal(c5.ins, j, r, v, b)
  {
    ServeList(c4, e.F, reg, pf, false, c5);
    StillPending(c4, c5, e.T, e.F, reg, pt);
    SecondServed(c4, c5, e.T, reg, pt);
  }

  /** Serving one list leaves the other alone. */
  lemma StillPending(c4: Code, c5: Code, l: seq<int>, served: seq<int>, reg: ArgA, pt: int)
    requires Servable(c4, l, reg, pt, true) && Disjoint(l, served) && |c5.ins| == |c4.ins| && c5.pc == c4.pc
    requires forall p :: p in c4.pend && p !in served && 0 <= p < |c4.ins| ==>
      p in c5.pend && c5.ins[p] == c4.ins[p] && CtlPos(c5.ins, p) == CtlPos(c4.ins, p) &&
        Ctl(c5.ins, p) == Ctl(c4.ins, p)
    ensures forall k :: 0 <= k < |l| ==>
      && l[k] in c5.pend && 0 <= l[k] < |c5.ins| && Ctl(c5.ins, l[k]) == Ctl(c4.ins, l[k])
      && Fits(l[k], Target(c5.ins, l[k], c5.pc, pt)) && l[k] < Target(c5.ins, l[k], c5.pc, pt) <= c5.pc
  {
    forall k | 0 <= k < |l|
      ensures l[k] in c5.pend && 0 <= l[k] < |c5.ins| && Ctl(c5.ins, l[k]) == Ctl(c4.ins, l[k])
      ensures Fits(l[k], Target(c5.ins, l[k], c5.pc, pt)) && l[k] < Target(c5.ins, l[k], c5.pc, pt) <= c5.pc
    {
      assert l[k] in l;
    }
  }

  /** The LOADBOOL or the TESTSETs of the true exits are still there. */
  lemma SecondServed(c4: Code, c5: Code, l: seq<int>, reg: ArgA, pt: int)
    requires |c5.ins| == |c4.ins| && ExitsServed(c4, l, reg, pt, true)
    requires forall k :: 0 <= k < |l| ==> 0 <= l[k] < |c4.ins|
    requires forall f :: HasBools(c4, reg, f) ==> HasBools(c5, reg, f)
    requires forall k :: 0 <= k < |l| ==> Ctl(c5.ins, l[k]) == Ctl(c4.ins, l[k])
    ensures ExitsServed(c5, l, reg, pt, true)
  {
    if BoolAt(c4, reg, pt, true) {
      assert HasBools(c5, reg, pt - 1);
    } else {
      forall j | j in l ensures 0 <= j < |c5.ins| && Ctl(c5.ins, j).op == TESTSET {
        var k :| 0 <= k < |l| && l[k] == j;
      }
    }
  }

  /** One run through exp2reg's patching, from where the value was placed to the register. */
  lemma FinishRun(c4: Code, c5: Code, c6: Code, e: ED, reg: ArgA, pf: int, pt: int, env: Env, q: int, r: Regs, v: Value)
    requires Patching(c4, c5, c6, e, reg, pf, pt) && q <= c4.pc && Entry(c4.ins, q)
    ensures var t := Run(c4, env, q, r);
      var t' := Run(c6, env, q, r);
      FinishedAt(c4.ins, e, reg, c6.pc, t, t', v)
  {
    ServeList(c4, e.F, reg, pf, false, c5);
    SecondServable(c4, c5, c6, e, reg, pf, pt);
    ServeList(c5, e.T, reg, pt, true, c6);
    PatchAllRun(c4, e.F, reg, pf, env, q, r);
    PatchAllRun(c5, e.T, reg, pt, env, q, r);
    var t := Run(c4, env, q, r);
    assert c4.pc !in e.T by {
      forall k | 0 <= k < |e.T| ensures e.T[k] != c4.pc {
        assert CanPatch(c5, e.T[k], pt);
      }
    }
    if t.Stop? && t.pc in e.F && JumpVal(c4.ins, t.pc, t.r, v, false) {
      ExitLands(c4, c5, e.F, reg, pf, false, env, t, v);
    } else if t.Stop? && t.pc in e.T && JumpVal(c4.ins, t.pc, t.r, v, true) {
      ExitLands(c5, c6, e.T, reg, pt, true, env, t, v);
    }
  }

  // ---------- before the patching ----------

  /** Between coding the expression (s1) and the patching (s4): the value of a run that falls off the
      end of s1 is in reg at the end of s4, and the exits are as they were. */
  ghost predicate PreparedAt(s1: Snap, s4: Snap, k: ExpKind, reg: int, env: Env, q: int, r: Regs) {
    var t1 := Run(s1.c, env, q, r);
    var t4 := Run(s4.c, env, q, r);
    && Undisturbed(s1, t1, t4)
    && (t1.Stop? && End(s1, t1.pc) && ValueOf(s1.c, k, t1.r).Some? ==>
          t4.Stop? && End(s4, t4.pc) && Put(t1.r, t4.r, reg, ValueOf(s1.c, k, t1.r).value))
  }

  ghost predicate Prepared(s0: Snap, s1: Snap, s4: Snap, e: ED, reg: int) {
    true == (
    && Ok(s4) && s4.last == s4.c.pc && Grows(s0, s4) && Grows(s1, s4)
    && (forall j :: j in e.T + e.F ==> Outer(s1, j) && Outer(s4, j) && s0.c.pc <= j)
    && (forall j, r, v, b :: j in e.T + e.F && JumpVal(s1.c.ins, j, r, v, b) ==> JumpVal(s4.c.ins, j, r, v, b))
    && (forall env: Env, q: int, r: Regs :: q <= s0.last && Entry(s0.c.ins, q) ==>
      PreparedAt(s1, s4, e.k, reg, env, q, r))
    )
  }

  /** The outcome t6 of the patched code, from the outcome t4 before the patching. */
  ghost predicate FinishedAt(ins: seq<Instr>, e: ED, reg: int, pc: int, t4: Res, t6: Res, v: Value) {
    && (AtExit(ins, e, t4, v) ==> t6.Stop? && t6.pc == pc && Put(t4.r, t6.r, reg, v))
    && (t4 == Threw || (t4.Stop? && t4.pc !in e.T && t4.pc !in e.F) ==> t6 == t4)
  }

  lemma FinishValue(s1: Snap, s4: Snap, s6: Snap, e: ED, n: int, reg: ArgA, r0: Regs, t1: Res, t4: Res, t6: Res,
          v: Value)
    requires t1.Stop? && AgreeBut(r0, t1.r, n, reg) && Placed(s1, e, t1.pc, t1.r, v) && !e.k.VJMP?
    requires s6.c.pc == s4.c.pc && s6.J == s4.J && reg < MAXREGS
    requires t1.pc in e.T + e.F ==> t4 == t1
    requires End(s1, t1.pc) && ValueOf(s1.c, e.k, t1.r) == Some(v) ==>
      t4.Stop? && End(s4, t4.pc) && t4.pc !in e.T && t4.pc !in e.F && Put(t1.r, t4.r, reg, v)
    requires t1.pc in e.T + e.F ==> AtExit(s1.c.ins, e, t1, v) ==> AtExit(s4.c.ins, e, t1, v)
    requires FinishedAt(s4.c.ins, e, reg, s6.c.pc, t4, t6, v)
    ensures t6.Stop? && AgreeBut(r0, t6.r, n, reg) && Placed(s6, ED(VNONRELOC(reg), [], []), t6.pc, t6.r, v)
  {
    if AtExit(s1.c.ins, e, t1, v) {
      assert t1.pc in e.T + e.F;
    }
  }

  lemma FinishSemAt(s0: Snap, s1: Snap, s4: Snap, s6: Snap, e: ED, x: Expr, n: int, reg: ArgA, env: Env, q: int,
          r: Regs)
    requires Ok(s0) && LocalsBelow(x, MAXREGS) && SemAt(s0, s1, e, x, n, reg, env, q, r)
    requires Grows(s0, s1) && PreparedAt(s1, s4, e.k, reg, env, q, r) && !e.k.VJMP? && reg < MAXREGS
    requires Ok(s4) && forall j :: j in e.T + e.F ==> Outer(s1, j) && Outer(s4, j) && s0.c.pc <= j
    requires forall j, r, v, b :: j in e.T + e.F && JumpVal(s1.c.ins, j, r, v, b) ==> JumpVal(s4.c.ins, j, r, v, b)
    requires s6.J == s4.J && s6.c.pc == s4.c.pc
    requires forall v :: FinishedAt(s4.c.ins, e, reg, s6.c.pc, Run(s4.c, env, q, r), Run(s6.c, env, q, r), v)
    ensures SemAt(s0, s6, ED(VNONRELOC(reg), [], []), x, n, reg, env, q, r)
  {
    var t0 := Run(s0.c, env, q, r);
    var t1 := Run(s1.c, env, q, r);
    var t4 := Run(s4.c, env, q, r);
    var t6 := Run(s6.c, env, q, r);
    assert FinishedAt(s4.c.ins, e, reg, s6.c.pc, t4, t6, Nil);
    if t0.Stop? && Outer(s0, t0.pc) {
      OuterStays(s0, s1, t0.pc);
      assert t0.pc !in e.T + e.F;
    } else if t0.Stop? && End(s0, t0.pc) {
      match Eval(x, t0.r, env)
      case None =>
      case Some(v) =>
        if t4.Stop? && End(s4, t4.pc) {
          EndNotExit(s4, e, t4);
        }
        FinishValue(s1, s4, s6, e, n, reg, t0.r, t1, t4, t6, v);
    }
  }

  lemma EndNotExit(s4: Snap, e: ED, t4: Res)
    requires Ok(s4) && (forall j :: j in e.T + e.F ==> Outer(s4, j)) && t4.Stop? && End(s4, t4.pc)
    ensures t4.pc !in e.T && t4.pc !in e.F
  {
    assert t4.pc !in e.T + e.F;
  }

  lemma FinishOk(s0: Snap, s4: Snap, c5: Code, s6: Snap, e: ED, reg: ArgA, pf: int, pt: int)
    requires Ok(s0) && Ok(s4) && s4.last == s4.c.pc && Grows(s0, s4)
    requires forall j :: j in e.T + e.F ==> Outer(s4, j) && s0.c.pc <= j
    requires Patching(s4.c, c5, s6.c, e, reg, pf, pt) && s6 == Snap(s6.c, s4.last, s4.J)
    ensures Ok(s6) && Grows(s0, s6)
  {
    ServeList(s4.c, e.F, reg, pf, false, c5);
    SecondServable(s4.c, c5, s6.c, e, reg, pf, pt);
    ServeList(c5, e.T, reg, pt, true, s6.c);
    forall k | 0 <= k < |s4.J| ensures s4.J[k] !in e.T + e.F {
      assert s4.J[k] in s4.J;
    }
    forall p | Outer(s0, p) && 0 <= p < s0.c.pc
      ensures Outer(s6, p) && s6.c.ins[p] == s0.c.ins[p] && CtlPos(s6.c.ins, p) == CtlPos(s0.c.ins, p) &&
          Ctl(s6.c.ins, p) == Ctl(s0.c.ins, p)
    {
      assert p !in e.T + e.F;
    }
  }

  /** exp2reg: the value of the expression is in reg, and no exit is left pending. */
  lemma FinishAll(s0: Snap, s1: Snap, s4: Snap, c5: Code, s6: Snap, e: ED, x: Expr, n: int, reg: ArgA, pf: int, pt: int)
    requires Coded(s0, s1, e, x, n, reg) && !e.k.VJMP? && !e.k.VRELOCABLE?
    requires Prepared(s0, s1, s4, e, reg)
    requires Patching(s4.c, c5, s6.c, e, reg, pf, pt) && s6 == Snap(s6.c, s4.last, s4.J)
    ensures Coded(s0, s6, ED(VNONRELOC(reg), [], []), x, n, reg)
  {
    FinishOk(s0, s4, c5, s6, e, reg, pf, pt);
    forall env: Env, q: int, r: Regs | q <= s0.last && Entry(s0.c.ins, q)
      ensures SemAt(s0, s6, ED(VNONRELOC(reg), [], []), x, n, reg, env, q, r)
    {
      assert PreparedAt(s1, s4, e.k, reg, env, q, r);
      assert SemAt(s0, s1, e, x, n, reg, env, q, r);
      forall v: Value
        ensures FinishedAt(s4.c.ins, e, reg, s6.c.pc, Run(s4.c, env, q, r), Run(s6.c, env, q, r), v)
      {
        FinishRun(s4.c, c5, s6.c, e, reg, pf, pt, env, q, r, v);
      }
      FinishSemAt(s0, s1, s4, s6, e, x, n, reg, env, q, r);
    }
  }

  // ---------- the three ways to prepare ----------

  /** Every exit has its value in a register: nothing to add. */
  lemma PrepareNothing(s0: Snap, s1: Snap, s4: Snap, e: ED, reg: ArgA)
    requires Ok(s0) && Ok(s1) && Grows(s0, s1) && Described(s0, s1, e) && e.k == VNONRELOC(reg) && reg < MAXREGS
    requires s4 == s1.(last := s1.c.pc)
    ensures Prepared(s0, s1, s4, e, reg)
  {
    LastIsEnd(s1);
    forall env: Env, q: int, r: Regs | q <= s0.last && Entry(s0.c.ins, q)
      ensures PreparedAt(s1, s4, e.k, reg, env, q, r) {
    }
  }

  /** getlabel: the end of the code becomes a label. */
  lemma LastIsEnd(s: Snap)
    requires Ok(s)
    ensures Ok(s.(last := s.c.pc)) && Grows(s, s.(last := s.c.pc))
  {
    EndIsEntry(s.c, s.last);
    forall q | 0 <= q < s.c.pc ensures Slot(s.c, s.c.pc, q) {
      assert Slot(s.c, s.last, q);
    }
  }

  ghost function WithBools(c: Code, reg: ArgA): Code
    requires c.pc <= |c.ins|
  {
    Append(Append(c, Instr(LOADBOOL, reg, 0, 1)), Instr(LOADBOOL, reg, 1, 0))
  }

  /** The pair of LOADBOOLs after well-formed code. */
  lemma BoolsOk(c: Code, last: int, reg: ArgA)
    requires WF(c, last) && 0 <= last
    ensures var c' := WithBools(c, reg);
      && WF(c', c'.pc) && Extends(c, c') && c'.pc == c.pc + 2 && Entry(c'.ins, c'.pc) && c'.pend == c.pend
      && HasBools(c', reg, c.pc) && Entry(c'.ins, c.pc) && Entry(c'.ins, c.pc + 1)
  {
    var c' := WithBools(c, reg);
    TwoExtend(c, Instr(LOADBOOL, reg, 0, 1), Instr(LOADBOOL, reg, 1, 0));
    EntryExtends(c, c', last);
    EndIsEntry(c, last);
    forall q | 0 <= q < c'.pc ensures Slot(c', c'.pc, q) {
      if q < c.pc {
        SlotExtends(c, c', last, c'.pc, q);
      }
    }
  }

  /** A comparison falls through to the LOADBOOL of false. */
  lemma PrepareCompare(s0: Snap, s1: Snap, s4: Snap, e: ED, reg: ArgA)
    requires Ok(s0) && Ok(s1) && Grows(s0, s1) && Described(s0, s1, e) && e.k == VFALSE && s1.J == [] && reg < MAXREGS
    requires s4 == Snap(WithBools(s1.c, reg), s1.c.pc + 2, [])
    ensures Prepared(s0, s1, s4, e, reg) && HasBools(s4.c, reg, s1.c.pc)
    ensures Entry(s4.c.ins, s1.c.pc) && Entry(s4.c.ins, s1.c.pc + 1)
  {
    BoolsOk(s1.c, s1.last, reg);
    ExtendSem(s1, s4);
    GrowsTrans(s0, s1, s4);
    KeepsJumps(s0, s1, s4, e);
    forall env: Env, q: int, r: Regs | q <= s0.last && Entry(s0.c.ins, q)
      ensures PreparedAt(s1, s4, e.k, reg, env, q, r) {
      ExtendRun(s1.c, s4.c, s1.last, env, q, r);
      var t1 := Run(s1.c, env, q, r);
      if t1.Stop? {
        BoolRuns(s4.c, reg, s1.c.pc, env, t1.r);
      }
    }
  }

  /** A value already in reg jumps over the LOADBOOLs; the jumps to here go along with it. */
  lemma PrepareJump(s0: Snap, s1: Snap, link: Instr, s4: Snap, e: ED, reg: ArgA)
    requires Ok(s0) && Ok(s1) && Grows(s0, s1) && Described(s0, s1, e) && e.k == VNONRELOC(reg) && reg < MAXREGS
    requires link.op == JMP && link.a == 0
    requires s4 == Snap(WithBools(Jumped(s1, link).c, reg), s1.c.pc + 3, [s1.c.pc] + s1.J)
    ensures Prepared(s0, s1, s4, e, reg) && HasBools(s4.c, reg, s1.c.pc + 1)
    ensures Entry(s4.c.ins, s1.c.pc + 1) && Entry(s4.c.ins, s1.c.pc + 2)
  {
    var c2 := Jumped(s1, link).c;
    JumpSem(s1, link, Jumped(s1, link));
    BoolsOk(c2, s1.last, reg);
    assert Extends(s1.c, s4.c) by {
      assert s4.c.ins[..s1.c.pc] == s4.c.ins[..c2.pc][..s1.c.pc] == c2.ins[..c2.pc][..s1.c.pc] == s1.c.ins[..s1.c.pc];
    }
    JumpPrepared(s0, s1, s4, e, reg);
    forall env: Env, q: int, r: Regs | q <= s0.last && Entry(s0.c.ins, q)
      ensures PreparedAt(s1, s4, e.k, reg, env, q, r) {
      ExtendRun(s1.c, s4.c, s1.last, env, q, r);
    }
  }

  lemma JumpPrepared(s0: Snap, s1: Snap, s4: Snap, e: ED, reg: ArgA)
    requires Ok(s0) && Ok(s1) && Grows(s0, s1) && Described(s0, s1, e)
    requires Extends(s1.c, s4.c) && WF(s4.c, s4.c.pc) && s4.last == s4.c.pc == s1.c.pc + 3 && Entry(s4.c.ins, s4.c.pc)
    requires s4.J == [s1.c.pc] + s1.J && s4.c.pend == s1.c.pend + {s1.c.pc}
    ensures Ok(s4) && Grows(s0, s4) && Grows(s1, s4)
    ensures forall j :: j in e.T + e.F ==> Outer(s1, j) && Outer(s4, j) && s0.c.pc <= j
    ensures forall j, r, v, b :: j in e.T + e.F && JumpVal(s1.c.ins, j, r, v, b) ==> JumpVal(s4.c.ins, j, r, v, b)
  {
    EntryExtends(s1.c, s4.c, s1.last);
    assert Grows(s1, s4);
    GrowsTrans(s0, s1, s4);
    KeepsJumps(s0, s1, s4, e);
  }

  // ---------- what the two patchings need ----------

  /** The exits of e lie before the LOADBOOLs at pf and pt, or need none. */
  ghost predicate Ready(s4: Snap, e: ED, reg: ArgA, pf: int, pt: int) {
    true == (
    && Ok(s4) && s4.last == s4.c.pc && reg < MAXREGS && NoDup(e.T) && NoDup(e.F) && Disjoint(e.T, e.F)
    && (forall j :: j in e.T + e.F ==> Outer(s4, j) && 0 <= j < s4.c.pc)
    && Entry(s4.c.ins, pf) && Entry(s4.c.ins, pt)
    && ( (HasBools(s4.c, reg, pf) && pt == pf + 1 && forall j :: j in e.T + e.F ==> j < pf)
      || (pf == pt == NO_JUMP && forall j :: j in e.T + e.F ==> 0 <= j < |s4.c.ins| && Ctl(s4.c.ins, j).op == TESTSET))
    )
  }

  ghost predicate AllFit(c: Code, l: seq<int>, d: int) {
    forall k :: 0 <= k < |l| ==> 0 <= l[k] < |c.ins| && Fits(l[k], Target(c.ins, l[k], c.pc, d))
  }

  lemma OneServable(s4: Snap, l: seq<int>, e: ED, reg: ArgA, pf: int, pt: int, b: bool)
    requires Ready(s4, e, reg, pf, pt) && l == (if b then e.T else e.F) && AllFit(s4.c, l, if b then pt else pf)
    ensures Servable(s4.c, l, reg, if b then pt else pf, b)
  {
    forall k | 0 <= k < |l| ensures l[k] in e.T + e.F {
      assert l[k] in l;
    }
    if !HasBools(s4.c, reg, pf) {
      forall j | j in l ensures 0 <= j < |s4.c.ins| && Ctl(s4.c.ins, j).op == TESTSET {
        assert j in e.T + e.F;
      }
    }
  }

  /** The second list fits after the first patching exactly as it did before. */
  lemma FitBefore(s4: Snap, c5: Code, e: ED, reg: ArgA, pf: int, pt: int)
    requires Ready(s4, e, reg, pf, pt) && AllFit(s4.c, e.F, pf)
    requires c5 == PatchedAll(s4.c, e.F, s4.c.pc, reg, pf) && AllFit(c5, e.T, pt)
    ensures AllFit(s4.c, e.T, pt)
  {
    OneServable(s4, e.F, e, reg, pf, pt, false);
    ServeList(s4.c, e.F, reg, pf, false, c5);
    forall k | 0 <= k < |e.T| ensures 0 <= e.T[k] < |s4.c.ins| && Fits(e.T[k], Target(s4.c.ins, e.T[k], s4.c.pc, pt)) {
      assert e.T[k] in e.T && e.T[k] in e.T + e.F;
    }
  }

  lemma BuildPatching(s4: Snap, c5: Code, c6: Code, e: ED, reg: ArgA, pf: int, pt: int)
    requires Ready(s4, e, reg, pf, pt) && AllFit(s4.c, e.F, pf)
    requires c5 == PatchedAll(s4.c, e.F, s4.c.pc, reg, pf) && AllFit(c5, e.T, pt)
    requires c6 == PatchedAll(c5, e.T, s4.c.pc, reg, pt)
    ensures Patching(s4.c, c5, c6, e, reg, pf, pt)
  {
    FitBefore(s4, c5, e, reg, pf, pt);
    OneServable(s4, e.F, e, reg, pf, pt, false);
    OneServable(s4, e.T, e, reg, pf, pt, true);
  }

  /** The list of the second patching, and the jumps to here, are intact after the first. */
  lemma ListsThroughPatch(s4: Snap, c5: Code, e: ED, reg: ArgA, pf: int, pt: int, l: int, s: seq<int>)
    requires Ready(s4, e, reg, pf, pt) && AllFit(s4.c, e.F, pf) && c5 == PatchedAll(s4.c, e.F, s4.c.pc, reg, pf)
    requires IsList(s4.c.ins, l, s) && forall j :: j in s ==> j in s4.c.pend && j !in e.F
    ensures IsList(c5.ins, l, s)
  {
    OneServable(s4, e.F, e, reg, pf, pt, false);
    ServeList(s4.c, e.F, reg, pf, false, c5);
    ListKept(s4.c.ins, c5.ins, l, s);
  }

  lemma ListsThroughBoth(s4: Snap, c5: Code, c6: Code, e: ED, reg: ArgA, pf: int, pt: int, l: int, s: seq<int>)
    requires Ready(s4, e, reg, pf, pt) && Patching(s4.c, c5, c6, e, reg, pf, pt)
    requires IsList(s4.c.ins, l, s) && forall j :: j in s ==> j in s4.c.pend && j !in e.F && j !in e.T
    ensures IsList(c6.ins, l, s)
  {
    ServeList(s4.c, e.F, reg, pf, false, c5);
    SecondServable(s4.c, c5, c6, e, reg, pf, pt);
    ServeList(c5, e.T, reg, pt, true, c6);
    ListKept(s4.c.ins, c6.ins, l, s);
  }

  lemma ReadyBools(s0: Snap, s1: Snap, s4: Snap, e: ED, reg: ArgA, pf: int)
    requires Prepared(s0, s1, s4, e, reg) && Described(s0, s1, e) && reg < MAXREGS && s1.c.pc <= pf
    requires HasBools(s4.c, reg, pf) && Entry(s4.c.ins, pf) && Entry(s4.c.ins, pf + 1)
    ensures Ready(s4, e, reg, pf, pf + 1)
  {
    forall j | j in e.T + e.F ensures j < pf {
      assert j in e.T || j in e.F;
    }
  }

  lemma ReadyNothing(s0: Snap, s1: Snap, s4: Snap, e: ED, reg: ArgA)
    requires Prepared(s0, s1, s4, e, reg) && Described(s0, s1, e) && reg < MAXREGS && s4 == s1.(last := s1.c.pc)
    requires forall k :: 0 <= k < |e.T| ==> 0 <= e.T[k] < |s1.c.ins| && Ctl(s1.c.ins, e.T[k]).op == TESTSET
    requires forall k :: 0 <= k < |e.F| ==> 0 <= e.F[k] < |s1.c.ins| && Ctl(s1.c.ins, e.F[k]).op == TESTSET
    ensures Ready(s4, e, reg, NO_JUMP, NO_JUMP)
  {
    forall j | j in e.T + e.F ensures 0 <= j < s4.c.pc && Ctl(s4.c.ins, j).op == TESTSET {
      if j in e.T {
        var k :| 0 <= k < |e.T| && e.T[k] == j;
      } else {
        var k :| 0 <= k < |e.F| && e.F[k] == j;
      }
    }
  }
}
