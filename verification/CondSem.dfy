/**
  Conditional code (src/uvm/lcode.cpp:651-753, 844-917): an expression coded for its truth, so that
  evaluation goes on past it when it has the wanted truth value; and the operators built from that.
 */
module CondSem {
  import opened Options
  import opened Opcodes
  import opened LuaMachine
  import opened JumpLists
  import opened CodeSem
  import opened ExpSem
  import opened FinishSem

  /** Falling off the end, the value of x has truth b; other exits are in the lists. */
  ghost predicate CondPost(s: Snap, T: seq<int>, F: seq<int>, x: Expr, n: int, b: bool, env: Env, r0: Regs, t: Res)
    requires LocalsBelow(x, MAXREGS)
  {
    match Eval(x, r0, env)
    case None => t == Threw
    case Some(v) =>
      t.Stop? && AgreeBut(r0, t.r, n, -1) &&
      ( (t.pc in T && JumpVal(s.c.ins, t.pc, t.r, v, true))
      || (t.pc in F && JumpVal(s.c.ins, t.pc, t.r, v, false))
      || (End(s, t.pc) && Truthy(v) == b))
  }

  ghost predicate CondAt(s0: Snap, s: Snap, T: seq<int>, F: seq<int>, x: Expr, n: int, b: bool, env: Env, q: int,
          r: Regs)
    requires LocalsBelow(x, MAXREGS)
  {
    var t0 := Run(s0.c, env, q, r);
    var t := Run(s.c, env, q, r);
    Undisturbed(s0, t0, t) && (t0.Stop? && End(s0, t0.pc) ==> CondPost(s, T, F, x, n, b, env, t0.r, t))
  }

  ghost predicate Exits(s0: Snap, s: Snap, l: seq<int>) {
    NoDup(l) && forall j :: j in l ==> s0.c.pc <= j < s.c.pc && Outer(s, j)
  }

  /** x has been coded for truth b. */
  ghost predicate Conditioned(s0: Snap, s: Snap, T: seq<int>, F: seq<int>, x: Expr, n: int, b: bool) {
    && Ok(s0) && Ok(s) && Grows(s0, s) && Exits(s0, s, T) && Exits(s0, s, F) && Disjoint(T, F)
    && LocalsBelow(x, MAXREGS)
    && forall env: Env, q: int, r: Regs :: q <= s0.last && Entry(s0.c.ins, q) ==>
      CondAt(s0, s, T, F, x, n, b, env, q, r)
  }

  /** The list the exits of truth !b are in, and the other one. */
  function WithExit(l: seq<int>, j: int, here: bool): seq<int> {
    if here then l + [j] else l
  }

  /** A constant of truth b needs no code. */
  lemma CondConstant(s0: Snap, s: Snap, e: ED, x: Expr, n: int, b: bool)
    requires Coded(s0, s, e, x, n, -1) && !e.k.VJMP? && !e.k.VRELOCABLE?
    requires forall r: Regs :: ValueOf(s.c, e.k, r).Some? && Truthy(ValueOf(s.c, e.k, r).value) == b
    ensures Conditioned(s0, s, e.T, e.F, x, n, b)
  {
    forall env: Env, q: int, r: Regs | q <= s0.last && Entry(s0.c.ins, q)
      ensures CondAt(s0, s, e.T, e.F, x, n, b, env, q, r) {
      assert SemAt(s0, s, e, x, n, -1, env, q, r);
    }
  }

  /** A comparison coded as a jump when true: falling through, it is false. */
  lemma CondJumpTrue(s0: Snap, s: Snap, e: ED, x: Expr, n: int)
    requires Coded(s0, s, e, x, n, -1) && e.k.VJMP?
    ensures Conditioned(s0, s, e.T + [e.k.pc], e.F, x, n, false)
  {
    var e' := ED(VFALSE, e.T + [e.k.pc], e.F);
    JumpJoinsSem(s0, s, e, x, n, -1);
    forall env: Env, q: int, r: Regs | q <= s0.last && Entry(s0.c.ins, q)
      ensures CondAt(s0, s, e'.T, e.F, x, n, false, env, q, r) {
      assert SemAt(s0, s, e', x, n, -1, env, q, r);
    }
  }

  // ---------- inverting a comparison ----------

  lemma InvertFacts(s: Snap, s': Snap)
    requires Ok(s) && EndsInJump(s.c, s.last) && s' == s.(c := Invert(s.c))
    ensures Ok(s') && forall t :: Entry(s'.c.ins, t) == Entry(s.c.ins, t)
    ensures forall p :: p in s.c.pend && p != s.c.pc - 1 ==>
      0 <= p < |s.c.ins| && CtlPos(s'.c.ins, p) == CtlPos(s.c.ins, p) && Ctl(s'.c.ins, p) == Ctl(s.c.ins, p) &&
        s'.c.ins[p] == s.c.ins[p]
    ensures s'.c.ins[s.c.pc - 1] == s.c.ins[s.c.pc - 1] && Ctl(s'.c.ins, s.c.pc - 1).op != TESTSET
  {
    forall q | 0 <= q < s.c.pc ensures Slot(s'.c, s.last, q) {
      assert Slot(s.c, s.last, q);
    }
    forall p | p in s.c.pend && p != s.c.pc - 1
      ensures 0 <= p < |s.c.ins| && CtlPos(s'.c.ins, p) == CtlPos(s.c.ins, p) && Ctl(s'.c.ins, p) == Ctl(s.c.ins, p) &&
          s'.c.ins[p] == s.c.ins[p]
    {
      assert Slot(s.c, s.last, p);
    }
  }

  lemma InvertOk(s0: Snap, s: Snap, s': Snap, e: ED)
    requires Ok(s0) && Ok(s) && Grows(s0, s) && e.k.VJMP? && Described(s0, s, e) && s' == s.(c := Invert(s.c))
    ensures Ok(s') && Grows(s0, s') && Described(s0, s', e)
    ensures forall j, r, v, b :: j in e.T + e.F && JumpVal(s.c.ins, j, r, v, b) ==> JumpVal(s'.c.ins, j, r, v, b)
    ensures Ctl(s'.c.ins, e.k.pc).op != TESTSET && 0 <= e.k.pc < |s'.c.ins|
  {
    InvertFacts(s, s');
    assert forall j :: j in e.T + e.F ==> j != s.c.pc - 1 && j in s.c.pend;
  }

  /** invertjump: the jump is now taken when the comparison is false. */
  lemma CondJumpFalse(s0: Snap, s: Snap, s': Snap, e: ED, x: Expr, n: int)
    requires Coded(s0, s, e, x, n, -1) && e.k.VJMP? && s' == s.(c := Invert(s.c))
    ensures Conditioned(s0, s', e.T, e.F + [e.k.pc], x, n, true)
  {
    InvertOk(s0, s, s', e);
    forall env: Env, q: int, r: Regs | q <= s0.last && Entry(s0.c.ins, q)
      ensures CondAt(s0, s', e.T, e.F + [e.k.pc], x, n, true, env, q, r)
    {
      assert SemAt(s0, s, e, x, n, -1, env, q, r);
      InvertRun(s.c, s.last, env, q, r);
      InvertPlaced(s0, s, s', e, x, n, env, q, r);
    }
  }

  lemma InvertPlaced(s0: Snap, s: Snap, s': Snap, e: ED, x: Expr, n: int, env: Env, q: int, r: Regs)
    requires Ok(s0) && Ok(s) && Grows(s0, s) && LocalsBelow(x, MAXREGS) && SemAt(s0, s, e, x, n, -1, env, q, r)
    requires e.k.VJMP? && Described(s0, s, e) && s' == s.(c := Invert(s.c))
    requires Run(s'.c, env, q, r) == SwapEnds(s.c, Run(s.c, env, q, r))
    requires forall j, r, v, b :: j in e.T + e.F && JumpVal(s.c.ins, j, r, v, b) ==> JumpVal(s'.c.ins, j, r, v, b)
    requires 0 <= e.k.pc < |s'.c.ins| && Ctl(s'.c.ins, e.k.pc).op != TESTSET
    ensures CondAt(s0, s', e.T, e.F + [e.k.pc], x, n, true, env, q, r)
  {
    var t0 := Run(s0.c, env, q, r);
    var t := Run(s.c, env, q, r);
    if t0.Stop? && Outer(s0, t0.pc) {
      OuterStays(s0, s, t0.pc);
      assert t0.pc != s.c.pc - 1;
    } else if t0.Stop? && End(s0, t0.pc) {
      InvertPost(s0, s, s', e, x, n, env, t0.r, t, Run(s'.c, env, q, r));
    }
  }

  /** What the inverted jump makes of a run t that has the value where e says. */
  lemma InvertPost(s0: Snap, s: Snap, s': Snap, e: ED, x: Expr, n: int, env: Env, r0: Regs, t: Res, t': Res)
    requires Ok(s) && LocalsBelow(x, MAXREGS) && ExpPost(s, e, x, n, -1, env, r0, t) && t' == SwapEnds(s.c, t)
    requires e.k.VJMP? && Described(s0, s, e) && s' == s.(c := Invert(s.c))
    requires forall j, r, v, b :: j in e.T + e.F && JumpVal(s.c.ins, j, r, v, b) ==> JumpVal(s'.c.ins, j, r, v, b)
    requires 0 <= e.k.pc < |s'.c.ins| && Ctl(s'.c.ins, e.k.pc).op != TESTSET
    ensures CondPost(s', e.T, e.F + [e.k.pc], x, n, true, env, r0, t')
  {
    if Eval(x, r0, env).Some? {
      var v := Eval(x, r0, env).value;
      if t.pc in e.T && JumpVal(s.c.ins, t.pc, t.r, v, true) {
        assert t.pc in e.T + e.F;
      } else if t.pc in e.F && JumpVal(s.c.ins, t.pc, t.r, v, false) {
        assert t.pc in e.T + e.F && t.pc in e.F + [e.k.pc];
      } else if t.pc == e.k.pc {
      } else {
        assert e.k.pc in e.F + [e.k.pc];
      }
    }
  }

  // ---------- testing a register (jumponcond) ----------

  /** The test jumponcond emits: on a register, keeping its value; or on the operand of a `not` that was
      not emitted after all. */
  function CondTest(s: Snap, k: ExpKind, b: bool): Instr
    requires k.VNONRELOC? ==> 0 <= k.reg < MAXREGS
    requires k.VRELOCABLE? ==> 0 <= k.pc < |s.c.ins| && s.c.ins[k.pc].b < MAXREGS
  {
    match k
    case VNONRELOC(r) => Instr(TESTSET, NO_REG, r, if b then 0 else 1)
    case VRELOCABLE(p) => Instr(TEST, s.c.ins[p].b, 0, if b then 1 else 0)
    case _ => OPEN_JUMP
  }

  lemma CondTestAt(s0: Snap, v: Snap, s': Snap, i: Instr, e: ED, x: Expr, n: int, b: bool, env: Env, q: int, r: Regs)
    requires Ok(s0) && Ok(v) && Grows(s0, v) && Grows(v, s') && LocalsBelow(x, MAXREGS) &&
        SemAt(s0, v, e, x, n, -1, env, q, r)
    requires forall j :: j in e.T + e.F ==> 0 <= j < v.c.pc && Outer(v, j)
    requires s'.c.pc == v.c.pc + 2 && s'.J == [] && v.c.pc + 1 < |s'.c.ins| && s'.c.ins[v.c.pc] == i &&
        TestMode(i.op) && !e.k.VJMP?
    requires (e.k.VNONRELOC? && 0 <= e.k.reg < MAXREGS && i.op == TESTSET && i.b == e.k.reg)
             || (e.k.VRELOCABLE? && i.op == TEST && 0 <= e.k.pc < |v.c.ins| && v.c.ins[e.k.pc].b < MAXREGS)
    requires var t := Run(v.c, env, q, r);
      t.Stop? && End(v, t.pc) && ValueOf(v.c, e.k, t.r).Some? ==>
        Tests(v, t, Run(s'.c, env, q, r), Truthy(ValueOf(v.c, e.k, t.r).value) != b)
    requires Undisturbed(v, Run(v.c, env, q, r), Run(s'.c, env, q, r))
    ensures CondAt(s0, s', WithExit(e.T, v.c.pc + 1, !b), WithExit(e.F, v.c.pc + 1, b), x, n, b, env, q, r)
  {
    KeepsJumps(s0, v, s', e);
    var t0 := Run(s0.c, env, q, r);
    if t0.Stop? && Outer(s0, t0.pc) {
      OuterStays(s0, v, t0.pc);
    } else if t0.Stop? && End(s0, t0.pc) {
      CondTestPost(v, s', i, e, x, n, b, env, t0.r, Run(v.c, env, q, r), Run(s'.c, env, q, r));
    }
  }

  /** What the test and its jump make of a run t that has the value where e says. */
  lemma CondTestPost(v: Snap, s': Snap, i: Instr, e: ED, x: Expr, n: int, b: bool, env: Env, r0: Regs, t: Res, t': Res)
    requires Ok(v) && LocalsBelow(x, MAXREGS) && ExpPost(v, e, x, n, -1, env, r0, t) && Undisturbed(v, t, t')
    requires forall j :: j in e.T + e.F ==> 0 <= j < v.c.pc && Outer(v, j)
    requires forall j, r, w, c :: j in e.T + e.F && JumpVal(v.c.ins, j, r, w, c) ==> JumpVal(s'.c.ins, j, r, w, c)
    requires s'.c.pc == v.c.pc + 2 && s'.J == [] && v.c.pc + 1 < |s'.c.ins| && s'.c.ins[v.c.pc] == i &&
        TestMode(i.op) && !e.k.VJMP?
    requires (e.k.VNONRELOC? && 0 <= e.k.reg < MAXREGS && i.op == TESTSET && i.b == e.k.reg)
             || (e.k.VRELOCABLE? && i.op == TEST && 0 <= e.k.pc < |v.c.ins| && v.c.ins[e.k.pc].b < MAXREGS)
    requires t.Stop? && End(v, t.pc) && ValueOf(v.c, e.k, t.r).Some? ==>
        Tests(v, t, t', Truthy(ValueOf(v.c, e.k, t.r).value) != b)
    ensures CondPost(s', WithExit(e.T, v.c.pc + 1, !b), WithExit(e.F, v.c.pc + 1, b), x, n, b, env, r0, t')
  {
    var T, F := WithExit(e.T, v.c.pc + 1, !b), WithExit(e.F, v.c.pc + 1, b);
    assert v.c.pc + 1 in (if b then F else T);
    assert CtlPos(s'.c.ins, v.c.pc + 1) == v.c.pc;
    if Eval(x, r0, env).Some? {
      var w := Eval(x, r0, env).value;
      if t.pc in e.T && JumpVal(v.c.ins, t.pc, t.r, w, true) {
        assert t.pc in e.T + e.F && t.pc in T;
      } else if t.pc in e.F && JumpVal(v.c.ins, t.pc, t.r, w, false) {
        assert t.pc in e.T + e.F && t.pc in F;
      } else {
        assert End(v, t.pc) && ValueOf(v.c, e.k, t.r) == Some(w);
      }
    }
  }

  lemma CondTestRun(s: Snap, v: Snap, k: ExpKind, b: bool, s': Snap, env: Env, q: int, r: Regs)
    requires Ok(v) && JpcFits(v) && (k.VNONRELOC? || k.VRELOCABLE?) && v == View(s, k)
    requires k.VNONRELOC? ==> 0 <= k.reg < MAXREGS
    requires k.VRELOCABLE? ==> 0 <= k.pc < |s.c.ins| && s.c.ins[k.pc].b < MAXREGS
    requires s' == Tested(v, CondTest(s, k, b)) && q <= v.last && Entry(v.c.ins, q)
    ensures var t := Run(v.c, env, q, r);
      t.Stop? && End(v, t.pc) && ValueOf(v.c, k, t.r).Some? ==>
        Tests(v, t, Run(s'.c, env, q, r), Truthy(ValueOf(v.c, k, t.r).value) != b)
    ensures Undisturbed(v, Run(v.c, env, q, r), Run(s'.c, env, q, r))
  {
    var t := Run(v.c, env, q, r);
    var i := CondTest(s, k, b);
    var jump := t.Stop? && Truthy(t.r[if i.op == TEST then i.a else i.b]) == (i.c != 0);
    TestRegRun(v, i, s', env, q, r, jump);
  }

  /** jumponcond */
  lemma CondTestSem(s0: Snap, s: Snap, s': Snap, e: ED, x: Expr, n: int, b: bool)
    requires Coded(s0, s, e, x, n, -1) && (e.k.VNONRELOC? || e.k.VRELOCABLE?) && JpcFits(View(s, e.k))
    requires s' == Tested(View(s, e.k), CondTest(s, e.k, b))
    ensures var j := View(s, e.k).c.pc + 1;
      Conditioned(s0, s', WithExit(e.T, j, !b), WithExit(e.F, j, b), x, n, b)
  {
    var v := View(s, e.k);
    var i := CondTest(s, e.k, b);
    TestSem(v, i, s');
    TestFacts(v, i, s');
    GrowsTrans(s0, v, s');
    StillDescribed(s0, s, s', e, VNIL);
    var T, F := WithExit(e.T, v.c.pc + 1, !b), WithExit(e.F, v.c.pc + 1, b);
    forall env: Env, q: int, r: Regs | q <= s0.last && Entry(s0.c.ins, q)
      ensures CondAt(s0, s', T, F, x, n, b, env, q, r) {
      assert SemAt(s0, v, e, x, n, -1, env, q, r);
      CondTestRun(s, v, e.k, b, s', env, q, r);
      CondTestAt(s0, v, s', i, e, x, n, b, env, q, r);
    }
    NewExit(s0, v, s', e, b);
  }

  lemma NewExit(s0: Snap, v: Snap, s': Snap, e: ED, b: bool)
    requires Described(s0, s', e.(k := VNIL)) && s'.c.pc == v.c.pc + 2 && s'.J == [] && v.c.pc + 1 in s'.c.pend &&
        s0.c.pc <= v.c.pc
    requires forall j :: j in e.T + e.F ==> 0 <= j < v.c.pc
    ensures Exits(s0, s', WithExit(e.T, v.c.pc + 1, !b)) && Exits(s0, s', WithExit(e.F, v.c.pc + 1, b))
    ensures Disjoint(WithExit(e.T, v.c.pc + 1, !b), WithExit(e.F, v.c.pc + 1, b))
  {
    var j := v.c.pc + 1;
    assert forall i :: i in e.T || i in e.F ==> i in e.T + e.F;
    Append2(e.T, [j]);
    Append2(e.F, [j]);
    assert forall l: seq<int>, i :: i in l + [j] <==> i in l || i == j;
  }

  // ---------- linking and patching the lists ----------

  lemma CondRelink(s0: Snap, s: Snap, s': Snap, ch: seq<int>, T: seq<int>, F: seq<int>, x: Expr, n: int, b: bool)
    requires Conditioned(s0, s, T, F, x, n, b) && Relinked(s, s', ch) && forall j :: j in ch ==> !Outer(s0, j)
    ensures Conditioned(s0, s', T, F, x, n, b)
  {
    RelinkOk(s, s', ch);
    RelinkGrows(s0, s, s', ch);
    forall env: Env, q: int, r: Regs | q <= s0.last && Entry(s0.c.ins, q)
      ensures CondAt(s0, s', T, F, x, n, b, env, q, r) {
      assert CondAt(s0, s, T, F, x, n, b, env, q, r);
      RelinkAt(s0, s, s', ch, T, F, x, n, b, env, q, r);
    }
  }

  lemma RelinkAt(s0: Snap, s: Snap, s': Snap, ch: seq<int>, T: seq<int>, F: seq<int>, x: Expr, n: int, b: bool,
          env: Env, q: int, r: Regs)
    requires Ok(s) && Ok(s') && Relinked(s, s', ch) && Exits(s0, s, T) && Exits(s0, s, F) && LocalsBelow(x, MAXREGS)
    requires CondAt(s0, s, T, F, x, n, b, env, q, r)
    ensures CondAt(s0, s', T, F, x, n, b, env, q, r)
  {
    RelinkRun(s.c, s'.c, s.last, env, q, r);
    var t := Run(s.c, env, q, r);
    if t.Stop? && (t.pc in T || t.pc in F) {
      RelinkCtl(s, s', ch, t.pc);
    }
  }

  /** luaK_patchtohere on the exits of truth b: they now go on with the code to come. */
  lemma CondPatchHere(s0: Snap, s: Snap, s': Snap, T: seq<int>, F: seq<int>, x: Expr, n: int, b: bool)
    requires Conditioned(s0, s, T, F, x, n, b) && s' == Snap(s.c, s.c.pc, s.J + if b then T else F)
    ensures Conditioned(s0, s', if b then [] else T, if b then F else [], x, n, b)
  {
    LastIsEnd(s);
    var T', F' := if b then [] else T, if b then F else [];
    PatchHereOk(s0, s, s', if b then T else F);
    forall env: Env, q: int, r: Regs | q <= s0.last && Entry(s0.c.ins, q)
      ensures CondAt(s0, s', T', F', x, n, b, env, q, r) {
      assert CondAt(s0, s, T, F, x, n, b, env, q, r);
    }
  }

  lemma PatchHereOk(s0: Snap, s: Snap, s': Snap, l: seq<int>)
    requires Ok(s0) && Ok(s) && Grows(s0, s) && Exits(s0, s, l) && s' == Snap(s.c, s.c.pc, s.J + l)
    ensures Ok(s') && Grows(s0, s')
  {
    LastIsEnd(s);
    forall k | 0 <= k < |s'.J| ensures 0 <= s'.J[k] < s.c.pc && s'.J[k] in s.c.pend {
      if k >= |s.J| {
        assert l[k - |s.J|] in l;
      }
    }
    forall i, k | 0 <= i < k < |s'.J| ensures s'.J[i] != s'.J[k] {
      if i < |s.J| <= k {
        assert s.J[i] in s.J && l[k - |s.J|] in l;
      }
    }
  }

  // ---------- and, or ----------

  lemma JoinAt(s0: Snap, s1: Snap, v: Snap, l: seq<int>, e: ED, x: Expr, y: Expr, xy: Expr, n: int, b: bool, env: Env,
          q: int, r: Regs)
    requires Ok(s0) && Ok(s1) && Grows(s0, s1) && Grows(s1, v) && LocalsBelow(xy, MAXREGS) && LocalsBelow(y, n) &&
        n <= MAXREGS
    requires xy == if b then And(x, y) else Or(x, y)
    requires CondAt(s0, s1, if b then [] else l, if b then l else [], x, n, b, env, q, r)
    requires SemAt(s1, v, e, y, n, -1, env, q, r)
    requires forall j :: j in l ==> 0 <= j < s1.c.pc && Outer(s1, j)
    ensures SemAt(s0, v, ED(e.k, if b then e.T else e.T + l, if b then e.F + l else e.F), xy, n, -1, env, q, r)
  {
    KeepsJumps(s0, s1, v, ED(VNIL, l, []));
    var t0 := Run(s0.c, env, q, r);
    var t1 := Run(s1.c, env, q, r);
    if t0.Stop? && Outer(s0, t0.pc) {
      OuterStays(s0, s1, t0.pc);
    } else if t0.Stop? && End(s0, t0.pc) && Eval(x, t0.r, env).Some? {
      var w := Eval(x, t0.r, env).value;
      if t1.pc in l && JumpVal(s1.c.ins, t1.pc, t1.r, w, !b) {
        assert t1.pc in l + [];
      } else {
        EvalAgree(y, t0.r, t1.r, n, env);
      }
    }
  }

  /** posfix for `and` (b true) and `or` (b false): the exits of the first operand join those of the second. */
  lemma JoinSem(s0: Snap, s1: Snap, s: Snap, l: seq<int>, e: ED, x: Expr, y: Expr, xy: Expr, n: int, b: bool)
    requires Conditioned(s0, s1, if b then [] else l, if b then l else [], x, n, b)
    requires Coded(s1, s, e, y, n, -1) && LocalsBelow(xy, MAXREGS) && LocalsBelow(y, n) && n <= MAXREGS
    requires xy == if b then And(x, y) else Or(x, y)
    ensures Coded(s0, s, ED(e.k, if b then e.T else e.T + l, if b then e.F + l else e.F), xy, n, -1)
    ensures Disjoint(e.F, l) && Disjoint(e.T, l)
  {
    var v := View(s, e.k);
    GrowsTrans(s0, s1, v);
    var e' := ED(e.k, if b then e.T else e.T + l, if b then e.F + l else e.F);
    JoinDescribed(s0, s1, s, l, e, b);
    forall env: Env, q: int, r: Regs | q <= s0.last && Entry(s0.c.ins, q)
      ensures SemAt(s0, v, e', xy, n, -1, env, q, r) {
      JoinAt(s0, s1, v, l, e, x, y, xy, n, b, env, q, r);
    }
  }

  lemma JoinDescribed(s0: Snap, s1: Snap, s: Snap, l: seq<int>, e: ED, b: bool)
    requires Ok(s0) && Ok(s1) && Grows(s0, s1) && Grows(s1, View(s, e.k)) && Exits(s0, s1, l) && Described(s1, s, e)
    ensures Described(s0, s, ED(e.k, if b then e.T else e.T + l, if b then e.F + l else e.F))
    ensures Disjoint(e.F, l) && Disjoint(e.T, l)
  {
    var v := View(s, e.k);
    forall j | j in l ensures Outer(v, j) && j !in e.T && j !in e.F && j < s1.c.pc { }
    Append2(e.T, l);
    Append2(e.F, l);
  }

  lemma Append2(s: seq<int>, t: seq<int>)
    requires NoDup(s) && NoDup(t) && Disjoint(s, t)
    ensures NoDup(s + t)
  {
    forall i, k | 0 <= i < k < |s + t| ensures (s + t)[i] != (s + t)[k] {
      if i < |s| <= k {
        assert s[i] in s && t[k - |s|] in t;
      }
    }
  }

  // ---------- not ----------

  /** x has been coded, and the end of the code now denotes the negation of its value. */
  ghost predicate NegatedAt(s0: Snap, s: Snap, e: ED, x: Expr, n: int, env: Env, q: int, r: Regs)
    requires LocalsBelow(x, MAXREGS)
  {
    var t0 := Run(s0.c, env, q, r);
    var t := Run(s.c, env, q, r);
    && Undisturbed(s0, t0, t)
    && (t0.Stop? && End(s0, t0.pc) ==>
          match Eval(x, t0.r, env)
          case None => t == Threw
          case Some(v) => t.Stop? && AgreeBut(t0.r, t.r, n, -1) && NegatedPlace(s, e, t, v))
  }

  ghost predicate NegatedPlace(s: Snap, e: ED, t: Res, v: Value)
    requires t.Stop?
  {
    || (t.pc in e.T && JumpVal(s.c.ins, t.pc, t.r, v, true))
    || (t.pc in e.F && JumpVal(s.c.ins, t.pc, t.r, v, false))
    || (e.k.VJMP? && t.pc == e.k.pc && !Truthy(v))
    || (End(s, t.pc) && ValueOf(s.c, e.k, t.r) == Some(Bool(!Truthy(v))))
  }

  /** As Coded, but for the negated value. */
  ghost predicate Negated(s0: Snap, s: Snap, e: ED, x: Expr, n: int) {
    && Ok(s0) && Ok(s) && Ok(View(s, e.k)) && Grows(s0, View(s, e.k))
    && Described(s0, s, e) && LocalsBelow(x, MAXREGS)
    && forall env: Env, q: int, r: Regs :: q <= s0.last && Entry(s0.c.ins, q) ==>
      NegatedAt(s0, View(s, e.k), e, x, n, env, q, r)
  }

  lemma NegateConstant(s0: Snap, s: Snap, e: ED, k: ExpKind, x: Expr, n: int)
    requires Coded(s0, s, e, x, n, -1) && !e.k.VJMP? && !e.k.VRELOCABLE? && (k.VTRUE? || k.VFALSE?)
    requires forall r: Regs :: ValueOf(s.c, e.k, r).Some? && Truthy(ValueOf(s.c, e.k, r).value) == k.VFALSE?
    ensures Negated(s0, s, e.(k := k), x, n)
  {
    forall env: Env, q: int, r: Regs | q <= s0.last && Entry(s0.c.ins, q)
      ensures NegatedAt(s0, s, e.(k := k), x, n, env, q, r) {
      assert SemAt(s0, s, e, x, n, -1, env, q, r);
    }
  }

  lemma NegateJump(s0: Snap, s: Snap, s': Snap, e: ED, x: Expr, n: int)
    requires Coded(s0, s, e, x, n, -1) && e.k.VJMP? && s' == s.(c := Invert(s.c))
    ensures Negated(s0, s', e, x, n)
  {
    InvertOk(s0, s, s', e);
    forall env: Env, q: int, r: Regs | q <= s0.last && Entry(s0.c.ins, q)
      ensures NegatedAt(s0, s', e, x, n, env, q, r) {
      assert SemAt(s0, s, e, x, n, -1, env, q, r);
      InvertRun(s.c, s.last, env, q, r);
      NegateJumpAt(s0, s, s', e, x, n, env, q, r);
    }
  }

  lemma NegateJumpAt(s0: Snap, s: Snap, s': Snap, e: ED, x: Expr, n: int, env: Env, q: int, r: Regs)
    requires Ok(s0) && Ok(s) && Grows(s0, s) && LocalsBelow(x, MAXREGS) && SemAt(s0, s, e, x, n, -1, env, q, r)
    requires e.k.VJMP? && Described(s0, s, e) && s' == s.(c := Invert(s.c))
    requires Run(s'.c, env, q, r) == SwapEnds(s.c, Run(s.c, env, q, r))
    requires forall j, r, v, b :: j in e.T + e.F && JumpVal(s.c.ins, j, r, v, b) ==> JumpVal(s'.c.ins, j, r, v, b)
    ensures NegatedAt(s0, s', e, x, n, env, q, r)
  {
    var t0 := Run(s0.c, env, q, r);
    var t := Run(s.c, env, q, r);
    if t0.Stop? && Outer(s0, t0.pc) {
      OuterStays(s0, s, t0.pc);
      assert t0.pc != s.c.pc - 1;
    } else if t0.Stop? && End(s0, t0.pc) && Eval(x, t0.r, env).Some? {
      var v := Eval(x, t0.r, env).value;
      if t.pc in e.T && JumpVal(s.c.ins, t.pc, t.r, v, true) {
        assert t.pc in e.T + e.F;
      } else if t.pc in e.F && JumpVal(s.c.ins, t.pc, t.r, v, false) {
        assert t.pc in e.T + e.F;
      }
    }
  }

  /** NOT on the register that holds the value, its own register still to be chosen. */
  lemma NegateReg(s0: Snap, s: Snap, s': Snap, e: ED, x: Expr, n: int)
    requires Coded(s0, s, e, x, n, -1) && e.k.VNONRELOC? && JpcFits(s)
    requires s' == Emitted(s, Instr(NOT, 0, e.k.reg, 0))
    ensures Negated(s0, s', e.(k := VRELOCABLE(s.c.pc)), x, n)
  {
    var d := Discharged(s);
    var v := View(s', VRELOCABLE(s.c.pc));
    NegateRegOk(s0, s, s', e, v);
    KeepsJumps(s0, s, v, e);
    var e' := e.(k := VRELOCABLE(s.c.pc));
    forall env: Env, q: int, r: Regs | q <= s0.last && Entry(s0.c.ins, q)
      ensures NegatedAt(s0, v, e', x, n, env, q, r) {
      assert SemAt(s0, s, e, x, n, -1, env, q, r);
      DischargeRun(s, env, q, r);
      ExtendRun(d.c, v.c, d.last, env, q, r);
      NegateRegAt(s0, s, v, e, x, n, env, q, r);
    }
  }

  lemma NegateRegOk(s0: Snap, s: Snap, s': Snap, e: ED, v: Snap)
    requires Ok(s0) && Ok(s) && Grows(s0, s) && Described(s0, s, e) && e.k.VNONRELOC? && JpcFits(s)
    requires s' == Emitted(s, Instr(NOT, 0, e.k.reg, 0)) && v == View(s', VRELOCABLE(s.c.pc))
    ensures Ok(s') && Ok(v) && Grows(s, v) && Grows(s0, v) && Described(s0, s', e.(k := VRELOCABLE(s.c.pc)))
    ensures Ok(Discharged(s)) && Extends(Discharged(s).c, v.c) && v.c.pc == s.c.pc < |v.c.ins| &&
        v.c.ins[s.c.pc].b == e.k.reg
    ensures Discharged(s).last == s.last && Discharged(s).c.pc == s.c.pc
  {
    var i := Instr(NOT, 0, e.k.reg, 0);
    var d := Discharged(s);
    DischargeSem(s);
    EmitSem(s, i, s');
    ViewOk(d, i, v);
    GrowsTrans(s, d, v);
    GrowsTrans(s0, s, v);
    assert Grows(s, s');
    StillDescribed(s0, s, s', e, VRELOCABLE(s.c.pc));
  }

  lemma NegateRegAt(s0: Snap, s: Snap, v: Snap, e: ED, x: Expr, n: int, env: Env, q: int, r: Regs)
    requires Ok(s0) && Ok(s) && Grows(s0, s) && LocalsBelow(x, MAXREGS) && SemAt(s0, s, e, x, n, -1, env, q, r)
    requires e.k.VNONRELOC? && Described(s0, s, e) && v.c.pc == s.c.pc < |v.c.ins| && v.c.ins[s.c.pc].b == e.k.reg
    requires var t := Run(s.c, env, q, r); t != Stuck ==> Run(v.c, env, q, r) == AtEnd(s, t)
    requires forall j, r, v', b :: j in e.T + e.F && JumpVal(s.c.ins, j, r, v', b) ==> JumpVal(v.c.ins, j, r, v', b)
    ensures NegatedAt(s0, v, e.(k := VRELOCABLE(s.c.pc)), x, n, env, q, r)
  {
    var t0 := Run(s0.c, env, q, r);
    var t := Run(s.c, env, q, r);
    if t0.Stop? && Outer(s0, t0.pc) {
      OuterStays(s0, s, t0.pc);
    } else if t0.Stop? && End(s0, t0.pc) && Eval(x, t0.r, env).Some? {
      var w := Eval(x, t0.r, env).value;
      if t.pc in e.T && JumpVal(s.c.ins, t.pc, t.r, w, true) {
        assert t.pc in e.T + e.F;
      } else if t.pc in e.F && JumpVal(s.c.ins, t.pc, t.r, w, false) {
        assert t.pc in e.T + e.F;
      }
    }
  }

  /** Code up to a just emitted instruction. */
  lemma ViewOk(d: Snap, i: Instr, v: Snap)
    requires Ok(d) && d.J == [] && v == d.(c := d.c.(ins := Append(d.c, i).ins))
    ensures Ok(v) && Grows(d, v) && Extends(d.c, v.c)
  {
    EntryExtends(d.c, v.c, d.last);
    ExtendSem(d, v);
  }

  /** removevalues on one of the lists. */
  ghost predicate Removed(s: Snap, s': Snap, l: seq<int>) {
    && (forall k :: 0 <= k < |l| ==> 0 <= l[k] < |s.c.ins| && l[k] in s.c.pend)
    && s' == s.(c := s.c.(ins := RemoveAll(s.c.ins, l)))
  }

  lemma RemovedFacts(s: Snap, s': Snap, l: seq<int>)
    requires Ok(s) && Removed(s, s', l)
    ensures Ok(s') && |s'.c.ins| == |s.c.ins| && forall t :: Entry(s'.c.ins, t) == Entry(s.c.ins, t)
    ensures forall j :: j in l ==> 0 <= j < |s.c.ins| && Ctl(s'.c.ins, j).op != TESTSET
    ensures forall i :: i in s.c.pend && 0 <= i < |s.c.ins| ==>
        s'.c.ins[i] == s.c.ins[i] && CtlPos(s'.c.ins, i) == CtlPos(s.c.ins, i)
    ensures forall i :: i in s.c.pend && 0 <= i < |s.c.ins| && (i !in l || Ctl(s.c.ins, i).op != TESTSET) ==>
        Ctl(s'.c.ins, i) == Ctl(s.c.ins, i)
    ensures forall p :: 0 <= p < |s.c.ins| && s.c.ins[p].op != TESTSET ==> s'.c.ins[p] == s.c.ins[p]
  {
    RemoveAllKeeps(s.c, s.last, l);
    forall t ensures Entry(s'.c.ins, t) == Entry(s.c.ins, t) {
      RemoveAllEntry(s.c, s.last, l, t);
    }
    forall j | j in l ensures 0 <= j < |s.c.ins| && Ctl(s'.c.ins, j).op != TESTSET {
      var k :| 0 <= k < |l| && l[k] == j;
    }
  }

  lemma RemovedGrows(s0: Snap, s: Snap, s': Snap, l: seq<int>)
    requires Ok(s0) && Ok(s) && Grows(s0, s) && Removed(s, s', l) && forall j :: j in l ==> s0.c.pc <= j
    ensures Ok(s') && Grows(s0, s')
  {
    RemovedFacts(s, s', l);
    forall p | Outer(s0, p) && 0 <= p < s0.c.pc
      ensures s'.c.ins[p] == s0.c.ins[p] && CtlPos(s'.c.ins, p) == CtlPos(s0.c.ins, p) &&
          Ctl(s'.c.ins, p) == Ctl(s0.c.ins, p)
    {
      assert p !in l;
    }
  }

  lemma RemovedDescribed(s0: Snap, s: Snap, s': Snap, l: seq<int>, e: ED)
    requires Ok(s) && Described(s0, s, e) && Removed(s, s', l)
    ensures Described(s0, s', e)
  {
    RemovedFacts(s, s', l);
  }

  lemma {:induction false} RemoveAllEntry(c: Code, last: int, l: seq<int>, t: int)
    requires WF(c, last) && forall k :: 0 <= k < |l| ==> 0 <= l[k] < |c.ins| && l[k] in c.pend
    ensures Entry(RemoveAll(c.ins, l), t) == Entry(c.ins, t)
    decreases |l|
  {
    if l != [] {
      RemoveKeeps(c, last, l[0]);
      RemoveAllEntry(c.(ins := PatchTestReg(c.ins, l[0], NO_REG)), last, l[1..], t);
    }
  }

  lemma SwapAt(s0: Snap, v: Snap, v': Snap, e: ED, x: Expr, n: int, env: Env, q: int, r: Regs)
    requires LocalsBelow(Not(x), MAXREGS) && NegatedAt(s0, v, e, x, n, env, q, r)
    requires Run(v'.c, env, q, r) == Run(v.c, env, q, r) && v'.c.pc == v.c.pc && v'.J == v.J && v'.c.ks == v.c.ks &&
        |v'.c.ins| == |v.c.ins|
    requires forall j :: j in e.T + e.F ==> 0 <= j < |v'.c.ins| && Ctl(v'.c.ins, j).op != TESTSET
    requires e.k.VRELOCABLE? ==> 0 <= e.k.pc < |v.c.ins| && v'.c.ins[e.k.pc] == v.c.ins[e.k.pc]
    ensures SemAt(s0, v', ED(e.k, e.F, e.T), Not(x), n, -1, env, q, r)
  {
    var t0 := Run(s0.c, env, q, r);
    var t := Run(v.c, env, q, r);
    if t0.Stop? && End(s0, t0.pc) && Eval(x, t0.r, env).Some? {
      var w := Eval(x, t0.r, env).value;
      if t.pc in e.T && JumpVal(v.c.ins, t.pc, t.r, w, true) {
        assert t.pc in e.T + e.F;
      } else if t.pc in e.F && JumpVal(v.c.ins, t.pc, t.r, w, false) {
        assert t.pc in e.T + e.F;
      }
    }
  }

  /** The lists change places and their jumps no longer carry values. */
  lemma SwapSem(s0: Snap, s: Snap, s1: Snap, s': Snap, e: ED, x: Expr, n: int)
    requires Negated(s0, s, e, x, n) && LocalsBelow(Not(x), MAXREGS)
    requires Removed(s, s1, e.T) && Removed(s1, s', e.F)
    ensures Coded(s0, s', ED(e.k, e.F, e.T), Not(x), n, -1)
  {
    var e' := ED(e.k, e.F, e.T);
    var v, v1, v' := View(s, e.k), View(s1, e.k), View(s', e.k);
    assert forall j :: j in e.T || j in e.F ==> s0.c.pc <= j;
    assert Removed(v, v1, e.T) && Removed(v1, v', e.F);
    RemovedGrows(s0, v, v1, e.T);
    RemovedGrows(s0, v1, v', e.F);
    SwapDescribed(s0, s, s1, s', e);
    SwapJumps(s0, s, s1, s', e);
    forall env: Env, q: int, r: Regs | q <= s0.last && Entry(s0.c.ins, q)
      ensures SemAt(s0, v', e', Not(x), n, -1, env, q, r) {
      assert NegatedAt(s0, v, e, x, n, env, q, r);
      RemoveAllRun(v.c, v.last, e.T, env, q, r);
      RemoveAllRun(v1.c, v1.last, e.F, env, q, r);
      SwapAt(s0, v, v', e, x, n, env, q, r);
    }
  }

  lemma SwapDescribed(s0: Snap, s: Snap, s1: Snap, s': Snap, e: ED)
    requires Ok(s) && Described(s0, s, e) && Removed(s, s1, e.T) && Removed(s1, s', e.F)
    ensures Ok(s1) && Ok(s') && Described(s0, s', ED(e.k, e.F, e.T))
  {
    RemovedFacts(s, s1, e.T);
    RemovedFacts(s1, s', e.F);
    RemovedDescribed(s0, s, s1, e.T, e);
    RemovedDescribed(s0, s1, s', e.F, e);
  }

  lemma SwapJumps(s0: Snap, s: Snap, s1: Snap, s': Snap, e: ED)
    requires Ok(s) && Described(s0, s, e) && Removed(s, s1, e.T) && Removed(s1, s', e.F)
    ensures |s'.c.ins| == |s.c.ins|
    ensures forall j :: j in e.T + e.F ==> 0 <= j < |s'.c.ins| && Ctl(s'.c.ins, j).op != TESTSET
    ensures e.k.VRELOCABLE? ==> 0 <= e.k.pc < |s.c.ins| && s'.c.ins[e.k.pc] == s.c.ins[e.k.pc]
  {
    RemovedFacts(s, s1, e.T);
    RemovedFacts(s1, s', e.F);
    forall j | j in e.T ensures 0 <= j < |s'.c.ins| && Ctl(s'.c.ins, j).op != TESTSET {
      assert j in s1.c.pend;
    }
  }

  // ---------- comparisons ----------

  /** The RK operand of a value that is a constant or in a register. */
  function OperandOf(k: ExpKind): int {
    match k
    case VK(i) => i + BITRK
    case VNONRELOC(r) => r
    case _ => -1
  }

  ghost predicate IsOperand(k: ExpKind, c: Code) {
    (k.VK? && 0 <= k.info <= MAXINDEXRK && k.info < |c.ks|) || (k.VNONRELOC? && 0 <= k.reg < MAXREGS)
  }

  lemma OperandValue(k: ExpKind, c: Code, r: Regs)
    requires IsOperand(k, c)
    ensures 0 <= OperandOf(k) <= MAXARG_B && RK(OperandOf(k), r, c.ks) == ValueOf(c, k, r)
  {
  }

  /** The opcode, the operand order and the condition codecomp uses. */
  function CompOp(op: CmpOp): Op {
    match op case OpEq => EQ case OpNe => EQ case OpLt => LT case OpGt => LT case OpLe => LE case OpGe => LE
  }

  function Swapped(op: CmpOp): bool {
    op.OpGt? || op.OpGe?
  }

  function CompInstr(op: CmpOp, o1: ArgBC, o2: ArgBC): Instr {
    if Swapped(op) then Instr(CompOp(op), 1, o2, o1) else Instr(CompOp(op), if op.OpNe? then 0 else 1, o1, o2)
  }

  /** Both operands coded: a run that falls off the end has both values where their kinds say. */
  ghost predicate OperandsAt(s0: Snap, s: Snap, k1: ExpKind, k2: ExpKind, x: Expr, y: Expr, n: int, env: Env, q: int,
          r: Regs)
    requires LocalsBelow(x, MAXREGS) && LocalsBelow(y, MAXREGS)
  {
    var t0 := Run(s0.c, env, q, r);
    var t := Run(s.c, env, q, r);
    && Undisturbed(s0, t0, t)
    && (t0.Stop? && End(s0, t0.pc) ==>
          match (Eval(x, t0.r, env), Eval(y, t0.r, env))
          case (Some(v), Some(w)) => t.Stop? && End(s, t.pc) && AgreeBut(t0.r, t.r, n, -1) &&
            ValueOf(s.c, k1, t.r) == Some(v) && ValueOf(s.c, k2, t.r) == Some(w)
          case _ => t == Threw)
  }

  lemma BothOperands(s0: Snap, s1: Snap, s: Snap, k1: ExpKind, k2: ExpKind, x: Expr, y: Expr, n: int, n1: int,
          env: Env, q: int, r: Regs)
    requires Ok(s0) && Ok(s1) && Grows(s0, s1) && Grows(s1, s) && LocalsBelow(x, MAXREGS) && LocalsBelow(y, n) &&
        LocalsBelow(y, MAXREGS) && n <= n1 && n <= MAXREGS
    requires SemAt(s0, s1, ED(k1, [], []), x, n, -1, env, q, r) && SemAt(s1, s, ED(k2, [], []), y, n1, -1, env, q, r)
    requires IsOperand(k1, s1.c) && (k1.VNONRELOC? ==> k1.reg < n1) && IsOperand(k2, s.c)
    ensures OperandsAt(s0, s, k1, k2, x, y, n, env, q, r)
  {
    var t0 := Run(s0.c, env, q, r);
    var t1 := Run(s1.c, env, q, r);
    if t0.Stop? && Outer(s0, t0.pc) {
      OuterStays(s0, s1, t0.pc);
    } else if t0.Stop? && End(s0, t0.pc) && Eval(x, t0.r, env).Some? {
      var v := Eval(x, t0.r, env).value;
      EvalAgree(y, t0.r, t1.r, n, env);
      FirstKept(s1, s, k1, n1, v, t1.r);
    }
  }

  /** The first operand is where it was once the second has been coded. */
  lemma FirstKept(s1: Snap, s: Snap, k1: ExpKind, n1: int, v: Value, r: Regs)
    requires Grows(s1, s) && IsOperand(k1, s1.c) && (k1.VNONRELOC? ==> k1.reg < n1)
    ensures forall r': Regs :: ValueOf(s1.c, k1, r) == Some(v) && AgreeBut(r, r', n1, -1) ==>
        ValueOf(s.c, k1, r') == Some(v)
  {
  }

  /** The comparison's two outcomes, whichever way round it is coded. */
  ghost predicate ComparedAt(s: Snap, t: Res, t': Res, op: CmpOp, v: Value, w: Value, env: Env) {
    && Undisturbed(s, t, t')
    && (t.Stop? && End(s, t.pc) ==>
          match Compare(op, v, w, env)
          case None => t' == Threw
          case Some(b) => t' == Stop(if b then s.c.pc + 1 else s.c.pc + 2, t.r))
  }

  lemma CompareOutcome(s: Snap, s': Snap, op: CmpOp, k1: ExpKind, k2: ExpKind, env: Env, q: int, r: Regs, v: Value,
          w: Value)
    requires Ok(s) && JpcFits(s) && q <= s.last && Entry(s.c.ins, q) && IsOperand(k1, s.c) && IsOperand(k2, s.c)
    requires 0 <= OperandOf(k1) <= MAXARG_B && 0 <= OperandOf(k2) <= MAXARG_B
    requires s' == Tested(s, CompInstr(op, OperandOf(k1), OperandOf(k2)))
    requires var t := Run(s.c, env, q, r);
      t.Stop? && End(s, t.pc) ==> ValueOf(s.c, k1, t.r) == Some(v) && ValueOf(s.c, k2, t.r) == Some(w)
    ensures ComparedAt(s, Run(s.c, env, q, r), Run(s'.c, env, q, r), op, v, w, env)
  {
    var t := Run(s.c, env, q, r);
    var i := CompInstr(op, OperandOf(k1), OperandOf(k2));
    if t.Stop? {
      OperandValue(k1, s.c, t.r);
      OperandValue(k2, s.c, t.r);
    }
    if Swapped(op) {
      CompareRun(s, i, s', env, q, r, w, v);
    } else {
      CompareRun(s, i, s', env, q, r, v, w);
    }
  }

  lemma CompareAt(s0: Snap, s: Snap, s': Snap, op: CmpOp, k1: ExpKind, k2: ExpKind, x: Expr, y: Expr, n: int, env: Env,
          q: int, r: Regs)
    requires Ok(s0) && Grows(s0, s) && LocalsBelow(Cmp(op, x, y), MAXREGS) &&
        OperandsAt(s0, s, k1, k2, x, y, n, env, q, r)
    requires s'.c.pc == s.c.pc + 2
    requires forall v, w ::
      (var t := Run(s.c, env, q, r); t.Stop? && End(s, t.pc) ==>
        ValueOf(s.c, k1, t.r) == Some(v) && ValueOf(s.c, k2, t.r) == Some(w))
      ==> ComparedAt(s, Run(s.c, env, q, r), Run(s'.c, env, q, r), op, v, w, env)
    ensures SemAt(s0, s', ED(VJMP(s.c.pc + 1), [], []), Cmp(op, x, y), n, -1, env, q, r)
  {
    var t0 := Run(s0.c, env, q, r);
    var t := Run(s.c, env, q, r);
    if t0.Stop? && End(s0, t0.pc) && Eval(x, t0.r, env).Some? && Eval(y, t0.r, env).Some? {
      assert ComparedAt(s, t, Run(s'.c, env, q, r), op, Eval(x, t0.r, env).value, Eval(y, t0.r, env).value, env);
    } else if t0.Stop? && Outer(s0, t0.pc) {
      OuterStays(s0, s, t0.pc);
      assert ComparedAt(s, t, Run(s'.c, env, q, r), op, Nil, Nil, env);
    } else if t == Threw {
      assert ComparedAt(s, t, Run(s'.c, env, q, r), op, Nil, Nil, env);
    }
  }

  lemma CompareOk(s0: Snap, s: Snap, i: Instr, s': Snap)
    requires Ok(s0) && Ok(s) && Grows(s0, s) && JpcFits(s) && i.op in [EQ, LT, LE] && i.a in [0, 1] &&
        s' == Tested(s, i)
    ensures Ok(s') && Grows(s0, s')
  {
    TestSem(s, i, s');
    GrowsTrans(s0, s, s');
  }

  lemma CompareDescribed(s0: Snap, s: Snap, i: Instr, s': Snap)
    requires Ok(s) && s0.c.pc <= s.c.pc && JpcFits(s) && i.op in [EQ, LT, LE] && i.a in [0, 1] && s' == Tested(s, i)
    ensures Described(s0, s', ED(VJMP(s.c.pc + 1), [], [])) && s'.c.pc == s.c.pc + 2
  {
    TestFacts(s, i, s');
  }

  lemma AllOutcomes(s: Snap, s': Snap, op: CmpOp, k1: ExpKind, k2: ExpKind, env: Env, q: int, r: Regs)
    requires Ok(s) && JpcFits(s) && q <= s.last && Entry(s.c.ins, q) && IsOperand(k1, s.c) && IsOperand(k2, s.c)
    requires 0 <= OperandOf(k1) <= MAXARG_B && 0 <= OperandOf(k2) <= MAXARG_B
    requires s' == Tested(s, CompInstr(op, OperandOf(k1), OperandOf(k2)))
    ensures forall v, w ::
      (var t := Run(s.c, env, q, r); t.Stop? && End(s, t.pc) ==>
        ValueOf(s.c, k1, t.r) == Some(v) && ValueOf(s.c, k2, t.r) == Some(w))
      ==> ComparedAt(s, Run(s.c, env, q, r), Run(s'.c, env, q, r), op, v, w, env)
  {
    forall v, w | (var t := Run(s.c, env, q, r); t.Stop? && End(s, t.pc) ==>
      ValueOf(s.c, k1, t.r) == Some(v) && ValueOf(s.c, k2, t.r) == Some(w))
      ensures ComparedAt(s, Run(s.c, env, q, r), Run(s'.c, env, q, r), op, v, w, env)
    {
      CompareOutcome(s, s', op, k1, k2, env, q, r, v, w);
    }
  }

  /** The code with the test is well-formed and goes on from the code before. */
  lemma CompareShape(s0: Snap, s1: Snap, s: Snap, s': Snap, op: CmpOp, k1: ExpKind, k2: ExpKind, x: Expr, y: Expr,
          n: int, n1: int)
    requires Coded(s0, s1, ED(k1, [], []), x, n, -1) && Coded(s1, s, ED(k2, [], []), y, n1, -1) && JpcFits(s)
    requires IsOperand(k1, s1.c) && IsOperand(k2, s.c)
    requires 0 <= OperandOf(k1) <= MAXARG_B && 0 <= OperandOf(k2) <= MAXARG_B
    requires s' == Tested(s, CompInstr(op, OperandOf(k1), OperandOf(k2)))
    ensures Ok(s0) && Ok(s') && Grows(s0, s) && Grows(s0, s') && IsOperand(k1, s.c)
    ensures Described(s0, s', ED(VJMP(s.c.pc + 1), [], []))
  {
    GrowsTrans(s0, s1, s);
    CompareOk(s0, s, CompInstr(op, OperandOf(k1), OperandOf(k2)), s');
    CompareDescribed(s0, s, CompInstr(op, OperandOf(k1), OperandOf(k2)), s');
  }

  /** codecomp */
  lemma CompareSem(s0: Snap, s1: Snap, s: Snap, s': Snap, op: CmpOp, k1: ExpKind, k2: ExpKind, x: Expr, y: Expr,
          n: int, n1: int)
    requires Coded(s0, s1, ED(k1, [], []), x, n, -1) && Coded(s1, s, ED(k2, [], []), y, n1, -1)
    requires LocalsBelow(Cmp(op, x, y), MAXREGS) && LocalsBelow(y, n) && n <= n1 && n <= MAXREGS && JpcFits(s)
    requires IsOperand(k1, s1.c) && (k1.VNONRELOC? ==> k1.reg < n1) && IsOperand(k2, s.c)
    requires 0 <= OperandOf(k1) <= MAXARG_B && 0 <= OperandOf(k2) <= MAXARG_B
    requires s' == Tested(s, CompInstr(op, OperandOf(k1), OperandOf(k2)))
    ensures Coded(s0, s', ED(VJMP(s.c.pc + 1), [], []), Cmp(op, x, y), n, -1)
  {
    var e := ED(VJMP(s.c.pc + 1), [], []);
    CompareShape(s0, s1, s, s', op, k1, k2, x, y, n, n1);
    forall env: Env, q: int, r: Regs | q <= s0.last && Entry(s0.c.ins, q)
      ensures SemAt(s0, s', e, Cmp(op, x, y), n, -1, env, q, r) {
      CompareEach(s0, s1, s, s', op, k1, k2, x, y, n, n1, env, q, r);
    }
  }

  lemma CompareEach(s0: Snap, s1: Snap, s: Snap, s': Snap, op: CmpOp, k1: ExpKind, k2: ExpKind, x: Expr, y: Expr,
          n: int, n1: int, env: Env, q: int, r: Regs)
    requires Coded(s0, s1, ED(k1, [], []), x, n, -1) && Coded(s1, s, ED(k2, [], []), y, n1, -1) && Grows(s0, s)
    requires LocalsBelow(Cmp(op, x, y), MAXREGS) && LocalsBelow(y, n) && n <= n1 && n <= MAXREGS && JpcFits(s)
    requires IsOperand(k1, s1.c) && (k1.VNONRELOC? ==> k1.reg < n1) && IsOperand(k2, s.c) && IsOperand(k1, s.c)
    requires 0 <= OperandOf(k1) <= MAXARG_B && 0 <= OperandOf(k2) <= MAXARG_B
    requires s' == Tested(s, CompInstr(op, OperandOf(k1), OperandOf(k2)))
    requires q <= s0.last && Entry(s0.c.ins, q)
    ensures SemAt(s0, s', ED(VJMP(s.c.pc + 1), [], []), Cmp(op, x, y), n, -1, env, q, r)
  {
    BothOperands(s0, s1, s, k1, k2, x, y, n, n1, env, q, r);
    AllOutcomes(s, s', op, k1, k2, env, q, r);
    CompareAt(s0, s, s', op, k1, k2, x, y, n, env, q, r);
  }
}
