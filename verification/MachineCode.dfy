/**
  Short pieces of code as the words they are stored in, and what running them does: the opcodes' numbers, fields and
  effects together (include/uvm/lopcodes.h, src/uvm/lvm.cpp).
 */
module MachineCode {
  import opened Options
  import opened Opcodes
  import opened LuaMachine

  function Cut(words: seq<Word>): seq<Instr> {
    seq(|words|, i requires 0 <= i < |words| => Unpack(words[i]))
  }

  predicate IsFalse(v: Value) {
    v == Nil || v == Bool(false)
  }

  lemma OneStep(c: Code, env: Env, q: int, r: Regs, q': int, r': Regs)
    requires 0 <= q < c.pc <= |c.ins| && c.pend == {} && q < q' && Step(c.ins, c.ks, env, q, r) == Next(q', r')
    ensures Run(c, env, q, r) == Run(c, env, q', r')
    ensures q' == c.pc ==> Run(c, env, q, r) == Stop(q', r')
  {
  }

  lemma JumpOne(c: Code, env: Env, q: int, r: Regs)
    requires 0 <= q < c.pc <= |c.ins| && c.pend == {} && c.ins[q] == Unpack(0x8000_001e)
    ensures Run(c, env, q, r) == Run(c, env, q + 2, r)
  {
    assert c.ins[q] == Instr(JMP, 0, 256, 0) && SBx(c.ins[q]) == 1;
    OneStep(c, env, q, r, q + 2, r);
  }

  /** TESTSET 2 0 0, JMP 1, MOVE 2 1: register 2 becomes `R0 and R1`. */
  lemma Conjunction(c: Code, env: Env, r: Regs)
    requires c.ins == Cut([0xa3, 0x8000_001e, 0x80_0080]) && c.pc == 3 && c.pend == {}
    ensures Run(c, env, 0, r) == Stop(3, r[2 := if IsFalse(r[0]) then r[0] else r[1]])
  {
    assert c.ins[0] == Instr(TESTSET, 2, 0, 0) && c.ins[2] == Instr(MOVE, 2, 1, 0);
    if IsFalse(r[0]) {
      OneStep(c, env, 0, r, 1, r[2 := r[0]]);
      JumpOne(c, env, 1, r[2 := r[0]]);
    } else {
      OneStep(c, env, 0, r, 2, r);
      OneStep(c, env, 2, r, 3, r[2 := r[1]]);
    }
  }

  /** TEST 0 1, JMP 1, MOVE 0 1: register 0 becomes `R0 or R1`. */
  lemma Disjunction(c: Code, env: Env, r: Regs)
    requires c.ins == Cut([0x4022, 0x8000_001e, 0x80_0000]) && c.pc == 3 && c.pend == {}
    ensures Run(c, env, 0, r) == Stop(3, if IsFalse(r[0]) then r[0 := r[1]] else r)
  {
    assert c.ins[0] == Instr(TEST, 0, 0, 1) && c.ins[2] == Instr(MOVE, 0, 1, 0);
    if IsFalse(r[0]) {
      OneStep(c, env, 0, r, 2, r);
      OneStep(c, env, 2, r, 3, r[0 := r[1]]);
    } else {
      OneStep(c, env, 0, r, 1, r);
      JumpOne(c, env, 1, r);
    }
  }

  /** EQ, LT or LE 1 0 K0, JMP 1, LOADBOOL 1 0 1, LOADBOOL 1 1 0: register 1 becomes `R0 op K0`. */
  lemma Comparison(c: Code, op: Op, env: Env, r: Regs)
    requires op == 31 || op == 32 || op == 33
    requires c.ins == Cut([op + 0x40_0040, 0x8000_001e, 0x4043, 0x80_0043]) && c.pc == 4 && c.pend == {} && c.ks != []
    ensures var name := if op == 31 then EQ else if op == 32 then LT else LE;
      Run(c, env, 0, r) == match env.cmp(name, r[0], c.ks[0])
                           case None => Threw
                           case Some(b) => Stop(4, r[1 := Bool(b)])
  {
    assert c.ins[0] == Instr(op, 1, 0, 256);
    assert c.ins[2] == Instr(LOADBOOL, 1, 0, 1) && c.ins[3] == Instr(LOADBOOL, 1, 1, 0);
    match env.cmp(op, r[0], c.ks[0])
    case None =>
    case Some(b) =>
      if b {
        OneStep(c, env, 0, r, 1, r);
        JumpOne(c, env, 1, r);
        OneStep(c, env, 3, r, 4, r[1 := Bool(true)]);
      } else {
        OneStep(c, env, 0, r, 2, r);
        OneStep(c, env, 2, r, 4, r[1 := Bool(false)]);
      }
  }

  /** LOADNIL 0 1: registers 0 and 1 are cleared. */
  lemma Clearing(c: Code, env: Env, r: Regs)
    requires c.ins == Cut([0x80_0004]) && c.pc == 1 && c.pend == {}
    ensures Run(c, env, 0, r) == Stop(1, r[0 := Nil][1 := Nil])
  {
    assert c.ins[0] == Instr(LOADNIL, 0, 1, 0);
    assert SetNils(r, 0, 1) == r[0 := Nil][1 := Nil];
    OneStep(c, env, 0, r, 1, SetNils(r, 0, 1));
  }

  /** LOADK 2 3: register 2 becomes K3. */
  lemma Loading(c: Code, env: Env, r: Regs, v: Value)
    requires c.ins == Cut([0xc081]) && c.pc == 1 && c.pend == {} && |c.ks| > 3 && c.ks[3] == v
    ensures Run(c, env, 0, r) == Stop(1, r[2 := v])
  {
    var i := c.ins[0];
    assert i == Instr(LOADK, 2, 0, 3) && Bx(i) == 3;
    OneStep(c, env, 0, r, 1, r[2 := v]);
  }

  /** NOT 4 2: register 4 becomes `not R2`. */
  lemma Negating(c: Code, env: Env, r: Regs)
    requires c.ins == Cut([0x100_011b]) && c.pc == 1 && c.pend == {}
    ensures Run(c, env, 0, r) == Stop(1, r[4 := Bool(IsFalse(r[2]))])
  {
    assert c.ins[0] == Instr(NOT, 4, 2, 0);
    OneStep(c, env, 0, r, 1, r[4 := Bool(IsFalse(r[2]))]);
  }

  /** LOADKX 3 with EXTRAARG 1. */
  lemma LoadingFar(c: Code, env: Env, r: Regs)
    requires c.ins == Cut([0xc2, 0x6e]) && c.pc == 2 && c.pend == {} && |c.ks| == 2
    ensures Run(c, env, 0, r) == Stop(2, r[3 := c.ks[1]])
  {
    assert c.ins[0] == Instr(LOADKX, 3, 0, 0) && c.ins[1] == Instr(EXTRAARG, 1, 0, 0) && Ax(c.ins[1]) == 1;
    OneStep(c, env, 0, r, 2, r[3 := c.ks[1]]);
  }

  // ---------- the values of expressions ----------

  /** Comparing integers, where the machine compares them as integers. */
  lemma IntegersCompared(env: Env, m: int, n: int)
    requires env.cmp(EQ, Int(m), Int(n)) == Some(m == n)
    requires env.cmp(LT, Int(m), Int(n)) == Some(m < n) && env.cmp(LT, Int(n), Int(m)) == Some(n < m)
    requires env.cmp(LE, Int(m), Int(n)) == Some(m <= n) && env.cmp(LE, Int(n), Int(m)) == Some(n <= m)
    ensures Compare(OpEq, Int(m), Int(n), env) == Some(m == n) && Compare(OpNe, Int(m), Int(n), env) == Some(m != n)
    ensures Compare(OpLt, Int(m), Int(n), env) == Some(m < n) && Compare(OpLe, Int(m), Int(n), env) == Some(m <= n)
    ensures Compare(OpGt, Int(m), Int(n), env) == Some(m > n) && Compare(OpGe, Int(m), Int(n), env) == Some(m >= n)
  {
  }

  /** The connectives on the truth of their operands; the second one counts only where the first does not decide. */
  lemma ConnectivesAre(x: Expr, y: Expr, r: Regs, env: Env)
    requires LocalsBelow(x, MAXREGS) && LocalsBelow(y, MAXREGS) && Eval(x, r, env).Some?
    ensures var v := Eval(x, r, env).value;
      && Eval(Not(x), r, env) == Some(Bool(IsFalse(v)))
      && (if IsFalse(v) then Eval(And(x, y), r, env) == Some(v) && Eval(Or(x, y), r, env) == Eval(y, r, env)
          else Eval(And(x, y), r, env) == Eval(y, r, env) && Eval(Or(x, y), r, env) == Some(v))
  {
  }
}
