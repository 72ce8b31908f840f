/**
  Jump lists (src/uvm/lcode.cpp:97-226).  A list of pending jumps is threaded through the sBx fields
  of the jumps themselves: each holds the offset to the next member, and NO_JUMP ends the list.

  The functions here say what each list operation does to the instruction vector; the lemmas say
  what that does to every run of the code.
 */
module JumpLists {
  import opened Opcodes
  import opened LuaMachine

  // ---------- reading and writing one jump ----------

  function GetJump(ins: seq<Instr>, pc: int): int
    requires 0 <= pc < |ins|
  {
    if SBx(ins[pc]) == NO_JUMP then NO_JUMP else pc + 1 + SBx(ins[pc])
  }

  predicate Fits(j: int, dest: int) {
    -MAXARG_SBX <= dest - (j + 1) <= MAXARG_SBX
  }

  function FixJump(ins: seq<Instr>, j: int, dest: int): (r: seq<Instr>)
    requires 0 <= j < |ins| && Fits(j, dest)
    ensures |r| == |ins| && r[j].op == ins[j].op && r[j].a == ins[j].a && SBx(r[j]) == dest - (j + 1)
    ensures forall q :: 0 <= q < |ins| && q != j ==> r[q] == ins[q]
  {
    ins[j := WithSBx(ins[j].op, ins[j].a, dest - (j + 1))]
  }

  /** The instruction that decides whether jump j is taken: the test before it, or the jump itself. */
  function CtlPos(ins: seq<Instr>, j: int): int
    requires 0 <= j < |ins|
  {
    if j >= 1 && TestMode(ins[j - 1].op) then j - 1 else j
  }

  function Ctl(ins: seq<Instr>, j: int): Instr
    requires 0 <= j < |ins|
  {
    ins[CtlPos(ins, j)]
  }

  /** The control instruction after patchtestreg has given its TESTSET the register `reg`. */
  function TestInto(i: Instr, reg: ArgA): Instr {
    if reg != NO_REG && reg != i.b then i.(a := reg) else Instr(TEST, i.b % 256, 0, i.c)  // B is a register: it fits A
  }

  function PatchTestReg(ins: seq<Instr>, j: int, reg: ArgA): (r: seq<Instr>)
    requires 0 <= j < |ins|
    ensures |r| == |ins| && forall q :: 0 <= q < |ins| && q != CtlPos(ins, j) ==> r[q] == ins[q]
  {
    if Ctl(ins, j).op == TESTSET then ins[CtlPos(ins, j) := TestInto(Ctl(ins, j), reg)] else ins
  }

  /** Where patchlistaux sends jump j. */
  function Target(ins: seq<Instr>, j: int, vtarget: int, dtarget: int): int
    requires 0 <= j < |ins|
  {
    if Ctl(ins, j).op == TESTSET then vtarget else dtarget
  }

  function PatchOne(ins: seq<Instr>, j: int, vtarget: int, reg: ArgA, dtarget: int): (r: seq<Instr>)
    requires 0 <= j < |ins|
    ensures |r| == |ins|
  {
    if Fits(j, Target(ins, j, vtarget, dtarget)) then FixJump(PatchTestReg(ins, j, reg), j,
      Target(ins, j, vtarget, dtarget))
    else ins  // never used: the source throws
  }

  /** What patchlistaux does to a list. */
  function PatchAll(ins: seq<Instr>, s: seq<int>, vtarget: int, reg: ArgA, dtarget: int): (r: seq<Instr>)
    requires forall k :: 0 <= k < |s| ==> 0 <= s[k] < |ins|
    ensures |r| == |ins|
    decreases |s|
  {
    if s == [] then ins else PatchAll(PatchOne(ins, s[0], vtarget, reg, dtarget), s[1..], vtarget, reg, dtarget)
  }

  /** i is what the instruction at p becomes when the jumps of s are patched: members lead to vtarget or dtarget
      by their control, a TESTSET that controls one gets the register or becomes a TEST. */
  ghost predicate PatchedAt(ins: seq<Instr>, s: seq<int>, vtarget: int, reg: ArgA, dtarget: int, p: int, i: Instr)
    requires 0 <= p < |ins|
  {
    if p in s then
      i.op == JMP && i.a == ins[p].a && p + 1 + SBx(i) == Target(ins, p, vtarget, dtarget)
    else
      i == if p + 1 in s && ins[p].op == TESTSET then TestInto(ins[p], reg) else ins[p]
  }

  // ---------- whole lists ----------

  ghost predicate NoDup(s: seq<int>) {
    forall i, k :: 0 <= i < k < |s| ==> s[i] != s[k]
  }

  ghost predicate Disjoint(s: seq<int>, t: seq<int>) {
    forall j :: j in s ==> j !in t
  }

  /** From `head`, the links visit exactly the jumps of s, in order. */
  ghost predicate IsList(ins: seq<Instr>, head: int, s: seq<int>) {
    true == (
    && NoDup(s)
    && head == (if s == [] then NO_JUMP else s[0])
    && (forall k :: 0 <= k < |s| ==> 0 <= s[k] < |ins|)
    && (forall k :: 0 <= k < |s| ==> Linked(ins, s, k))
    )
  }

  /** Member k is a jump whose link is the next member. */
  ghost predicate Linked(ins: seq<Instr>, s: seq<int>, k: int)
    requires 0 <= k < |s| && 0 <= s[k] < |ins|
  {
    ins[s[k]].op == JMP && GetJump(ins, s[k]) == (if k + 1 < |s| then s[k + 1] else NO_JUMP)
  }

  /** Lists survive any change of code that leaves their jumps alone. */
  lemma ListKept(ins: seq<Instr>, ins': seq<Instr>, head: int, s: seq<int>)
    requires IsList(ins, head, s)
    requires forall j :: j in s ==> 0 <= j < |ins| && j < |ins'| && ins'[j] == ins[j]
    ensures IsList(ins', head, s)
  {
    forall k | 0 <= k < |s| ensures 0 <= s[k] < |ins'| && Linked(ins', s, k) {
      assert s[k] in s && Linked(ins, s, k);
    }
  }

  /** Fixing the last link of the first list to the head of the second makes one list of both (luaK_concat). */
  lemma ConcatLists(ins: seq<Instr>, h1: int, s1: seq<int>, h2: int, s2: seq<int>)
    requires IsList(ins, h1, s1) && IsList(ins, h2, s2) && s1 != [] && s2 != []
    requires Disjoint(s1, s2) && 0 <= s1[|s1| - 1] < |ins|
    requires Fits(s1[|s1| - 1], h2)
    ensures IsList(FixJump(ins, s1[|s1| - 1], h2), h1, s1 + s2)
  {
    var last := s1[|s1| - 1];
    var ins' := FixJump(ins, last, h2);
    assert last in s1;
    forall k | 0 <= k < |s1 + s2|
      ensures 0 <= (s1 + s2)[k] < |ins'| && Linked(ins', s1 + s2, k)
    {
      if k < |s1| {
        assert s1[k] in s1 && Linked(ins, s1, k);
      } else {
        assert s2[k - |s1|] in s2 && Linked(ins, s2, k - |s1|);
      }
    }
    assert NoDup(s1 + s2) by {
      forall i, k | 0 <= i < k < |s1 + s2| ensures (s1 + s2)[i] != (s1 + s2)[k] {
        if i < |s1| && |s1| <= k {
          assert s1[i] in s1 && s2[k - |s1|] in s2;
        }
      }
    }
  }

  // ---------- well-formed code ----------

  /** Position t is not the jump of a test, so it can be entered from elsewhere. */
  ghost predicate Entry(ins: seq<Instr>, t: int) {
    !(1 <= t <= |ins| && TestMode(ins[t - 1].op))
  }

  /** What holds at each instruction of well-formed code: a test is followed by its jump, TESTSET
      lacks its register exactly while its jump is pending, and no finished jump or skip goes past
      the last label or into the middle of a test. */
  ghost predicate Slot(c: Code, last: int, q: int)
    requires 0 <= q < c.pc <= |c.ins|
  {
    var i := c.ins[q];
    && (TestMode(i.op) ==> q + 1 < c.pc && c.ins[q + 1].op == JMP)
    && (i.op == TESTSET ==> i.b < MAXREGS && (q + 1 in c.pend <==> i.a == NO_REG))
    && (i.op == LOADKX ==> q + 1 < c.pc && c.ins[q + 1].op == EXTRAARG)
    && (i.op == LOADNIL ==> i.a + i.b < MAXREGS)
    && (q in c.pend ==> i.op == JMP && i.a == 0)
    && (i.op == JMP && q !in c.pend ==> q + 1 + SBx(i) <= last && Entry(c.ins, q + 1 + SBx(i)))
    && (i.op == LOADBOOL && i.c != 0 ==> q + 2 <= last && Entry(c.ins, q + 2))
  }

  ghost predicate WF(c: Code, last: int) {
    && last <= c.pc <= |c.ins|
    && (forall j :: j in c.pend ==> 0 <= j < c.pc)
    && (forall q :: 0 <= q < c.pc ==> Slot(c, last, q))
  }

  // ---------- what changes of code do to runs ----------

  lemma StepSame(ins: seq<Instr>, ins': seq<Instr>, ks: seq<Value>, ks': seq<Value>, env: Env, q: int, r: Regs)
    requires 0 <= q < |ins| && q < |ins'| && ins[q] == ins'[q] && ks <= ks'
    requires ins[q].op == LOADKX ==> q + 1 < |ins| && q + 1 < |ins'| && ins[q + 1] == ins'[q + 1]
    ensures Step(ins, ks, env, q, r) != Wild ==> Step(ins', ks', env, q, r) == Step(ins, ks, env, q, r)
  {
  }

  /** c' is c with more code after it. */
  ghost predicate Extends(c: Code, c': Code) {
    && c.pc <= c'.pc <= |c'.ins| && c.pc <= |c.ins|
    && c'.ins[..c.pc] == c.ins[..c.pc]
    && c.ks <= c'.ks
    && (forall p :: p < c.pc ==> (p in c.pend <==> p in c'.pend))
  }

  /** A run of the longer code is the run of the shorter one, continued. */
  lemma {:induction false} ExtendRun(c: Code, c': Code, last: int, env: Env, q: int, r: Regs)
    requires WF(c, last) && Extends(c, c') && q <= c.pc
    ensures var t := Run(c, env, q, r);
      (t == Threw ==> Run(c', env, q, r) == Threw) &&
      (t.Stop? && t.pc != c.pc ==> Run(c', env, q, r) == t) &&
      (t.Stop? && t.pc == c.pc ==> Run(c', env, q, r) == Run(c', env, c.pc, t.r))
    decreases c.pc - q
  {
    if q == c.pc || q in c.pend || q < 0 {
    } else {
      assert Slot(c, last, q);
      assert c.ins[q] == c.ins[..c.pc][q] == c'.ins[..c.pc][q] == c'.ins[q];
      if c.ins[q].op == LOADKX {
        assert c.ins[q + 1] == c.ins[..c.pc][q + 1] == c'.ins[..c.pc][q + 1] == c'.ins[q + 1];
      }
      StepSame(c.ins, c'.ins, c.ks, c'.ks, env, q, r);
      var s := Step(c.ins, c.ks, env, q, r);
      if s.Next? && q < s.pc <= c.pc {
        ExtendRun(c, c', last, env, s.pc, s.r);
      }
    }
  }

  /** Rewriting the link of a pending jump changes no run. */
  lemma {:induction false} RelinkRun(c: Code, c': Code, last: int, env: Env, q: int, r: Regs)
    requires WF(c, last) && c' == c.(ins := c'.ins) && |c'.ins| == |c.ins|
    requires forall p :: 0 <= p < |c.ins| && p !in c.pend ==> c'.ins[p] == c.ins[p]
    requires forall p :: 0 <= p < |c.ins| ==> c'.ins[p].op == c.ins[p].op
    ensures Run(c', env, q, r) == Run(c, env, q, r)
    decreases c.pc - q
  {
    if q == c.pc || q in c.pend || !(0 <= q < c.pc) {
    } else {
      assert Slot(c, last, q);
      if c.ins[q].op == LOADKX {
        if q + 1 in c.pend {
          assert Slot(c, last, q + 1);
        }
      }
      var s := Step(c.ins, c.ks, env, q, r);
      assert Step(c'.ins, c.ks, env, q, r) == s;
      if s.Next? && q < s.pc {
        RelinkRun(c, c', last, env, s.pc, s.r);
      }
    }
  }

  /** The registers a jump leaves behind once patchtestreg has given its TESTSET the register `reg`. */
  function Landed(ins: seq<Instr>, j: int, reg: ArgA, r: Regs): Regs
    requires 0 <= j < |ins|
  {
    var i := Ctl(ins, j);
    if i.op == TESTSET && reg != i.b && i.b < MAXREGS then SetReg(r, reg, r[i.b]) else r
  }

  /** c with jump j patched, and no longer pending. */
  function Patched(c: Code, j: int, vtarget: int, reg: ArgA, dtarget: int): Code
    requires 0 <= j < |c.ins|
  {
    c.(ins := PatchOne(c.ins, j, vtarget, reg, dtarget), pend := c.pend - {j})
  }

  lemma {:induction false} PatchRun(c: Code, last: int, j: int, vtarget: int, reg: ArgA, dtarget: int, env: Env,
          q: int, r: Regs)
    requires WF(c, last) && j in c.pend && 0 <= j < |c.ins|
    requires Fits(j, Target(c.ins, j, vtarget, dtarget)) && Target(c.ins, j, vtarget, dtarget) > j
    requires q <= c.pc && Entry(c.ins, q)
    ensures var t := Run(c, env, q, r);
      var c' := Patched(c, j, vtarget, reg, dtarget);
      Run(c', env, q, r) ==
        (if t.Stop? && t.pc == j then Run(c', env, Target(c.ins, j, vtarget, dtarget), Landed(c.ins, j, reg, t.r))
          else t)
    decreases c.pc - q, 1
  {
    assert Slot(c, last, j);
    if 0 <= q < c.pc && q !in c.pend {
      assert Slot(c, last, q);
      var s := Step(c.ins, c.ks, env, q, r);
      if !TestMode(c.ins[q].op) {
        PatchPlain(c, last, j, vtarget, reg, dtarget, env, q, r);
        if s.Next? && q < s.pc <= c.pc {
          PatchRun(c, last, j, vtarget, reg, dtarget, env, s.pc, s.r);
        }
      } else if s.Next? && s.pc == q + 1 {
        PatchJump(c, last, j, vtarget, reg, dtarget, env, q, r);
      } else {
        PatchSkip(c, last, j, vtarget, reg, dtarget, env, q, r);
        if s.Next? {
          PatchRun(c, last, j, vtarget, reg, dtarget, env, s.pc, s.r);
        }
      }
    }
  }

  /** Patching jump j changes no step of an instruction that is not a test. */
  lemma PatchPlain(c: Code, last: int, j: int, vtarget: int, reg: ArgA, dtarget: int, env: Env, q: int, r: Regs)
    requires WF(c, last) && j in c.pend && 0 <= j < |c.ins|
    requires Fits(j, Target(c.ins, j, vtarget, dtarget))
    requires 0 <= q < c.pc && q !in c.pend && !TestMode(c.ins[q].op)
    ensures Step(Patched(c, j, vtarget, reg, dtarget).ins, c.ks, env, q, r) == Step(c.ins, c.ks, env, q, r)
    ensures Step(c.ins, c.ks, env, q, r).Next? ==> Entry(c.ins, Step(c.ins, c.ks, env, q, r).pc)
  {
    assert Slot(c, last, q) && Slot(c, last, j);
    var ins' := Patched(c, j, vtarget, reg, dtarget).ins;
    assert ins'[q] == c.ins[q];
    if c.ins[q].op == LOADKX {
      assert c.ins[q + 1].op == EXTRAARG;
      assert ins'[q + 1] == c.ins[q + 1];
    }
    StepSame(c.ins, ins', c.ks, c.ks, env, q, r);
    StepSame(ins', c.ins, c.ks, c.ks, env, q, r);
    StepEnters(c, last, env, q, r);
  }

  /** From an instruction that is no test, a step does not lead between a test and its jump. */
  lemma StepEnters(c: Code, last: int, env: Env, q: int, r: Regs)
    requires WF(c, last) && 0 <= q < c.pc && q !in c.pend && !TestMode(c.ins[q].op)
    ensures Step(c.ins, c.ks, env, q, r).Next? ==> Entry(c.ins, Step(c.ins, c.ks, env, q, r).pc)
  {
    assert Slot(c, last, q);
  }

  /** Patching jump j does not change when its test skips it. */
  lemma PatchSkip(c: Code, last: int, j: int, vtarget: int, reg: ArgA, dtarget: int, env: Env, q: int, r: Regs)
    requires WF(c, last) && j in c.pend && 0 <= j < |c.ins|
    requires Fits(j, Target(c.ins, j, vtarget, dtarget))
    requires 0 <= q < c.pc && TestMode(c.ins[q].op)
    requires Step(c.ins, c.ks, env, q, r).Next? ==> Step(c.ins, c.ks, env, q, r).pc != q + 1
    ensures Step(Patched(c, j, vtarget, reg, dtarget).ins, c.ks, env, q, r) == Step(c.ins, c.ks, env, q, r)
    ensures Step(c.ins, c.ks, env, q, r).Next? ==>
        Step(c.ins, c.ks, env, q, r).pc == q + 2 && q + 2 <= c.pc && Entry(c.ins, q + 2)
  {
    assert Slot(c, last, q) && Slot(c, last, j);
  }

  lemma {:induction false} PatchJump(c: Code, last: int, j: int, vtarget: int, reg: ArgA, dtarget: int, env: Env,
          q: int, r: Regs)
    requires WF(c, last) && j in c.pend && 0 <= j < |c.ins|
    requires Fits(j, Target(c.ins, j, vtarget, dtarget)) && Target(c.ins, j, vtarget, dtarget) > j
    requires 0 <= q < c.pc && q !in c.pend && TestMode(c.ins[q].op) && Step(c.ins, c.ks, env, q, r).Next?
    requires Step(c.ins, c.ks, env, q, r).pc == q + 1
    ensures var t := Run(c, env, q, r);
      var c' := Patched(c, j, vtarget, reg, dtarget);
      Run(c', env, q, r) ==
        (if t.Stop? && t.pc == j then Run(c', env, Target(c.ins, j, vtarget, dtarget), Landed(c.ins, j, reg, t.r))
          else t)
    decreases c.pc - q, 0
  {
    var c' := Patched(c, j, vtarget, reg, dtarget);
    assert Slot(c, last, j) && Slot(c, last, q) && Slot(c, last, q + 1);
    var r1 := Step(c.ins, c.ks, env, q, r).r;
    if q + 1 == j {
      assert Step(c'.ins, c.ks, env, q, r) == Next(j, Landed(c.ins, j, reg, r1));
      assert Step(c'.ins, c.ks, env, j, Landed(c.ins, j, reg, r1)).Next?;
    } else {
      assert Step(c'.ins, c.ks, env, q, r) == Next(q + 1, r1);
      assert c'.ins[q + 1] == c.ins[q + 1];
      if q + 1 !in c.pend {
        var s := Step(c.ins, c.ks, env, q + 1, r1);
        assert s == Step(c'.ins, c.ks, env, q + 1, r1);
        if s.Next? && q + 1 < s.pc {
          PatchRun(c, last, j, vtarget, reg, dtarget, env, s.pc, s.r);
        }
      }
    }
  }

  // ---------- patching a whole list ----------

  function Members(s: seq<int>): set<int> {
    set j | j in s
  }

  function PatchedAll(c: Code, s: seq<int>, vtarget: int, reg: ArgA, dtarget: int): Code
    requires forall k :: 0 <= k < |s| ==> 0 <= s[k] < |c.ins|
  {
    c.(ins := PatchAll(c.ins, s, vtarget, reg, dtarget), pend := c.pend - Members(s))
  }

  /** Jump j can be patched to the end of c, or to dtarget. */
  ghost predicate CanPatch(c: Code, j: int, dtarget: int) {
    && j in c.pend && 0 <= j < |c.ins|
    && j < Target(c.ins, j, c.pc, dtarget) <= c.pc
    && Fits(j, Target(c.ins, j, c.pc, dtarget))
    && Entry(c.ins, Target(c.ins, j, c.pc, dtarget))
  }

  lemma PatchWF(c: Code, j: int, reg: ArgA, dtarget: int)
    requires WF(c, c.pc) && CanPatch(c, j, dtarget)
    ensures WF(Patched(c, j, c.pc, reg, dtarget), c.pc)
  {
    var c' := Patched(c, j, c.pc, reg, dtarget);
    assert Slot(c, c.pc, j);
    forall q | 0 <= q < c.pc ensures Slot(c', c.pc, q) {
      assert Slot(c, c.pc, q);
      if q + 1 < c.pc {
        assert Slot(c, c.pc, q + 1);
      }
    }
  }

  lemma PatchKeeps(c: Code, j: int, reg: ArgA, dtarget: int)
    requires WF(c, c.pc) && CanPatch(c, j, dtarget)
    ensures var c' := Patched(c, j, c.pc, reg, dtarget);
      && WF(c', c.pc)
      && (forall t :: Entry(c'.ins, t) == Entry(c.ins, t))
      && (forall i :: i in c.pend && i != j ==>
        CtlPos(c'.ins, i) == CtlPos(c.ins, i) && Ctl(c'.ins, i) == Ctl(c.ins, i))
      && (forall p :: 0 <= p < |c.ins| && p != j && p != CtlPos(c.ins, j) ==> c'.ins[p] == c.ins[p])
  {
    var c' := Patched(c, j, c.pc, reg, dtarget);
    PatchWF(c, j, reg, dtarget);
    assert Slot(c, c.pc, j);
    forall i | i in c.pend && i != j
      ensures CtlPos(c'.ins, i) == CtlPos(c.ins, i) && Ctl(c'.ins, i) == Ctl(c.ins, i)
    {
      assert Slot(c, c.pc, i);
    }
  }

  ghost predicate CanPatchAll(c: Code, s: seq<int>, dtarget: int) {
    NoDup(s) && forall k :: 0 <= k < |s| ==> 0 <= s[k] < |c.ins| && CanPatch(c, s[k], dtarget)
  }

  lemma PatchHead(c: Code, s: seq<int>, reg: ArgA, dtarget: int)
    requires WF(c, c.pc) && s != [] && CanPatchAll(c, s, dtarget)
    ensures var c1 := Patched(c, s[0], c.pc, reg, dtarget);
      && WF(c1, c1.pc) && c1.pc == c.pc && CanPatchAll(c1, s[1..], dtarget)
      && (forall t :: Entry(c1.ins, t) == Entry(c.ins, t))
      && (forall i :: i in s[1..] ==> i in c.pend && 0 <= i < |c.ins| && i != s[0] && Ctl(c1.ins, i) == Ctl(c.ins, i))
      && PatchedAll(c, s, c.pc, reg, dtarget) == PatchedAll(c1, s[1..], c.pc, reg, dtarget)
  {
    var c1 := Patched(c, s[0], c.pc, reg, dtarget);
    assert CanPatch(c, s[0], dtarget);
    PatchKeeps(c, s[0], reg, dtarget);
    forall k | 0 <= k < |s[1..]| ensures 0 <= s[1..][k] < |c1.ins| && CanPatch(c1, s[1..][k], dtarget) {
      assert CanPatch(c, s[k + 1], dtarget);
    }
    assert c.pend - Members(s) == c1.pend - Members(s[1..]) by {
      assert s == [s[0]] + s[1..];
    }
  }

  /** The run of the patched code, given the run of the code before. */
  function AfterPatch(c: Code, c': Code, s: seq<int>, reg: ArgA, dtarget: int, env: Env, t: Res): Res {
    if t.Stop? && t.pc in s && 0 <= t.pc < |c.ins| then
      Run(c', env, Target(c.ins, t.pc, c.pc, dtarget), Landed(c.ins, t.pc, reg, t.r))
    else t
  }

  /** patchlistaux on runs: a run that stopped at a jump of the list now goes on from vtarget (the end)
      if the jump's test is a TESTSET, whose register then holds the tested value, and from dtarget
      otherwise; no other run changes. */
  lemma {:induction false} PatchAllRun(c: Code, s: seq<int>, reg: ArgA, dtarget: int, env: Env, q: int, r: Regs)
    requires WF(c, c.pc) && CanPatchAll(c, s, dtarget)
    requires q <= c.pc && Entry(c.ins, q)
    ensures var c' := PatchedAll(c, s, c.pc, reg, dtarget);
      Run(c', env, q, r) == AfterPatch(c, c', s, reg, dtarget, env, Run(c, env, q, r))
    decreases |s|
  {
    var c' := PatchedAll(c, s, c.pc, reg, dtarget);
    if s == [] {
      assert c' == c;
    } else {
      var c1 := Patched(c, s[0], c.pc, reg, dtarget);
      PatchHead(c, s, reg, dtarget);
      assert CanPatch(c, s[0], dtarget);
      PatchRun(c, c.pc, s[0], c.pc, reg, dtarget, env, q, r);
      PatchAllRun(c1, s[1..], reg, dtarget, env, q, r);
      var t := Run(c, env, q, r);
      if t.Stop? && t.pc == s[0] {
        PatchAllRun(c1, s[1..], reg, dtarget, env, Target(c.ins, s[0], c.pc, dtarget), Landed(c.ins, s[0], reg, t.r));
      }
      AfterFirst(c, c1, c', s, reg, dtarget, env, t, Run(c1, env, q, r));
    }
  }

  /** What the first jump of the list leaves to the others. */
  lemma AfterFirst(c: Code, c1: Code, c': Code, s: seq<int>, reg: ArgA, dtarget: int, env: Env, t: Res, t1: Res)
    requires s != [] && 0 <= s[0] < |c.ins| == |c1.ins| && c1.pc == c.pc
    requires forall i :: i in s[1..] ==> 0 <= i < |c.ins| && i != s[0] && Ctl(c1.ins, i) == Ctl(c.ins, i)
    requires if t.Stop? && t.pc == s[0] then
        var at, r := Target(c.ins, s[0], c.pc, dtarget), Landed(c.ins, s[0], reg, t.r);
        t1 == Run(c1, env, at, r) &&
        Run(c', env, at, r) == AfterPatch(c1, c', s[1..], reg, dtarget, env, Run(c1, env, at, r))
      else t1 == t
    ensures AfterPatch(c1, c', s[1..], reg, dtarget, env, t1) == AfterPatch(c, c', s, reg, dtarget, env, t)
  {
    assert s == [s[0]] + s[1..];
  }

  lemma {:induction false} PatchAllWF(c: Code, s: seq<int>, reg: ArgA, dtarget: int)
    requires WF(c, c.pc) && CanPatchAll(c, s, dtarget)
    ensures var c' := PatchedAll(c, s, c.pc, reg, dtarget);
      && WF(c', c.pc)
      && (forall t :: Entry(c'.ins, t) == Entry(c.ins, t))
      && (forall i :: i in c.pend && i !in s && 0 <= i < |c.ins| ==>
            c'.ins[i] == c.ins[i] && CtlPos(c'.ins, i) == CtlPos(c.ins, i) && Ctl(c'.ins, i) == Ctl(c.ins, i))
      && (forall p :: 0 <= p < |c.ins| && c.ins[p].op != JMP && !TestMode(c.ins[p].op) ==> c'.ins[p] == c.ins[p])
    decreases |s|
  {
    if s == [] {
      assert PatchedAll(c, s, c.pc, reg, dtarget) == c;
    } else {
      var c1 := Patched(c, s[0], c.pc, reg, dtarget);
      PatchHead(c, s, reg, dtarget);
      assert CanPatch(c, s[0], dtarget);
      PatchKeeps(c, s[0], reg, dtarget);
      PatchAllWF(c1, s[1..], reg, dtarget);
      assert Slot(c, c.pc, s[0]);
      forall i | i in c.pend && i !in s && 0 <= i < |c.ins|
        ensures c1.ins[i] == c.ins[i] && i in c1.pend && i !in s[1..] {
        assert Slot(c, c.pc, i);
      }
    }
  }

  // ---------- dropping the values of a list (removevalues) ----------

  function RemoveAll(ins: seq<Instr>, s: seq<int>): (r: seq<Instr>)
    requires forall k :: 0 <= k < |s| ==> 0 <= s[k] < |ins|
    ensures |r| == |ins|
    decreases |s|
  {
    if s == [] then ins else RemoveAll(PatchTestReg(ins, s[0], NO_REG), s[1..])
  }

  lemma RemoveKeeps(c: Code, last: int, j: int)
    requires WF(c, last) && j in c.pend && 0 <= j < |c.ins|
    ensures var c' := c.(ins := PatchTestReg(c.ins, j, NO_REG));
      && WF(c', last)
      && Ctl(c'.ins, j).op != TESTSET
      && (forall t :: Entry(c'.ins, t) == Entry(c.ins, t))
      && (forall i :: i in c.pend && 0 <= i < |c.ins| ==>
        c'.ins[i] == c.ins[i] && CtlPos(c'.ins, i) == CtlPos(c.ins, i))
      && (forall p :: 0 <= p < |c.ins| && p != CtlPos(c.ins, j) ==> c'.ins[p] == c.ins[p])
      && (forall p :: 0 <= p < |c.ins| && c.ins[p].op != TESTSET ==> c'.ins[p] == c.ins[p])
  {
    var c' := c.(ins := PatchTestReg(c.ins, j, NO_REG));
    forall i | i in c.pend && 0 <= i < |c.ins| ensures c.ins[i].op == JMP {
      assert Slot(c, last, i);
    }
    forall q | 0 <= q < c.pc ensures Slot(c', last, q) {
      assert Slot(c, last, q);
    }
  }

  /** Without a register a TESTSET does what a TEST does. */
  lemma RemoveStep(c: Code, last: int, j: int, env: Env, q: int, r: Regs)
    requires WF(c, last) && j in c.pend && 0 <= j < |c.ins| && 0 <= q < c.pc && q !in c.pend
    ensures q < |c.ins| && Step(PatchTestReg(c.ins, j, NO_REG), c.ks, env, q, r) == Step(c.ins, c.ks, env, q, r)
  {
    assert Slot(c, last, q) && Slot(c, last, j);
  }

  lemma {:induction false} RemoveRun(c: Code, last: int, j: int, env: Env, q: int, r: Regs)
    requires WF(c, last) && j in c.pend && 0 <= j < |c.ins|
    ensures Run(c.(ins := PatchTestReg(c.ins, j, NO_REG)), env, q, r) == Run(c, env, q, r)
    decreases c.pc - q
  {
    var c' := c.(ins := PatchTestReg(c.ins, j, NO_REG));
    if 0 <= q < c.pc && q !in c.pend {
      var s := Step(c.ins, c.ks, env, q, r);
      RemoveStep(c, last, j, env, q, r);
      if s.Next? && q < s.pc {
        RemoveRun(c, last, j, env, s.pc, s.r);
      }
    }
  }

  /** removevalues: no run changes, and no jump of the list keeps a value. */
  lemma {:induction false} RemoveAllRun(c: Code, last: int, s: seq<int>, env: Env, q: int, r: Regs)
    requires WF(c, last) && forall k :: 0 <= k < |s| ==> 0 <= s[k] < |c.ins| && s[k] in c.pend
    ensures Run(c.(ins := RemoveAll(c.ins, s)), env, q, r) == Run(c, env, q, r)
    decreases |s|
  {
    if s == [] {
      assert c.(ins := RemoveAll(c.ins, s)) == c;
    } else {
      var c1 := c.(ins := PatchTestReg(c.ins, s[0], NO_REG));
      RemoveKeeps(c, last, s[0]);
      RemoveRun(c, last, s[0], env, q, r);
      RemoveAllRun(c1, last, s[1..], env, q, r);
    }
  }

  lemma {:induction false} RemoveAllKeeps(c: Code, last: int, s: seq<int>)
    requires WF(c, last) && forall k :: 0 <= k < |s| ==> 0 <= s[k] < |c.ins| && s[k] in c.pend
    ensures var c' := c.(ins := RemoveAll(c.ins, s));
      && WF(c', last)
      && (forall k :: 0 <= k < |s| ==> Ctl(c'.ins, s[k]).op != TESTSET)
      && (forall i :: i in c.pend && 0 <= i < |c.ins| ==>
        c'.ins[i] == c.ins[i] && CtlPos(c'.ins, i) == CtlPos(c.ins, i))
      && (forall i :: i in c.pend && 0 <= i < |c.ins| && (i !in s || Ctl(c.ins, i).op != TESTSET) ==>
        Ctl(c'.ins, i) == Ctl(c.ins, i))
      && (forall p :: 0 <= p < |c.ins| && c.ins[p].op != TESTSET ==> c'.ins[p] == c.ins[p])
    decreases |s|
  {
    if s == [] {
      assert c.(ins := RemoveAll(c.ins, s)) == c;
    } else {
      var c1 := c.(ins := PatchTestReg(c.ins, s[0], NO_REG));
      RemoveKeeps(c, last, s[0]);
      RemoveAllKeeps(c1, last, s[1..]);
      assert forall i :: i in s <==> i == s[0] || i in s[1..];
    }
  }

  // ---------- growing the LOADNIL before the end (luaK_nil) ----------

  /** Can the registers from..l join those an earlier LOADNIL clears? */
  predicate Connects(i: Instr, from: int, l: int) {
    i.op == LOADNIL && ((i.a <= from && from <= i.a + i.b + 1) || (from <= i.a && i.a <= l + 1))
  }

  function Merged(i: Instr, from: ArgA, l: int): Instr
    requires from <= l < MAXREGS && i.a + i.b < MAXREGS
  {
    var lo := if i.a < from then i.a else from;
    var hi := if i.a + i.b > l then i.a + i.b else l;
    i.(a := lo, b := hi - lo)
  }

  lemma MergedNils(i: Instr, from: ArgA, l: int, r: Regs)
    requires from <= l < MAXREGS && i.a + i.b < MAXREGS && Connects(i, from, l)
    ensures var m := Merged(i, from, l);
      SetNils(r, m.a, m.a + m.b) == SetNils(SetNils(r, i.a, i.a + i.b), from, l)
  {
  }

  lemma {:induction false} MergeRun(c: Code, last: int, from: ArgA, l: int, env: Env, q: int, r: Regs)
    requires WF(c, last) && 1 <= c.pc && last < c.pc && from <= l < MAXREGS &&
        c.ins[c.pc - 1].a + c.ins[c.pc - 1].b < MAXREGS
    requires Connects(c.ins[c.pc - 1], from, l) && q < c.pc
    ensures var t := Run(c, env, q, r);
      Run(c.(ins := c.ins[c.pc - 1 := Merged(c.ins[c.pc - 1], from, l)]), env, q, r)
        == (if t.Stop? && t.pc == c.pc then Stop(c.pc, SetNils(t.r, from, l)) else t)
    decreases c.pc - q
  {
    var c' := c.(ins := c.ins[c.pc - 1 := Merged(c.ins[c.pc - 1], from, l)]);
    if 0 <= q < c.pc && q !in c.pend {
      assert Slot(c, last, q);
      if q == c.pc - 1 {
        MergedNils(c.ins[q], from, l, r);
      } else {
        var s := Step(c.ins, c.ks, env, q, r);
        assert Step(c'.ins, c.ks, env, q, r) == s;
        if s.Next? && q < s.pc {
          assert s.pc < c.pc;
          MergeRun(c, last, from, l, env, s.pc, s.r);
        }
      }
    }
  }

  // ---------- inverting the comparison at the end (invertjump) ----------

  /** The code ends in a comparison and its pending jump, and no label lies between or after them. */
  ghost predicate EndsInJump(c: Code, last: int) {
    && 2 <= c.pc <= |c.ins| && last <= c.pc - 2 && c.pc - 1 in c.pend
    && c.ins[c.pc - 2].op in [EQ, LT, LE] && c.ins[c.pc - 2].a in [0, 1]
  }

  function Invert(c: Code): Code
    requires 2 <= c.pc <= |c.ins|
  {
    c.(ins := c.ins[c.pc - 2 := c.ins[c.pc - 2].(a := if c.ins[c.pc - 2].a == 0 then 1 else 0)])
  }

  function SwapEnds(c: Code, t: Res): Res {
    if t.Stop? && t.pc == c.pc - 1 then Stop(c.pc, t.r)
    else if t.Stop? && t.pc == c.pc then Stop(c.pc - 1, t.r)
    else t
  }

  lemma {:induction false} InvertRun(c: Code, last: int, env: Env, q: int, r: Regs)
    requires WF(c, last) && EndsInJump(c, last) && q <= c.pc - 2
    ensures Run(Invert(c), env, q, r) == SwapEnds(c, Run(c, env, q, r))
    decreases c.pc - q
  {
    var c' := Invert(c);
    if 0 <= q && q !in c.pend {
      assert Slot(c, last, q);
      var s := Step(c.ins, c.ks, env, q, r);
      if q == c.pc - 2 {
        assert Slot(c, last, q + 1);
      } else {
        assert Step(c'.ins, c.ks, env, q, r) == s;
        if s.Next? && q < s.pc {
          assert s.pc <= c.pc - 2;
          InvertRun(c, last, env, s.pc, s.r);
        }
      }
    }
  }
}
