/**
  The steps of the operators (src/uvm/lcode.cpp:651-753, 874-920) on the meaning of descriptors
  together with the heads of their jump lists.
 */
module CondLists {
  import opened Locks
  import opened Opcodes
  import opened LuaMachine
  import opened JumpLists
  import opened CodeSem
  import opened ExpSem
  import opened FinishSem
  import opened CondSem
  import opened FuncStates
  import opened CodeGen

  ghost predicate BranchedLists(s0: Snap, s: Snap, T: seq<int>, F: seq<int>, js: seq<int>, x: Expr, n: int, b: bool,
                                jpc: int, t: int, f: int, h: int) {
    && Conditioned(s0, s, if b then T else T + js, if b then F + js else F, x, n, b)
    && IsList(s.c.ins, jpc, s.J) && IsList(s.c.ins, t, T) && IsList(s.c.ins, f, F) && IsList(s.c.ins, h, js)
  }

  /** x has been coded for truth b, with lists T and F at t and f, and the jumps js at h still to join
      the list of the other truth value. */
  ghost predicate Branched(s0: Snap, s: Snap, T: seq<int>, F: seq<int>, js: seq<int>, x: Expr, n: int, b: bool,
                           jpc: int, t: int, f: int, h: int) {
    forall k: nat {:trigger Key(k)} :: Open(k) ==> BranchedLists(s0, s, T, F, js, x, n, b, jpc, t, f, h)
  }

  lemma LockBranch(s0: Snap, s: Snap, T: seq<int>, F: seq<int>, js: seq<int>, x: Expr, n: int, b: bool,
                   jpc: int, t: int, f: int, h: int)
    requires BranchedLists(s0, s, T, F, js, x, n, b, jpc, t, f, h)
    ensures Branched(s0, s, T, F, js, x, n, b, jpc, t, f, h)
  {
  }

  /** What the methods need to know of a condition. */
  lemma KnownBranch(s0: Snap, s: Snap, T: seq<int>, F: seq<int>, js: seq<int>, x: Expr, n: int, b: bool,
                    jpc: int, t: int, f: int, h: int)
    requires Branched(s0, s, T, F, js, x, n, b, jpc, t, f, h)
    ensures Ok(s) && IsList(s.c.ins, jpc, s.J) && IsList(s.c.ins, t, T) && IsList(s.c.ins, f, F) &&
        IsList(s.c.ins, h, js)
  {
    assert Key(0) && Open(0);
  }

  /** The new jumps can be linked to their list. */
  lemma RoomToAdd(s0: Snap, s: Snap, T: seq<int>, F: seq<int>, js: seq<int>, x: Expr, n: int, b: bool,
                    jpc: int, t: int, f: int, h: int)
    requires Branched(s0, s, T, F, js, x, n, b, jpc, t, f, h)
    ensures var l := if b then F else T;
      Disjoint(l, js) && (l != [] && js != [] && !Fits(l[|l| - 1], h) ==> s.c.pc >= MAXARG_SBX)
  {
    assert Key(0) && Open(0);
    var l := if b then F else T;
    forall j | j in l ensures 0 <= j < s.c.pc && j !in js {
      assert j in l + js;
      JoinedDisjoint(l, js, j);
    }
    assert js != [] ==> js[0] in l + js by { assert js != [] ==> (l + js)[|l|] == js[0]; }
    assert l != [] ==> l[|l| - 1] in l;
  }

  /** The other list can be linked to the jumps to here. */
  lemma RoomHere(s0: Snap, s: Snap, T: seq<int>, F: seq<int>, js: seq<int>, x: Expr, n: int, b: bool,
                    jpc: int, t: int, f: int, h: int)
    requires Branched(s0, s, T, F, js, x, n, b, jpc, t, f, h)
    ensures var m := if b then T else F;
      Disjoint(s.J, m) && (s.J != [] && m != [] && !Fits(s.J[|s.J| - 1], if b then t else f) ==> s.c.pc >= MAXARG_SBX)
  {
    assert Key(0) && Open(0);
    var m := if b then T else F;
    forall j | j in m ensures 0 <= j < s.c.pc && j !in s.J { }
    assert m != [] ==> m[0] in m;
  }

  lemma JoinedDisjoint(l: seq<int>, js: seq<int>, j: int)
    requires NoDup(l + js) && j in l
    ensures j !in js
  {
    var i :| 0 <= i < |l| && l[i] == j;
    forall k | 0 <= k < |js| ensures js[k] != j {
      assert (l + js)[i] == j && (l + js)[|l| + k] == js[k];
    }
  }

  // ---------- the ways to branch ----------

  /** A constant of the wanted truth needs no jump. */
  lemma BranchConstant(s0: Snap, s: Snap, d: ED, x: Expr, n: int, b: bool, jpc: int, t: int, f: int)
    requires Correct(s0, s, d, x, n, -1, jpc, t, f) && !d.k.VJMP? && !d.k.VRELOCABLE?
    requires forall r: Regs :: ValueOf(s.c, d.k, r).Some? && Truthy(ValueOf(s.c, d.k, r).value) == b
    ensures Branched(s0, s, d.T, d.F, [], x, n, b, jpc, t, f, NO_JUMP)
  {
    assert Key(0) && Open(0);
    CondConstant(s0, s, d, x, n, b);
    EmptyList(s.c.ins);
    assert d.T + [] == d.T && d.F + [] == d.F;
    LockBranch(s0, s, d.T, d.F, [], x, n, b, jpc, t, f, NO_JUMP);
  }

  lemma SingleList(s0: Snap, s: Snap, d: ED)
    requires d.k.VJMP? && Ok(s) && EndsFor(s0, s, d)
    ensures IsList(s.c.ins, d.k.pc, [d.k.pc])
  {
    assert Linked(s.c.ins, [d.k.pc], 0);
  }

  /** A comparison already jumps when it is true. */
  lemma BranchJump(s0: Snap, s: Snap, d: ED, x: Expr, n: int, jpc: int, t: int, f: int)
    requires Correct(s0, s, d, x, n, -1, jpc, t, f) && d.k.VJMP?
    ensures Branched(s0, s, d.T, d.F, [d.k.pc], x, n, false, jpc, t, f, d.k.pc)
  {
    assert Key(0) && Open(0);
    CondJumpTrue(s0, s, d, x, n);
    SingleList(s0, s, d);
    LockBranch(s0, s, d.T, d.F, [d.k.pc], x, n, false, jpc, t, f, d.k.pc);
  }

  /** An inverted comparison jumps when it is false. */
  lemma BranchInvert(s0: Snap, s: Snap, s': Snap, d: ED, x: Expr, n: int, jpc: int, t: int, f: int)
    requires Correct(s0, s, d, x, n, -1, jpc, t, f) && d.k.VJMP? && EndsInJump(s.c, s.last) &&
        s' == s.(c := Invert(s.c))
    ensures Branched(s0, s', d.T, d.F, [d.k.pc], x, n, true, jpc, t, f, d.k.pc)
  {
    assert Key(0) && Open(0);
    CondJumpFalse(s0, s, s', d, x, n);
    SingleList(s0, s, d);
    InvertLists(s0, s, s', d, jpc, t, f);
    LockBranch(s0, s', d.T, d.F, [d.k.pc], x, n, true, jpc, t, f, d.k.pc);
  }

  lemma InvertLists(s0: Snap, s: Snap, s': Snap, d: ED, jpc: int, t: int, f: int)
    requires Ok(s) && Described(s0, s, d) && d.k.VJMP? && EndsInJump(s.c, s.last) && s' == s.(c := Invert(s.c))
    requires IsList(s.c.ins, jpc, s.J) && IsList(s.c.ins, t, d.T) && IsList(s.c.ins, f, d.F)
    ensures IsList(s'.c.ins, jpc, s'.J) && IsList(s'.c.ins, t, d.T) && IsList(s'.c.ins, f, d.F)
    ensures IsList(s'.c.ins, d.k.pc, [d.k.pc])
  {
    InvertFacts(s, s');
    SingleList(s0, s, d);
    ListKept(s.c.ins, s'.c.ins, jpc, s.J);
    ListKept(s.c.ins, s'.c.ins, t, d.T);
    ListKept(s.c.ins, s'.c.ins, f, d.F);
    ListKept(s.c.ins, s'.c.ins, d.k.pc, [d.k.pc]);
  }

  /** A register, or the operand of a dropped `not`, is tested. */
  lemma BranchTest(s0: Snap, s: Snap, s': Snap, d: ED, x: Expr, n: int, b: bool, jpc: int, t: int, f: int, j: int)
    requires Correct(s0, s, d, x, n, -1, jpc, t, f) && (d.k.VNONRELOC? || d.k.VRELOCABLE?) && JpcFits(View(s, d.k))
    requires d.k.VNONRELOC? ==> 0 <= d.k.reg < MAXREGS
    requires d.k.VRELOCABLE? ==> 0 <= d.k.pc < |s.c.ins| && s.c.ins[d.k.pc].b < MAXREGS
    requires Sane(View(s, d.k)) && s' == Tested(View(s, d.k), CondTest(s, d.k, b))
    requires j == View(s, d.k).c.pc + 1 && IsList(s'.c.ins, j, [j])
    ensures Branched(s0, s', d.T, d.F, [j], x, n, b, NO_JUMP, t, f, j)
  {
    assert Key(0) && Open(0);
    CondTestSem(s0, s, s', d, x, n, b);
    TestSem(View(s, d.k), CondTest(s, d.k, b), s');
    ListsKept(s0, s, s', d, t, f);
    EmptyList(s'.c.ins);
    LockBranch(s0, s', d.T, d.F, [j], x, n, b, NO_JUMP, t, f, j);
  }

  // ---------- linking ----------

  /** The new jumps have joined their list (luaK_concat in goiftrue and goiffalse). */
  lemma ExitAdded(s0: Snap, s: Snap, s': Snap, T: seq<int>, F: seq<int>, js: seq<int>, x: Expr, n: int, b: bool,
                  jpc: int, t: int, f: int, h: int, h': int)
    requires Branched(s0, s, T, F, js, x, n, b, jpc, t, f, h)
    requires s' == s.(c := s.c.(ins := s'.c.ins)) && |s'.c.ins| == |s.c.ins|
    requires forall p :: 0 <= p < |s.c.ins| && p !in (if b then F else T) ==> s'.c.ins[p] == s.c.ins[p]
    requires forall p :: 0 <= p < |s.c.ins| ==> s'.c.ins[p].op == s.c.ins[p].op && s'.c.ins[p].a == s.c.ins[p].a
    requires IsList(s'.c.ins, h', (if b then F else T) + js)
    ensures Branched(s0, s', if b then T else T + js, if b then F + js else F, [], x, n, b, jpc, if b then t else h',
        if b then h' else f, NO_JUMP)
  {
    assert Key(0) && Open(0);
    var l, m := if b then F else T, if b then T else F;
    assert forall j :: j in l ==> j in l + js;
    CondRelink(s0, s, s', l, if b then T else T + js, if b then F + js else F, x, n, b);
    var T', F' := if b then T else T + js, if b then F + js else F;
    assert T' + [] == T' && F' + [] == F';
    ListKept(s.c.ins, s'.c.ins, jpc, s.J);
    ListKept(s.c.ins, s'.c.ins, if b then t else f, m);
    EmptyList(s'.c.ins);
    LockBranch(s0, s', T', F', [], x, n, b, jpc, if b then t else h', if b then h' else f, NO_JUMP);
  }

  ghost predicate PassedLists(s0: Snap, s: Snap, l: seq<int>, x: Expr, n: int, b: bool, jpc: int, h: int) {
    && Conditioned(s0, s, if b then [] else l, if b then l else [], x, n, b)
    && IsList(s.c.ins, jpc, s.J) && IsList(s.c.ins, h, l)
  }

  /** x has been coded for truth b, and its only exits are those of the other truth value, the list l at h. */
  ghost predicate Passed(s0: Snap, s: Snap, l: seq<int>, x: Expr, n: int, b: bool, jpc: int, h: int) {
    forall k: nat {:trigger Key(k)} :: Open(k) ==> PassedLists(s0, s, l, x, n, b, jpc, h)
  }

  lemma LockPassed(s0: Snap, s: Snap, l: seq<int>, x: Expr, n: int, b: bool, jpc: int, h: int)
    requires PassedLists(s0, s, l, x, n, b, jpc, h)
    ensures Passed(s0, s, l, x, n, b, jpc, h)
  {
  }

  lemma KnownPassed(s0: Snap, s: Snap, l: seq<int>, x: Expr, n: int, b: bool, jpc: int, h: int)
    requires Passed(s0, s, l, x, n, b, jpc, h)
    ensures Ok(s) && IsList(s.c.ins, jpc, s.J) && LocalsBelow(x, MAXREGS)
  {
    assert Key(0) && Open(0);
  }

  /** luaK_patchtohere on the exits of truth b. */
  lemma ExitsHere(s0: Snap, s: Snap, s': Snap, T: seq<int>, F: seq<int>, x: Expr, n: int, b: bool, jpc: int, t: int,
          f: int, jpc': int)
    requires Branched(s0, s, T, F, [], x, n, b, jpc, t, f, NO_JUMP)
    requires s' == Snap(s.c.(ins := s'.c.ins), s.c.pc, s.J + if b then T else F) && |s'.c.ins| == |s.c.ins|
    requires forall p :: 0 <= p < |s.c.ins| && p !in s.J ==> s'.c.ins[p] == s.c.ins[p]
    requires forall p :: 0 <= p < |s.c.ins| ==> s'.c.ins[p].op == s.c.ins[p].op && s'.c.ins[p].a == s.c.ins[p].a
    requires IsList(s'.c.ins, jpc', s'.J)
    ensures Passed(s0, s', if b then F else T, x, n, b, jpc', if b then f else t)
  {
    assert Key(0) && Open(0);
    assert T + [] == T && F + [] == F;
    var s2 := s.(c := s.c.(ins := s'.c.ins));
    var l := if b then F else T;
    forall j | j in s.J ensures !Outer(s0, j) && j !in l { }
    CondRelink(s0, s, s2, s.J, T, F, x, n, b);
    CondPatchHere(s0, s2, s', T, F, x, n, b);
    ListKept(s.c.ins, s'.c.ins, if b then f else t, l);
    LockPassed(s0, s', l, x, n, b, jpc', if b then f else t);
  }

  // ---------- and, or: the exits of both operands ----------

  /** Changing links of a descriptor's own jumps. */
  lemma CodedRelink(s0: Snap, s: Snap, s': Snap, ch: seq<int>, e: ED, x: Expr, n: int)
    requires Coded(s0, s, e, x, n, -1) && Relinked(s, s', ch) && (ch == e.T || ch == e.F)
    ensures Coded(s0, s', e, x, n, -1)
  {
    var v, v' := View(s, e.k), View(s', e.k);
    RelinkViews(s0, s, s', ch, e);
    RelinkDescribed(s0, s, s', ch, e);
    RelinkSem(s0, v, v', ch, e, x, n, -1);
  }

  lemma RelinkViews(s0: Snap, s: Snap, s': Snap, ch: seq<int>, e: ED)
    requires Ok(s0) && Ok(s) && Ok(View(s, e.k)) && Grows(s0, View(s, e.k)) && Described(s0, s, e)
    requires Relinked(s, s', ch) && (ch == e.T || ch == e.F)
    ensures var v, v' := View(s, e.k), View(s', e.k);
      Ok(s') && Ok(v') && Relinked(v, v', ch) && Grows(s0, v') && forall j :: j in e.T + e.F ==> j in v.c.pend
    ensures e.k.VRELOCABLE? ==> e.k.pc !in ch
  {
    var v, v' := View(s, e.k), View(s', e.k);
    assert forall j :: j in e.T + e.F ==> Outer(v, j) && !Outer(s0, j);
    assert forall j :: j in ch ==> j in e.T + e.F;
    RelinkOk(s, s', ch);
    RelinkOk(v, v', ch);
    RelinkGrows(s0, v, v', ch);
  }

  lemma RelinkDescribed(s0: Snap, s: Snap, s': Snap, ch: seq<int>, e: ED)
    requires Ok(s) && Described(s0, s, e) && Relinked(s, s', ch) && (ch == e.T || ch == e.F)
    ensures Described(s0, s', e)
  {
    assert e.k.VJMP? ==> Slot(s.c, s.last, s.c.pc - 2);
    assert e.k.VJMP? ==> s.c.pc - 2 !in ch;
  }

  lemma JoinLists(s0: Snap, s1: Snap, s: Snap, l: seq<int>, d: ED, x: Expr, y: Expr, n: int, b: bool, jpc1: int,
          h: int, jpc: int, t: int, f: int)
    requires Passed(s0, s1, l, x, n, b, jpc1, h) && Correct(s1, s, d, y, n, -1, jpc, t, f)
    ensures var m := if b then d.F else d.T;
      IsList(s.c.ins, h, l) && Disjoint(m, l) && (m != [] && l != [] && !Fits(m[|m| - 1], h) ==> s.c.pc >= MAXARG_SBX)
  {
    assert Key(0) && Open(0);
    JoinDescribed(s0, s1, s, l, d, b);
    OuterKept(s1, View(s, d.k), l, h);
    JoinRoom(s1, s, l, d, b, h);
  }

  lemma OuterKept(s1: Snap, v: Snap, l: seq<int>, h: int)
    requires Ok(s1) && Grows(s1, v) && IsList(s1.c.ins, h, l) && forall j :: j in l ==> j < s1.c.pc && Outer(s1, j)
    ensures IsList(v.c.ins, h, l)
  {
    forall j | j in l ensures 0 <= j < |s1.c.ins| && j < |v.c.ins| && v.c.ins[j] == s1.c.ins[j] { }
    ListKept(s1.c.ins, v.c.ins, h, l);
  }

  lemma JoinRoom(s1: Snap, s: Snap, l: seq<int>, d: ED, b: bool, h: int)
    requires Ok(s1) && Ok(s) && Described(s1, s, d) && IsList(s1.c.ins, h, l) && forall j :: j in l ==> j < s1.c.pc
    ensures var m := if b then d.F else d.T; m != [] && l != [] && !Fits(m[|m| - 1], h) ==> s.c.pc >= MAXARG_SBX
  {
    var m := if b then d.F else d.T;
    assert m != [] ==> m[|m| - 1] in m;
    assert l != [] ==> l[0] in l;
  }

  /** The lists of a descriptor are still lists when the links of its other list m change. */
  lemma OthersKept(s0: Snap, s: Snap, s': Snap, d: ED, x: Expr, n: int, jpc: int, t: int, f: int, b: bool)
    requires Correct(s0, s, d, x, n, -1, jpc, t, f) && |s'.c.ins| == |s.c.ins|
    requires forall p :: 0 <= p < |s.c.ins| && p !in (if b then d.F else d.T) ==> s'.c.ins[p] == s.c.ins[p]
    ensures IsList(s'.c.ins, jpc, s.J) && IsList(s'.c.ins, if b then t else f, if b then d.T else d.F)
  {
    assert Key(0) && Open(0);
    ListKept(s.c.ins, s'.c.ins, jpc, s.J);
    ListKept(s.c.ins, s'.c.ins, if b then t else f, if b then d.T else d.F);
  }

  lemma JoinCoded(s0: Snap, s1: Snap, s: Snap, s': Snap, l: seq<int>, d: ED, x: Expr, y: Expr, xy: Expr, n: int,
                  b: bool, jpc1: int, h: int, jpc: int, t: int, f: int)
    requires Passed(s0, s1, l, x, n, b, jpc1, h) && Correct(s1, s, d, y, n, -1, jpc, t, f)
    requires LocalsBelow(xy, MAXREGS) && LocalsBelow(y, n) && n <= MAXREGS && xy == if b then And(x, y) else Or(x, y)
    requires s' == s.(c := s.c.(ins := s'.c.ins)) && |s'.c.ins| == |s.c.ins|
    requires forall p :: 0 <= p < |s.c.ins| && p !in (if b then d.F else d.T) ==> s'.c.ins[p] == s.c.ins[p]
    requires forall p :: 0 <= p < |s.c.ins| ==> s'.c.ins[p].op == s.c.ins[p].op && s'.c.ins[p].a == s.c.ins[p].a
    ensures Coded(s0, s', ED(d.k, if b then d.T else d.T + l, if b then d.F + l else d.F), xy, n, -1)
  {
    assert Key(0) && Open(0);
    CodedRelink(s1, s, s', if b then d.F else d.T, d, y, n);
    JoinSem(s0, s1, s', l, d, x, y, xy, n, b);
  }

  /** posfix for `and` (b) and `or`. */
  lemma JoinDone(s0: Snap, s1: Snap, s: Snap, s': Snap, l: seq<int>, d: ED, x: Expr, y: Expr, xy: Expr, n: int, b: bool,
                 jpc1: int, h: int, jpc: int, t: int, f: int, h': int)
    requires Passed(s0, s1, l, x, n, b, jpc1, h) && Correct(s1, s, d, y, n, -1, jpc, t, f)
    requires LocalsBelow(xy, MAXREGS) && LocalsBelow(y, n) && n <= MAXREGS && xy == if b then And(x, y) else Or(x, y)
    requires s' == s.(c := s.c.(ins := s'.c.ins)) && |s'.c.ins| == |s.c.ins|
    requires forall p :: 0 <= p < |s.c.ins| && p !in (if b then d.F else d.T) ==> s'.c.ins[p] == s.c.ins[p]
    requires forall p :: 0 <= p < |s.c.ins| ==> s'.c.ins[p].op == s.c.ins[p].op && s'.c.ins[p].a == s.c.ins[p].a
    requires IsList(s'.c.ins, h', (if b then d.F else d.T) + l)
    ensures Correct(s0, s', ED(d.k, if b then d.T else d.T + l, if b then d.F + l else d.F), xy, n, -1, jpc, if b
        then t else h', if b then h' else f)
  {
    JoinCoded(s0, s1, s, s', l, d, x, y, xy, n, b, jpc1, h, jpc, t, f);
    OthersKept(s1, s, s', d, y, n, jpc, t, f, b);
    Lock(s0, s', ED(d.k, if b then d.T else d.T + l, if b then d.F + l else d.F), xy, n, -1, jpc, if b then t else h',
      if b then h' else f);
  }

  // ---------- not ----------

  ghost predicate FlippedLists(s0: Snap, s: Snap, d: ED, x: Expr, n: int, jpc: int, t: int, f: int) {
    Negated(s0, s, d, x, n) && IsList(s.c.ins, jpc, s.J) && IsList(s.c.ins, t, d.T) && IsList(s.c.ins, f, d.F)
  }

  /** x has been coded, and falling off the end the negation of its value is where d says. */
  ghost predicate Flipped(s0: Snap, s: Snap, d: ED, x: Expr, n: int, jpc: int, t: int, f: int) {
    forall k: nat {:trigger Key(k)} :: Open(k) ==> FlippedLists(s0, s, d, x, n, jpc, t, f)
  }

  lemma LockFlipped(s0: Snap, s: Snap, d: ED, x: Expr, n: int, jpc: int, t: int, f: int)
    requires FlippedLists(s0, s, d, x, n, jpc, t, f)
    ensures Flipped(s0, s, d, x, n, jpc, t, f)
  {
  }

  lemma FlipConstant(s0: Snap, s: Snap, d: ED, k: ExpKind, x: Expr, n: int, jpc: int, t: int, f: int)
    requires Correct(s0, s, d, x, n, -1, jpc, t, f) && !d.k.VJMP? && !d.k.VRELOCABLE? && (k.VTRUE? || k.VFALSE?)
    requires forall r: Regs :: ValueOf(s.c, d.k, r).Some? && Truthy(ValueOf(s.c, d.k, r).value) == k.VFALSE?
    ensures Flipped(s0, s, d.(k := k), x, n, jpc, t, f)
  {
    assert Key(0) && Open(0);
    NegateConstant(s0, s, d, k, x, n);
    LockFlipped(s0, s, d.(k := k), x, n, jpc, t, f);
  }

  lemma FlipJump(s0: Snap, s: Snap, s': Snap, d: ED, x: Expr, n: int, jpc: int, t: int, f: int)
    requires Correct(s0, s, d, x, n, -1, jpc, t, f) && d.k.VJMP? && EndsInJump(s.c, s.last) &&
        s' == s.(c := Invert(s.c))
    ensures Flipped(s0, s', d, x, n, jpc, t, f)
  {
    assert Key(0) && Open(0);
    NegateJump(s0, s, s', d, x, n);
    InvertLists(s0, s, s', d, jpc, t, f);
    LockFlipped(s0, s', d, x, n, jpc, t, f);
  }

  lemma FlipReg(s0: Snap, s: Snap, s': Snap, d: ED, x: Expr, n: int, jpc: int, t: int, f: int)
    requires Correct(s0, s, d, x, n, -1, jpc, t, f) && d.k.VNONRELOC? && 0 <= d.k.reg < MAXREGS && JpcFits(s) && Sane(s)
    requires s' == Emitted(s, Instr(NOT, 0, d.k.reg, 0))
    ensures Flipped(s0, s', d.(k := VRELOCABLE(s.c.pc)), x, n, NO_JUMP, t, f)
  {
    assert Key(0) && Open(0);
    NegateReg(s0, s, s', d, x, n);
    EmitSem(s, Instr(NOT, 0, d.k.reg, 0), s');
    ListsKept(s0, s, s', d, t, f);
    EmptyList(s'.c.ins);
    LockFlipped(s0, s', d.(k := VRELOCABLE(s.c.pc)), x, n, NO_JUMP, t, f);
  }

  /** What codenot needs to know to take the values off both lists. */
  lemma KnownFlipped(s0: Snap, s: Snap, s1: Snap, d: ED, x: Expr, n: int, jpc: int, t: int, f: int)
    requires Flipped(s0, s, d, x, n, jpc, t, f)
    ensures IsList(s.c.ins, t, d.T) && (forall k :: 0 <= k < |d.T| ==> 0 <= d.T[k] < |s.c.ins|)
    ensures s1 == s.(c := s.c.(ins := RemoveAll(s.c.ins, d.T))) ==> IsList(s1.c.ins, f, d.F)
  {
    assert Key(0) && Open(0);
    if s1 == s.(c := s.c.(ins := RemoveAll(s.c.ins, d.T))) {
      assert forall k :: 0 <= k < |d.T| ==> d.T[k] in d.T;
      RemovedFacts(s, s1, d.T);
      ListKept(s.c.ins, s1.c.ins, f, d.F);
    }
  }

  lemma NotDone(s0: Snap, s: Snap, s1: Snap, s': Snap, d: ED, x: Expr, n: int, jpc: int, t: int, f: int)
    requires Flipped(s0, s, d, x, n, jpc, t, f) && LocalsBelow(Not(x), MAXREGS)
    requires (forall k :: 0 <= k < |d.T| ==> 0 <= d.T[k] < |s.c.ins|) &&
        s1 == s.(c := s.c.(ins := RemoveAll(s.c.ins, d.T)))
    requires (forall k :: 0 <= k < |d.F| ==> 0 <= d.F[k] < |s1.c.ins|) &&
        s' == s1.(c := s1.c.(ins := RemoveAll(s1.c.ins, d.F)))
    ensures Correct(s0, s', ED(d.k, d.F, d.T), Not(x), n, -1, jpc, f, t)
  {
    assert Key(0) && Open(0);
    FlippedRemoved(s0, s, s1, s', d);
    SwapSem(s0, s, s1, s', d, x, n);
    RemovedLists(s, s1, d.T, jpc, t, f, d.T, d.F);
    RemovedLists(s1, s', d.F, jpc, t, f, d.T, d.F);
    Lock(s0, s', ED(d.k, d.F, d.T), Not(x), n, -1, jpc, f, t);
  }

  lemma FlippedRemoved(s0: Snap, s: Snap, s1: Snap, s': Snap, d: ED)
    requires Ok(s) && Described(s0, s, d)
    requires (forall k :: 0 <= k < |d.T| ==> 0 <= d.T[k] < |s.c.ins|) &&
        s1 == s.(c := s.c.(ins := RemoveAll(s.c.ins, d.T)))
    requires (forall k :: 0 <= k < |d.F| ==> 0 <= d.F[k] < |s1.c.ins|) &&
        s' == s1.(c := s1.c.(ins := RemoveAll(s1.c.ins, d.F)))
    ensures Removed(s, s1, d.T) && Removed(s1, s', d.F) && Ok(s1)
    ensures forall j :: j in d.T || j in d.F ==> 0 <= j < |s.c.ins| && j in s.c.pend
  {
    assert forall k :: 0 <= k < |d.T| ==> d.T[k] in d.T;
    assert forall k :: 0 <= k < |d.F| ==> d.F[k] in d.F;
    RemovedFacts(s, s1, d.T);
  }

  lemma RemovedLists(s: Snap, s': Snap, l: seq<int>, jpc: int, t: int, f: int, T: seq<int>, F: seq<int>)
    requires Ok(s) && Removed(s, s', l) && IsList(s.c.ins, jpc, s.J) && IsList(s.c.ins, t, T) && IsList(s.c.ins, f, F)
    requires forall j :: j in T || j in F ==> 0 <= j < |s.c.ins| && j in s.c.pend
    ensures IsList(s'.c.ins, jpc, s'.J) && IsList(s'.c.ins, t, T) && IsList(s'.c.ins, f, F)
  {
    RemovedFacts(s, s', l);
    ListKept(s.c.ins, s'.c.ins, jpc, s.J);
    ListKept(s.c.ins, s'.c.ins, t, T);
    ListKept(s.c.ins, s'.c.ins, f, F);
  }

  // ---------- comparisons ----------

  lemma CompareDone(s0: Snap, s1: Snap, s: Snap, s': Snap, op: CmpOp, k1: ExpKind, k2: ExpKind, x: Expr, y: Expr,
          n: int, n1: int,
                    jpc1: int, jpc: int)
    requires Correct(s0, s1, ED(k1, [], []), x, n, -1, jpc1, NO_JUMP, NO_JUMP)
    requires Correct(s1, s, ED(k2, [], []), y, n1, -1, jpc, NO_JUMP, NO_JUMP)
    requires LocalsBelow(Cmp(op, x, y), MAXREGS) && LocalsBelow(y, n) && n <= n1 && n <= MAXREGS && JpcFits(s) &&
        Sane(s)
    requires IsOperand(k1, s1.c) && (k1.VNONRELOC? ==> k1.reg < n1) && IsOperand(k2, s.c)
    requires 0 <= OperandOf(k1) <= MAXARG_B && 0 <= OperandOf(k2) <= MAXARG_B
    requires s' == Tested(s, CompInstr(op, OperandOf(k1), OperandOf(k2)))
    ensures Correct(s0, s', ED(VJMP(s.c.pc + 1), [], []), Cmp(op, x, y), n, -1, NO_JUMP, NO_JUMP, NO_JUMP)
  {
    assert Key(0) && Open(0);
    CompareSem(s0, s1, s, s', op, k1, k2, x, y, n, n1);
    TestFacts(s, CompInstr(op, OperandOf(k1), OperandOf(k2)), s');
    EmptyList(s'.c.ins);
    Lock(s0, s', ED(VJMP(s.c.pc + 1), [], []), Cmp(op, x, y), n, -1, NO_JUMP, NO_JUMP, NO_JUMP);
  }

  // ---------- the start, and registers that no longer matter ----------

  lemma StartDone(s0: Snap, k: ExpKind, x: Expr, n: int, jpc: int)
    requires Ok(s0) && LocalsBelow(x, MAXREGS) && EndsFor(s0, s0, ED(k, [], [])) && IsList(s0.c.ins, jpc, s0.J)
    requires !k.VJMP? && !k.VRELOCABLE?
    requires forall env: Env, r: Regs :: Eval(x, r, env).Some? && ValueOf(s0.c, k, r) == Eval(x, r, env)
    ensures Correct(s0, s0, ED(k, [], []), x, n, -1, jpc, NO_JUMP, NO_JUMP)
  {
    StartSem(s0, k, x, n);
    EmptyList(s0.c.ins);
    Lock(s0, s0, ED(k, [], []), x, n, -1, jpc, NO_JUMP, NO_JUMP);
  }

  /** A constant may join the constant table before anything else is done for the expression. */
  lemma AddedConstant(s0: Snap, s: Snap, d: ED, x: Expr, n: int, jpc: int)
    requires Correct(s, s, d, x, n, -1, jpc, NO_JUMP, NO_JUMP) && Ok(s0) && d.T == d.F == []
    requires s == s0.(c := s0.c.(ks := s.c.ks)) && s0.c.ks <= s.c.ks && !d.k.VJMP? && !d.k.VRELOCABLE?
    ensures Correct(s0, s, d, x, n, -1, jpc, NO_JUMP, NO_JUMP)
  {
    assert Key(0) && Open(0);
    MoreConstantsOk(s0, s);
    forall env: Env, q: int, r: Regs | q <= s0.last && Entry(s0.c.ins, q) ensures SemAt(s0, s, d, x, n, -1, env, q, r) {
      assert SemAt(s, s, d, x, n, -1, env, q, r);
      MoreConstantsRun(s0, s, env, q, r);
    }
    Lock(s0, s, d, x, n, -1, jpc, NO_JUMP, NO_JUMP);
  }

  /** A temporary register above those in use may change. */
  lemma ForgetDone(s0: Snap, s: Snap, d: ED, x: Expr, n: int, but: int, jpc: int, t: int, f: int)
    requires Correct(s0, s, d, x, n, but, jpc, t, f) && (but >= n || but == -1)
    ensures Correct(s0, s, d, x, n, -1, jpc, t, f)
  {
    assert Key(0) && Open(0);
    forall env: Env, q: int, r: Regs | q <= s0.last && Entry(s0.c.ins, q)
      ensures SemAt(s0, View(s, d.k), d, x, n, -1, env, q, r) {
      assert SemAt(s0, View(s, d.k), d, x, n, but, env, q, r);
    }
    Lock(s0, s, d, x, n, -1, jpc, t, f);
  }
}
