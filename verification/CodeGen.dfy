/**
  The expression generator (src/uvm/lcode.cpp:402-753, 844-920), driven as subexpr in
  src/uvm/lparser.cpp:1105-1132 drives it.

  The theorem is `Compile` followed by `Exp2NextReg` or `StoreLocal`: from every entry of the code
  so far, with any registers and any comparison of values, every run that used to reach the end of
  the code now reaches the new end with the value of the expression in the target register and the
  other registers below the temporaries unchanged, and throws when the expression throws.
 */
module CodeGen {
  import opened Locks
  import opened Opcodes
  import opened LuaMachine
  import opened JumpLists
  import opened CodeSem
  import opened ExpSem
  import opened FinishSem
  import opened CondSem
  import opened FuncStates

  /** Expression descriptor (expdesc). */
  class ExpDesc {
    var k: ExpKind
    var t: int
    var f: int
    ghost var T: seq<int>
    ghost var F: seq<int>

    /** The value is in a register, and no exit is left. */
    method SetReg(reg: int)
      modifies this
      ensures k == VNONRELOC(reg) && t == f == NO_JUMP && D() == ED(VNONRELOC(reg), [], [])
    {
      k, t, f := VNONRELOC(reg), NO_JUMP, NO_JUMP;
      T, F := [], [];
    }

    /** *e1 = *e2 */
    method Copy(e: ExpDesc)
      modifies this
      ensures k == e.k && t == e.t && f == e.f && T == e.T && F == e.F
    {
      k, t, f := e.k, e.t, e.f;
      T, F := e.T, e.F;
    }

    constructor (k: ExpKind)
      ensures this.k == k && t == f == NO_JUMP && T == F == []
    {
      this.k := k;
      t, f := NO_JUMP, NO_JUMP;
      T, F := [], [];
    }

    ghost function D(): ED reads this {
      ED(k, T, F)
    }
  }

  ghost predicate CodedWithLists(s0: Snap, s: Snap, d: ED, x: Expr, n: int, but: int, jpc: int, t: int, f: int) {
    Coded(s0, s, d, x, n, but) && IsList(s.c.ins, jpc, s.J) && IsList(s.c.ins, t, d.T) && IsList(s.c.ins, f, d.F)
  }

  /** From state s0, the expression x has been coded so far as d says, and the heads jpc, t and f lead
      through the lists of s and d. */
  ghost predicate Correct(s0: Snap, s: Snap, d: ED, x: Expr, n: int, but: int, jpc: int, t: int, f: int) {
    forall k: nat {:trigger Key(k)} :: Open(k) ==> CodedWithLists(s0, s, d, x, n, but, jpc, t, f)
  }

  /** The function under construction has been changed from s0 by coding x so far, as d says. */
  ghost predicate HoldsAs(fs: FuncState, e: ExpDesc, d: ED, s0: Snap, x: Expr, n: int, but: int)
    reads fs, e
  {
    && Correct(s0, fs.Now(), d, x, n, but, fs.jpc, e.t, e.f) && d.T == e.T && d.F == e.F
    && fs.RegsOk() && fs.nactvar <= n < MAXREGS && LocalsBelow(x, fs.nactvar)
  }

  ghost predicate Holds(fs: FuncState, e: ExpDesc, s0: Snap, x: Expr, n: int, but: int)
    reads fs, e
  {
    HoldsAs(fs, e, e.D(), s0, x, n, but)
  }

  /** What the methods need to know of the code and the lists. */
  lemma Known(s0: Snap, s: Snap, d: ED, x: Expr, n: int, but: int, jpc: int, t: int, f: int)
    requires Correct(s0, s, d, x, n, but, jpc, t, f)
    ensures Ok(s) && IsList(s.c.ins, jpc, s.J) && IsList(s.c.ins, t, d.T) && IsList(s.c.ins, f, d.F)
    ensures EndsFor(s0, s, d) && Disjoint(d.T, d.F) && LocalsBelow(x, MAXREGS)
  {
    assert Key(0) && Open(0);
  }

  /** The registers in use: those below n, and the temporary n if the value is there. */
  ghost predicate RegsFor(k: ExpKind, nactvar: int, n: int, free: int) {
    match k
    case VNONRELOC(r) => (0 <= r < nactvar && free == n) || (r == n && free == n + 1)
    case VLOCAL(r) => 0 <= r < nactvar && free == n
    case _ => free == n
  }

  /** Why the generator gave up: it really was out of room. */
  ghost predicate Explained(fs: FuncState, st: Status)
    reads fs
  {
    match st
    case Good => true
    case TooManyRegs => fs.freereg >= MAXREGS - 1
    case TooLong => fs.pc >= MAXARG_SBX
    case TooManyConsts => |fs.ks| > MAXARG_AX
  }

  // ---------- helpers ----------

  lemma Lock(s0: Snap, s: Snap, d: ED, x: Expr, n: int, but: int, jpc: int, t: int, f: int)
    requires CodedWithLists(s0, s, d, x, n, but, jpc, t, f)
    ensures Correct(s0, s, d, x, n, but, jpc, t, f)
  {
  }

  lemma ListsKept(s0: Snap, s: Snap, s': Snap, e: ED, t: int, f: int)
    requires Ok(s) && Described(s0, s, e) && Grows(View(s, e.k), s') && Ok(View(s, e.k))
    requires IsList(s.c.ins, t, e.T) && IsList(s.c.ins, f, e.F)
    ensures IsList(s'.c.ins, t, e.T) && IsList(s'.c.ins, f, e.F)
  {
    StillLists(s, s', e);
    ListKept(s.c.ins, s'.c.ins, t, e.T);
    ListKept(s.c.ins, s'.c.ins, f, e.F);
  }

  lemma StillLists(s: Snap, s': Snap, e: ED)
    requires Ok(s) && Ok(View(s, e.k)) && Grows(View(s, e.k), s')
    requires forall j :: j in e.T || j in e.F ==> Outer(s, j)
    ensures forall j :: j in e.T || j in e.F ==> 0 <= j < |s.c.ins| && j < |s'.c.ins| && s'.c.ins[j] == s.c.ins[j]
  {
    forall j | j in e.T || j in e.F ensures 0 <= j < |s.c.ins| && j < |s'.c.ins| && s'.c.ins[j] == s.c.ins[j] {
      assert Outer(View(s, e.k), j);
      assert j in View(s, e.k).c.pend;
    }
  }

  lemma LoadDone(s0: Snap, s: Snap, s': Snap, e: ED, x: Expr, n: int, but: int, reg: ArgA, jpc: int, jpc': int, t: int,
          f: int)
    requires Correct(s0, s, e, x, n, but, jpc, t, f) && CanLoad(View(s, e.k), e.k, reg) && (but == -1 || but == reg)
    requires s' == Loaded(View(s, e.k), e.k, reg) && IsList(s'.c.ins, jpc', s'.J)
    ensures Correct(s0, s', e.(k := VNONRELOC(reg)), x, n, reg, jpc', t, f)
  {
    assert Key(0) && Open(0);
    LoadSem(s0, s, s', e, x, n, but, reg);
    ListsKept(s0, s, s', e, t, f);
  }

  function Numeral(k: ExpKind): Value
    requires IsNumeral(k)
  {
    if k.VKFLT? then Float(k.nval) else Int(k.ival)
  }

  /** A numeral becomes a constant: nothing changes for the expression. */
  lemma ConstantDone(s0: Snap, s: Snap, s': Snap, e: ED, i: nat, x: Expr, n: int, but: int, jpc: int, t: int, f: int)
    requires Correct(s0, s, e, x, n, but, jpc, t, f) && IsNumeral(e.k)
    requires s' == s.(c := s.c.(ks := s'.c.ks)) && s.c.ks <= s'.c.ks && i < |s'.c.ks| && s'.c.ks[i] == Numeral(e.k)
    ensures Correct(s0, s', e.(k := VK(i)), x, n, but, jpc, t, f)
  {
    assert Key(0) && Open(0);
    MoreConstantsOk(s, s');
    GrowsTrans(s0, s, s');
    MoreConstantsAll(s0, s, s', e, x, n, but);
    RenameSem(s0, s', e, VK(i), x, n, but);
  }

  /** A local variable is already in its register. */
  lemma LocalDone(s0: Snap, s: Snap, e: ED, x: Expr, n: int, but: int, jpc: int, t: int, f: int)
    requires Correct(s0, s, e, x, n, but, jpc, t, f) && e.k.VLOCAL?
    ensures Correct(s0, s, e.(k := VNONRELOC(e.k.reg)), x, n, but, jpc, t, f)
  {
    assert Key(0) && Open(0);
    RenameSem(s0, s, e, VNONRELOC(e.k.reg), x, n, but);
  }

  lemma WeakenDone(s0: Snap, s: Snap, e: ED, x: Expr, n: int, but: int, reg: int, jpc: int, t: int, f: int)
    requires Correct(s0, s, e, x, n, but, jpc, t, f) && (but == -1 || but == reg)
    ensures Correct(s0, s, e, x, n, reg, jpc, t, f)
  {
    assert Key(0) && Open(0);
    if but == -1 {
      WeakenBut(s0, s, e, x, n, reg);
    }
  }

  lemma MoreConstantsAll(s0: Snap, s: Snap, s': Snap, e: ED, x: Expr, n: int, but: int)
    requires Ok(s) && Grows(s0, s) && LocalsBelow(x, MAXREGS) && Sem(s0, s, e, x, n, but)
    requires s' == s.(c := s.c.(ks := s'.c.ks)) && s.c.ks <= s'.c.ks
    ensures Sem(s0, s', e, x, n, but)
  {
    forall env: Env, q: int, r: Regs | q <= s0.last && Entry(s0.c.ins, q)
      ensures SemAt(s0, s', e, x, n, but, env, q, r) {
      assert SemAt(s0, s, e, x, n, but, env, q, r);
      MoreConstantsRun(s, s', env, q, r);
    }
  }

  lemma TooLongFor(s: Snap)
    requires Ok(s) && !JpcFits(s)
    ensures s.c.pc >= MAXARG_SBX
  {
  }

  // ---------- values into registers ----------

  /** luaK_dischargevars, for the variables modelled: a local is already in its register. */
  method DischargeVars(fs: FuncState, e: ExpDesc, ghost s0: Snap, ghost x: Expr, ghost n: int, ghost but: int)
    requires Holds(fs, e, s0, x, n, but)
    modifies e`k
    ensures Holds(fs, e, s0, x, n, but)
    ensures e.k == if old(e.k).VLOCAL? then VNONRELOC(old(e.k).reg) else old(e.k)
  {
    if e.k.VLOCAL? {
      LocalDone(s0, fs.Now(), e.D(), x, n, but, fs.jpc, e.t, e.f);
      e.k := VNONRELOC(e.k.reg);
    }
  }

  /** discharge2reg: unless it is a comparison's jump, the value is put in reg. */
  method Discharge2Reg(fs: FuncState, e: ExpDesc, reg: ArgA, ghost s0: Snap, ghost x: Expr, ghost n: int,
          ghost but: int) returns (st: Status)
    requires Holds(fs, e, s0, x, n, but) && reg < MAXREGS && (but == -1 || but == reg)
    modifies fs`codes, fs`pc, fs`jpc, fs`J, fs`pend, fs`ks, fs`h, e`k
    ensures Explained(fs, st)
    ensures st.Good? ==> Holds(fs, e, s0, x, n, reg)
    ensures st.Good? ==> e.k == if old(e.k).VJMP? then old(e.k) else VNONRELOC(reg)
  {
    DischargeVars(fs, e, s0, x, n, but);
    if e.k.VJMP? || e.k == VNONRELOC(reg) {
      WeakenDone(s0, fs.Now(), e.D(), x, n, but, reg, fs.jpc, e.t, e.f);
      return Good;
    }
    if IsNumeral(e.k) {
      NumberConstant(fs, e, s0, x, n, but);
    }
    Known(s0, fs.Now(), e.D(), x, n, but, fs.jpc, e.t, e.f);
    st := Load(fs, e, reg, s0, x, n, but);
  }

  /** luaK_intK and luaK_numberK: a numeral becomes a constant. */
  method NumberConstant(fs: FuncState, e: ExpDesc, ghost s0: Snap, ghost x: Expr, ghost n: int, ghost but: int)
    requires Holds(fs, e, s0, x, n, but) && IsNumeral(e.k)
    modifies fs`ks, fs`h, e`k
    ensures Holds(fs, e, s0, x, n, but) && e.k.VK? && 0 <= e.k.info < |fs.ks| && fs.ks[e.k.info] == Numeral(old(e.k))
  {
    ghost var s := fs.Now();
    var k := fs.AddK(Numeral(e.k));
    ConstantDone(s0, s, fs.Now(), e.D(), k, x, n, but, fs.jpc, e.t, e.f);
    e.k := VK(k);
  }

  method Load(fs: FuncState, e: ExpDesc, reg: ArgA, ghost s0: Snap, ghost x: Expr, ghost n: int, ghost but: int)
          returns (st: Status)
    requires Holds(fs, e, s0, x, n, but) && reg < MAXREGS && (but == -1 || but == reg)
    requires IsLoadable(e.k) && (e.k.VNONRELOC? ==> e.k.reg != reg)
    modifies fs`codes, fs`pc, fs`jpc, fs`J, fs`pend, e`k
    ensures Explained(fs, st)
    ensures st.Good? ==> Holds(fs, e, s0, x, n, reg) && e.k == VNONRELOC(reg)
  {
    ghost var s := fs.Now();
    ghost var jpc := fs.jpc;
    Known(s0, s, e.D(), x, n, but, jpc, e.t, e.f);
    ViewIsOk(s0, s, e.D(), x, n, but, jpc, e.t, e.f);
    st := LoadKind(fs, e.k, reg);
    if st.Good? {
      LoadDone(s0, s, fs.Now(), e.D(), x, n, but, reg, jpc, fs.jpc, e.t, e.f);
      e.k := VNONRELOC(reg);
    }
  }

  /** discharge2reg without the descriptor: the instruction is finished or emitted. */
  method LoadKind(fs: FuncState, k: ExpKind, reg: ArgA) returns (st: Status)
    requires Ok(fs.Now()) && Ok(View(fs.Now(), k)) && IsList(fs.codes, fs.jpc, fs.J) && reg < MAXREGS && IsLoadable(k)
    requires k.VK? ==> 0 <= k.info < |fs.ks|
    requires k.VNONRELOC? ==> 0 <= k.reg < MAXREGS && k.reg != reg
    requires k.VRELOCABLE? ==> 0 <= k.pc == fs.pc - 1 && fs.J == []
    requires k.VRELOCABLE? ==> fs.codes[k.pc].op == NOT && fs.codes[k.pc].b < MAXREGS
    modifies fs`codes, fs`pc, fs`jpc, fs`J, fs`pend
    ensures Explained(fs, st)
    ensures st.Good? ==>
        CanLoad(View(old(fs.Now()), k), k, reg) && fs.Now() == Loaded(View(old(fs.Now()), k), k, reg)
    ensures st.Good? ==> IsList(fs.codes, fs.jpc, fs.J)
  {
    if k.VRELOCABLE? {
      Relocate(fs, k, reg);
      st := Good;
    } else {
      st := LoadInstr(fs, k, reg);
    }
  }

  lemma ViewIsOk(s0: Snap, s: Snap, e: ED, x: Expr, n: int, but: int, jpc: int, t: int, f: int)
    requires Correct(s0, s, e, x, n, but, jpc, t, f)
    ensures Ok(View(s, e.k))
  {
    assert Key(0) && Open(0);
  }

  /** The instructions of discharge2reg. */
  method LoadInstr(fs: FuncState, k: ExpKind, reg: ArgA) returns (st: Status)
    requires Ok(fs.Now()) && IsList(fs.codes, fs.jpc, fs.J) && reg < MAXREGS && IsLoadable(k) && !k.VRELOCABLE?
    requires k.VK? ==> 0 <= k.info < |fs.ks|
    requires k.VNONRELOC? ==> 0 <= k.reg < MAXREGS && k.reg != reg
    modifies fs`codes, fs`pc, fs`jpc, fs`J, fs`pend
    ensures Explained(fs, st)
    ensures st.Good? ==> CanLoad(old(fs.Now()), k, reg) && fs.Now() == Loaded(old(fs.Now()), k, reg)
    ensures st.Good? ==> IsList(fs.codes, fs.jpc, fs.J)
  {
    ghost var s := fs.Now();
    if !JpcFits(s) { TooLongFor(s); }
    NilBound(s);
    var at;
    match k {
      case VNIL => st := fs.LoadNil(reg, 1);
      case VTRUE => st, at := fs.Emit(Instr(LOADBOOL, reg, 1, 0));
      case VFALSE => st, at := fs.Emit(Instr(LOADBOOL, reg, 0, 0));
      case VK(i) => st := fs.CodeK(reg, i);
      case VNONRELOC(r) => st, at := fs.Emit(Instr(MOVE, reg, r, 0));
      case _ => st := Good;
    }
  }

  /** A relocatable instruction gets its register. */
  method Relocate(fs: FuncState, k: ExpKind, reg: ArgA)
    requires Ok(fs.Now()) && IsList(fs.codes, fs.jpc, fs.J) && reg < MAXREGS && k.VRELOCABLE? && 0 <= k.pc == fs.pc - 1
    requires fs.codes[k.pc].op == NOT && fs.codes[k.pc].b < MAXREGS && fs.J == [] && Ok(View(fs.Now(), k))
    modifies fs`codes
    ensures CanLoad(View(old(fs.Now()), k), k, reg) && fs.Now() == Loaded(View(old(fs.Now()), k), k, reg)
    ensures IsList(fs.codes, fs.jpc, fs.J)
  {
    DischargeNone(View(fs.Now(), k));
    fs.codes := fs.codes[k.pc := fs.codes[k.pc].(a := reg)];
  }

  // ---------- exp2reg ----------

  /** code_label, twice: false then skip, or true. */
  method CodeBools(fs: FuncState, reg: ArgA) returns (pf: int, pt: int)
    requires fs.pc <= |fs.codes| && fs.J == [] && fs.jpc == NO_JUMP
    modifies fs`codes, fs`pc, fs`jpc, fs`J, fs`pend, fs`lasttarget
    ensures fs.Now().c == WithBools(old(fs.Now()).c, reg) && fs.J == [] && fs.jpc == NO_JUMP
    ensures pf == old(fs.pc) && pt == pf + 1
  {
    ghost var s := fs.Now();
    DischargeNone(s);
    var here := fs.GetLabel();
    var st;
    DischargeNone(fs.Now());
    st, pf := fs.Emit(Instr(LOADBOOL, reg, 0, 1));
    assert fs.Now().c == Append(s.c, Instr(LOADBOOL, reg, 0, 1));
    here := fs.GetLabel();
    DischargeNone(fs.Now());
    st, pt := fs.Emit(Instr(LOADBOOL, reg, 1, 0));
  }

  /** exp2reg, when some exit needs a boolean and the code ends in a comparison: it falls through to false. */
  method BoolsAfterCompare(fs: FuncState, reg: ArgA) returns (pf: int, pt: int)
    requires Ok(fs.Now()) && IsList(fs.codes, fs.jpc, fs.J) && fs.J == []
    modifies fs`codes, fs`pc, fs`jpc, fs`J, fs`pend, fs`lasttarget
    ensures pf == old(fs.pc) && pt == pf + 1 && IsList(fs.codes, fs.jpc, fs.J)
    ensures fs.Now() == Snap(WithBools(old(fs.Now()).c, reg), old(fs.pc) + 2, [])
  {
    Positions(fs.codes, fs.jpc, fs.J);
    pf, pt := CodeBools(fs, reg);
    var st := fs.PatchToHere(NO_JUMP, []);
    assert fs.J == [];
  }

  /** exp2reg, when some exit needs a boolean and the value is in the register: it jumps over them. */
  method BoolsAfterValue(fs: FuncState, reg: ArgA) returns (st: Status, pf: int, pt: int, ghost link: Instr)
    requires Ok(fs.Now()) && IsList(fs.codes, fs.jpc, fs.J)
    modifies fs`codes, fs`pc, fs`jpc, fs`J, fs`pend, fs`lasttarget
    ensures Explained(fs, st)
    ensures st.Good? ==>
        pf == old(fs.pc) + 1 && pt == pf + 1 && IsList(fs.codes, fs.jpc, fs.J) && link.op == JMP && link.a == 0
    ensures st.Good? ==>
      fs.Now() == Snap(WithBools(Jumped(old(fs.Now()), link).c, reg), old(fs.pc) + 3, [old(fs.pc)] + old(fs.J))
  {
    ghost var s := fs.Now();
    pf, pt := NO_JUMP, NO_JUMP;
    var fj;
    st, fj, link := fs.Jump();
    if st.Good? {
      pf, pt := BoolsPastJump(fs, reg, fj, [s.c.pc] + s.J);
    }
  }

  /** The LOADBOOLs, and the jumps of a list sent past them. */
  method BoolsPastJump(fs: FuncState, reg: ArgA, fj: int, ghost hold: seq<int>) returns (pf: int, pt: int)
    requires fs.pc <= |fs.codes| && fs.J == [] && fs.jpc == NO_JUMP
    requires IsList(fs.codes, fj, hold) && forall k :: 0 <= k < |hold| ==> hold[k] < fs.pc
    modifies fs`codes, fs`pc, fs`jpc, fs`J, fs`pend, fs`lasttarget
    ensures pf == old(fs.pc) && pt == pf + 1 && IsList(fs.codes, fs.jpc, fs.J)
    ensures fs.Now() == Snap(WithBools(old(fs.Now()).c, reg), old(fs.pc) + 2, hold)
  {
    ghost var c2 := fs.Now().c;
    pf, pt := CodeBools(fs, reg);
    BoolsKeepList(c2, reg, fj, hold);
    EmptyList(fs.codes);
    var st := fs.PatchToHere(fj, hold);
    assert [] + hold == hold;
  }

  lemma EmptyList(ins: seq<Instr>)
    ensures IsList(ins, NO_JUMP, [])
  {
  }

  lemma BoolsKeepList(c: Code, reg: ArgA, l: int, s: seq<int>)
    requires c.pc <= |c.ins| && IsList(c.ins, l, s) && forall k :: 0 <= k < |s| ==> s[k] < c.pc
    ensures IsList(WithBools(c, reg).ins, l, s)
  {
    var c1 := Append(c, Instr(LOADBOOL, reg, 0, 1));
    var c2 := Append(c1, Instr(LOADBOOL, reg, 1, 0));
    forall j | j in s ensures 0 <= j < |c.ins| && j < |c2.ins| && c2.ins[j] == c.ins[j] {
      assert c2.ins[j] == c2.ins[..c1.pc][j] == c1.ins[..c1.pc][j];
      assert c1.ins[j] == c1.ins[..c.pc][j] == c.ins[..c.pc][j];
    }
    ListKept(c.ins, c2.ins, l, s);
  }

  /** The exits of f go to pf or the end, those of t to pt or the end. */
  method PatchBoth(fs: FuncState, t: int, f: int, reg: ArgA, pf: int, pt: int, ghost d: ED) returns (st: Status)
    requires Ready(fs.Now(), d, reg, pf, pt) && IsList(fs.codes, t, d.T) && IsList(fs.codes, f, d.F) &&
        Places(fs.Now(), d)
    modifies fs`codes, fs`pend
    ensures Explained(fs, st)
    ensures st.Good? ==> AllFit(old(fs.Now()).c, d.F, pf) && AllFit(FirstOf(old(fs.Now()), d, reg, pf), d.T, pt)
    ensures st.Good? ==> fs.Now() == BothOf(old(fs.Now()), d, reg, pf, pt)
  {
    ghost var s4 := fs.Now();
    st := fs.PatchListAux(f, d.F, fs.pc, reg, pf);
    if !st.Good? {
      PatchTooLong(s4, d, reg, pf, pt, s4.c, d.F, pf);
      return;
    }
    fs.pend := fs.pend - Members(d.F);
    ghost var c5 := fs.Now().c;
    assert AllFit(s4.c, d.F, pf);
    assert c5 == FirstOf(s4, d, reg, pf);
    FirstPatched(s4, c5, d, reg, pf, pt, t);
    st := fs.PatchListAux(t, d.T, fs.pc, reg, pt);
    if !st.Good? {
      PatchTooLong(s4, d, reg, pf, pt, c5, d.T, pt);
      return;
    }
    fs.pend := fs.pend - Members(d.T);
  }

  ghost predicate Places(s4: Snap, d: ED) {
    && (forall k :: 0 <= k < |d.F| ==> 0 <= d.F[k] < |s4.c.ins|)
    && (forall k :: 0 <= k < |d.T| ==> 0 <= d.T[k] < |s4.c.ins|)
  }

  ghost function FirstOf(s4: Snap, d: ED, reg: ArgA, pf: int): Code
    requires Places(s4, d)
  {
    PatchedAll(s4.c, d.F, s4.c.pc, reg, pf)
  }

  ghost function BothOf(s4: Snap, d: ED, reg: ArgA, pf: int, pt: int): Snap
    requires Places(s4, d)
  {
    s4.(c := PatchedAll(FirstOf(s4, d, reg, pf), d.T, s4.c.pc, reg, pt))
  }

  lemma FirstPatched(s4: Snap, c5: Code, d: ED, reg: ArgA, pf: int, pt: int, t: int)
    requires Ready(s4, d, reg, pf, pt) && AllFit(s4.c, d.F, pf) && c5 == PatchedAll(s4.c, d.F, s4.c.pc, reg, pf)
    requires IsList(s4.c.ins, t, d.T)
    ensures IsList(c5.ins, t, d.T)
  {
    ExitsPend(s4, d, reg, pf, pt);
    ListsThroughPatch(s4, c5, d, reg, pf, pt, t, d.T);
  }

  /** The two patchings done, the value is in reg. */
  lemma FinishDone(s0: Snap, s1: Snap, s4: Snap, s6: Snap, d: ED, x: Expr, n: int, reg: ArgA, pf: int, pt: int,
          jpc1: int, jpc: int, t: int, f: int)
    requires Correct(s0, s1, d, x, n, reg, jpc1, t, f) && PrepStep(s1, d, reg, s4, pf, pt) && reg < MAXREGS
    requires Ready(s4, d, reg, pf, pt) && Places(s4, d)
    requires AllFit(s4.c, d.F, pf) && AllFit(FirstOf(s4, d, reg, pf), d.T, pt) && s6 == BothOf(s4, d, reg, pf, pt)
    requires IsList(s4.c.ins, jpc, s4.J)
    ensures Correct(s0, s6, ED(VNONRELOC(reg), [], []), x, n, reg, jpc, NO_JUMP, NO_JUMP)
  {
    assert Key(0) && Open(0);
    PrepSem(s0, s1, s4, d, x, n, reg, pf, pt, t, f);
    BothPatched(s0, s1, s4, FirstOf(s4, d, reg, pf), s6, d, x, n, reg, pf, pt, jpc);
    EmptyList(s6.c.ins);
    Lock(s0, s6, ED(VNONRELOC(reg), [], []), x, n, reg, jpc, NO_JUMP, NO_JUMP);
  }

  lemma BothPatched(s0: Snap, s1: Snap, s4: Snap, c5: Code, s6: Snap, d: ED, x: Expr, n: int, reg: ArgA, pf: int,
          pt: int, jpc: int)
    requires Coded(s0, s1, d, x, n, reg) && !d.k.VJMP? && !d.k.VRELOCABLE? && Prepared(s0, s1, s4, d, reg)
    requires Ready(s4, d, reg, pf, pt) && AllFit(s4.c, d.F, pf) && c5 == PatchedAll(s4.c, d.F, s4.c.pc, reg, pf)
    requires AllFit(c5, d.T, pt) && s6 == Snap(PatchedAll(c5, d.T, s4.c.pc, reg, pt), s4.last, s4.J)
    requires IsList(s4.c.ins, jpc, s4.J)
    ensures Coded(s0, s6, ED(VNONRELOC(reg), [], []), x, n, reg) && IsList(s6.c.ins, jpc, s6.J)
  {
    ExitsPend(s4, d, reg, pf, pt);
    BuildPatching(s4, c5, s6.c, d, reg, pf, pt);
    ListsThroughBoth(s4, c5, s6.c, d, reg, pf, pt, jpc, s4.J);
    FinishAll(s0, s1, s4, c5, s6, d, x, n, reg, pf, pt);
  }

  lemma ExitsPend(s4: Snap, d: ED, reg: ArgA, pf: int, pt: int)
    requires Ready(s4, d, reg, pf, pt)
    ensures forall j :: j in d.T ==> j in s4.c.pend && j !in d.F
    ensures forall j :: j in s4.J ==> j in s4.c.pend && j !in d.F && j !in d.T
  {
    forall j | j in d.T ensures j in s4.c.pend { assert j in d.T + d.F; }
    forall j | j in s4.J ensures j !in d.F && j !in d.T { assert j !in d.T + d.F; }
  }

  lemma PatchTooLong(s4: Snap, d: ED, reg: ArgA, pf: int, pt: int, c: Code, l: seq<int>, dt: int)
    requires Ready(s4, d, reg, pf, pt) && c.pc == s4.c.pc && (l == d.T || l == d.F) && -1 <= dt <= c.pc
    requires exists k :: 0 <= k < |l| && 0 <= l[k] < |c.ins| && !Fits(l[k], Target(c.ins, l[k], c.pc, dt))
    ensures c.pc >= MAXARG_SBX
  {
    var k :| 0 <= k < |l| && 0 <= l[k] < |c.ins| && !Fits(l[k], Target(c.ins, l[k], c.pc, dt));
    assert l[k] in d.T + d.F;
  }

  lemma HasJumps(ins: seq<Instr>, e: ED, t: int, f: int)
    requires IsList(ins, t, e.T) && IsList(ins, f, e.F) && Disjoint(e.T, e.F)
    ensures t == f <==> (e.T == [] && e.F == [])
  {
    Positions(ins, t, e.T);
    Positions(ins, f, e.F);
    assert e.T != [] ==> e.T[0] in e.T;
    assert e.F != [] ==> e.F[0] in e.F;
  }

  /** A comparison's own jump is put in its true list: from now on, falling through means false. */
  method JumpIntoList(fs: FuncState, e: ExpDesc, ghost s0: Snap, ghost x: Expr, ghost n: int, ghost but: int)
          returns (st: Status)
    requires Holds(fs, e, s0, x, n, but) && e.k.VJMP?
    modifies fs`codes, e`t, e`T
    ensures Explained(fs, st)
    ensures st.Good? ==> HoldsAs(fs, e, ED(VFALSE, e.T, e.F), s0, x, n, but) && NeedsBool(fs.codes, e.T) && fs.J == []
  {
    ghost var s := fs.Now();
    ghost var d := e.D();
    JumpListFacts(s0, s, d, x, n, but, fs.jpc, e.t, e.f);
    st, e.t := fs.Concat(e.t, e.k.pc, e.T, [e.k.pc]);
    e.T := e.T + [e.k.pc];
    if st.Good? {
      JumpInList(s0, s, fs.Now(), d, x, n, but, fs.jpc, d.k.pc, e.t, e.f);
    }
  }

  /** Some exit of the list has no value in a register. */
  ghost predicate NeedsBool(ins: seq<Instr>, l: seq<int>) {
    exists k :: 0 <= k < |l| && 0 <= l[k] < |ins| && Ctl(ins, l[k]).op != TESTSET
  }

  lemma JumpInList(s0: Snap, s: Snap, s': Snap, d: ED, x: Expr, n: int, but: int, jpc: int, p: int, t': int, f: int)
    requires exists t :: Correct(s0, s, d, x, n, but, jpc, t, f)
    requires d.k == VJMP(p) && Relinked(s, s', d.T) && IsList(s'.c.ins, t', d.T + [p])
    ensures Correct(s0, s', ED(VFALSE, d.T + [p], d.F), x, n, but, jpc, t', f)
    ensures NeedsBool(s'.c.ins, d.T + [p]) && s'.J == []
  {
    assert Key(0) && Open(0);
    var t :| Correct(s0, s, d, x, n, but, jpc, t, f);
    JumpListFacts(s0, s, d, x, n, but, jpc, t, f);
    JumpJoinsList(s0, s, s', d, x, n, but);
    ListKept(s.c.ins, s'.c.ins, jpc, s.J);
    ListKept(s.c.ins, s'.c.ins, f, d.F);
    assert (d.T + [p])[|d.T|] == p;
  }

  lemma JumpListFacts(s0: Snap, s: Snap, d: ED, x: Expr, n: int, but: int, jpc: int, t: int, f: int)
    requires Correct(s0, s, d, x, n, but, jpc, t, f) && d.k.VJMP?
    ensures Disjoint(d.T, [d.k.pc]) && s.J == [] && 0 <= d.k.pc < s.c.pc <= |s.c.ins|
    ensures IsList(s.c.ins, t, d.T) && IsList(s.c.ins, d.k.pc, [d.k.pc])
    ensures forall j :: j in d.T ==> 0 <= j < s.c.pc && j in s.c.pend
    ensures forall j :: j in d.F ==> 0 <= j < |s.c.ins| && j !in d.T
    ensures d.T != [] && !Fits(d.T[|d.T| - 1], d.k.pc) ==> s.c.pc >= MAXARG_SBX
  {
    assert Key(0) && Open(0);
    assert d.T != [] ==> d.T[|d.T| - 1] in d.T;
    assert Linked(s.c.ins, [d.k.pc], 0);
  }

  /** What exp2reg does before patching: nothing, LOADBOOLs after a comparison, or LOADBOOLs jumped over. */
  ghost predicate PrepStep(s1: Snap, d: ED, reg: ArgA, s4: Snap, pf: int, pt: int) {
    || (d.k == VNONRELOC(reg) && !NeedsBool(s1.c.ins, d.T) && !NeedsBool(s1.c.ins, d.F)
        && s4 == s1.(last := s1.c.pc) && pf == pt == NO_JUMP)
    || (pt == pf + 1 && s1.c.pc <= |s1.c.ins| && d.k == VFALSE && s1.J == []
        && s4 == Snap(WithBools(s1.c, reg), s1.c.pc + 2, []) && pf == s1.c.pc)
    || (pt == pf + 1 && s1.c.pc <= |s1.c.ins| && d.k == VNONRELOC(reg) && pf == s1.c.pc + 1
        && exists link: Instr ::
          link.op == JMP && link.a == 0 &&
          s4 == Snap(WithBools(Jumped(s1, link).c, reg), s1.c.pc + 3, [s1.c.pc] + s1.J))
  }

  method PrepareExits(fs: FuncState, t: int, f: int, reg: ArgA, jump: bool, ghost d: ED)
          returns (st: Status, pf: int, pt: int)
    requires Ok(fs.Now()) && d.k == (if jump then VFALSE else VNONRELOC(reg)) &&
        (jump ==> fs.J == [] && NeedsBool(fs.codes, d.T))
    requires IsList(fs.codes, fs.jpc, fs.J) && IsList(fs.codes, t, d.T) && IsList(fs.codes, f, d.F)
    modifies fs`codes, fs`pc, fs`jpc, fs`J, fs`pend, fs`lasttarget
    ensures Explained(fs, st)
    ensures st.Good? ==> PrepStep(old(fs.Now()), d, reg, fs.Now(), pf, pt) && IsList(fs.codes, fs.jpc, fs.J)
  {
    pf, pt := NO_JUMP, NO_JUMP;
    Positions(fs.codes, t, d.T);
    Positions(fs.codes, f, d.F);
    var needT := fs.NeedValue(t, d.T);
    var needF := fs.NeedValue(f, d.F);
    st := Good;
    if !needT && !needF {
      var here := fs.GetLabel();
    } else if jump {
      pf, pt := BoolsAfterCompare(fs, reg);
    } else {
      ghost var link;
      st, pf, pt, link := BoolsAfterValue(fs, reg);
    }
  }

  lemma PrepBools(s0: Snap, s1: Snap, s4: Snap, d: ED, x: Expr, n: int, reg: ArgA, pf: int, pt: int, t: int, f: int)
    requires Coded(s0, s1, d, x, n, reg) && PrepStep(s1, d, reg, s4, pf, pt) && reg < MAXREGS && pf != NO_JUMP
    requires IsList(s1.c.ins, t, d.T) && IsList(s1.c.ins, f, d.F)
    ensures !d.k.VJMP? && !d.k.VRELOCABLE? && Prepared(s0, s1, s4, d, reg) && Ready(s4, d, reg, pf, pt)
  {
    Positions(s1.c.ins, t, d.T);
    Positions(s1.c.ins, f, d.F);
    if d.k == VFALSE {
      PrepareCompare(s0, s1, s4, d, reg);
    } else {
      var link: Instr :| link.op == JMP && link.a == 0 && s4 == Snap(WithBools(Jumped(s1, link).c, reg), s1.c.pc + 3,
        [s1.c.pc] + s1.J);
      PrepareJump(s0, s1, link, s4, d, reg);
    }
    ReadyBools(s0, s1, s4, d, reg, pf);
  }

  lemma PrepNothing(s0: Snap, s1: Snap, s4: Snap, d: ED, x: Expr, n: int, reg: ArgA, pf: int, pt: int, t: int, f: int)
    requires Coded(s0, s1, d, x, n, reg) && PrepStep(s1, d, reg, s4, pf, pt) && reg < MAXREGS && pf == NO_JUMP
    requires IsList(s1.c.ins, t, d.T) && IsList(s1.c.ins, f, d.F)
    ensures !d.k.VJMP? && !d.k.VRELOCABLE? && Prepared(s0, s1, s4, d, reg) && Ready(s4, d, reg, pf, pt)
  {
    Positions(s1.c.ins, t, d.T);
    Positions(s1.c.ins, f, d.F);
    PrepareNothing(s0, s1, s4, d, reg);
    ReadyNothing(s0, s1, s4, d, reg);
  }

  lemma PrepSem(s0: Snap, s1: Snap, s4: Snap, d: ED, x: Expr, n: int, reg: ArgA, pf: int, pt: int, t: int, f: int)
    requires Coded(s0, s1, d, x, n, reg) && PrepStep(s1, d, reg, s4, pf, pt) && reg < MAXREGS
    requires IsList(s1.c.ins, t, d.T) && IsList(s1.c.ins, f, d.F)
    ensures !d.k.VJMP? && !d.k.VRELOCABLE? && Prepared(s0, s1, s4, d, reg) && Ready(s4, d, reg, pf, pt)
    ensures IsList(s4.c.ins, t, d.T) && IsList(s4.c.ins, f, d.F)
  {
    if pf == NO_JUMP {
      PrepNothing(s0, s1, s4, d, x, n, reg, pf, pt, t, f);
    } else {
      PrepBools(s0, s1, s4, d, x, n, reg, pf, pt, t, f);
    }
    ListsKept(s0, s1, s4, d, t, f);
  }

  lemma ReadyFor(s0: Snap, s1: Snap, s4: Snap, d: ED, x: Expr, n: int, reg: ArgA, pf: int, pt: int, jpc: int, t: int,
          f: int)
    requires Correct(s0, s1, d, x, n, reg, jpc, t, f) && PrepStep(s1, d, reg, s4, pf, pt) && reg < MAXREGS
    ensures Ready(s4, d, reg, pf, pt) && IsList(s4.c.ins, t, d.T) && IsList(s4.c.ins, f, d.F) && Places(s4, d)
  {
    assert Key(0) && Open(0);
    PrepSem(s0, s1, s4, d, x, n, reg, pf, pt, t, f);
    Positions(s4.c.ins, t, d.T);
    Positions(s4.c.ins, f, d.F);
  }

  /** The exits of an expression whose value is in reg, or that falls through to false, get their values into reg. */
  method FinishExits(fs: FuncState, e: ExpDesc, reg: ArgA, jump: bool, ghost d: ED, ghost s0: Snap, ghost x: Expr,
          ghost n: int) returns (st: Status)
    requires HoldsAs(fs, e, d, s0, x, n, reg) && reg < MAXREGS
    requires d.k == (if jump then VFALSE else VNONRELOC(reg)) && (jump ==> fs.J == [] && NeedsBool(fs.codes, d.T))
    modifies fs`codes, fs`pc, fs`jpc, fs`J, fs`pend, fs`lasttarget, e
    ensures Explained(fs, st)
    ensures st.Good? ==> Holds(fs, e, s0, x, n, reg) && e.D() == ED(VNONRELOC(reg), [], []) && e.t == e.f == NO_JUMP
  {
    ghost var s1 := fs.Now();
    ghost var jpc1 := fs.jpc;
    Known(s0, s1, d, x, n, reg, jpc1, e.t, e.f);
    var pf, pt;
    st, pf, pt := PrepareExits(fs, e.t, e.f, reg, jump, d);
    if !st.Good? {
      return;
    }
    st := CloseExits(fs, e, reg, pf, pt, d, s0, s1, x, n, jpc1);
  }

  method CloseExits(fs: FuncState, e: ExpDesc, reg: ArgA, pf: int, pt: int, ghost d: ED,
                    ghost s0: Snap, ghost s1: Snap, ghost x: Expr, ghost n: int, ghost jpc1: int) returns (st: Status)
    requires Correct(s0, s1, d, x, n, reg, jpc1, e.t, e.f) && PrepStep(s1, d, reg, fs.Now(), pf, pt) && reg < MAXREGS
    requires IsList(fs.codes, fs.jpc, fs.J)
    modifies fs`codes, fs`pend, e
    ensures Explained(fs, st)
    ensures st.Good? ==> Correct(s0, fs.Now(), e.D(), x, n, reg, fs.jpc, NO_JUMP, NO_JUMP)
    ensures st.Good? ==> e.D() == ED(VNONRELOC(reg), [], []) && e.t == e.f == NO_JUMP
  {
    ghost var s4 := fs.Now();
    ReadyFor(s0, s1, s4, d, x, n, reg, pf, pt, jpc1, e.t, e.f);
    st := PatchBoth(fs, e.t, e.f, reg, pf, pt, d);
    if st.Good? {
      FinishDone(s0, s1, s4, fs.Now(), d, x, n, reg, pf, pt, jpc1, fs.jpc, e.t, e.f);
      e.SetReg(reg);
    }
  }

  /** exp2reg: the value of the expression in register reg. */
  method Exp2Reg(fs: FuncState, e: ExpDesc, reg: ArgA, ghost s0: Snap, ghost x: Expr, ghost n: int, ghost but: int)
          returns (st: Status)
    requires Holds(fs, e, s0, x, n, but) && reg < MAXREGS && (but == -1 || but == reg)
    modifies fs`codes, fs`pc, fs`jpc, fs`J, fs`pend, fs`ks, fs`h, fs`lasttarget, e
    ensures Explained(fs, st)
    ensures st.Good? ==> Holds(fs, e, s0, x, n, reg) && e.D() == ED(VNONRELOC(reg), [], []) && e.t == e.f == NO_JUMP
  {
    st := Discharge2Reg(fs, e, reg, s0, x, n, but);
    if !st.Good? {
      return;
    }
    if e.k.VJMP? {
      st := JumpIntoList(fs, e, s0, x, n, reg);
      if !st.Good? {
        return;
      }
      st := FinishExits(fs, e, reg, true, ED(VFALSE, e.T, e.F), s0, x, n);
    } else {
      Known(s0, fs.Now(), e.D(), x, n, reg, fs.jpc, e.t, e.f);
      HasJumps(fs.codes, e.D(), e.t, e.f);
      if e.t == e.f {
        Positions(fs.codes, e.t, e.T);
        e.t, e.f := NO_JUMP, NO_JUMP;
      } else {
        st := FinishExits(fs, e, reg, false, e.D(), s0, x, n);
      }
    }
  }
}
