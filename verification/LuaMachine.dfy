/**
  The machine that runs the generated code: values, registers, one step of each opcode the
  expression generator emits (meanings in include/uvm/lopcodes.h, executed in src/uvm/lvm.cpp), and
  the source-level value of an expression.

  `Run` executes a piece of code whose jumps may still be pending: it stops on reaching a pending
  jump, or the end of the code.  Every fact about the code generator is a fact about `Run`.
 */
module LuaMachine {
  import opened Options
  import opened Opcodes

  /** A floating-point number is given by its bits. */
  datatype Value = Nil | Bool(b: bool) | Int(n: int) | Float(bits: nat) | Str(s: string) | Ref(id: nat)

  predicate Truthy(v: Value) {
    v != Nil && v != Bool(false)
  }

  /** A frame has at most 254 registers, so register 255 (NO_REG) does not exist: writing it does nothing. */
  type Regs = s: seq<Value> | |s| == MAXREGS witness seq(MAXREGS, _ => Nil)

  function SetReg(r: Regs, a: int, v: Value): Regs {
    if 0 <= a < MAXREGS then r[a := v] else r
  }

  function SetNils(r: Regs, lo: int, hi: int): Regs {
    seq(MAXREGS, i requires 0 <= i < MAXREGS => if lo <= i <= hi then Nil else r[i])
  }

  /** The first `n` registers are the same. */
  predicate Agree(r: Regs, s: Regs, n: int) {
    forall i :: 0 <= i < n && i < MAXREGS ==> r[i] == s[i]
  }

  /** What the code generator does not decide: comparison of values (None: the comparison throws), and
      the effect of the opcodes it never emits for these expressions. */
  datatype Env = Env(cmp: (Op, Value, Value) -> Option<bool>, other: (Instr, Regs) -> Option<Regs>)

  // ---------- expressions ----------

  datatype CmpOp = OpEq | OpLt | OpLe | OpNe | OpGt | OpGe

  datatype Expr =
    | Local(reg: nat)
    | NilLit
    | TrueLit
    | FalseLit
    | IntLit(n: int)
    | FloatLit(bits: nat)
    | StrLit(s: string)
    | Cmp(op: CmpOp, x: Expr, y: Expr)
    | Not(x: Expr)
    | And(x: Expr, y: Expr)
    | Or(x: Expr, y: Expr)

  /** Every local of the expression lives below register n. */
  predicate LocalsBelow(e: Expr, n: int) {
    match e
    case Local(r) => r < n
    case Cmp(_, x, y) => LocalsBelow(x, n) && LocalsBelow(y, n)
    case Not(x) => LocalsBelow(x, n)
    case And(x, y) => LocalsBelow(x, n) && LocalsBelow(y, n)
    case Or(x, y) => LocalsBelow(x, n) && LocalsBelow(y, n)
    case _ => true
  }

  function Compare(op: CmpOp, v: Value, w: Value, env: Env): Option<bool> {
    match op
    case OpEq => env.cmp(EQ, v, w)
    case OpLt => env.cmp(LT, v, w)
    case OpLe => env.cmp(LE, v, w)
    case OpNe => (match env.cmp(EQ, v, w) case None => None case Some(b) => Some(!b))
    case OpGt => env.cmp(LT, w, v)
    case OpGe => env.cmp(LE, w, v)
  }

  /** The value of an expression over the registers that hold the locals; None when a comparison throws. */
  function Eval(e: Expr, r: Regs, env: Env): Option<Value>
    requires LocalsBelow(e, MAXREGS)
  {
    match e
    case Local(i) => Some(r[i])
    case NilLit => Some(Nil)
    case TrueLit => Some(Bool(true))
    case FalseLit => Some(Bool(false))
    case IntLit(n) => Some(Int(n))
    case FloatLit(x) => Some(Float(x))
    case StrLit(s) => Some(Str(s))
    case Cmp(op, x, y) =>
      (match Eval(x, r, env)
       case None => None
       case Some(v) =>
         match Eval(y, r, env)
         case None => None
         case Some(w) => match Compare(op, v, w, env) case None => None case Some(b) => Some(Bool(b)))
    case Not(x) => (match Eval(x, r, env) case None => None case Some(v) => Some(Bool(!Truthy(v))))
    case And(x, y) => (match Eval(x, r, env) case None => None case Some(v) => if Truthy(v) then Eval(y, r, env)
      else Some(v))
    case Or(x, y) => (match Eval(x, r, env) case None => None case Some(v) => if Truthy(v) then Some(v)
      else Eval(y, r, env))
  }

  lemma LocalsBelowMono(e: Expr, m: int, n: int)
    requires m <= n && LocalsBelow(e, m)
    ensures LocalsBelow(e, n)
  {
  }

  /** An expression reads its locals only. */
  lemma EvalAgree(e: Expr, r: Regs, s: Regs, n: int, env: Env)
    requires n <= MAXREGS && LocalsBelow(e, n) && LocalsBelow(e, MAXREGS) && Agree(r, s, n)
    ensures Eval(e, r, env) == Eval(e, s, env)
  {
  }

  // ---------- one step ----------

  datatype StepResult = Throws | Wild | Next(pc: int, r: Regs)

  function RK(x: ArgBC, r: Regs, ks: seq<Value>): Option<Value> {
    if x >= BITRK then if x - BITRK < |ks| then Some(ks[x - BITRK]) else None
    else if x < MAXREGS then Some(r[x]) else None
  }

  function Step(ins: seq<Instr>, ks: seq<Value>, env: Env, q: int, r: Regs): StepResult
    requires 0 <= q < |ins|
  {
    var i := ins[q];
    if i.op == MOVE then
      if i.b < MAXREGS then Next(q + 1, SetReg(r, i.a, r[i.b])) else Wild
    else if i.op == LOADK then
      if Bx(i) < |ks| then Next(q + 1, SetReg(r, i.a, ks[Bx(i)])) else Wild
    else if i.op == LOADKX then
      if q + 1 < |ins| && ins[q + 1].op == EXTRAARG && Ax(ins[q + 1]) < |ks| then
        Next(q + 2, SetReg(r, i.a, ks[Ax(ins[q + 1])]))
      else Wild
    else if i.op == LOADBOOL then
      Next(if i.c != 0 then q + 2 else q + 1, SetReg(r, i.a, Bool(i.b != 0)))
    else if i.op == LOADNIL then
      Next(q + 1, SetNils(r, i.a, i.a + i.b))
    else if i.op == NOT then
      if i.b < MAXREGS then Next(q + 1, SetReg(r, i.a, Bool(!Truthy(r[i.b])))) else Wild
    else if i.op == JMP then
      if i.a == 0 then Next(q + 1 + SBx(i), r) else Wild  // closing upvalues is not modelled here
    else if i.op == EQ || i.op == LT || i.op == LE then
      match (RK(i.b, r, ks), RK(i.c, r, ks))
      case (Some(v), Some(w)) =>
        (match env.cmp(i.op, v, w)
         case None => Throws
         case Some(b) => Next(if (if b then 1 else 0) != i.a then q + 2 else q + 1, r))
      case _ => Wild
    else if i.op == TEST then
      if i.a < MAXREGS then Next(if Truthy(r[i.a]) != (i.c != 0) then q + 2 else q + 1, r) else Wild
    else if i.op == TESTSET then
      if i.b < MAXREGS then
        if Truthy(r[i.b]) != (i.c != 0) then Next(q + 2, r) else Next(q + 1, SetReg(r, i.a, r[i.b]))
      else Wild
    else if i.op == EXTRAARG then Wild
    else
      match env.other(i, r)
      case None => Throws
      case Some(r') => Next(q + 1, r')
  }

  // ---------- running code with pending jumps ----------

  /** Code of a function under construction: the instruction vector, how much of it counts, the
      constants, and the jumps whose target is not known yet. */
  datatype Code = Code(ins: seq<Instr>, pc: nat, ks: seq<Value>, pend: set<int>)

  datatype Res = Threw | Stuck | Stop(pc: int, r: Regs)

  /** Execute from q until the end of the code or a pending jump.  Code for expressions only jumps
      forward; anything else is Stuck, and no statement is made about it. */
  function Run(c: Code, env: Env, q: int, r: Regs): Res
    decreases c.pc - q
  {
    if q == c.pc || q in c.pend then Stop(q, r)
    else if !(0 <= q < c.pc <= |c.ins|) then Stuck
    else
      match Step(c.ins, c.ks, env, q, r)
      case Throws => Threw
      case Wild => Stuck
      case Next(q', r') => if q' <= q then Stuck else Run(c, env, q', r')
  }
}
