/**
  Instruction words (include/uvm/lopcodes.h).

  A word has four bit fields, from the low end: the opcode (6 bits), A (8), C (9) and B (9).
  `Instr` is the word cut along those fields; `Pack` glues it back into 32 bits.  Bx is B and C
  read together, sBx is Bx in excess-MAXARG_sBx notation, Ax is A, B and C together.
 */
module Opcodes {
  const MAXARG_A := 255
  const MAXARG_B := 511
  const MAXARG_BX := 262143
  const MAXARG_SBX := 131071
  const MAXARG_AX := 67108863

  /** The register number that means "no register". */
  const NO_REG := 255
  /** The bit that turns an RK operand into a constant index. */
  const BITRK := 256
  const MAXINDEXRK := 255
  /** Register limit of a function. */
  const MAXREGS := 255
  /** End of a jump list. */
  const NO_JUMP := -1

  type Op = n: int | 0 <= n < 64
  type ArgA = n: int | 0 <= n <= MAXARG_A
  type ArgBC = n: int | 0 <= n <= MAXARG_B

  const MOVE: Op := 0
  const LOADK: Op := 1
  const LOADKX: Op := 2
  const LOADBOOL: Op := 3
  const LOADNIL: Op := 4
  const NOT: Op := 27
  const JMP: Op := 30
  const EQ: Op := 31
  const LT: Op := 32
  const LE: Op := 33
  const TEST: Op := 34
  const TESTSET: Op := 35
  const EXTRAARG: Op := 46

  datatype Instr = Instr(op: Op, a: ArgA, b: ArgBC, c: ArgBC)

  /** Is the instruction a test, so that the next one must be a jump?  (luaP_opmodes, bit 7) */
  predicate TestMode(op: Op) {
    EQ <= op <= TESTSET
  }

  function Bx(i: Instr): int {
    i.b * 512 + i.c
  }

  function SBx(i: Instr): int {
    Bx(i) - MAXARG_SBX
  }

  function Ax(i: Instr): int {
    i.b * 131072 + i.c * 256 + i.a
  }

  /** A word whose Bx field is `bx`, as CREATE_ABx and SETARG_Bx build it. */
  function WithBx(op: Op, a: ArgA, bx: int): (i: Instr)
    requires 0 <= bx <= MAXARG_BX
    ensures i.op == op && i.a == a && Bx(i) == bx
  {
    Instr(op, a, bx / 512, bx % 512)
  }

  function WithSBx(op: Op, a: ArgA, sbx: int): (i: Instr)
    requires -MAXARG_SBX <= sbx <= MAXARG_SBX
    ensures i.op == op && i.a == a && SBx(i) == sbx
  {
    WithBx(op, a, sbx + MAXARG_SBX)
  }

  function WithAx(op: Op, ax: int): (i: Instr)
    requires 0 <= ax <= MAXARG_AX
    ensures i.op == op && Ax(i) == ax
  {
    Instr(op, ax % 256, ax / 131072, (ax / 256) % 512)
  }

  // ---------- the same fields in the 32-bit word ----------

  type Word = n: int | 0 <= n < 0x1_0000_0000

  /** getarg: shift right by the position (`shift` is its power of two), keep the low bits (`mod` is theirs). */
  function GetArg(w: Word, shift: nat, mod: nat): nat
    requires shift > 0 && mod > 0
  {
    (w / shift) % mod
  }

  /** setarg: clear the field, then put the value's low bits there. */
  function SetArg(w: Word, v: nat, shift: nat, mod: nat): int
    requires shift > 0 && mod > 0
  {
    w - GetArg(w, shift, mod) * shift + (v % mod) * shift
  }

  /** CREATE_ABC on the record of fields: the word they make. */
  function Pack(i: Instr): Word {
    i.op + i.a * 64 + i.c * 16384 + i.b * 8388608
  }

  function Unpack(w: Word): Instr {
    Instr(GetArg(w, 1, 64), GetArg(w, 64, 256), GetArg(w, 8388608, 512), GetArg(w, 16384, 512))
  }

  /** Cutting a word along its fields loses nothing, in either direction. */
  lemma PackUnpack(i: Instr, w: Word)
    ensures Unpack(Pack(i)) == i
    ensures Pack(Unpack(w)) == w
    ensures GetArg(Pack(i), 16384, 262144) == Bx(i)
    ensures GetArg(Pack(i), 64, 67108864) == Ax(i)
  {
    var x := Pack(i);
    assert x / 64 == i.a + i.c * 256 + i.b * 131072;
    assert x / 16384 == i.c + i.b * 512;
    assert x / 8388608 == i.b;
    assert w / 16384 == (w / 64) / 256 && w / 8388608 == (w / 16384) / 512;
  }

  /** Setting A, B or sBx in the word is updating that field of the record, and no other. */
  lemma SetArgIsUpdate(i: Instr, a: ArgA, b: ArgBC, sbx: int)
    requires -MAXARG_SBX <= sbx <= MAXARG_SBX
    ensures SetArg(Pack(i), a, 64, 256) == Pack(i.(a := a))
    ensures SetArg(Pack(i), b, 8388608, 512) == Pack(i.(b := b))
    ensures SetArg(Pack(i), sbx + MAXARG_SBX, 16384, 262144) == Pack(WithSBx(i.op, i.a, sbx))
  {
    PackUnpack(i, 0);
    assert a % 256 == a && b % 512 == b;
    var v := sbx + MAXARG_SBX;
    assert v % 262144 == v;
    assert v == (v / 512) * 512 + v % 512;
  }
}
