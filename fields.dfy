/** Bit fields of a 32-bit guest (MIPS/Allegrex) instruction word, as the JIT's field
    macros `_RS`, `_FT`, `_FS`, `_FD` and the opcode / function selectors extract them,
    together with the assemblers that put fields into a word, used as their inverses,
    and the small value types the handlers share (`u8` register numbers, `Option`).

    A word is an unsigned 32-bit value. A right shift by `k` followed by a mask of `w`
    low bits is the same as dividing by 2^k and taking the remainder modulo 2^w, and
    that is how the fields are written here. */
module OpcodeFields {

  /** An unsigned 32-bit value (`u32`, `MIPSOpcode`). */
  type Word = x: int | 0 <= x < 0x1_0000_0000

  /** A guest vector register number as stored in the handlers' `u8` register lists. */
  newtype u8 = x: int | 0 <= x < 0x100

  /** The answer of `gpr.IsImm(rs)` / `gpr.GetImm(rs)`: `Some(v)` when the guest register
      is known at compile time to hold `v`. */
  datatype Option<T> = None | Some(value: T)

  /** `op >> 26`: the primary opcode. */
  function Opcode(op: Word): (r: int)
    ensures 0 <= r < 64
  {
    op / 0x400_0000
  }

  /** `op & 0x3f`: the function field that selects a COP1 arithmetic operation. */
  function Func(op: Word): (r: int)
    ensures 0 <= r < 64
  {
    op % 0x40
  }

  /** `_RS`: bits 21..25, the base register of a load or store. */
  function Rs(op: Word): (r: int)
    ensures 0 <= r < 32
  {
    op / 0x20_0000 % 0x20
  }

  /** `_FT`: bits 16..20. */
  function Ft(op: Word): (r: int)
    ensures 0 <= r < 32
  {
    op / 0x1_0000 % 0x20
  }

  /** `_FS`: bits 11..15. */
  function Fs(op: Word): (r: int)
    ensures 0 <= r < 32
  {
    op / 0x800 % 0x20
  }

  /** `_FD`: bits 6..10. */
  function Fd(op: Word): (r: int)
    ensures 0 <= r < 32
  {
    op / 0x40 % 0x20
  }

  /** `op & 0xFFFF`: the 16-bit immediate field. */
  function Low16(op: Word): (h: int)
    ensures 0 <= h < 0x1_0000
  {
    op % 0x1_0000
  }

  /** The C cast `(signed short)h` of a 16-bit field: the one value in the signed 16-bit
      range whose two's-complement pattern is `h`. */
  function SignExtend16(h: int): (v: int)
    requires 0 <= h < 0x1_0000
    ensures -0x8000 <= v < 0x8000
    ensures (v - h) % 0x1_0000 == 0
  {
    if h < 0x8000 then h else h - 0x1_0000
  }

  /** The 16-bit pattern of a signed 16-bit value (the inverse of the cast). */
  function Truncate16(v: int): (h: int)
    requires -0x8000 <= v < 0x8000
    ensures 0 <= h < 0x1_0000
  {
    if v < 0 then v + 0x1_0000 else v
  }

  /** Sign extension is a bijection between 16-bit patterns and the signed 16-bit range. */
  lemma SignExtendRoundTrip(h: int, v: int)
    requires 0 <= h < 0x1_0000 && -0x8000 <= v < 0x8000
    ensures Truncate16(SignExtend16(h)) == h
    ensures SignExtend16(Truncate16(v)) == v
  {
  }

  /** An I-type word: opcode, base register, rt register and a 16-bit immediate. */
  function AssembleImm(opcode: int, rs: int, rt: int, imm16: int): Word
    requires 0 <= opcode < 64 && 0 <= rs < 32 && 0 <= rt < 32 && 0 <= imm16 < 0x1_0000
  {
    opcode * 0x400_0000 + rs * 0x20_0000 + rt * 0x1_0000 + imm16
  }

  /** `(a * d + b) / d == a` and `(a * d + b) % d == b` for `0 <= b < d`. */
  lemma DivModSplit(a: int, b: int, d: int)
    requires 0 <= b < d
    ensures (a * d + b) / d == a && (a * d + b) % d == b
  {
    var q, r := (a * d + b) / d, (a * d + b) % d;
    assert (q - a) * d == b - r by {
      assert q * d + r == a * d + b;
      MulSub(q, a, d);
    }
    if q > a {
      MulAtLeast(q - a, d);
    } else if q < a {
      MulAtLeast(a - q, d);
      MulSub(a, q, d);
    }
  }

  lemma MulSub(x: int, y: int, d: int)
    ensures (x - y) * d == x * d - y * d
  {
  }

  lemma MulAtLeast(k: int, d: int)
    requires k >= 1 && d > 0
    ensures k * d >= d
  {
    assert (k - 1) * d >= 0;
    MulSub(k, 1, d);
  }

  /** Decoding an assembled I-type word gives back its opcode, rs and rt fields and its
      16-bit immediate. */
  lemma AssembleImmDecodes(opcode: int, rs: int, rt: int, imm16: int)
    requires 0 <= opcode < 64 && 0 <= rs < 32 && 0 <= rt < 32 && 0 <= imm16 < 0x1_0000
    ensures Opcode(AssembleImm(opcode, rs, rt, imm16)) == opcode
    ensures Rs(AssembleImm(opcode, rs, rt, imm16)) == rs
    ensures Ft(AssembleImm(opcode, rs, rt, imm16)) == rt
    ensures Low16(AssembleImm(opcode, rs, rt, imm16)) == imm16
  {
    var w := AssembleImm(opcode, rs, rt, imm16);
    assert w == opcode * 0x400_0000 + (rs * 0x20_0000 + rt * 0x1_0000 + imm16);
    DivModSplit(opcode, rs * 0x20_0000 + rt * 0x1_0000 + imm16, 0x400_0000);
    assert w == (opcode * 0x20 + rs) * 0x20_0000 + (rt * 0x1_0000 + imm16);
    DivModSplit(opcode * 0x20 + rs, rt * 0x1_0000 + imm16, 0x20_0000);
    DivModSplit(opcode, rs, 0x20);
    assert w == (opcode * 0x400 + rs * 0x20 + rt) * 0x1_0000 + imm16;
    DivModSplit(opcode * 0x400 + rs * 0x20 + rt, imm16, 0x1_0000);
    DivModSplit(opcode * 0x20 + rs, rt, 0x20);
  }

  /** A COP1 arithmetic word `op.fmt fd, fs, ft` (primary opcode 17). */
  function AssembleCop1(fmt: int, ft: int, fs: int, fd: int, func: int): Word
    requires 0 <= fmt < 32 && 0 <= ft < 32 && 0 <= fs < 32 && 0 <= fd < 32 && 0 <= func < 64
  {
    17 * 0x400_0000 + fmt * 0x20_0000 + ft * 0x1_0000 + fs * 0x800 + fd * 0x40 + func
  }

  /** Decoding an assembled COP1 word gives back its register and function fields. */
  lemma AssembleCop1Decodes(fmt: int, ft: int, fs: int, fd: int, func: int)
    requires 0 <= fmt < 32 && 0 <= ft < 32 && 0 <= fs < 32 && 0 <= fd < 32 && 0 <= func < 64
    ensures Opcode(AssembleCop1(fmt, ft, fs, fd, func)) == 17
    ensures Ft(AssembleCop1(fmt, ft, fs, fd, func)) == ft
    ensures Fs(AssembleCop1(fmt, ft, fs, fd, func)) == fs
    ensures Fd(AssembleCop1(fmt, ft, fs, fd, func)) == fd
    ensures Func(AssembleCop1(fmt, ft, fs, fd, func)) == func
  {
    var w, hi := AssembleCop1(fmt, ft, fs, fd, func), 17 * 0x20 + fmt;
    assert w == 17 * 0x400_0000 + (fmt * 0x20_0000 + ft * 0x1_0000 + fs * 0x800 + fd * 0x40 + func);
    DivModSplit(17, fmt * 0x20_0000 + ft * 0x1_0000 + fs * 0x800 + fd * 0x40 + func, 0x400_0000);
    assert w == (hi * 0x20 + ft) * 0x1_0000 + (fs * 0x800 + fd * 0x40 + func);
    DivModSplit(hi * 0x20 + ft, fs * 0x800 + fd * 0x40 + func, 0x1_0000);
    DivModSplit(hi, ft, 0x20);
    assert w == (hi * 0x400 + ft * 0x20 + fs) * 0x800 + (fd * 0x40 + func);
    DivModSplit(hi * 0x400 + ft * 0x20 + fs, fd * 0x40 + func, 0x800);
    DivModSplit(hi * 0x20 + ft, fs, 0x20);
    assert w == (hi * 0x8000 + ft * 0x400 + fs * 0x20 + fd) * 0x40 + func;
    DivModSplit(hi * 0x8000 + ft * 0x400 + fs * 0x20 + fd, func, 0x40);
    DivModSplit(hi * 0x400 + ft * 0x20 + fs, fd, 0x20);
  }
}
