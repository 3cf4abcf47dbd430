/** The scalar FPU handlers of the PowerPC JIT: the three-operand arithmetic dispatch
    (`Comp_FPU3op`), the lwc1/swc1 loads and stores (`Comp_FPULS`) and the action trace
    each one produces. The `Jit` class in module PpcJit emits these traces step by step.
    In this file `DISABLE` only defers to the interpreter; it releases nothing. */
module FpuComp {
  import opened JitActions
  import opened OpcodeFields

  /** Primary opcodes handled natively by `Comp_FPULS`. */
  const Lwc1 := 49
  const Swc1 := 57

  /** `(s16)(op & 0xFFFF)`: the byte offset of lwc1/swc1. Unlike the VFPU accesses, its
      low bits are kept, so it covers the whole signed 16-bit range. */
  function FpuOffset(op: Word): (offset: int)
    ensures -0x8000 <= offset < 0x8000
    ensures (offset - Low16(op)) % 0x1_0000 == 0
  {
    SignExtend16(Low16(op))
  }

  /** The native instruction that `op & 0x3f` selects, if any: there is one exactly for
      the codes 0..3, and it is the kind whose COP1 function code is `func`. */
  function ArithFor(func: int): (k: Option<ArithKind>)
    ensures k.Some? <==> 0 <= func < 4
    ensures k.Some? ==> Cop1Function(k.value) == func
  {
    match func
    case 0 => Some(FAdd)
    case 1 => Some(FSub)
    case 2 => Some(FMul)
    case 3 => Some(FDiv)
    case _ => None
  }

  /** The trace of `Comp_FPU3op(op)`: map `fd` dirty and `fs`, `ft` for reading, then
      either one native instruction on `(fd, fs, ft)` or the interpreter fallback. The
      second action is arithmetic exactly when the function code is below 4. */
  function FPU3opActions(op: Word): (acts: seq<Action>)
    ensures |acts| == 2
    ensures IsArith(acts[1]) <==> Func(op) < 4
  {
    var ft, fs, fd := Ft(op), Fs(op), Fd(op);
    [FprMapDirtyInIn(fd, fs, ft)]
    + match ArithFor(Func(op))
      case Some(k) => [Arith(k, FprR(fd), FprR(fs), FprR(ft))]
      case None => [Generic(op)]
  }

  /** The COP1 function codes of add.s, sub.s, mul.s and div.s, as the guest encodes
      them: an independent table the decoder is checked against. */
  function Cop1Function(k: ArithKind): (func: int)
    ensures 0 <= func < 4
  {
    match k
    case FAdd => 0
    case FSub => 1
    case FMul => 2
    case FDiv => 3
  }

  /** Every path of `Comp_FPU3op`, the fallback included, first maps `(fd, fs, ft)`; it
      then issues a native instruction exactly when `op & 0x3f` is below 4, and the
      interpreter fallback otherwise. No path releases spill locks. */
  lemma FPU3opShape(op: Word)
    ensures var acts := FPU3opActions(op);
      && |acts| == 2
      && acts[0] == FprMapDirtyInIn(Fd(op), Fs(op), Ft(op))
      && (Func(op) < 4 <==> |Filter(acts, IsArith)| == 1)
      && (Func(op) >= 4 <==> acts[1] == Generic(op))
      && ReleaseCount(acts) == 0
  {
    var acts := FPU3opActions(op);
    assert acts == [acts[0]] + [acts[1]];
    FilterConcat([acts[0]], [acts[1]], IsArith);
    FilterSingleton(acts[0], IsArith);
    FilterSingleton(acts[1], IsArith);
  }

  /** Function codes 0..3 emit FADD, FSUB, FMUL, FDIV respectively, with operands in the
      order `(fd, fs, ft)`: decoding the function code inverts the COP1 table. */
  lemma FPU3opArith(op: Word, k: ArithKind)
    requires Func(op) == Cop1Function(k)
    ensures FPU3opActions(op) ==
      [FprMapDirtyInIn(Fd(op), Fs(op), Ft(op)), Arith(k, FprR(Fd(op)), FprR(Fs(op)), FprR(Ft(op)))]
  {
  }

  /** An assembled `op.s fd, fs, ft` word compiles to the mapping of its registers and the
      one native instruction of its kind. */
  lemma FPU3opAssembled(fmt: int, ft: int, fs: int, fd: int, k: ArithKind)
    requires 0 <= fmt < 32 && 0 <= ft < 32 && 0 <= fs < 32 && 0 <= fd < 32
    ensures FPU3opActions(AssembleCop1(fmt, ft, fs, fd, Cop1Function(k))) ==
      [FprMapDirtyInIn(fd, fs, ft), Arith(k, FprR(fd), FprR(fs), FprR(ft))]
  {
    AssembleCop1Decodes(fmt, ft, fs, fd, Cop1Function(k));
    FPU3opArith(AssembleCop1(fmt, ft, fs, fd, Cop1Function(k)), k);
  }

  /** Address set-up of swc1: with a known base constant the folded address is loaded
      into both R0 and SREG; otherwise the effective address is computed into SREG. */
  function Swc1Address(rs: int, offset: int, rsImm: Option<Word>): (address: seq<Action>)
    ensures |address| == 2 && WritesSreg(address[1])
    ensures rsImm.Some? ==>
      && address[0].Movi? && address[0].dst == R0 && address[1].Movi?
      && address[0].value == address[1].value < 0x4000_0000
  {
    match rsImm
    case Some(v) => [Movi(R0, FoldAddress(offset, v)), Movi(SREG, FoldAddress(offset, v))]
    case None => [GprMapReg(rs), SetEffectiveAddress(SREG, rs, offset)]
  }

  /** The body of lwc1 for register `ft` with the given address set-up: lock and map
      `ft` for writing, set up SREG, load, release. */
  function Lwc1Trace(ft: int, address: seq<Action>): (acts: seq<Action>)
    ensures |acts| == |address| + 4
    ensures TakesSpillLock(acts[0]) && IsTransfer(acts[|acts| - 2])
    ensures acts[|acts| - 1] == FprReleaseSpillLocksAndDiscardTemps
  {
    [FprSpillLock(ft), FprMapReg(ft, DirtyNoInit)] + address
    + [LoadFloatSwap(FprR(ft), BASEREG, SREG), FprReleaseSpillLocksAndDiscardTemps]
  }

  /** The body of swc1 for register `ft`: map `ft` for reading, set up SREG, store. */
  function Swc1Trace(ft: int, address: seq<Action>): (acts: seq<Action>)
    ensures |acts| == |address| + 2
    ensures !TakesSpillLock(acts[0]) && IsTransfer(acts[|acts| - 1])
  {
    [FprMapReg(ft, NoFlags)] + address + [SaveFloatSwap(FprR(ft), BASEREG, SREG)]
  }

  /** The trace of `Comp_FPULS(op)`; `rsImm` is what `gpr.IsImm/GetImm` report for `rs`.
      It is the interpreter fallback alone exactly when the opcode is neither lwc1 nor
      swc1. */
  function FPULSActions(op: Word, rsImm: Option<Word>): (acts: seq<Action>)
    ensures acts == [Generic(op)] <==> Opcode(op) != Lwc1 && Opcode(op) != Swc1
  {
    var offset, ft, rs := FpuOffset(op), Ft(op), Rs(op);
    match Opcode(op)
    case 49 => Lwc1Trace(ft, AddressToSreg(rs, offset, rsImm))
    case 57 => Swc1Trace(ft, Swc1Address(rs, offset, rsImm))
    case _ => [Generic(op)]
  }

  /** An lwc1 body whose address set-up transfers nothing loads exactly once, into
      `ft`, as its second-to-last action. */
  lemma Lwc1TraceTransfers(ft: int, address: seq<Action>)
    requires Filter(address, IsTransfer) == []
    ensures var acts := Lwc1Trace(ft, address);
      && |acts| == |address| + 4
      && acts[0] == FprSpillLock(ft) && acts[1] == FprMapReg(ft, DirtyNoInit)
      && acts[|acts| - 2] == LoadFloatSwap(FprR(ft), BASEREG, SREG)
      && Filter(acts, IsTransfer) == [LoadFloatSwap(FprR(ft), BASEREG, SREG)]
  {
    var head := [FprSpillLock(ft), FprMapReg(ft, DirtyNoInit)];
    var load, rel := LoadFloatSwap(FprR(ft), BASEREG, SREG), FprReleaseSpillLocksAndDiscardTemps;
    assert Lwc1Trace(ft, address) == head + address + [load] + [rel];
    FilterNone(head, IsTransfer);
    FilterConcat4(head, address, [load], [rel], IsTransfer);
    FilterSingleton(load, IsTransfer);
    FilterSingleton(rel, IsTransfer);
  }

  /** An lwc1 body whose address set-up releases nothing releases exactly once, as its
      last action, after the lock it takes. */
  lemma Lwc1TraceReleases(ft: int, address: seq<Action>)
    requires FprReleaseSpillLocksAndDiscardTemps !in address
    ensures var acts := Lwc1Trace(ft, address);
      && acts[|acts| - 1] == FprReleaseSpillLocksAndDiscardTemps
      && ReleaseCount(acts) == 1
      && LocksReleased(acts)
  {
    var prefix := [FprSpillLock(ft), FprMapReg(ft, DirtyNoInit)] + address + [LoadFloatSwap(FprR(ft), BASEREG, SREG)];
    assert Lwc1Trace(ft, address) == prefix + [FprReleaseSpillLocksAndDiscardTemps];
    ReleaseAtEnd(prefix);
  }

  /** The swc1 address set-up neither transfers, locks nor releases. */
  lemma Swc1AddressInert(rs: int, offset: int, rsImm: Option<Word>)
    ensures var address := Swc1Address(rs, offset, rsImm);
      && Filter(address, IsTransfer) == []
      && FprReleaseSpillLocksAndDiscardTemps !in address
      && (forall a :: a in address ==> !TakesSpillLock(a))
  {
    FilterNone(Swc1Address(rs, offset, rsImm), IsTransfer);
  }

  /** An swc1 body whose address set-up neither transfers, locks nor releases stores
      once, at its end, takes no spill lock and releases nothing. */
  lemma Swc1TraceShape(ft: int, address: seq<Action>)
    requires Filter(address, IsTransfer) == [] && FprReleaseSpillLocksAndDiscardTemps !in address
    requires forall a :: a in address ==> !TakesSpillLock(a)
    ensures var acts := Swc1Trace(ft, address);
      && acts[|acts| - 1] == SaveFloatSwap(FprR(ft), BASEREG, SREG)
      && Filter(acts, IsTransfer) == [SaveFloatSwap(FprR(ft), BASEREG, SREG)]
      && (forall a :: a in acts ==> !TakesSpillLock(a))
      && ReleaseCount(acts) == 0
  {
    var map1, store := FprMapReg(ft, NoFlags), SaveFloatSwap(FprR(ft), BASEREG, SREG);
    var acts := Swc1Trace(ft, address);
    assert acts == [map1] + address + [store];
    FilterConcat([map1] + address, [store], IsTransfer);
    FilterConcat([map1], address, IsTransfer);
    FilterSingleton(map1, IsTransfer);
    FilterSingleton(store, IsTransfer);
    forall a | a in acts
      ensures !TakesSpillLock(a) && a != FprReleaseSpillLocksAndDiscardTemps
    {
      if a !in address {
        assert a == map1 || a == store;
      }
    }
    NoRelease(acts);
  }

  /** lwc1 spill-locks `ft`, maps it for writing (`MAP_NOINIT | MAP_DIRTY`), sets up the
      address, loads into `ft` from BASEREG + SREG and finally releases: one load, one
      release, and the lock it takes is released. */
  lemma Lwc1Shape(op: Word, rsImm: Option<Word>)
    requires Opcode(op) == Lwc1
    ensures var acts := FPULSActions(op, rsImm);
      && |acts| >= 5
      && acts[0] == FprSpillLock(Ft(op))
      && acts[1] == FprMapReg(Ft(op), DirtyNoInit)
      && acts[|acts| - 2] == LoadFloatSwap(FprR(Ft(op)), BASEREG, SREG)
      && acts[|acts| - 1] == FprReleaseSpillLocksAndDiscardTemps
      && Filter(acts, IsTransfer) == [LoadFloatSwap(FprR(Ft(op)), BASEREG, SREG)]
      && ReleaseCount(acts) == 1
      && LocksReleased(acts)
  {
    var address := AddressToSreg(Rs(op), FpuOffset(op), rsImm);
    assert FPULSActions(op, rsImm) == Lwc1Trace(Ft(op), address);
    AddressToSregInert(Rs(op), FpuOffset(op), rsImm);
    Lwc1TraceTransfers(Ft(op), address);
    Lwc1TraceReleases(Ft(op), address);
  }

  /** swc1 maps `ft` for reading and stores it to BASEREG + SREG as its last action; it
      takes no spill lock and releases nothing. */
  lemma Swc1Shape(op: Word, rsImm: Option<Word>)
    requires Opcode(op) == Swc1
    ensures var acts := FPULSActions(op, rsImm);
      && acts[0] == FprMapReg(Ft(op), NoFlags)
      && acts[|acts| - 1] == SaveFloatSwap(FprR(Ft(op)), BASEREG, SREG)
      && Filter(acts, IsTransfer) == [SaveFloatSwap(FprR(Ft(op)), BASEREG, SREG)]
      && (forall a :: a in acts ==> !TakesSpillLock(a))
      && ReleaseCount(acts) == 0
  {
    var address := Swc1Address(Rs(op), FpuOffset(op), rsImm);
    assert FPULSActions(op, rsImm) == Swc1Trace(Ft(op), address);
    Swc1AddressInert(Rs(op), FpuOffset(op), rsImm);
    Swc1TraceShape(Ft(op), address);
  }

  /** swc1 at a known base loads the same folded address, below 2^30 and equal to the
      offset plus the base modulo 2^30, into R0 and into SREG, and stores through SREG. */
  lemma Swc1KnownBase(op: Word, v: Word)
    requires Opcode(op) == Swc1
    ensures var acts := FPULSActions(op, Some(v));
      var addr := (FpuOffset(op) + v) % 0x4000_0000;
      && acts == [FprMapReg(Ft(op), NoFlags), Movi(R0, addr), Movi(SREG, addr),
                  SaveFloatSwap(FprR(Ft(op)), BASEREG, SREG)]
      && addr < 0x4000_0000
  {
  }

  /** lwc1 at a known base materialises in SREG the folded address, which lies below 2^30
      and is the offset plus the base modulo 2^30. */
  lemma Lwc1KnownBase(op: Word, v: Word)
    requires Opcode(op) == Lwc1
    ensures FPULSActions(op, Some(v))[2] == Movi(SREG, (FpuOffset(op) + v) % 0x4000_0000)
  {
  }

  /** Any primary opcode other than lwc1 and swc1 produces only the interpreter fallback. */
  lemma FPULSFallback(op: Word, rsImm: Option<Word>)
    requires Opcode(op) != Lwc1 && Opcode(op) != Swc1
    ensures FPULSActions(op, rsImm) == [Generic(op)]
  {
  }

  /** An assembled `lwc1 ft, offset(rs)` whose base is not known compiles to the lock and
      mapping of `ft`, the effective-address computation of `rs + offset`, the load and
      the release: the offset survives the encode/decode round trip unchanged. */
  lemma Lwc1Assembled(rs: int, ft: int, offset: int)
    requires 0 <= rs < 32 && 0 <= ft < 32 && -0x8000 <= offset < 0x8000
    ensures FPULSActions(AssembleImm(Lwc1, rs, ft, Truncate16(offset)), None) ==
      [FprSpillLock(ft), FprMapReg(ft, DirtyNoInit), GprMapReg(rs), SetEffectiveAddress(SREG, rs, offset),
       LoadFloatSwap(FprR(ft), BASEREG, SREG), FprReleaseSpillLocksAndDiscardTemps]
  {
    AssembleImmDecodes(Lwc1, rs, ft, Truncate16(offset));
    SignExtendRoundTrip(Truncate16(offset), offset);
  }

  /** The same round trip for `swc1 ft, offset(rs)`. */
  lemma Swc1Assembled(rs: int, ft: int, offset: int)
    requires 0 <= rs < 32 && 0 <= ft < 32 && -0x8000 <= offset < 0x8000
    ensures FPULSActions(AssembleImm(Swc1, rs, ft, Truncate16(offset)), None) ==
      [FprMapReg(ft, NoFlags), GprMapReg(rs), SetEffectiveAddress(SREG, rs, offset),
       SaveFloatSwap(FprR(ft), BASEREG, SREG)]
  {
    AssembleImmDecodes(Swc1, rs, ft, Truncate16(offset));
    SignExtendRoundTrip(Truncate16(offset), offset);
  }
}
