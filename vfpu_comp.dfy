/** The VFPU load/store handlers of the PowerPC JIT: decoding of lv.s/sv.s (`Comp_SV`) and
    lv.q/sv.q (`Comp_SVQ`), and the action trace each one produces. The `Jit` class in
    module PpcJit emits these traces step by step. */
module VfpuComp {
  import opened JitActions
  import opened OpcodeFields

  /** Primary opcodes handled natively. */
  const LvS := 50
  const SvS := 58
  const LvQ := 54
  const SvQ := 62

  /** `op & 0xFFFC`: the 16-bit offset field with its two low bits cleared. */
  function SvOffsetBits(op: Word): (h: int)
    ensures 0 <= h < 0x1_0000 && h % 4 == 0
  {
    LowBitsAgree(op);
    Low16(op) - op % 4
  }

  /** The two low bits of a word are those of its 16-bit immediate field. */
  lemma LowBitsAgree(op: Word)
    ensures op % 4 == Low16(op) % 4
  {
    var l := Low16(op);
    assert op == (op / 0x1_0000) * 0x1_0000 + l;
    assert op == ((op / 0x1_0000) * 0x4000 + l / 4) * 4 + l % 4;
    DivModSplit((op / 0x1_0000) * 0x4000 + l / 4, l % 4, 4);
  }

  /** `(signed short)(op & 0xFFFC)`: the byte offset of lv.s/sv.s/lv.q/sv.q. Its two low
      bits are cleared before the sign extension, so it is word aligned. */
  function SvImm(op: Word): (imm: int)
    ensures -0x8000 <= imm <= 0x7FFC && imm % 4 == 0
    ensures (imm - SvOffsetBits(op)) % 0x1_0000 == 0
  {
    SignExtend16(SvOffsetBits(op))
  }

  /** The swizzled vector register of lv.s/sv.s: the 5-bit index in bits 16..20 and a
      2-bit bank taken from bits 0..1 and placed above it (`| (op & 3) << 5`; the two
      parts occupy disjoint bits, so the OR is a sum), giving one of 128 registers. */
  function SvVt(op: Word): (vt: int)
    ensures 0 <= vt < 128
    ensures vt % 32 == Ft(op) && vt / 32 == op % 4
  {
    Ft(op) + 0x20 * (op % 4)
  }

  /** The vector register of lv.q/sv.q: the same 5-bit index, but only bit 0 supplies the
      bank, so it names one of the first 64 registers. */
  function SvqVt(op: Word): (vt: int)
    ensures 0 <= vt < 64
    ensures vt % 32 == Ft(op) && vt / 32 == op % 2
  {
    Ft(op) + 0x20 * (op % 2)
  }

  /** An lv.s/sv.s word assembled from an opcode, a base register, a 5-bit register
      index, a word-aligned offset and a 2-bit bank stored in the offset's two low bits
      decodes back to all of them, the swizzled register being `index + 32 * bank`. */
  lemma SvDecodesAssembled(opcode: int, rs: int, index: int, bank: int, offset: int)
    requires 0 <= opcode < 64 && 0 <= rs < 32 && 0 <= index < 32 && 0 <= bank < 4
    requires -0x8000 <= offset < 0x8000 && offset % 4 == 0
    ensures var op := AssembleImm(opcode, rs, index, Truncate16(offset) + bank);
      && Opcode(op) == opcode && Rs(op) == rs
      && SvVt(op) == index + 32 * bank
      && SvImm(op) == offset
  {
    var t := Truncate16(offset);
    assert t % 4 == 0;
    var op := AssembleImm(opcode, rs, index, t + bank);
    AssembleImmDecodes(opcode, rs, index, t + bank);
    LowBitsAgree(op);
    assert op % 4 == bank;
    assert SvOffsetBits(op) == t;
    SignExtendRoundTrip(t, offset);
  }

  /** The `DISABLE` macro of this file: release the FPU cache's spill locks and
      temporaries, then defer the instruction to the interpreter: one release, no
      transfer, and the fallback last. */
  function VfpuDisable(op: Word): (acts: seq<Action>)
    ensures ReleaseCount(acts) == 1 && LocksReleased(acts)
    ensures Filter(acts, IsTransfer) == []
    ensures acts[|acts| - 1] == Generic(op)
  {
    FilterNone([FprReleaseSpillLocksAndDiscardTemps, Generic(op)], IsTransfer);
    [FprReleaseSpillLocksAndDiscardTemps, Generic(op)]
  }

  /** The trace of `Comp_SV(op)`; `rsImm` is what `gpr.IsImm/GetImm` report for `rs`. It
      ends in the interpreter fallback exactly when the opcode is neither lv.s nor sv.s,
      and every constant it loads lies below 2^30. */
  function SVActions(op: Word, rsImm: Option<Word>): (acts: seq<Action>)
    ensures |acts| >= 2
    ensures acts[|acts| - 1] == Generic(op) <==> Opcode(op) != LvS && Opcode(op) != SvS
    ensures forall a :: a in acts && a.Movi? ==> a.value < 0x4000_0000
  {
    var vt, rs := SvVt(op), Rs(op);
    match Opcode(op)
    case 50 =>
      [FprMapRegV(vt, DirtyNoInit)] + AddressToSreg(rs, SvImm(op), rsImm)
      + [LoadFloatSwap(FprV(vt), BASEREG, SREG)]
    case 58 =>
      [FprMapRegV(vt, NoFlags)] + AddressToSreg(rs, SvImm(op), rsImm)
      + [SaveFloatSwap(FprV(vt), BASEREG, SREG)]
    case _ => VfpuDisable(op)
  }

  /** The map action and the transfer of a single-lane access (`load` for lv.s). */
  function SvMap(load: bool, vt: int): Action {
    FprMapRegV(vt, if load then DirtyNoInit else NoFlags)
  }

  function SvTransfer(load: bool, vt: int): Action {
    if load then LoadFloatSwap(FprV(vt), BASEREG, SREG) else SaveFloatSwap(FprV(vt), BASEREG, SREG)
  }

  /** A single-lane body `map, address set-up, transfer` whose set-up neither transfers
      nor releases has exactly one transfer, at its end, and no release. */
  lemma SingleTraceShape(load: bool, vt: int, address: seq<Action>)
    requires Filter(address, IsTransfer) == [] && FprReleaseSpillLocksAndDiscardTemps !in address
    ensures var acts := [SvMap(load, vt)] + address + [SvTransfer(load, vt)];
      && Filter(acts, IsTransfer) == [SvTransfer(load, vt)]
      && ReleaseCount(acts) == 0
  {
    var map1, xfer := SvMap(load, vt), SvTransfer(load, vt);
    FilterConcat([map1] + address, [xfer], IsTransfer);
    FilterConcat([map1], address, IsTransfer);
    FilterSingleton(map1, IsTransfer);
    FilterSingleton(xfer, IsTransfer);
    var acts := [map1] + address + [xfer];
    assert FprReleaseSpillLocksAndDiscardTemps !in acts;
  }

  /** lv.s (`load`) maps its register for writing (`MAP_DIRTY | MAP_NOINIT`) before any
      address action and then issues exactly one load into it; sv.s maps it for reading
      and issues exactly one store; neither releases locks. */
  lemma SVLoadStore(op: Word, load: bool, rsImm: Option<Word>)
    requires Opcode(op) == if load then LvS else SvS
    ensures var acts := SVActions(op, rsImm);
      && acts[0] == FprMapRegV(SvVt(op), if load then DirtyNoInit else NoFlags)
      && Filter(acts, IsTransfer) == [SvTransfer(load, SvVt(op))]
      && acts[|acts| - 1] == SvTransfer(load, SvVt(op))
      && ReleaseCount(acts) == 0
  {
    var address := AddressToSreg(Rs(op), SvImm(op), rsImm);
    assert SVActions(op, rsImm) == [SvMap(load, SvVt(op))] + address + [SvTransfer(load, SvVt(op))];
    AddressToSregInert(Rs(op), SvImm(op), rsImm);
    SingleTraceShape(load, SvVt(op), address);
  }

  /** `Comp_SV` on any opcode other than lv.s and sv.s yields exactly the disable
      sequence, with no transfer. */
  lemma SVFallback(op: Word, rsImm: Option<Word>)
    requires Opcode(op) != LvS && Opcode(op) != SvS
    ensures SVActions(op, rsImm) == [FprReleaseSpillLocksAndDiscardTemps, Generic(op)]
    ensures Filter(SVActions(op, rsImm), IsTransfer) == []
  {
    FilterNone(SVActions(op, rsImm), IsTransfer);
  }

  /** An assembled `lv.s` whose base is not known compiles to the mapping of the
      swizzled register for writing, the effective-address computation of `rs + offset`
      and one load into that register. */
  lemma LvSAssembled(rs: int, index: int, bank: int, offset: int)
    requires 0 <= rs < 32 && 0 <= index < 32 && 0 <= bank < 4
    requires -0x8000 <= offset < 0x8000 && offset % 4 == 0
    ensures SVActions(AssembleImm(LvS, rs, index, Truncate16(offset) + bank), None) ==
      [FprMapRegV(index + 32 * bank, DirtyNoInit), GprMapReg(rs), SetEffectiveAddress(SREG, rs, offset),
       LoadFloatSwap(FprV(index + 32 * bank), BASEREG, SREG)]
  {
    SvDecodesAssembled(LvS, rs, index, bank, offset);
  }

  /** When the base register holds a known constant, lv.s and sv.s materialise the folded
      address `(imm + base) & 0x3FFFFFFF` in SREG right after mapping the vector register,
      and every constant either handler loads lies below 2^30. */
  lemma SVFoldedAddress(op: Word, rsImm: Option<Word>)
    ensures var acts := SVActions(op, rsImm);
      && (rsImm.Some? && (Opcode(op) == LvS || Opcode(op) == SvS) ==>
            acts[1] == Movi(SREG, FoldAddress(SvImm(op), rsImm.value)))
      && (forall a :: a in acts && a.Movi? ==> a.value < 0x4000_0000)
  {
  }

  /** The byte offset of lane `i` of a quad access, `i * 4`. */
  function LaneOffset(i: nat): Word
    requires i < 4
  {
    i * 4
  }

  /** The transfer of one lane between its vector register and memory at SREG + R9. */
  function LaneTransfer(load: bool, v: u8): Action {
    if load then LoadFloatSwap(FprV(v as int), SREG, R9) else SaveFloatSwap(FprV(v as int), SREG, R9)
  }

  /** The first `n` iterations of the lane loop `for (i = 0; i < 4; i++)`: load the lane
      offset into R9, then transfer lane `i`. */
  function LaneTransfers(vregs: seq<u8>, load: bool, n: nat): (lanes: seq<Action>)
    requires n <= 4 && n <= |vregs|
    ensures |lanes| == 2 * n
  {
    if n == 0 then []
    else LaneTransfers(vregs, load, n - 1) + [Movi(R9, LaneOffset(n - 1)), LaneTransfer(load, vregs[n - 1])]
  }

  /** Iteration `i` of the lane loop occupies positions `2i` and `2i + 1`: the offset
      `4i` is loaded into R9, then lane `i` is transferred through `vregs[i]`. */
  lemma {:induction false} LaneTransfersAt(vregs: seq<u8>, load: bool, n: nat)
    requires n <= 4 && n <= |vregs|
    ensures |LaneTransfers(vregs, load, n)| == 2 * n
    ensures forall i :: 0 <= i < n ==>
      LaneTransfers(vregs, load, n)[2 * i] == Movi(R9, LaneOffset(i))
      && LaneTransfers(vregs, load, n)[2 * i + 1] == LaneTransfer(load, vregs[i])
  {
    if n > 0 {
      var prev := LaneTransfers(vregs, load, n - 1);
      var step := [Movi(R9, LaneOffset(n - 1)), LaneTransfer(load, vregs[n - 1])];
      LaneTransfersAt(vregs, load, n - 1);
      var all := prev + step;
      assert LaneTransfers(vregs, load, n) == all;
      forall i | 0 <= i < n
        ensures all[2 * i] == Movi(R9, LaneOffset(i))
        ensures all[2 * i + 1] == LaneTransfer(load, vregs[i])
      {
        if i < n - 1 {
          assert all[2 * i] == prev[2 * i];
          assert all[2 * i + 1] == prev[2 * i + 1];
        } else {
          assert all[2 * i] == step[0];
          assert all[2 * i + 1] == step[1];
        }
      }
    }
  }

  /** The transfers among the first `n` lane iterations are exactly lanes `0..n-1`, in
      order, and the other lane actions only load R9. */
  lemma {:induction false} LaneTransfersInOrder(vregs: seq<u8>, load: bool, n: nat)
    requires n <= 4 && n <= |vregs|
    ensures Filter(LaneTransfers(vregs, load, n), IsTransfer) == LaneList(vregs, load, n)
    ensures forall a :: a in LaneTransfers(vregs, load, n) ==> IsTransfer(a) || (a.Movi? && a.dst == R9)
  {
    if n > 0 {
      var prev := LaneTransfers(vregs, load, n - 1);
      var step := [Movi(R9, LaneOffset(n - 1)), LaneTransfer(load, vregs[n - 1])];
      LaneTransfersInOrder(vregs, load, n - 1);
      FilterConcat(prev, step, IsTransfer);
      FilterConcat([step[0]], [step[1]], IsTransfer);
      assert step == [step[0]] + [step[1]];
      FilterSingleton(step[0], IsTransfer);
      FilterSingleton(step[1], IsTransfer);
    }
  }

  /** The transfers of lanes `0..n-1`, in lane order. */
  function LaneList(vregs: seq<u8>, load: bool, n: nat): seq<Action>
    requires n <= |vregs|
  {
    if n == 0 then [] else LaneList(vregs, load, n - 1) + [LaneTransfer(load, vregs[n - 1])]
  }

  /** `addr + (u32)Memory::base` for the folded guest address `addr`: the host address
      of a quad access at a known base, wrapping modulo 2^32. */
  function QuadHostAddress(imm: int, v: Word, memBase: Word): (host: Word)
    ensures (host - memBase) % 0x1_0000_0000 == (imm + v) % 0x4000_0000
  {
    (FoldAddress(imm, v) + memBase) % 0x1_0000_0000
  }

  /** Address set-up of lv.q/sv.q: SREG ends up holding the host address of the access,
      either the folded guest address plus the host memory base, or the effective address
      computed at run time plus BASEREG. The set-up ends by writing SREG and takes one
      action exactly when the base is known. */
  function QuadAddress(rs: int, imm: int, rsImm: Option<Word>, memBase: Word): (address: seq<Action>)
    ensures |address| >= 1 && WritesSreg(address[|address| - 1])
    ensures |address| == 1 <==> rsImm.Some?
  {
    match rsImm
    case Some(v) => [Movi(SREG, QuadHostAddress(imm, v, memBase))]
    case None => [GprMapReg(rs), SetEffectiveAddress(SREG, rs, imm), AddReg(SREG, SREG, BASEREG)]
  }

  /** The body of lv.q (`load`) or sv.q: map and spill-lock the four lanes, set up the
      address in SREG, run the lane loop, release the locks: ten actions around the
      set-up, opening with the lock and closing with the release. */
  function QuadTrace(load: bool, vregs: seq<u8>, address: seq<Action>): (acts: seq<Action>)
    requires |vregs| == 4
    ensures |acts| == |address| + 10
    ensures TakesSpillLock(acts[0]) && acts[|acts| - 1] == FprReleaseSpillLocksAndDiscardTemps
  {
    [FprMapRegsAndSpillLockV(vregs, if load then DirtyNoInit else NoFlags)] + address
    + LaneTransfers(vregs, load, |vregs|) + [FprReleaseSpillLocksAndDiscardTemps]
  }

  /** The trace of `Comp_SVQ(op)`; `vregs` are the four lane registers
      `GetVectorRegs(V_Quad, vt)` reports and `memBase` is `Memory::base`. It opens with a
      spill lock, and closes with a release, exactly when the opcode is lv.q or sv.q. */
  function SVQActions(op: Word, rsImm: Option<Word>, memBase: Word, vregs: seq<u8>): (acts: seq<Action>)
    requires |vregs| == 4
    ensures |acts| >= 2
    ensures TakesSpillLock(acts[0]) <==> Opcode(op) == LvQ || Opcode(op) == SvQ
    ensures acts[|acts| - 1] == FprReleaseSpillLocksAndDiscardTemps <==> Opcode(op) == LvQ || Opcode(op) == SvQ
  {
    match Opcode(op)
    case 54 => QuadTrace(true, vregs, QuadAddress(Rs(op), SvImm(op), rsImm, memBase))
    case 62 => QuadTrace(false, vregs, QuadAddress(Rs(op), SvImm(op), rsImm, memBase))
    case _ => VfpuDisable(op)
  }

  /** The address set-up of a quad access neither transfers data nor touches spill locks. */
  lemma QuadAddressInert(rs: int, imm: int, rsImm: Option<Word>, memBase: Word)
    ensures var address := QuadAddress(rs, imm, rsImm, memBase);
      && Filter(address, IsTransfer) == []
      && FprReleaseSpillLocksAndDiscardTemps !in address
      && (forall a :: a in address ==> !TakesSpillLock(a))
  {
    FilterNone(QuadAddress(rs, imm, rsImm, memBase), IsTransfer);
  }

  /** The four lane transfers, in lane order. */
  lemma LaneListOfQuad(vregs: seq<u8>, load: bool)
    requires |vregs| == 4
    ensures LaneList(vregs, load, |vregs|) == [LaneTransfer(load, vregs[0]), LaneTransfer(load, vregs[1]),
                                         LaneTransfer(load, vregs[2]), LaneTransfer(load, vregs[3])]
  {
    assert LaneList(vregs, load, 1) == [LaneTransfer(load, vregs[0])];
    assert LaneList(vregs, load, 2) == [LaneTransfer(load, vregs[0]), LaneTransfer(load, vregs[1])];
    assert LaneList(vregs, load, 3) ==
      [LaneTransfer(load, vregs[0]), LaneTransfer(load, vregs[1]), LaneTransfer(load, vregs[2])];
  }

  /** The transfers of a quad body, whatever its address set-up (provided that set-up
      transfers no data), are lanes 0..3 in order. */
  lemma QuadTraceTransfers(load: bool, vregs: seq<u8>, address: seq<Action>)
    requires |vregs| == 4 && Filter(address, IsTransfer) == []
    ensures Filter(QuadTrace(load, vregs, address), IsTransfer) ==
      [LaneTransfer(load, vregs[0]), LaneTransfer(load, vregs[1]),
       LaneTransfer(load, vregs[2]), LaneTransfer(load, vregs[3])]
  {
    var map1 := FprMapRegsAndSpillLockV(vregs, if load then DirtyNoInit else NoFlags);
    var lanes := LaneTransfers(vregs, load, |vregs|);
    var tail := [FprReleaseSpillLocksAndDiscardTemps];
    assert QuadTrace(load, vregs, address) == [map1] + address + lanes + tail;
    LaneTransfersInOrder(vregs, load, |vregs|);
    FilterConcat4([map1], address, lanes, tail, IsTransfer);
    FilterSingleton(map1, IsTransfer);
    FilterSingleton(tail[0], IsTransfer);
    LaneListOfQuad(vregs, load);
  }

  /** In a quad body the eight lane actions come right before the final release: lane
      `i` loads the offset `4i` into R9 and then transfers `vregs[i]`. */
  lemma QuadTraceLaneSlots(load: bool, vregs: seq<u8>, address: seq<Action>)
    requires |vregs| == 4
    ensures var acts := QuadTrace(load, vregs, address);
      && |acts| == |address| + 10
      && acts[|acts| - 1] == FprReleaseSpillLocksAndDiscardTemps
      && (forall i :: 0 <= i < 4 ==>
            acts[|acts| - 9 + 2 * i] == Movi(R9, LaneOffset(i))
            && acts[|acts| - 8 + 2 * i] == LaneTransfer(load, vregs[i]))
  {
    var head := [FprMapRegsAndSpillLockV(vregs, if load then DirtyNoInit else NoFlags)] + address;
    var lanes := LaneTransfers(vregs, load, |vregs|);
    var acts := QuadTrace(load, vregs, address);
    assert acts == head + lanes + [FprReleaseSpillLocksAndDiscardTemps];
    LaneTransfersAt(vregs, load, |vregs|);
    forall i | 0 <= i < 4
      ensures acts[|acts| - 9 + 2 * i] == Movi(R9, LaneOffset(i))
      ensures acts[|acts| - 8 + 2 * i] == LaneTransfer(load, vregs[i])
    {
      assert acts[|head| + 2 * i] == lanes[2 * i];
      assert acts[|head| + 2 * i + 1] == lanes[2 * i + 1];
    }
  }

  /** A quad body whose address set-up releases nothing releases exactly once, at its
      end, so every spill lock it takes is released. */
  lemma QuadTraceReleasesOnce(load: bool, vregs: seq<u8>, address: seq<Action>)
    requires |vregs| == 4 && FprReleaseSpillLocksAndDiscardTemps !in address
    ensures var acts := QuadTrace(load, vregs, address);
      ReleaseCount(acts) == 1 && LocksReleased(acts)
  {
    var head := [FprMapRegsAndSpillLockV(vregs, if load then DirtyNoInit else NoFlags)] + address;
    var lanes := LaneTransfers(vregs, load, |vregs|);
    var acts := QuadTrace(load, vregs, address);
    assert acts == head + lanes + [FprReleaseSpillLocksAndDiscardTemps];
    LaneTransfersInOrder(vregs, load, |vregs|);
    var rel := FprReleaseSpillLocksAndDiscardTemps;
    assert rel !in lanes && rel !in head;
    assert multiset(acts) == multiset(head) + multiset(lanes) + multiset{rel};
    EndsWithRelease(acts);
  }

  /** A trace whose last action is a release releases every spill lock it takes. */
  lemma EndsWithRelease(acts: seq<Action>)
    requires |acts| > 0 && acts[|acts| - 1] == FprReleaseSpillLocksAndDiscardTemps
    ensures LocksReleased(acts)
  {
    forall i | 0 <= i < |acts| && TakesSpillLock(acts[i])
      ensures exists j :: i < j < |acts| && acts[j] == FprReleaseSpillLocksAndDiscardTemps
    {
      assert i < |acts| - 1;
    }
  }

  /** lv.q (`load`) and sv.q issue exactly four transfers: lanes 0..3 in order, lane `i`
      through `vregs[i]`. */
  lemma SVQTransfers(op: Word, load: bool, rsImm: Option<Word>, memBase: Word, vregs: seq<u8>)
    requires |vregs| == 4
    requires Opcode(op) == if load then LvQ else SvQ
    ensures Filter(SVQActions(op, rsImm, memBase, vregs), IsTransfer) ==
      [LaneTransfer(load, vregs[0]), LaneTransfer(load, vregs[1]),
       LaneTransfer(load, vregs[2]), LaneTransfer(load, vregs[3])]
  {
    var address := QuadAddress(Rs(op), SvImm(op), rsImm, memBase);
    assert SVQActions(op, rsImm, memBase, vregs) == QuadTrace(load, vregs, address);
    QuadAddressInert(Rs(op), SvImm(op), rsImm, memBase);
    QuadTraceTransfers(load, vregs, address);
  }

  /** In lv.q (`load`) and sv.q the eight lane actions come right before the final
      release: lane `i` loads the offset `4i` into R9, then transfers `vregs[i]`. */
  lemma SVQLaneSlots(op: Word, load: bool, rsImm: Option<Word>, memBase: Word, vregs: seq<u8>)
    requires |vregs| == 4
    requires Opcode(op) == if load then LvQ else SvQ
    ensures var acts := SVQActions(op, rsImm, memBase, vregs);
      && |acts| >= 10
      && (forall i :: 0 <= i < 4 ==>
            acts[|acts| - 9 + 2 * i] == Movi(R9, LaneOffset(i))
            && acts[|acts| - 8 + 2 * i] == LaneTransfer(load, vregs[i]))
  {
    var address := QuadAddress(Rs(op), SvImm(op), rsImm, memBase);
    assert SVQActions(op, rsImm, memBase, vregs) == QuadTrace(load, vregs, address);
    QuadTraceLaneSlots(load, vregs, address);
  }

  /** `Comp_SVQ` on any opcode other than lv.q and sv.q yields exactly the disable
      sequence: a release, then the interpreter fallback, and no transfer. */
  lemma SVQFallback(op: Word, rsImm: Option<Word>, memBase: Word, vregs: seq<u8>)
    requires |vregs| == 4
    requires Opcode(op) != LvQ && Opcode(op) != SvQ
    ensures SVQActions(op, rsImm, memBase, vregs) == [FprReleaseSpillLocksAndDiscardTemps, Generic(op)]
    ensures Filter(SVQActions(op, rsImm, memBase, vregs), IsTransfer) == []
  {
    FilterNone(SVQActions(op, rsImm, memBase, vregs), IsTransfer);
  }

  /** Every path of `Comp_SVQ` calls `ReleaseSpillLocksAndDiscardTemps` exactly once, and
      after every spill lock it takes. */
  lemma SVQReleasesOnce(op: Word, rsImm: Option<Word>, memBase: Word, vregs: seq<u8>)
    requires |vregs| == 4
    ensures var acts := SVQActions(op, rsImm, memBase, vregs);
      ReleaseCount(acts) == 1 && LocksReleased(acts)
  {
    var acts := SVQActions(op, rsImm, memBase, vregs);
    if Opcode(op) == LvQ || Opcode(op) == SvQ {
      QuadAddressInert(Rs(op), SvImm(op), rsImm, memBase);
      QuadTraceReleasesOnce(Opcode(op) == LvQ, vregs, QuadAddress(Rs(op), SvImm(op), rsImm, memBase));
    } else {
      assert acts == [FprReleaseSpillLocksAndDiscardTemps, Generic(op)];
    }
  }

  /** With a known base constant, lv.q/sv.q compute the address once: SREG is written by
      a single load of the folded guest address plus the host memory base, not once per
      lane. */
  lemma SVQSingleFoldedAddress(op: Word, load: bool, v: Word, memBase: Word, vregs: seq<u8>)
    requires |vregs| == 4
    requires Opcode(op) == if load then LvQ else SvQ
    ensures Filter(SVQActions(op, Some(v), memBase, vregs), WritesSreg) ==
      [Movi(SREG, QuadHostAddress(SvImm(op), v, memBase))]
  {
    var mov := Movi(SREG, QuadHostAddress(SvImm(op), v, memBase));
    var address := QuadAddress(Rs(op), SvImm(op), Some(v), memBase);
    assert address == [mov];
    assert SVQActions(op, Some(v), memBase, vregs) == QuadTrace(load, vregs, address);
    QuadWritesSregOnce(load, vregs, mov);
  }

  /** A quad body whose address set-up is the single action `mov` writes SREG only there. */
  lemma QuadWritesSregOnce(load: bool, vregs: seq<u8>, mov: Action)
    requires |vregs| == 4 && WritesSreg(mov)
    ensures Filter(QuadTrace(load, vregs, [mov]), WritesSreg) == [mov]
  {
    var map1 := FprMapRegsAndSpillLockV(vregs, if load then DirtyNoInit else NoFlags);
    var lanes := LaneTransfers(vregs, load, |vregs|);
    var tail := [FprReleaseSpillLocksAndDiscardTemps];
    assert QuadTrace(load, vregs, [mov]) == [map1] + [mov] + lanes + tail;
    LaneTransfersInOrder(vregs, load, |vregs|);
    FilterNone(lanes, WritesSreg);
    FilterConcat4([map1], [mov], lanes, tail, WritesSreg);
    FilterSingleton(map1, WritesSreg);
    FilterSingleton(mov, WritesSreg);
    FilterSingleton(tail[0], WritesSreg);
  }

  /** A quad load at the known base 0x08800000 with offset 0x10 materialises the single
      address 0x08800010 (already inside the 30-bit window) plus the host memory base. */
  lemma QuadLoadAtKnownBase(op: Word, memBase: Word, vregs: seq<u8>)
    requires |vregs| == 4
    requires Opcode(op) == LvQ && SvOffsetBits(op) == 0x10
    ensures Filter(SVQActions(op, Some(0x0880_0000), memBase, vregs), WritesSreg) ==
      [Movi(SREG, (0x0880_0010 + memBase) % 0x1_0000_0000)]
  {
    SVQSingleFoldedAddress(op, true, 0x0880_0000, memBase, vregs);
    assert SvImm(op) == 0x10;
  }
}
