/** The JIT object whose handler methods compile one guest FPU/VFPU instruction each.
    Every call a handler makes on the register caches, the emitter or the interpreter
    fallback is appended to `emitted`, in order; each handler is proved to append exactly
    the trace its specification function in VfpuComp or FpuComp describes. */
module PpcJit {
  import opened JitActions
  import opened OpcodeFields
  import opened VfpuComp
  import opened FpuComp

  /** The handlers whose whole body is `Comp_Generic(op)`. */
  datatype StubHandler =
    | VPFX | VVectorInit | VMatrixInit | VDot | VecDo3 | VV2Op | Mftv | Vmtvc | Vmmov
    | VScl | Vmmul | Vmscl | Vtfm | VHdp | VCrs | VDet | Vi2x | Vx2i | Vf2i | Vi2f
    | Vcst | Vhoriz | VRot | VIdt | Vcmp | Vcmov | Viim | Vfim | VCrossQuat | Vsge | Vslt
    | FPUComp | FPU2op | Mxc1

  class Jit {
    /** The calls made so far, oldest first. */
    var emitted: seq<Action>

    constructor ()
      ensures emitted == []
    {
      emitted := [];
    }

    /** Record one call. */
    method Emit(a: Action)
      modifies this
      ensures emitted == old(emitted) + [a]
    {
      emitted := emitted + [a];
    }

    /** The VFPU `DISABLE` macro: release spill locks and temporaries, defer to the
        interpreter. The caller returns right after it. */
    method Disable(op: Word)
      modifies this
      ensures emitted == old(emitted) + VfpuDisable(op)
    {
      Emit(FprReleaseSpillLocksAndDiscardTemps);
      Emit(Generic(op));
    }

    /** The `if (gpr.IsImm(rs)) … else …` address set-up of lv.s, sv.s and lwc1. */
    method AddressIntoSreg(rs: int, imm: int, rsImm: Option<Word>)
      modifies this
      ensures emitted == old(emitted) + AddressToSreg(rs, imm, rsImm)
    {
      if rsImm.Some? {
        var addr := FoldAddress(imm, rsImm.value);
        Emit(Movi(SREG, addr));
      } else {
        Emit(GprMapReg(rs));
        Emit(SetEffectiveAddress(SREG, rs, imm));
      }
    }

    /** `Comp_SV`: lv.s / sv.s. */
    method CompSV(op: Word, rsImm: Option<Word>)
      modifies this
      ensures emitted == old(emitted) + SVActions(op, rsImm)
    {
      var imm := SvImm(op);
      var vt := SvVt(op);
      var rs := Rs(op);
      var opcode := Opcode(op);
      if opcode == LvS {
        Emit(FprMapRegV(vt, DirtyNoInit));
        AddressIntoSreg(rs, imm, rsImm);
        Emit(LoadFloatSwap(FprV(vt), BASEREG, SREG));
      } else if opcode == SvS {
        Emit(FprMapRegV(vt, NoFlags));
        AddressIntoSreg(rs, imm, rsImm);
        Emit(SaveFloatSwap(FprV(vt), BASEREG, SREG));
      } else {
        Disable(op);
      }
    }

    /** `Comp_SVQ`: lv.q / sv.q. `getVectorRegs` stands for `GetVectorRegs(vregs, V_Quad,
        vt)`, which fills in the four lane registers of quad `vt`; `memBase` is
        `(u32)Memory::base`. */
    method CompSVQ(op: Word, rsImm: Option<Word>, memBase: Word, getVectorRegs: int -> seq<u8>)
      requires |getVectorRegs(SvqVt(op))| == 4
      modifies this
      ensures emitted == old(emitted) + SVQActions(op, rsImm, memBase, getVectorRegs(SvqVt(op)))
    {
      var imm := SvImm(op);
      var vt := SvqVt(op);
      var rs := Rs(op);
      var opcode := Opcode(op);
      if opcode != LvQ && opcode != SvQ {
        Disable(op);
        return;
      }
      var load := opcode == LvQ;
      var vregs := getVectorRegs(vt);
      QuadBody(load, vregs, rs, imm, rsImm, memBase);
    }

    /** The lv.q (`load`) or sv.q case of `Comp_SVQ` and the release after the switch:
        map and spill-lock the lanes, set up SREG, run the lane loop, release. */
    method QuadBody(load: bool, vregs: seq<u8>, rs: int, imm: int, rsImm: Option<Word>, memBase: Word)
      requires |vregs| == 4
      modifies this
      ensures emitted == old(emitted) + QuadTrace(load, vregs, QuadAddress(rs, imm, rsImm, memBase))
    {
      var map1 := FprMapRegsAndSpillLockV(vregs, if load then DirtyNoInit else NoFlags);
      var address := QuadAddress(rs, imm, rsImm, memBase);
      var lanes := LaneTransfers(vregs, load, |vregs|);
      Emit(map1);
      QuadAddressIntoSreg(rs, imm, rsImm, memBase);
      LaneLoop(vregs, load);
      Emit(FprReleaseSpillLocksAndDiscardTemps);
      assert emitted == old(emitted) + ([map1] + address + lanes + [FprReleaseSpillLocksAndDiscardTemps]);
    }

    /** The address set-up of lv.q / sv.q: SREG receives the host address. */
    method QuadAddressIntoSreg(rs: int, imm: int, rsImm: Option<Word>, memBase: Word)
      modifies this
      ensures emitted == old(emitted) + QuadAddress(rs, imm, rsImm, memBase)
    {
      if rsImm.Some? {
        var addr := FoldAddress(imm, rsImm.value);
        Emit(Movi(SREG, (addr + memBase) % 0x1_0000_0000));
      } else {
        Emit(GprMapReg(rs));
        Emit(SetEffectiveAddress(SREG, rs, imm));
        Emit(AddReg(SREG, SREG, BASEREG));
      }
    }

    /** The lane loop `for (int i = 0; i < 4; i++)` of lv.q (`load`) and sv.q. */
    method LaneLoop(vregs: seq<u8>, load: bool)
      requires |vregs| == 4
      modifies this
      ensures emitted == old(emitted) + LaneTransfers(vregs, load, |vregs|)
    {
      for i := 0 to 4
        invariant emitted == old(emitted) + LaneTransfers(vregs, load, i)
      {
        Emit(Movi(R9, i * 4));
        if load {
          Emit(LoadFloatSwap(FprV(vregs[i] as int), SREG, R9));
        } else {
          Emit(SaveFloatSwap(FprV(vregs[i] as int), SREG, R9));
        }
      }
    }

    /** `Comp_FPU3op`: add.s / sub.s / mul.s / div.s. */
    method CompFPU3op(op: Word)
      modifies this
      ensures emitted == old(emitted) + FPU3opActions(op)
    {
      var ft := Ft(op);
      var fs := Fs(op);
      var fd := Fd(op);
      Emit(FprMapDirtyInIn(fd, fs, ft));
      var func := Func(op);
      if func == 0 {
        Emit(Arith(FAdd, FprR(fd), FprR(fs), FprR(ft)));
      } else if func == 1 {
        Emit(Arith(FSub, FprR(fd), FprR(fs), FprR(ft)));
      } else if func == 2 {
        Emit(Arith(FMul, FprR(fd), FprR(fs), FprR(ft)));
      } else if func == 3 {
        Emit(Arith(FDiv, FprR(fd), FprR(fs), FprR(ft)));
      } else {
        Emit(Generic(op));
        return;
      }
    }

    /** `Comp_FPULS`: lwc1 / swc1. */
    method CompFPULS(op: Word, rsImm: Option<Word>)
      modifies this
      ensures emitted == old(emitted) + FPULSActions(op, rsImm)
    {
      var offset := FpuOffset(op);
      var ft := Ft(op);
      var rs := Rs(op);
      var opcode := Opcode(op);
      if opcode == Lwc1 {
        Emit(FprSpillLock(ft));
        Emit(FprMapReg(ft, DirtyNoInit));
        AddressIntoSreg(rs, offset, rsImm);
        Emit(LoadFloatSwap(FprR(ft), BASEREG, SREG));
        Emit(FprReleaseSpillLocksAndDiscardTemps);
      } else if opcode == Swc1 {
        Emit(FprMapReg(ft, NoFlags));
        Swc1AddressIntoSreg(rs, offset, rsImm);
        Emit(SaveFloatSwap(FprR(ft), BASEREG, SREG));
      } else {
        Emit(Generic(op));
        return;
      }
    }

    /** The address set-up of swc1: a known base folds into a constant loaded into both
        R0 and SREG; otherwise the effective address is computed into SREG. */
    method Swc1AddressIntoSreg(rs: int, offset: int, rsImm: Option<Word>)
      modifies this
      ensures emitted == old(emitted) + Swc1Address(rs, offset, rsImm)
    {
      if rsImm.Some? {
        var addr := FoldAddress(offset, rsImm.value);
        Emit(Movi(R0, addr));
        Emit(Movi(SREG, addr));
      } else {
        Emit(GprMapReg(rs));
        Emit(SetEffectiveAddress(SREG, rs, offset));
      }
    }

    /** `Comp_VPFX` … `Comp_Vslt`, `Comp_FPUComp`, `Comp_FPU2op`, `Comp_mxc1`: always the
        interpreter fallback, with no register-cache call. */
    method CompStub(h: StubHandler, op: Word)
      modifies this
      ensures emitted == old(emitted) + [Generic(op)]
    {
      Emit(Generic(op));
    }
  }
}
