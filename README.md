# PowerPC JIT FPU/VFPU handlers and MathUtil bit tests, in Dafny

This project models three parts of the PPSSPP emulator's PowerPC dynamic recompiler.

- **Scalar FPU handlers and VFPU load/store handlers** (`Core/MIPS/PPC/PpcCompFpu.cpp`, `Core/MIPS/PPC/PpcCompVFPU.cpp`).
  - Each handler decodes a 32-bit guest (Allegrex/MIPS) instruction word. It then issues an ordered series of calls on the FPU and GPR register caches and on the PowerPC emitter, or defers the instruction to the interpreter (`Comp_Generic`).
  - Those calls are modelled as an abstract `Action` value (module `JitActions`). The JIT object is a class `PpcJit.Jit` whose field `emitted` records every call made, in order.
  - Each handler is a method of that class. Its postcondition ties the new trace to a specification function of the opcode: `SVActions`, `SVQActions`, `FPU3opActions` or `FPULSActions`, in modules `VfpuComp` and `FpuComp`.
  - What the source promises is proved as lemmas about those functions: field ranges, which opcodes fall back, action order, lane order, folded-address bounds and spill-lock release. The decoders are also paired with instruction assemblers and shown to invert them (module `OpcodeFields`).
- **The vector overlap tests** `IsOverlapSafeAllowS` and `IsOverlapSafe` (module `OverlapSafety`). They are loop methods, proved against a declarative predicate.
- **`Common/MathUtil.h`** (module `MathUtil`).
  - The NaN tests and flush-to-zero updates work on IEEE 754 binary64/binary32 bit patterns (`bv64`/`bv32`). Reading a `double` or `float` through the `IntDouble`/`IntFloat` unions is the identity on the bits.
  - `Rectangle` is a class whose clamps update its fields in place.

An instruction word is an unsigned 32-bit value (`OpcodeFields.Word`, an `int` in `[0, 2^32)`). Each shift-and-mask is written as division and remainder: `op >> k & (2^w - 1)` becomes `op / 2^k % 2^w`. A bitwise OR of disjoint fields is written as a sum, and `& 0x3FFFFFFF` on a wrapped 32-bit sum as `% 2^30`.

Values the handlers read from the rest of the emulator are parameters:
- what `gpr.IsImm(rs)`/`gpr.GetImm(rs)` report becomes `rsImm: Option<Word>`;
- `(u32)Memory::base` becomes `memBase: Word`;
- `GetVectorRegs(vregs, V_Quad, vt)` becomes a function parameter `int -> seq<u8>`.

## Model

| member | source | states |
|---|---|---|
| OpcodeFields.Opcode | Core/MIPS/PPC/PpcCompVFPU.cpp:68 | `op >> 26` is a primary opcode in [0, 64) |
| OpcodeFields.Func | Core/MIPS/PPC/PpcCompFpu.cpp:42 | `op & 0x3f` is a function code in [0, 64) |
| OpcodeFields.Rs | Core/MIPS/PPC/PpcCompFpu.cpp:13 | the `_RS` field is a register index in [0, 32) |
| OpcodeFields.Ft | Core/MIPS/PPC/PpcCompFpu.cpp:17 | the `_FT` field is a register index in [0, 32) |
| OpcodeFields.Fs | Core/MIPS/PPC/PpcCompFpu.cpp:16 | the `_FS` field is a register index in [0, 32) |
| OpcodeFields.Fd | Core/MIPS/PPC/PpcCompFpu.cpp:18 | the `_FD` field is a register index in [0, 32) |
| OpcodeFields.Low16 | Core/MIPS/PPC/PpcCompFpu.cpp:74 | `op & 0xFFFF` lies in [0, 2^16) |
| OpcodeFields.SignExtend16 | Core/MIPS/PPC/PpcCompFpu.cpp:74 | the `(s16)` cast yields a value in [-2^15, 2^15) congruent to the pattern modulo 2^16 |
| OpcodeFields.SignExtendRoundTrip | Core/MIPS/PPC/PpcCompFpu.cpp:74 | sign extension and truncation to 16 bits are inverse bijections |
| OpcodeFields.AssembleImmDecodes | Core/MIPS/PPC/PpcCompVFPU.cpp:22-26 | decoding an assembled I-type word gives back its opcode, rs, rt and 16-bit immediate |
| OpcodeFields.AssembleCop1Decodes | Core/MIPS/PPC/PpcCompFpu.cpp:13-18 | decoding an assembled COP1 word gives back opcode 17 and its ft, fs, fd and function fields |
| JitActions.FoldAddress | Core/MIPS/PPC/PpcCompVFPU.cpp:75 | the folded address `(imm + base) & 0x3FFFFFFF`, with 32-bit wrap-around, is below 2^30 and equals `imm + base` modulo 2^30 |
| JitActions.AddressToSreg | Core/MIPS/PPC/PpcCompVFPU.cpp:74-80 | the address set-up of lv.s, sv.s and lwc1 (also `Core/MIPS/PPC/PpcCompFpu.cpp` lines 86-92): a folded constant into SREG for a known base, else `MapReg(rs)` and the effective address into SREG; it ends by writing SREG, is one action exactly when the base is known, and its constant is below 2^30 |
| JitActions.AddressToSregInert | Core/MIPS/PPC/PpcCompVFPU.cpp:74-80 | the address set-up, folded or computed, transfers nothing, takes no lock and releases nothing |
| OverlapSafety.IsOverlapSafeAllowS | Core/MIPS/PPC/PpcCompVFPU.cpp:38-53 | true iff `d` occurs in `sregs[0..sn)` at no index but `di`, and nowhere in `tregs[0..tn)` |
| OverlapSafety.IsOverlapSafe | Core/MIPS/PPC/PpcCompVFPU.cpp:55-58 | true iff the `AllowS` verdict holds and `sregs[di] != d`; then `d` occurs in neither list |
| OverlapSafety.StrictIsNoOccurrence | Core/MIPS/PPC/PpcCompVFPU.cpp:55-58 | the strict verdict is exactly "d occurs in neither list"; the two verdicts differ only when `d` sits in slot `di` |
| OverlapSafety.SelfSourceVerdicts | Core/MIPS/PPC/PpcCompVFPU.cpp:37-58 | for `sregs = [d]`, `di = 0`, the `AllowS` verdict is true and the strict one false |
| VfpuComp.SvOffsetBits | Core/MIPS/PPC/PpcCompVFPU.cpp:63 | `op & 0xFFFC` is a 16-bit pattern that is a multiple of 4 |
| VfpuComp.LowBitsAgree | Core/MIPS/PPC/PpcCompVFPU.cpp:63-64 | the word's two low bits are those of its 16-bit immediate |
| VfpuComp.SvImm | Core/MIPS/PPC/PpcCompVFPU.cpp:63 | the lv.s/sv.s/lv.q/sv.q offset is a multiple of 4 in [-32768, 32764] |
| VfpuComp.SvVt | Core/MIPS/PPC/PpcCompVFPU.cpp:64 | the swizzled register is below 128, with low 5 bits `_FT` and bank `op & 3` |
| VfpuComp.SvqVt | Core/MIPS/PPC/PpcCompVFPU.cpp:112 | the quad register is below 64, with low 5 bits `_FT` and bank `op & 1` |
| VfpuComp.SvDecodesAssembled | Core/MIPS/PPC/PpcCompVFPU.cpp:63-65 | an assembled lv.s/sv.s word decodes to its opcode, base, register `index + 32*bank` and aligned offset |
| VfpuComp.VfpuDisable | Core/MIPS/PPC/PpcCompVFPU.cpp:20 | the `DISABLE` trace `Release; Generic(op)`: one release, no transfer, the fallback last |
| VfpuComp.SVActions | Core/MIPS/PPC/PpcCompVFPU.cpp:60-105 | the `Comp_SV` trace: map `vt`, address set-up, load or store for lv.s/sv.s, else `DISABLE`; it ends in the fallback exactly when the opcode is neither lv.s nor sv.s, and every constant it loads is below 2^30 |
| VfpuComp.SVLoadStore | Core/MIPS/PPC/PpcCompVFPU.cpp:70-99 | lv.s/sv.s first map `vt` (DIRTY and NOINIT for lv.s), then make exactly one transfer of `vt`, last; no release |
| VfpuComp.SVFallback | Core/MIPS/PPC/PpcCompVFPU.cpp:102-103 | any other opcode yields exactly `Release; Generic(op)`, with no transfer |
| VfpuComp.LvSAssembled | Core/MIPS/PPC/PpcCompVFPU.cpp:70-83 | an assembled lv.s with unknown base compiles to map, effective address `rs + offset`, one load of the swizzled register |
| VfpuComp.SVFoldedAddress | Core/MIPS/PPC/PpcCompVFPU.cpp:74-76 | with a known base, SREG receives the folded address right after the map; every constant loaded is below 2^30 |
| VfpuComp.LaneTransfers | Core/MIPS/PPC/PpcCompVFPU.cpp:133-136 | the first `n` iterations of the lane loop, two actions each |
| VfpuComp.LaneTransfersAt | Core/MIPS/PPC/PpcCompVFPU.cpp:133-136 | after `n` iterations of the lane loop, action `2i` loads `4i` into R9 and action `2i+1` transfers `vregs[i]` |
| VfpuComp.LaneTransfersInOrder | Core/MIPS/PPC/PpcCompVFPU.cpp:156-159 | the transfers of the lane loop are those of `vregs[0..n)` in order; its other actions only load R9 |
| VfpuComp.QuadHostAddress | Core/MIPS/PPC/PpcCompVFPU.cpp:125-126 | the host address minus the memory base, modulo 2^32, is `imm + base` modulo 2^30 |
| VfpuComp.QuadAddress | Core/MIPS/PPC/PpcCompVFPU.cpp:124-131 | the quad address set-up: folded constant plus memory base into SREG, else `MapReg(rs)`, the effective address and `ADD SREG, SREG, BASEREG`; it ends by writing SREG and is one action exactly when the base is known |
| VfpuComp.QuadTrace | Core/MIPS/PPC/PpcCompVFPU.cpp:118-167 | the lv.q/sv.q body: lock and map the lanes, address set-up, lane loop, release; ten actions around the set-up, opening with the lock and closing with the release |
| VfpuComp.SVQActions | Core/MIPS/PPC/PpcCompVFPU.cpp:107-168 | the `Comp_SVQ` trace; it opens with a spill lock, and closes with a release, exactly when the opcode is lv.q or sv.q |
| VfpuComp.QuadAddressInert | Core/MIPS/PPC/PpcCompVFPU.cpp:124-131 | the quad address set-up transfers nothing and releases nothing |
| VfpuComp.LaneListOfQuad | Core/MIPS/PPC/PpcCompVFPU.cpp:133-136 | the four lane transfers are those of `vregs[0]`..`vregs[3]` |
| VfpuComp.QuadTraceTransfers | Core/MIPS/PPC/PpcCompVFPU.cpp:118-161 | a quad body whose set-up transfers nothing makes exactly the four lane transfers, in order |
| VfpuComp.QuadTraceLaneSlots | Core/MIPS/PPC/PpcCompVFPU.cpp:133-137 | the eight lane actions sit just before the final release |
| VfpuComp.QuadTraceReleasesOnce | Core/MIPS/PPC/PpcCompVFPU.cpp:122-167 | a quad body releases exactly once, after every lock it takes |
| VfpuComp.EndsWithRelease | Core/MIPS/PPC/PpcCompVFPU.cpp:167 | a trace ending in a release has every spill lock followed by a release |
| VfpuComp.SVQTransfers | Core/MIPS/PPC/PpcCompVFPU.cpp:118-161 | lv.q/sv.q make exactly four transfers: lanes 0..3 in order through `vregs[i]` |
| VfpuComp.SVQLaneSlots | Core/MIPS/PPC/PpcCompVFPU.cpp:156-159 | lane `i` loads offset `4i` into R9, then transfers `vregs[i]` through SREG + R9 |
| VfpuComp.SVQFallback | Core/MIPS/PPC/PpcCompVFPU.cpp:163-165 | any other opcode yields exactly `Release; Generic(op)`, with no transfer |
| VfpuComp.SVQReleasesOnce | Core/MIPS/PPC/PpcCompVFPU.cpp:107-168 | every path of `Comp_SVQ` releases spill locks exactly once, after every lock it takes |
| VfpuComp.SVQSingleFoldedAddress | Core/MIPS/PPC/PpcCompVFPU.cpp:147-149 | with a known base, SREG is written once, with the folded address plus the memory base |
| VfpuComp.QuadWritesSregOnce | Core/MIPS/PPC/PpcCompVFPU.cpp:124-137 | the lane loop and the lock and release calls never write SREG |
| VfpuComp.QuadLoadAtKnownBase | Core/MIPS/PPC/PpcCompVFPU.cpp:124-126 | lv.q at base 0x08800000 with offset 0x10 writes SREG once, with 0x08800010 plus the memory base |
| FpuComp.FpuOffset | Core/MIPS/PPC/PpcCompFpu.cpp:74 | the lwc1/swc1 offset covers the whole signed 16-bit range and keeps the low bits |
| FpuComp.ArithFor | Core/MIPS/PPC/PpcCompFpu.cpp:42-68 | the switch on `op & 0x3f`: an instruction exactly for codes 0..3, the one whose COP1 function code is that code |
| FpuComp.FPU3opActions | Core/MIPS/PPC/PpcCompFpu.cpp:34-69 | the `Comp_FPU3op` trace: `MapDirtyInIn(fd, fs, ft)`, then the instruction or the fallback; two actions, the second arithmetic exactly when the code is below 4 |
| FpuComp.Cop1Function | Core/MIPS/PPC/PpcCompFpu.cpp:44-64 | the function codes of add.s, sub.s, mul.s and div.s lie below 4 |
| FpuComp.FPU3opShape | Core/MIPS/PPC/PpcCompFpu.cpp:41-68 | every path first maps `(fd, fs, ft)`; one arithmetic action iff `op & 0x3f < 4`, else `Generic(op)`; no release |
| FpuComp.FPU3opArith | Core/MIPS/PPC/PpcCompFpu.cpp:44-64 | codes 0..3 emit FADD, FSUB, FMUL, FDIV with operands `(fd, fs, ft)` |
| FpuComp.FPU3opAssembled | Core/MIPS/PPC/PpcCompFpu.cpp:34-69 | an assembled `op.s fd, fs, ft` compiles to the register mapping and the one instruction of its kind |
| FpuComp.Swc1Address | Core/MIPS/PPC/PpcCompFpu.cpp:101-108 | the swc1 address set-up: two actions ending with a write of SREG; with a known base, the same folded constant, below 2^30, into R0 and then SREG |
| FpuComp.Lwc1Trace | Core/MIPS/PPC/PpcCompFpu.cpp:84-96 | the lwc1 body around its address set-up: four more actions, opening with the spill lock, the load second to last, the release last |
| FpuComp.Swc1Trace | Core/MIPS/PPC/PpcCompFpu.cpp:100-110 | the swc1 body around its address set-up: two more actions, no lock first, the store last |
| FpuComp.FPULSActions | Core/MIPS/PPC/PpcCompFpu.cpp:71-117 | the `Comp_FPULS` trace; it is `Generic(op)` alone exactly when the opcode is neither lwc1 nor swc1 |
| FpuComp.Lwc1TraceTransfers | Core/MIPS/PPC/PpcCompFpu.cpp:84-94 | an lwc1 body locks and maps `ft` first and loads exactly once, second to last |
| FpuComp.Lwc1TraceReleases | Core/MIPS/PPC/PpcCompFpu.cpp:84-96 | an lwc1 body releases exactly once, last, after the lock it takes |
| FpuComp.Swc1AddressInert | Core/MIPS/PPC/PpcCompFpu.cpp:101-108 | the swc1 address set-up neither transfers, locks nor releases |
| FpuComp.Swc1TraceShape | Core/MIPS/PPC/PpcCompFpu.cpp:100-110 | an swc1 body stores once, last, takes no lock and releases nothing |
| FpuComp.Lwc1Shape | Core/MIPS/PPC/PpcCompFpu.cpp:83-97 | lwc1 is SpillLock(ft), MapReg(ft, NOINIT and DIRTY), address, one load into `ft`, then one release |
| FpuComp.Swc1Shape | Core/MIPS/PPC/PpcCompFpu.cpp:99-111 | swc1 maps `ft`, stores it last, and takes no spill lock and releases nothing |
| FpuComp.Swc1KnownBase | Core/MIPS/PPC/PpcCompFpu.cpp:101-104 | with a known base, swc1 loads the same folded address, below 2^30, into R0 and SREG, then stores through SREG |
| FpuComp.Lwc1KnownBase | Core/MIPS/PPC/PpcCompFpu.cpp:86-88 | with a known base, lwc1 loads the folded address into SREG |
| FpuComp.FPULSFallback | Core/MIPS/PPC/PpcCompFpu.cpp:113-115 | opcodes other than 49 and 57 yield only `Generic(op)` |
| FpuComp.Lwc1Assembled | Core/MIPS/PPC/PpcCompFpu.cpp:83-96 | an assembled `lwc1 ft, offset(rs)` compiles with the offset unchanged by the encode/decode round trip |
| FpuComp.Swc1Assembled | Core/MIPS/PPC/PpcCompFpu.cpp:99-110 | the same round trip for `swc1 ft, offset(rs)` |
| PpcJit.Jit.Disable | Core/MIPS/PPC/PpcCompVFPU.cpp:20 | the VFPU `DISABLE` macro appends a release and then the interpreter fallback |
| PpcJit.Jit.AddressIntoSreg | Core/MIPS/PPC/PpcCompVFPU.cpp:74-80 | appends exactly `AddressToSreg(rs, imm, rsImm)` |
| PpcJit.Jit.CompSV | Core/MIPS/PPC/PpcCompVFPU.cpp:60-105 | appends exactly `SVActions(op, rsImm)` |
| PpcJit.Jit.CompSVQ | Core/MIPS/PPC/PpcCompVFPU.cpp:107-168 | appends exactly `SVQActions` for the lanes `GetVectorRegs` reports, returning early on `DISABLE` |
| PpcJit.Jit.QuadBody | Core/MIPS/PPC/PpcCompVFPU.cpp:118-167 | the lv.q/sv.q case and the release after the switch append exactly `QuadTrace` |
| PpcJit.Jit.QuadAddressIntoSreg | Core/MIPS/PPC/PpcCompVFPU.cpp:124-131 | appends exactly `QuadAddress(rs, imm, rsImm, memBase)` |
| PpcJit.Jit.LaneLoop | Core/MIPS/PPC/PpcCompVFPU.cpp:133-136 | the four-iteration loop appends exactly `LaneTransfers(vregs, load, 4)` |
| PpcJit.Jit.CompFPU3op | Core/MIPS/PPC/PpcCompFpu.cpp:34-69 | appends exactly `FPU3opActions(op)` |
| PpcJit.Jit.CompFPULS | Core/MIPS/PPC/PpcCompFpu.cpp:71-117 | appends exactly `FPULSActions(op, rsImm)` |
| PpcJit.Jit.Swc1AddressIntoSreg | Core/MIPS/PPC/PpcCompFpu.cpp:101-108 | appends exactly `Swc1Address(rs, offset, rsImm)` |
| PpcJit.Jit.CompStub | Core/MIPS/PPC/PpcCompVFPU.cpp:170-290 | the stub handlers (and `Comp_FPUComp`, `Comp_FPU2op`, `Comp_mxc1`) append only `Generic(op)` |
| MathUtil.IsNAN | Common/MathUtil.h:55-60 | a pattern is a NaN exactly when, sign ignored, it lies above the pattern of infinity |
| MathUtil.IsQNAN | Common/MathUtil.h:62-68 | the test as written, with its 15-digit masks: it accepts only NaNs, whose low 48 bits are exactly bit 47 |
| MathUtil.IsSNAN | Common/MathUtil.h:70-76 | a signalling NaN is a NaN; sign ignored, it lies strictly between infinity and the canonical quiet NaN |
| MathUtil.CanonicalQuietNaNRejected | Common/MathUtil.h:66-67 | the canonical quiet NaN 0x7FF8000000000000 is a NaN and not signalling, yet the as-written `IsQNAN` rejects it |
| MathUtil.QuietAndSignallingOverlap | Common/MathUtil.h:62-76 | 0x7FF0800000000000 passes both the as-written `IsQNAN` and `IsSNAN` |
| MathUtil.IsQNANCorrected | Common/MathUtil.h:62-68 | the quiet-NaN test with 16-digit masks accepts exactly the canonical quiet NaN of either sign, a NaN that is never signalling |
| MathUtil.FlushToZero | Common/MathUtil.h:78-84 | the sign is kept; a zero or denormal becomes a signed zero; other patterns are unchanged |
| MathUtil.FlushToZeroNormalises | Common/MathUtil.h:78-84 | the result is never a denormal, and flushing is idempotent |
| MathUtil.FlushToZeroAsFloat | Common/MathUtil.h:86-92 | the sign is kept; an exponent below 0x380 gives a signed zero; other patterns are unchanged |
| MathUtil.FlushToZeroAsFloatIdempotent | Common/MathUtil.h:86-92 | the result has an exponent of at least 0x380 or is a signed zero, and flushing again changes nothing |
| MathUtil.Rectangle.constructor | Common/MathUtil.h:124-126 | the four edges take the given values |
| MathUtil.Rectangle.GetWidth | Common/MathUtil.h:128 | the width is `abs(right - left)`, non-negative |
| MathUtil.Rectangle.GetHeight | Common/MathUtil.h:129 | the height is `abs(bottom - top)`, non-negative |
| MathUtil.Rectangle.ClampLL | Common/MathUtil.h:133-139 | an edge beyond its bound moves onto it; then `left >= x1`, `right <= x2`, `top <= y1`, `bottom >= y2`; a rectangle already in bounds is unchanged |
| MathUtil.Rectangle.ClampUL | Common/MathUtil.h:143-149 | the same, but with `top >= y1` and `bottom <= y2` |
| MathUtil.ExtentUnderSwap | Common/MathUtil.h:128-129 | width and height are unchanged by swapping left/right and top/bottom |

## Left out

- Register-cache internals (eviction, dirty tracking, what `MapRegsAndSpillLockV` does) are not modelled. `PpcRegCache.h` is not part of this model; its calls appear only as recorded actions.
- Host code emission is not modelled: `ppcEmitter.h`, `SetRegToEffectiveAddress` and the byte swap inside `LoadFloatSwap`/`SaveFloatSwap`. They appear only as recorded actions.
- `Memory::base` is a host pointer. It is the parameter `memBase`, an arbitrary 32-bit value.
- `GetVectorRegs` is not part of this model. Its result for `(V_Quad, vt)` is a parameter function assumed to return four registers.
- `gpr.IsImm`/`gpr.GetImm` become the parameter `rsImm`.
- The IEEE results of FADD/FSUB/FMUL/FDIV and `pow2f`/`pow2` are left out, because they are floating-point arithmetic.
- `ClassifyDouble`, `ClassifyFloat`, `Pow2roundup` and `GetPow2` are left out: they are only declared in the header.
- The commented-out VMUL+VNEG fusion in `Comp_FPU3op` is left out, as are the unused `doCheck` locals.
- `CONDITIONAL_DISABLE` is left out: it expands to an empty statement in both files.
- `Comp_Generic` and the interpreter it calls are left out; the fallback is the recorded action `Generic(op)`.
- The default constructor `Rectangle()` is left out: it leaves the edges uninitialised.
- `MathUtil.Rectangle`: the template is instantiated at unbounded `int` only.
- MathUtil.Rectangle.GetWidth: does not model overflow of `right - left` in a fixed-width `T`.
- MathUtil.Rectangle.GetHeight: the same for `bottom - top`.
- Shifts and masks on instruction words are modelled as division and remainder on integers, not as bit-vector operations.

## Findings

| source | as written | input that shows it | evidently intended | confidence | as-written member | corrected member |
|---|---|---|---|---|---|---|
| Common/MathUtil.h:66-67 | `IsQNAN` masks with 15 hex digits (`0x0007fffffffffff`, `0x000800000000000`): it tests fraction bit 47 and requires bits 0..46 clear | 0x7FF8000000000000, the canonical quiet NaN, is rejected; 0x7FF0800000000000, a signalling NaN, is accepted | 16-digit masks `0x0007ffffffffffff` / `0x0008000000000000`: quiet bit 51 set and the rest of the fraction clear | high (not executed) | MathUtil.CanonicalQuietNaNRejected | MathUtil.IsQNANCorrected |
