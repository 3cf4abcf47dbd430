/** The abstract action trace that the PowerPC JIT's floating-point handlers produce.

    A handler's observable behaviour is the ordered sequence of calls it makes on the
    FPU/VFPU register cache (`fpr`), the general-purpose register cache (`gpr`), the
    host code emitter and the interpreter fallback (`Comp_Generic`). Each such call is
    one `Action`; what the callee does internally is not modelled. */
module JitActions {
  import opened OpcodeFields

  /** The `MAP_DIRTY` / `MAP_NOINIT` flags of a register-cache mapping request. */
  datatype MapFlags = MapFlags(dirty: bool, noInit: bool)

  /** Flags value 0, the default of `MapReg` / `MapRegV`. */
  const NoFlags := MapFlags(false, false)

  /** `MAP_DIRTY | MAP_NOINIT`: the register is about to be completely overwritten. */
  const DirtyNoInit := MapFlags(true, true)

  /** Host registers as the handlers name them: the fixed scratch, base and temporary
      registers, or whichever host register the FPU cache has bound to a guest scalar
      FPU register (`fpr.R(f)`) or a guest vector register (`fpr.V(v)`). */
  datatype HostReg = SREG | BASEREG | R0 | R9 | FprR(f: int) | FprV(v: int)

  /** The four scalar arithmetic instructions the JIT emits natively. */
  datatype ArithKind = FAdd | FSub | FMul | FDiv

  /** One call made by a handler, in the order it is made. */
  datatype Action =
    | GprMapReg(rs: int)                                     // gpr.MapReg(rs)
    | FprMapReg(f: int, flags: MapFlags)                     // fpr.MapReg(f, flags)
    | FprMapRegV(v: int, flags: MapFlags)                    // fpr.MapRegV(v, flags)
    | FprMapRegsAndSpillLockV(vregs: seq<u8>, flags: MapFlags) // fpr.MapRegsAndSpillLockV(vregs, V_Quad, flags)
    | FprMapDirtyInIn(fd: int, fs: int, ft: int)             // fpr.MapDirtyInIn(d, s, t)
    | FprSpillLock(f: int)                                   // fpr.SpillLock(f)
    | FprReleaseSpillLocksAndDiscardTemps                    // fpr.ReleaseSpillLocksAndDiscardTemps()
    | Movi(dst: HostReg, value: Word)                        // MOVI2R(dst, value)
    | SetEffectiveAddress(dst: HostReg, rs: int, imm: int)    // SetRegToEffectiveAddress(dst, rs, offset)
    | AddReg(dst: HostReg, a: HostReg, b: HostReg)           // ADD(dst, a, b)
    | LoadFloatSwap(fr: HostReg, base: HostReg, offset: HostReg)
    | SaveFloatSwap(fr: HostReg, base: HostReg, offset: HostReg)
    | Arith(kind: ArithKind, d: HostReg, s: HostReg, t: HostReg) // FADD/FSUB/FMUL/FDIV(d, s, t)
    | Generic(op: Word)                                      // Comp_Generic(op)

  /** A guest memory access: a byte-swapping float load or store. */
  predicate IsTransfer(a: Action) { a.LoadFloatSwap? || a.SaveFloatSwap? }

  /** A native floating-point arithmetic instruction. */
  predicate IsArith(a: Action) { a.Arith? }

  /** An action that writes the address register SREG. */
  predicate WritesSreg(a: Action) {
    (a.Movi? || a.SetEffectiveAddress? || a.AddReg?) && a.dst == SREG
  }

  /** A call that leaves a spill lock held until the next release. */
  predicate TakesSpillLock(a: Action) { a.FprSpillLock? || a.FprMapRegsAndSpillLockV? }

  /** The subsequence of `s` whose elements satisfy `p`, in their original order. */
  function Filter<T>(s: seq<T>, p: T -> bool): seq<T> {
    if s == [] then [] else (if p(s[0]) then [s[0]] else []) + Filter(s[1..], p)
  }

  lemma {:induction false} FilterConcat<T>(a: seq<T>, b: seq<T>, p: T -> bool)
    ensures Filter(a + b, p) == Filter(a, p) + Filter(b, p)
  {
    if a == [] {
      assert a + b == b;
    } else {
      var h := if p(a[0]) then [a[0]] else [];
      assert (a + b)[0] == a[0];
      assert (a + b)[1..] == a[1..] + b;
      FilterConcat(a[1..], b, p);
      calc {
        Filter(a + b, p);
        h + Filter(a[1..] + b, p);
        h + (Filter(a[1..], p) + Filter(b, p));
        (h + Filter(a[1..], p)) + Filter(b, p);
        Filter(a, p) + Filter(b, p);
      }
    }
  }

  /** Filtering a four-part concatenation filters each part. */
  lemma FilterConcat4<T>(a: seq<T>, b: seq<T>, c: seq<T>, d: seq<T>, p: T -> bool)
    ensures Filter(a + b + c + d, p) == Filter(a, p) + Filter(b, p) + Filter(c, p) + Filter(d, p)
  {
    FilterConcat(a + b + c, d, p);
    FilterConcat(a + b, c, p);
    FilterConcat(a, b, p);
  }

  lemma FilterSingleton<T>(x: T, p: T -> bool)
    ensures Filter([x], p) == if p(x) then [x] else []
  {
    assert [x][1..] == [];
  }

  /** Filtering keeps nothing when no element satisfies the predicate. */
  lemma {:induction false} FilterNone<T>(s: seq<T>, p: T -> bool)
    requires forall x :: x in s ==> !p(x)
    ensures Filter(s, p) == []
  {
    if s != [] {
      assert s[0] in s;
      assert forall x :: x in s[1..] ==> x in s;
      FilterNone(s[1..], p);
    }
  }

  /** Every spill lock taken in `acts` is released by a later action of `acts`. */
  predicate LocksReleased(acts: seq<Action>) {
    forall i :: 0 <= i < |acts| && TakesSpillLock(acts[i]) ==>
      exists j :: i < j < |acts| && acts[j] == FprReleaseSpillLocksAndDiscardTemps
  }

  /** Number of `ReleaseSpillLocksAndDiscardTemps` calls in `acts`. */
  function ReleaseCount(acts: seq<Action>): nat {
    multiset(acts)[FprReleaseSpillLocksAndDiscardTemps]
  }

  /** A trace that never releases has a release count of zero. */
  lemma NoRelease(acts: seq<Action>)
    requires FprReleaseSpillLocksAndDiscardTemps !in acts
    ensures ReleaseCount(acts) == 0
  {
  }

  /** A release-free prefix followed by one release releases exactly once, after every
      spill lock the prefix takes. */
  lemma ReleaseAtEnd(prefix: seq<Action>)
    requires FprReleaseSpillLocksAndDiscardTemps !in prefix
    ensures ReleaseCount(prefix + [FprReleaseSpillLocksAndDiscardTemps]) == 1
    ensures LocksReleased(prefix + [FprReleaseSpillLocksAndDiscardTemps])
  {
    var rel := FprReleaseSpillLocksAndDiscardTemps;
    var acts := prefix + [rel];
    assert multiset(acts) == multiset(prefix) + multiset{rel};
    forall i | 0 <= i < |acts| && TakesSpillLock(acts[i])
      ensures exists j :: i < j < |acts| && acts[j] == rel
    {
      assert acts[|acts| - 1] == rel;
    }
  }

  /** `(imm + gpr.GetImm(rs)) & 0x3FFFFFFF` in `u32` arithmetic: the address folded at
      compile time when the base register holds a known constant. The sum wraps modulo
      2^32; keeping its low 30 bits is the remainder modulo 2^30. The result lies in the
      low guest window and is the exact sum modulo 2^30. */
  function FoldAddress(imm: int, base: Word): (addr: Word)
    ensures addr < 0x4000_0000
    ensures addr == (imm + base) % 0x4000_0000
  {
    WrapModLow((imm + base));
    (imm + base) % 0x1_0000_0000 % 0x4000_0000
  }

  /** Reducing modulo 2^32 before reducing modulo 2^30 changes nothing. */
  lemma WrapModLow(x: int)
    ensures x % 0x1_0000_0000 % 0x4000_0000 == x % 0x4000_0000
  {
    var q := x / 0x1_0000_0000;
    assert x == q * 0x1_0000_0000 + x % 0x1_0000_0000;
    assert x == (4 * q) * 0x4000_0000 + x % 0x1_0000_0000;
    DivModSplit(4 * q, x % 0x1_0000_0000 % 0x4000_0000, 0x4000_0000);
    var r := x % 0x1_0000_0000;
    assert r == (r / 0x4000_0000) * 0x4000_0000 + r % 0x4000_0000;
    DivModSplit(4 * q + r / 0x4000_0000, r % 0x4000_0000, 0x4000_0000);
  }

  /** The address set-up shared by lv.s, sv.s and lwc1: with a known base constant,
      materialise the folded address in SREG; otherwise map the base register and
      emit the effective-address computation into SREG. Either way the set-up ends by
      writing SREG, takes one action exactly when the base is known, and any constant it
      loads lies below 2^30. */
  function AddressToSreg(rs: int, imm: int, rsImm: Option<Word>): (address: seq<Action>)
    ensures |address| >= 1 && WritesSreg(address[|address| - 1])
    ensures |address| == 1 <==> rsImm.Some?
    ensures forall a :: a in address && a.Movi? ==> a.value < 0x4000_0000
  {
    match rsImm
    case Some(v) => [Movi(SREG, FoldAddress(imm, v))]
    case None => [GprMapReg(rs), SetEffectiveAddress(SREG, rs, imm)]
  }

  /** The address set-up neither transfers data nor takes or releases spill locks. */
  lemma AddressToSregInert(rs: int, imm: int, rsImm: Option<Word>)
    ensures var address := AddressToSreg(rs, imm, rsImm);
      && Filter(address, IsTransfer) == []
      && FprReleaseSpillLocksAndDiscardTemps !in address
      && (forall a :: a in address ==> !TakesSpillLock(a))
  {
    FilterNone(AddressToSreg(rs, imm, rsImm), IsTransfer);
  }
}
