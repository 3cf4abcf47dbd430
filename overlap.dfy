/** Overlap safety of a vector destination register against the source lists of a VFPU
    instruction (`IsOverlapSafeAllowS` and `IsOverlapSafe`). A handler may write results
    straight into the destination's lanes only when the destination does not alias a
    lane it still has to read. */
module OverlapSafety {
  import opened OpcodeFields

  /** `d` occurs in `regs[0..n)` at some index other than `skip`. */
  predicate OccursElsewhere(d: int, skip: int, n: int, regs: seq<u8>)
    requires n <= |regs|
  {
    exists i :: 0 <= i < n && i != skip && regs[i] as int == d
  }

  /** The verdict `IsOverlapSafeAllowS` is meant to compute: `d` is not among the
      `tn` registers of `tregs`, and among the `sn` registers of `sregs` it occurs, if
      at all, only at index `di`. */
  predicate SafeAllowS(d: int, di: int, sn: int, sregs: seq<u8>, tn: int, tregs: seq<u8>)
    requires sn <= |sregs| && tn <= |tregs|
  {
    !OccursElsewhere(d, di, sn, sregs) && !OccursElsewhere(d, -1, tn, tregs)
  }

  /** `IsOverlapSafeAllowS`: two scans with early exit. The second list defaults to
      empty, as the C++ default arguments `tn = 0, tregs = NULL` make it. */
  method IsOverlapSafeAllowS(d: int, di: int, sn: int, sregs: seq<u8>, tn: int := 0, tregs: seq<u8> := [])
    returns (safe: bool)
    requires sn <= |sregs| && tn <= |tregs|
    ensures safe <==> SafeAllowS(d, di, sn, sregs, tn, tregs)
  {
    var i := 0;
    while i < sn
      invariant 0 <= i <= if sn < 0 then 0 else sn
      invariant forall k :: 0 <= k < i && k != di ==> sregs[k] as int != d
    {
      if sregs[i] as int == d && i != di {
        return false;
      }
      i := i + 1;
    }
    i := 0;
    while i < tn
      invariant 0 <= i <= if tn < 0 then 0 else tn
      invariant forall k :: 0 <= k < i ==> tregs[k] as int != d
    {
      if tregs[i] as int == d {
        return false;
      }
      i := i + 1;
    }
    return true;
  }

  /** `IsOverlapSafe`: the `AllowS` verdict, and in addition the destination must not be
      the designated source slot `sregs[di]` either. */
  method IsOverlapSafe(d: int, di: int, sn: int, sregs: seq<u8>, tn: int := 0, tregs: seq<u8> := [])
    returns (safe: bool)
    requires 0 <= di < sn <= |sregs| && tn <= |tregs|
    ensures safe <==> SafeAllowS(d, di, sn, sregs, tn, tregs) && sregs[di] as int != d
    ensures safe ==> !OccursElsewhere(d, -1, sn, sregs) && !OccursElsewhere(d, -1, tn, tregs)
  {
    var allowS := IsOverlapSafeAllowS(d, di, sn, sregs, tn, tregs);
    safe := allowS && sregs[di] as int != d;
  }

  /** The strict verdict is the absence of `d` from both lists: it implies the `AllowS`
      verdict, and the two differ exactly when `d` sits in the designated slot and
      nowhere else. */
  lemma StrictIsNoOccurrence(d: int, di: int, sn: int, sregs: seq<u8>, tn: int, tregs: seq<u8>)
    requires 0 <= di < sn <= |sregs| && tn <= |tregs|
    ensures (SafeAllowS(d, di, sn, sregs, tn, tregs) && sregs[di] as int != d) <==>
            (!OccursElsewhere(d, -1, sn, sregs) && !OccursElsewhere(d, -1, tn, tregs))
    ensures SafeAllowS(d, di, sn, sregs, tn, tregs) && sregs[di] as int == d ==>
            OccursElsewhere(d, -1, sn, sregs)
  {
    if SafeAllowS(d, di, sn, sregs, tn, tregs) && sregs[di] as int != d {
      forall i | 0 <= i < sn ensures sregs[i] as int != d {
        if i != di {
          assert !(0 <= i < sn && i != di && sregs[i] as int == d);
        }
      }
    }
  }

  /** An instruction whose only source is its own destination, in the designated slot:
      the `AllowS` verdict is "safe" and the strict verdict is "unsafe". */
  method SelfSourceVerdicts(d: u8) returns (allowS: bool, strict: bool)
    ensures allowS && !strict
  {
    allowS := IsOverlapSafeAllowS(d as int, 0, 1, [d]);
    strict := IsOverlapSafe(d as int, 0, 1, [d]);
  }
}
