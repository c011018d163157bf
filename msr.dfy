/** MSR emulation: `find_msr_in_region`, `handle_rdmsr` and `handle_wrmsr`. Only
 *  IA32_EFER is emulated; its value lives in the guest MSR area. The model keeps
 *  three behaviours of the code as written: the search compares the first entry
 *  only, a read puts the low half of the value into both rax and the high half of
 *  rdx, and the long-mode branch of a write stores the entry controls unchanged. */
module Msr {
  import opened Headers
  import opened Machine

  /** `find_msr_in_region(msr_idx, area, area_sz, msr_entry)`. A pointer to an entry of
   *  `area` is its index; `prior` is the caller's `*msr_entry`, returned unchanged when
   *  nothing is found. The loop runs `area_sz` times but never advances its cursor,
   *  so only the first entry is ever compared. */
  method FindMsrInRegion(msrIdx: U32, area: array<MsrEntry>, areaSz: Int32, prior: nat)
    returns (found: bool, entry: nat)
    requires areaSz as int <= area.Length
    ensures found <==> areaSz > 0 && area[0].msrIndex == msrIdx
    ensures found ==> entry < area.Length && area[entry].msrIndex == msrIdx
    ensures found ==> entry == 0
    ensures !found ==> entry == prior
  {
    var cursor := 0;
    var i := 0;
    while i < areaSz
      invariant 0 <= i
      invariant i > 0 ==> 0 < areaSz && area[cursor].msrIndex != msrIdx
    {
      if area[cursor].msrIndex == msrIdx {
        return true, cursor;
      }
      i := i + 1;
    }
    return false, prior;
  }

  /** The guest's MSR area holds EFER where `find_msr_in_region` can find it. */
  predicate EferFound(area: seq<MsrEntry>, areaSz: Int32) {
    areaSz > 0 && |area| > 0 && area[0].msrIndex == EFER_MSR
  }

  /** The rdx:rax pair a handler leaves in the trapframe. */
  datatype EdxEax = EdxEax(rdx: U64, rax: U64)

  /** What `handle_rdmsr` leaves in rdx:rax for an MSR value: rax holds the low half,
   *  and rdx holds `val << 32`, the low half again moved up, where the `rdmsr`
   *  instruction returns the high half in rdx. */
  function RdmsrResult(val: U64): (r: EdxEax)
    ensures High32(r.rax) == 0 && Low32(r.rax) == Low32(val)
    ensures Low32(r.rdx) == 0 && High32(r.rdx) == Low32(val)
  {
    EdxEax(Low32(val) * TWO_32, Low32(val))
  }

  /** Bitwise OR of two 32-bit words. */
  function Or32(a: U32, b: U32): (r: U32)
    ensures forall n: nat :: Bit(r, n) == 1 <==> Bit(a, n) == 1 || Bit(b, n) == 1
  {
    Pow2Of32();
    OrInWidth(a, b, 32);
    forall n: nat
      ensures Bit(Or(a, b), n) == 1 <==> Bit(a, n) == 1 || Bit(b, n) == 1
    {
      OrBits(a, b, n);
    }
    Or(a, b)
  }

  /** OR with zero changes nothing. */
  lemma Or32Zero(a: U32)
    ensures Or32(a, 0) == a
  {
  }

  /** The value `handle_wrmsr` stores, `(rdx << 32) | rax`, given by its two halves.
   *  The shift drops rdx's high half; rax's high half is not masked and is OR-ed
   *  into the high half. */
  function WrmsrValue(rdx: U64, rax: U64): (v: U64)
    ensures Low32(v) == Low32(rax)
    ensures High32(v) == Or32(Low32(rdx), High32(rax))
  {
    Join32(Or32(Low32(rdx), High32(rax)), Low32(rax))
  }

  /** When rax carries 32 bits, as the `wrmsr` instruction defines it, the stored value
   *  is the pair edx:eax. */
  lemma WrmsrJoinsHalves(rdx: U64, rax: U64)
    requires High32(rax) == 0
    ensures WrmsrValue(rdx, rax) == Join32(Low32(rdx), Low32(rax))
  {
    Or32Zero(Low32(rdx));
  }

  /** `BIT(cur, EFER_LME) == 0 && BIT(next, EFER_LME) == 1`: the write turns EFER.LME
   *  on, so it changes the value and its only difference in bit 8 is that bit. */
  function EnablesLongMode(cur: U64, next: U64): (r: bool)
    ensures r ==> cur != next
    ensures r ==> SetBit(next, EFER_LME) == next && ClearBit(next, EFER_LME) != next
  {
    Bit(cur, EFER_LME) == 0 && Bit(next, EFER_LME) == 1
  }

  /** Whether a write enables long mode depends on the eax half of rax only: bit 8 of
   *  the stored value is bit 8 of eax, whatever rdx and the high half of rax hold. */
  lemma LongModeTestReadsEax(cur: U64, rdx: U64, rax: U64)
    ensures EnablesLongMode(cur, WrmsrValue(rdx, rax)) <==> EnablesLongMode(cur, Low32(rax))
  {
    var v := WrmsrValue(rdx, rax);
    Pow2Of32();
    BitInLowPart(v, EFER_LME, 32);
    BitInLowPart(Low32(rax), EFER_LME, 32);
  }

  /** The high half of the MSR value never reaches the guest: a read depends on the
   *  low half only. */
  lemma RdmsrIgnoresHighHalf(val: U64, other: U64)
    requires Low32(val) == Low32(other)
    ensures RdmsrResult(val) == RdmsrResult(other)
  {
  }

  /** A read after a write returns, in rax and in the high half of rdx, the low half
   *  of the rax that was written; the rdx that was written is never read back. */
  lemma ReadAfterWrite(rdx: U64, rax: U64)
    ensures RdmsrResult(WrmsrValue(rdx, rax)) == EdxEax(Low32(rax) * TWO_32, Low32(rax))
  {
  }

  /** A concrete case: after writing rdx = 1, rax = 0 the guest reads back rdx = 0,
   *  where the hardware would return 1. */
  lemma ReadAfterWriteLosesRdx()
    ensures WrmsrValue(1, 0) == Join32(1, 0)
    ensures RdmsrResult(WrmsrValue(1, 0)).rdx == 0
  {
    WrmsrJoinsHalves(1, 0);
    ReadAfterWrite(1, 0);
  }

  /** `handle_rdmsr`. */
  method HandleRdmsr(tf: Trapframe, gInfo: GuestInfo, vmcs: Vmcs) returns (c: Completion)
    requires gInfo.Valid()
    modifies tf
    ensures old(tf.rcx) != EFER_MSR ==> c == Returns(false) && unchanged(tf)
    ensures old(tf.rcx) == EFER_MSR && !EferFound(gInfo.msrGuestArea[..], gInfo.msrCount) ==>
              c == Panics && unchanged(tf)
    ensures old(tf.rcx) == EFER_MSR && EferFound(gInfo.msrGuestArea[..], gInfo.msrCount) ==>
              && c == Returns(true)
              && EdxEax(tf.rdx, tf.rax) == RdmsrResult(gInfo.msrGuestArea[0].msrValue)
              && tf.rip == Advanced(old(tf.rip), vmcs.exitInstrLength)
              && tf.rbx == old(tf.rbx) && tf.rcx == old(tf.rcx) && tf.rsi == old(tf.rsi)
  {
    var msr := tf.rcx;
    if msr == EFER_MSR {
      var r, entry := FindMsrInRegion(Low32(msr), gInfo.msrGuestArea, gInfo.msrCount, 0);
      if !r {
        return Panics;
      }
      var val := gInfo.msrGuestArea[entry].msrValue;
      tf.rdx := Low32(val) * TWO_32;
      tf.rax := Low32(val);
      tf.rip := Advanced(tf.rip, vmcs.exitInstrLength);
      return Returns(true);
    }
    return Returns(false);
  }

  /** `handle_wrmsr`. */
  method HandleWrmsr(tf: Trapframe, gInfo: GuestInfo, vmcs: Vmcs) returns (c: Completion)
    requires gInfo.Valid()
    modifies tf, gInfo.msrGuestArea, vmcs
    ensures old(tf.rcx) != EFER_MSR || !EferFound(old(gInfo.msrGuestArea[..]), gInfo.msrCount) ==>
              && c == (if old(tf.rcx) != EFER_MSR then Returns(false) else Panics)
              && unchanged(tf) && unchanged(gInfo.msrGuestArea) && unchanged(vmcs)
    ensures old(tf.rcx) == EFER_MSR && EferFound(old(gInfo.msrGuestArea[..]), gInfo.msrCount) ==>
              var cur := old(gInfo.msrGuestArea[0]);
              var next := WrmsrValue(old(tf.rdx), old(tf.rax));
              && c == Returns(true)
              && gInfo.msrGuestArea[..] == old(gInfo.msrGuestArea[..])[0 := cur.(msrValue := next)]
              && tf.rip == Advanced(old(tf.rip), vmcs.exitInstrLength)
              && tf.rax == old(tf.rax) && tf.rbx == old(tf.rbx) && tf.rcx == old(tf.rcx)
              && tf.rdx == old(tf.rdx) && tf.rsi == old(tf.rsi)
              && vmcs.procBasedCtls == old(vmcs.procBasedCtls)
              && vmcs.entryIntrInfo == old(vmcs.entryIntrInfo)
              && vmcs.entryCtls == old(vmcs.entryCtls)
              && vmcs.writes == old(vmcs.writes) +
                   (if EnablesLongMode(cur.msrValue, next) then [(VmentryControls, old(vmcs.entryCtls))] else [])
  {
    var msr := tf.rcx;
    if msr == EFER_MSR {
      var r, entry := FindMsrInRegion(Low32(msr), gInfo.msrGuestArea, gInfo.msrCount, 0);
      if !r {
        return Panics;
      }
      var curVal := gInfo.msrGuestArea[entry].msrValue;
      var newVal := WrmsrValue(tf.rdx, tf.rax);
      if Bit(curVal, EFER_LME) == 0 && Bit(newVal, EFER_LME) == 1 {
        var entryCtls := vmcs.Read32(VmentryControls);
        vmcs.Write32(VmentryControls, entryCtls);
      }
      gInfo.msrGuestArea[entry] := gInfo.msrGuestArea[entry].(msrValue := newVal);
      tf.rip := Advanced(tf.rip, vmcs.exitInstrLength);
      return Returns(true);
    }
    return Returns(false);
  }
}
