/** Interrupt injection: `handle_interrupts`, run when a host interrupt arrives while
 *  the guest runs, and `handle_interrupt_window`, run when the guest opens its
 *  interrupt window. The vector is injected through the VM-entry
 *  interruption-information field; when the guest has interrupts disabled, the
 *  handler instead asks for an exit as soon as they are enabled again. */
module Interrupts {
  import opened Headers
  import opened Machine

  /** `ctls | VMCS_PROC_BASED_VMEXEC_CTL_INTRWINEXIT`: the window-exiting bit is set
   *  and every other control is kept. */
  function ArmWindow(ctls: U32): (r: U32)
    ensures Bit(r, INTRWINEXIT_BIT) == 1
    ensures SameOtherBits(r, ctls, INTRWINEXIT_BIT)
  {
    Pow2Of32();
    SetBitInWidth(ctls, INTRWINEXIT_BIT, 32);
    SetBit(ctls, INTRWINEXIT_BIT)
  }

  /** `ctls & ~VMCS_PROC_BASED_VMEXEC_CTL_INTRWINEXIT`: the window-exiting bit is
   *  cleared and every other control is kept. */
  function DisarmWindow(ctls: U32): (r: U32)
    ensures Bit(r, INTRWINEXIT_BIT) == 0
    ensures SameOtherBits(r, ctls, INTRWINEXIT_BIT)
  {
    ClearBit(ctls, INTRWINEXIT_BIT)
  }

  /** Arming and then disarming the window restores the controls the guest had before,
   *  as long as the window was not armed then. */
  lemma ArmThenDisarm(ctls: U32)
    ensures DisarmWindow(ArmWindow(ctls)) == DisarmWindow(ctls)
    ensures Bit(ctls, INTRWINEXIT_BIT) == 0 ==> DisarmWindow(ArmWindow(ctls)) == ctls
  {
    BitsDetermineWord(DisarmWindow(ArmWindow(ctls)), DisarmWindow(ctls), INTRWINEXIT_BIT);
    if Bit(ctls, INTRWINEXIT_BIT) == 0 {
      BitsDetermineWord(DisarmWindow(ArmWindow(ctls)), ctls, INTRWINEXIT_BIT);
    }
  }

  /** Arming is idempotent: a second arm stores the same controls. */
  lemma ArmIdempotent(ctls: U32)
    ensures ArmWindow(ArmWindow(ctls)) == ArmWindow(ctls)
  {
    BitsDetermineWord(ArmWindow(ArmWindow(ctls)), ArmWindow(ctls), INTRWINEXIT_BIT);
  }

  /** `rflags & (0x1 << 9)` is nonzero: RFLAGS.IF is set and the guest accepts
   *  maskable interrupts. That is, the low ten bits of RFLAGS are at least 0x200. */
  function InterruptsEnabled(rflags: U64): (r: bool)
    ensures r <==> rflags % 0x400 >= 0x200
  {
    BitMeaning(rflags, RFLAGS_IF_BIT);
    assert Pow2(RFLAGS_IF_BIT) == 0x200;
    Bit(rflags, RFLAGS_IF_BIT) == 1
  }

  /** `handle_interrupt_window(tf, ginfo, host_vector)`: the window is open, so exiting
   *  on it is disabled, and the pending vector is injected with the next entry. The
   *  trapframe and the guest information are not used. */
  method HandleInterruptWindow(vmcs: Vmcs, hostVector: U32) returns (handled: bool)
    modifies vmcs
    ensures handled
    ensures vmcs.procBasedCtls == DisarmWindow(old(vmcs.procBasedCtls))
    ensures vmcs.entryIntrInfo == hostVector
    ensures vmcs.entryCtls == old(vmcs.entryCtls)
    ensures vmcs.writes == old(vmcs.writes) + [(ProcBasedVmexecControls, vmcs.procBasedCtls),
                                               (VmentryInterruptionInfo, hostVector)]
  {
    var procbasedCtls := vmcs.Read32(ProcBasedVmexecControls);
    procbasedCtls := DisarmWindow(procbasedCtls);
    vmcs.Write32(ProcBasedVmexecControls, procbasedCtls);
    vmcs.Write32(VmentryInterruptionInfo, hostVector);
    return true;
  }

  /** `handle_interrupts(tf, ginfo, host_vector)`. With RFLAGS.IF clear the vector cannot
   *  be delivered yet, so interrupt-window exiting is enabled and nothing is injected;
   *  with RFLAGS.IF set the vector is injected directly. In the second case the
   *  window-exiting bit is left as it was. */
  method HandleInterrupts(vmcs: Vmcs, hostVector: U32) returns (handled: bool)
    modifies vmcs
    ensures handled
    ensures !InterruptsEnabled(vmcs.guestRflags) ==>
              && vmcs.procBasedCtls == ArmWindow(old(vmcs.procBasedCtls))
              && vmcs.entryIntrInfo == old(vmcs.entryIntrInfo)
              && vmcs.writes == old(vmcs.writes) + [(ProcBasedVmexecControls, vmcs.procBasedCtls)]
    ensures InterruptsEnabled(vmcs.guestRflags) ==>
              && vmcs.procBasedCtls == old(vmcs.procBasedCtls)
              && vmcs.entryIntrInfo == hostVector
              && vmcs.writes == old(vmcs.writes) + [(VmentryInterruptionInfo, hostVector)]
    ensures vmcs.entryCtls == old(vmcs.entryCtls)
  {
    var rflags := vmcs.guestRflags;
    if !InterruptsEnabled(rflags) {
      var procbasedCtls := vmcs.Read32(ProcBasedVmexecControls);
      procbasedCtls := ArmWindow(procbasedCtls);
      vmcs.Write32(ProcBasedVmexecControls, procbasedCtls);
    } else {
      vmcs.Write32(VmentryInterruptionInfo, hostVector);
    }
    return true;
  }
}
