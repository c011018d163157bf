/** `handle_cpuid`: the guest's `cpuid` is executed on the host and its answer handed
 *  back, with the VMX feature flag (ECX bit 5) hidden so that the guest does not try
 *  to start a hypervisor of its own. The flag is hidden for every leaf but leaf 0,
 *  not only for the feature leaf 1. */
module Cpuid {
  import opened Headers
  import opened Machine

  /** The four registers `cpuid` returns. */
  datatype CpuidRegs = CpuidRegs(eax: U32, ebx: U32, ecx: U32, edx: U32)

  /** `ecx & ~0x20U`: ECX bit 5 is cleared and every other bit is kept. */
  function HideVmx(ecx: U32): (r: U32)
    ensures Bit(r, CPUID_ECX_VMX_BIT) == 0
    ensures SameOtherBits(r, ecx, CPUID_ECX_VMX_BIT)
  {
    ClearBit(ecx, CPUID_ECX_VMX_BIT)
  }

  /** The registers the guest receives for leaf `leaf` when the host answers `hw`. */
  function FilterCpuid(leaf: U32, hw: CpuidRegs): (r: CpuidRegs)
    ensures r.eax == hw.eax && r.ebx == hw.ebx && r.edx == hw.edx
    ensures leaf != 0 ==> Bit(r.ecx, CPUID_ECX_VMX_BIT) == 0
    ensures leaf != 0 ==> SameOtherBits(r.ecx, hw.ecx, CPUID_ECX_VMX_BIT)
    ensures leaf == 0 ==> r == hw
  {
    if leaf != 0 then hw.(ecx := HideVmx(hw.ecx)) else hw
  }

  /** Filtering an answer that is already filtered changes nothing. */
  lemma FilterIdempotent(leaf: U32, hw: CpuidRegs)
    ensures FilterCpuid(leaf, FilterCpuid(leaf, hw)) == FilterCpuid(leaf, hw)
  {
    if leaf != 0 {
      BitsDetermineWord(HideVmx(HideVmx(hw.ecx)), HideVmx(hw.ecx), CPUID_ECX_VMX_BIT);
    }
  }

  /** Only ECX bit 5 can differ from the host's answer, and only for leaves other than 0:
   *  the guest sees exactly what the host sees when the host does not report bit 5. */
  lemma FilterChangesOnlyVmxBit(leaf: U32, hw: CpuidRegs)
    requires Bit(hw.ecx, CPUID_ECX_VMX_BIT) == 0
    ensures FilterCpuid(leaf, hw) == hw
  {
    if leaf != 0 {
      BitsDetermineWord(HideVmx(hw.ecx), hw.ecx, CPUID_ECX_VMX_BIT);
    }
  }

  /** `handle_cpuid(tf, ginfo)`. `cpuid` stands for the host instruction, as a function
   *  of the leaf in eax; the leaf is the low 32 bits of the guest's rax. */
  method HandleCpuid(tf: Trapframe, vmcs: Vmcs, cpuid: U32 -> CpuidRegs) returns (handled: bool)
    modifies tf
    ensures handled
    ensures var leaf := Low32(old(tf.rax));
            var r := FilterCpuid(leaf, cpuid(leaf));
            tf.rax == r.eax && tf.rbx == r.ebx && tf.rcx == r.ecx && tf.rdx == r.edx
    ensures tf.rip == Advanced(old(tf.rip), vmcs.exitInstrLength)
    ensures tf.rsi == old(tf.rsi)
  {
    var info := Low32(tf.rax);
    var hw := cpuid(info);
    var ecx := hw.ecx;
    if info != 0 {
      ecx := HideVmx(ecx);
    }
    tf.rax := hw.eax;
    tf.rbx := hw.ebx;
    tf.rcx := ecx;
    tf.rdx := hw.edx;
    tf.rip := Advanced(tf.rip, vmcs.exitInstrLength);
    return true;
  }
}
