/** Constants the exit handlers take from headers that are not part of this model
 *  (vmm/vmx.h, vmm/vmexits.h, inc/error.h, inc/memlayout.h, inc/mmu.h, inc/env.h,
 *  kern/kclock.h, kern/console.h, kern/multiboot.h). Each carries the usual value of
 *  the JOS teaching kernel this monitor is built on, or the value fixed by the
 *  hardware or boot standard it names. Single-bit masks are given by their bit
 *  position; the facts about setting, clearing and testing a bit hold for any
 *  position, while the memory-layout, CMOS and hypercall facts rest on the values
 *  given here. */
module Headers {

  // ---- Intel SDM ------------------------------------------------------------------

  /** Index of the IA32_EFER model-specific register (Intel SDM Vol. 4, table 2-2). */
  const EFER_MSR: int := 0xC000_0080
  /** EFER.LME, long mode enable, is bit 8 (Intel SDM Vol. 3A, section 2.2.1). */
  const EFER_LME: nat := 8
  /** "Interrupt-window exiting" is bit 2 of the primary processor-based VM-execution
   *  controls (Intel SDM Vol. 3C, section 24.6.2); the mask
   *  VMCS_PROC_BASED_VMEXEC_CTL_INTRWINEXIT is 2^2. */
  const INTRWINEXIT_BIT: nat := 2
  /** RFLAGS.IF, the interrupt-enable flag, is bit 9 (Intel SDM Vol. 1, section 3.4.3):
   *  the mask `0x1 << 9`. */
  const RFLAGS_IF_BIT: nat := 9
  /** CPUID leaf 1, ECX bit 5: VMX is supported (Intel SDM Vol. 2A, CPUID); the mask
   *  `0x20U`. */
  const CPUID_ECX_VMX_BIT: nat := 5

  // ---- Memory layout ----------------------------------------------------------------

  const PGSIZE: int := 4096
  /** Physical address of the colour text-mode (VGA) frame buffer. */
  const CGA_BUF: int := 0xB8000
  /** Host virtual address at which physical memory is mapped. */
  const KERNBASE: int := 0x80_0400_0000
  /** Conventional memory ends at 640 KiB, the legacy I/O hole ends at 1 MiB. */
  const LOW_MEM_END: int := 0xA0000
  const HIGH_MEM_START: int := 0x100000

  // ---- CMOS real-time clock ----------------------------------------------------------

  /** Index port of the CMOS/RTC; the data port is IO_RTC + 1. */
  const IO_RTC: int := 0x70
  /** NVRAM register indices of the base (KiB below 640K) and extended (KiB above 1M)
   *  memory sizes, low and high byte. */
  const NVRAM_BASELO: int := 0x15
  const NVRAM_BASEHI: int := 0x16
  const NVRAM_EXTLO: int := 0x17
  const NVRAM_EXTHI: int := 0x18

  // ---- Hypercall numbers (carried in rax) ---------------------------------------------

  const VMX_VMCALL_MBMAP: int := 0x1
  const VMX_VMCALL_IPCSEND: int := 0x2
  const VMX_VMCALL_IPCRECV: int := 0x3
  const VMX_VMCALL_LAPICEOI: int := 0x4
  const VMX_VMCALL_BACKTOHOST: int := 0x5
  const VMX_VMCALL_GETDISKIMGNUM: int := 0x6

  // ---- Environments and errors ----------------------------------------------------------

  /** Number of slots in the environment table `envs`. */
  const NENV: nat := 1024
  /** `enum EnvType` value of the file-system server. */
  const ENV_TYPE_FS: int := 1
  /** `env_status` value of an environment the scheduler must not run. */
  const ENV_NOT_RUNNABLE: int := 4
  /** Invalid-argument error code; callers see it as `E_INVAL` or `-E_INVAL`. */
  const E_INVAL: int := 3

  // ---- JOS kern/multiboot.h ---------------------------------------------------------------

  /** sizeof(multiboot_info_t) in the JOS header: thirteen 32-bit words, ending with
   *  mmap_addr at offset 48. The structure of the Multiboot Specification continues past
   *  that field; the code uses the shorter JOS layout. */
  const MULTIBOOT_INFO_SIZE: int := 52
  /** sizeof(memory_map_t) in the JOS header: six 32-bit words (size, base low/high,
   *  length low/high, type). */
  const MEMORY_MAP_SIZE: int := 24

  // ---- Multiboot Specification 0.6.96, section 3.3 -------------------------------------

  /** `flags` bit 6: the mmap_length and mmap_addr fields are valid. */
  const MB_FLAG_MMAP: int := 0x40
  /** Memory-map entry types: available RAM, and reserved. */
  const MB_TYPE_USABLE: int := 1
  const MB_TYPE_RESERVED: int := 2
}
