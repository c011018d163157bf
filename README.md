# VM-exit handlers of a JOS-based virtual machine monitor

This project models `vmm/vmexits.c` in Dafny. That file holds the handlers the
monitor runs when a guest exits to the host:

- MSR reads and writes (only IA32_EFER is emulated);
- faults on the second-level (EPT) translation;
- port I/O to the CMOS real-time clock;
- `cpuid`;
- host interrupts and the guest's interrupt window;
- the hypercall interface (`vmcall`).

Each handler edits the guest's register snapshot, VMCS control words, the guest MSR area or the
EPT in place, and returns whether the exit was handled. The model keeps that form:

- the trapframe, the VMCS, the guest information, physical pages, the EPT, the kernel, the CMOS
  latch and the disk counter are classes;
- the handlers are methods whose `ensures` give the complete new state;
- the decision rules (fault classification, the CPUID mask, the interrupt-window bit, the CMOS
  answers, the memory map) are functions, and lemmas prove what they mean.

Registers and fields are integers in the range of their C type. The code's arithmetic is written
out explicitly:

- wrap-around modulo 2^64;
- truncation to 32 bits;
- shifts as multiplication or division by a power of two;
- single-bit test, set and clear, for any bit position (`Machine.Bit`, `Machine.SetBit`,
  `Machine.ClearBit`);
- OR computed bit by bit from the lowest (`Machine.Or`).

Constants from headers that are not part of this model are in `headers.dfy`:

- IA32_EFER and the bit positions of EFER.LME, interrupt-window exiting, RFLAGS.IF and the
  CPUID VMX flag, from the Intel SDM;
- the Multiboot flag and entry types from the Multiboot Specification 0.6.96, section 3.3;
- the JOS kernel's usual values for `PGSIZE`, `CGA_BUF`, `KERNBASE`, `IO_RTC`, the hypercall
  numbers, `ENV_TYPE_FS`, `ENV_NOT_RUNNABLE`, `NENV` and `E_INVAL`;
- the sizes of the JOS `kern/multiboot.h` structures: `MULTIBOOT_INFO_SIZE` 52 (thirteen words,
  ending at `mmap_addr`, shorter than the Multiboot Specification's structure) and
  `MEMORY_MAP_SIZE` 24. The lengths and addresses in `Multiboot.BootImageFor` follow from them;
- the NVRAM register indices `NVRAM_BASELO`, `NVRAM_BASEHI`, `NVRAM_EXTLO` and `NVRAM_EXTHI`,
  taken as 0x15–0x18. `kern/kclock.h` is not part of this model; these are the PC CMOS
  registers that hold the base and extended memory sizes, low byte first;
- the macro `BIT(x, n)`, taken as `((x) >> (n)) & 1`, which is 0 or 1 (`Machine.Bit`). The
  test `BIT(new_val, EFER_LME) == 1` can hold only under this definition, not under the mask
  form `x & (1 << n)`.

Modules, leaf first:

- `Headers`: the constants.
- `Machine`: words, the trapframe, the VMCS and the guest information.
- `Host`: pages, the EPT bridge and the kernel services.
- `Msr`, `Interrupts`, `EptFault`, `IoPort`, `Cpuid`: one module per handler family.
- `Multiboot`: the boot memory map.
- `Vmcall`: the hypercall dispatcher and the disk-image counter.

## Behaviour kept as written

The model follows the code. In these places the code does something other than what its
comments or the usual design describe:

- **`find_msr_in_region` compares only the first entry.** The entry pointer is never advanced.
  The search succeeds iff `area_sz > 0` and entry 0 has the index (`Msr.FindMsrInRegion`).
- **`handle_rdmsr` returns `val << 32` in rdx.** That is the low half moved up, not the high
  half moved down. A write followed by a read loses the written rdx (`Msr.ReadAfterWrite`,
  `Msr.ReadAfterWriteLosesRdx`).
- **`handle_wrmsr` does not mask rax.** The high half of rax is OR-ed into the stored value's
  high half (`Msr.WrmsrValue`).
- **Enabling long mode changes nothing.** The code writes the entry controls back unchanged.
  The model records the write in a ghost log of VMCS writes, so `Msr.HandleWrmsr` shows that it
  happens and that it stores the old value.
- **`handle_cpuid` hides ECX bit 5 for every nonzero leaf,** not only for the feature leaf 1.
  Leaf 0 passes through unchanged (`Cpuid.FilterCpuid`).
- **Delivering an interrupt does not disarm the window.** When RFLAGS.IF is set,
  `handle_interrupts` injects the vector but leaves the interrupt-window-exiting bit as it was.
  Only `handle_interrupt_window` clears it.
- **Failed hypercalls report "handled".** The IPCSEND failures and the MBMAP mapping failure
  return `E_INVAL`, `-E_INVAL` or a negative status from a `bool` function. The dispatcher reads
  all of these as true. rip is not advanced, and no error reaches the guest's registers.
- **IPCRECV never reports "handled".** It advances rip once, before the receive, and the handler
  returns false.
- **The third memory-map entry can wrap.** Its length is `phys_sz - 1 MiB` in 64-bit unsigned
  arithmetic, so it wraps for a guest below 1 MiB (`Multiboot.MemoryMapWrapsBelowOneMiB`). The
  three lengths add up to `phys_sz`, not to `phys_sz` plus the hole.
- **Small guests still get conventional memory.** Every address below 640 KiB is
  demand-paged, and the VGA page is passed through, whatever `phys_sz` is. For a guest smaller
  than 640 KiB the addresses from `phys_sz` up to 640 KiB are paged in, so not every address at
  or above the configured size is refused (`EptFault.LowMemoryPagedForSmallGuest`).
- **The IPCSEND destination is an index, not an environment id.** It is the index `i` into
  `envs`. The destination type is the low 32 bits of rbx.

## Model

| member | source | states |
|---|---|---|
| `Machine.RoundDown` | vmm/vmexits.c:153 | the result is page aligned and is the start of the page holding the address |
| `Machine.RoundDownInPage` | vmm/vmexits.c:161-162 | every address of an aligned page rounds down to that page |
| `Machine.Advanced` | vmm/vmexits.c:100 | rip + length, unchanged below 2^64 and wrapped above |
| `Machine.IntToU64` | vmm/vmexits.c:423 | an `int` stored in a 64-bit register keeps a non-negative value and maps a negative one to 2^64 + n |
| `Machine.Low32` | vmm/vmexits.c:98 | `(uint32_t)x` is the 32-bit value that differs from `x` by a multiple of 2^32 |
| `Machine.High32` | vmm/vmexits.c:346 | `x >> 32` counts the whole 2^32 blocks in `x` |
| `Machine.Join32` | vmm/vmexits.c:120 | the word built from two halves has exactly those halves |
| `Machine.Truth` | vmm/vmexits.c:363 | a `bool` function's `int` result reads as true when it is negative, and as false only when it is zero |
| `Machine.Bit` | vmm/vmexits.c:121 | `BIT(x, n)` is 0 or 1 |
| `Machine.BitsDetermineWord` | vmm/vmexits.c:51 | two words with the same bit `n` and the same other bits are equal |
| `Machine.BitMeaning` | vmm/vmexits.c:65 | bit `n` is set iff the residue modulo 2^(n+1) is at least 2^n, the C test `x & (1 << n)` |
| `Machine.SetBit` | vmm/vmexits.c:72 | `x` OR `1 << n` has bit `n` set, keeps every other bit, and is not smaller |
| `Machine.ClearBit` | vmm/vmexits.c:252 | `x & ~(1 << n)` has bit `n` clear, keeps every other bit, and is not larger |
| `Machine.SetBitInWidth` | vmm/vmexits.c:72 | setting a bit below the width keeps a 32-bit control word in 32 bits |
| `Machine.BitInLowPart` | vmm/vmexits.c:121 | truncating a word to `w` bits keeps its bits below `w` |
| `Machine.Or` | vmm/vmexits.c:120 | `a` OR `b` is at least each operand |
| `Machine.OrBits` | vmm/vmexits.c:120 | bit `n` of `a` OR `b` is set iff it is set in `a` or in `b` |
| `Machine.OrInWidth` | vmm/vmexits.c:120 | the OR of two `n`-bit words is an `n`-bit word |
| `Machine.Vmcs.Read32` | vmm/vmexits.c:48 | `vmcs_read32` of a control returns that control's current field |
| `Machine.Vmcs.Write32` | vmm/vmexits.c:53-56 | `vmcs_write32` sets exactly the named control field and logs the write; a following read of that control returns the value, and the other controls read as before |
| `Host.Ept.Gpa2Hva` | vmm/vmexits.c:417 | an unmapped address gives NULL; a mapped one gives the host page plus the page offset |
| `Host.Ept.MapHva2Gpa` | vmm/vmexits.c:152-153 | on success the page holding the address maps the host address; on failure nothing changes; only aligned pages are mapped |
| `Host.Kernel.SysIpcTrySend` | vmm/vmexits.c:423 | the send is recorded with its destination, value, buffer and permission, and its status returned |
| `Host.Kernel.SysIpcRecv` | vmm/vmexits.c:434-435 | the receive is recorded and leaves the delivered value in `curenv->env_ipc_value` |
| `Host.Kernel.LapicEoiCall` | vmm/vmexits.c:439 | the EOI is recorded |
| `Host.Kernel.CreateShell` | vmm/vmexits.c:445 | the shell creation is recorded |
| `Msr.FindMsrInRegion` | vmm/vmexits.c:28-41 | found iff `area_sz > 0` and entry 0 has the index; a found entry has the index; nothing found leaves the out-pointer as it was |
| `Msr.RdmsrResult` | vmm/vmexits.c:97-98 | rax holds the value's low half with a zero high half; rdx has a zero low half and the value's low half as its high half |
| `Msr.Or32` | vmm/vmexits.c:120 | a bit of the 32-bit OR is set iff it is set in either operand |
| `Msr.Or32Zero` | vmm/vmexits.c:120 | OR with zero is the identity |
| `Msr.WrmsrValue` | vmm/vmexits.c:120 | the stored value's low half is rax's; its high half is rdx's low half OR rax's high half |
| `Msr.WrmsrJoinsHalves` | vmm/vmexits.c:120 | when rax's high half is zero the stored value is edx:eax |
| `Msr.EnablesLongMode` | vmm/vmexits.c:121 | a 0→1 change of EFER.LME changes the value, and the new value has that bit set |
| `Msr.LongModeTestReadsEax` | vmm/vmexits.c:120-121 | the long-mode test gives the same answer for the stored value as for eax alone: rdx and the high half of rax cannot enable long mode |
| `Msr.RdmsrIgnoresHighHalf` | vmm/vmexits.c:95-98 | values with the same low half read back identically |
| `Msr.ReadAfterWrite` | vmm/vmexits.c:85-136 | reading back a written value returns rax's low half in rax and in rdx's high half, whatever rdx was |
| `Msr.ReadAfterWriteLosesRdx` | vmm/vmexits.c:85-136 | writing edx:eax = 1:0 stores 2^32 and reads back rdx = 0 |
| `Msr.HandleRdmsr` | vmm/vmexits.c:85-105 | non-EFER: false, trapframe untouched; EFER absent: panic; otherwise true, rdx:rax as `RdmsrResult`, rip advanced once, other registers kept |
| `Msr.HandleWrmsr` | vmm/vmexits.c:107-136 | non-EFER: false, nothing changes; EFER absent: panic; otherwise true, entry 0 takes the new value, rip advanced, registers and controls kept, and on a 0→1 LME transition one write-back of the unchanged entry controls |
| `Interrupts.InterruptsEnabled` | vmm/vmexits.c:65 | `rflags & (0x1 << 9)` is nonzero iff the low ten bits of RFLAGS are at least 0x200 |
| `Interrupts.ArmWindow` | vmm/vmexits.c:72 | the window bit is set and every other bit is kept |
| `Interrupts.DisarmWindow` | vmm/vmexits.c:51 | the window bit is clear and every other bit is kept |
| `Interrupts.ArmThenDisarm` | vmm/vmexits.c:43-83 | arming then disarming equals disarming; it restores controls whose window bit was clear |
| `Interrupts.ArmIdempotent` | vmm/vmexits.c:69-75 | arming twice equals arming once |
| `Interrupts.HandleInterruptWindow` | vmm/vmexits.c:43-58 | true; controls disarmed; the vector injected; exactly these two writes |
| `Interrupts.HandleInterrupts` | vmm/vmexits.c:59-83 | true; IF clear: window armed, injection field kept; IF set: vector injected, controls kept; no other write |
| `EptFault.ClassifyFault` | vmm/vmexits.c:142-167 | demand paging iff in guest RAM; pass-through iff in the VGA page; rejected otherwise |
| `EptFault.HoleAndBeyondRejected` | vmm/vmexits.c:158-167 | the hole outside the VGA page, and addresses at or above both `phys_sz` and 1 MiB, are rejected |
| `EptFault.LowMemoryPagedForSmallGuest` | vmm/vmexits.c:142 | an address below 640 KiB is demand-paged even when it is at or above `phys_sz` |
| `EptFault.DemandPagingCoversWholePages` | vmm/vmexits.c:142-153 | with an aligned memory size, every address of a demand-paged page is demand-paged |
| `EptFault.HandleEptViolation` | vmm/vmexits.c:138-168 | per class: the page's reference count +1 (mod 2^16) and its mapping at the fault's page, false on no page, panic on map failure; the frame buffer mapped at `CGA_BUF`; rejection changes nothing; a true result leaves the fault's page mapped |
| `IoPort.DecodeQualification` | vmm/vmexits.c:175-176 | the port is the upper half of the qualification's low 32 bits; the access is an IN iff the low four bits are at least 8 |
| `IoPort.DecodeEncode` | vmm/vmexits.c:174-176 | decoding an encoded qualification gives back port and direction |
| `IoPort.DecodeReadsPortAndDirectionOnly` | vmm/vmexits.c:175-176 | decoding depends only on bits 31:16 and bit 3 |
| `IoPort.ToInt32` | vmm/vmexits.c:184 | the latched `int` agrees with rax's low 32 bits |
| `IoPort.ExtendedKiB` | vmm/vmexits.c:204 | at 1 MiB or more, the number of whole KiB above 1 MiB; below 1 MiB, negative |
| `IoPort.RtcData` | vmm/vmexits.c:192-211 | an answer exists iff the latch is one of the four NVRAM indices; every answer is a byte |
| `IoPort.BaseMemoryBytes` | vmm/vmexits.c:194-199 | the two base-memory bytes make 640 |
| `IoPort.ExtendedMemoryBytes` | vmm/vmexits.c:204-209 | the two extended bytes make `phys_sz/1024 - 1024` mod 2^16, exactly so for 1–65 MiB guests |
| `IoPort.HandleIoinstr` | vmm/vmexits.c:170-224 | handled iff an OUT to the index port or an IN from the data port with a known latch; an OUT latches rax's low 32 bits; an IN sets rax to the answer; handled advances rip; unhandled leaves trapframe and latch alone |
| `Cpuid.HideVmx` | vmm/vmexits.c:252 | bit 5 is clear and every other bit is kept |
| `Cpuid.FilterCpuid` | vmm/vmexits.c:250-253 | eax, ebx, edx pass through; for a nonzero leaf ecx loses bit 5 and keeps the others; leaf 0 passes through |
| `Cpuid.FilterIdempotent` | vmm/vmexits.c:250-253 | filtering a filtered answer changes nothing |
| `Cpuid.FilterChangesOnlyVmxBit` | vmm/vmexits.c:250-253 | a host answer without bit 5 reaches the guest unchanged |
| `Cpuid.HandleCpuid` | vmm/vmexits.c:236-264 | true; the four registers are the filtered answer for leaf `(uint32_t)rax`; rip advanced |
| `Multiboot.HighMemLength` | vmm/vmexits.c:343 | `phys_sz - 1 MiB` exactly at or above 1 MiB and wrapped by 2^64 below it |
| `Multiboot.BootImageFor` | vmm/vmexits.c:305-346 | the header has only the mmap flag, a length of three entries and the address just after it; the three entries have size 24 and types usable, reserved, usable |
| `Multiboot.MemoryMapEntries` | vmm/vmexits.c:325-346 | the entries start at 0, 640 KiB and 1 MiB; they span 640 KiB, 384 KiB and `phys_sz - 1 MiB` (mod 2^64) |
| `Multiboot.MemoryMapContiguous` | vmm/vmexits.c:325-346 | each entry starts where the previous one ends |
| `Multiboot.MemoryMapCoversGuest` | vmm/vmexits.c:338-346 | at 1 MiB or more the map ends at `phys_sz`; the lengths sum to `phys_sz`; usable memory is `phys_sz` less 384 KiB |
| `Multiboot.MemoryMapWrapsBelowOneMiB` | vmm/vmexits.c:343-346 | below 1 MiB the last entry is longer than the guest and ends at 2^64 + `phys_sz` |
| `Multiboot.PageContents.WriteBootImage` | vmm/vmexits.c:368-374 | the page at the host address now holds the boot information |
| `Vmcall.DiskCounter.Get` | vmm/vmexits.c:19-22 | returns the counter without changing it |
| `Vmcall.DiskCounter.Incr` | vmm/vmexits.c:24-27 | raises the counter by exactly one |
| `Vmcall.FirstFsFrom` | vmm/vmexits.c:400-407 | -1 iff no later environment is the FS server; otherwise the lowest such index |
| `Vmcall.FindFsEnv` | vmm/vmexits.c:399-407 | the scan yields the lowest FS index, or -1 |
| `Vmcall.HandleVmcall` | vmm/vmexits.c:276-464 | for each call number, the result, the registers, the EPT, the page contents, the service calls and the reference count, including the early error returns; after a successful MBMAP the boot information is at the address in rbx; an unknown number returns false and changes nothing |

## Left out

- Logging: `cprintf` and `cprint` have no effect in the model.
- VMCS accesses: `vmcs_read*` and `vmcs_write*` are reads and writes of fields of a `Vmcs` object.
  The hardware encoding of those fields is not modelled.
- EPT access rights: the `__EPTE_FULL` permissions and the page-table walk of
  `ept_map_hva2gpa` and `ept_gpa2hva` are not modelled. The EPT is a map from page address to
  host address, and the bridge's status is a parameter.
- Host services: the internals of `page_alloc`, `page2kva`, `sys_ipc_try_send`, `sys_ipc_recv`,
  `lapic_eoi` and `ENV_CREATE` are not part of this model. They are parameters or recorded calls.
  `sys_ipc_recv` is modelled as returning to the handler, although the kernel may switch to
  another environment inside it.
- Memory layout: the byte layout of the `memcpy`s into guest memory is not modelled. The header
  and the entries are records stored under the host address. `multiboot_info_t` fields other
  than `flags`, `mmap_length` and `mmap_addr` are zero and not represented.
- `cpuid` is a function of the leaf in eax. The subleaf in ecx is not an input.
- Concurrency: the process-wide `vmdisk_number` and the static `port_iortc` are single
  sequential objects. Concurrent guests are not modelled.
- `Vmcall.HandleVmcall`: requires a page when MBMAP finds nothing mapped at 0x6000, because the
  code dereferences the result of `page_alloc` without checking it for NULL.
- `Vmcall.DiskCounter.Incr`: requires the counter to be below the largest `int`, because a C
  signed overflow is undefined.
- `Msr.FindMsrInRegion`: a pointer to an entry is an index into the area, and `prior` stands
  for the caller's `*msr_entry`. The `uint64_t` index is passed as its low 32 bits, as the C
  parameter type truncates it.
- `Interrupts.HandleInterrupts` and `Interrupts.HandleInterruptWindow`: they do not take the
  trapframe or the guest information, which the code receives but does not use.
  `Cpuid.HandleCpuid` likewise omits the guest information.
- Panics: a failed `assert` is the outcome `Panics`. The state it reports is the state at the
  failed assert. Nothing after it is modelled.
- Width of `phys_sz`: its declaration is not part of this model, so it is taken as an unsigned
  64-bit value.
- The storing of rax into the `int` latch is taken as the usual two's-complement truncation.
- `Host.Ept.Gpa2Hva`: the body of `ept_gpa2hva` is not part of this model. The model assumes it
  returns the host page plus the offset within the page. That matters only for an IPCSEND buffer
  that is not page aligned.
