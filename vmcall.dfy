/** `handle_vmcall`: the hypercall interface. The guest puts a call number in rax:
 *  MBMAP hands out the boot memory map, IPCSEND and IPCRECV forward IPC to the host
 *  kernel (sends go only to the host file-system server), LAPICEOI acknowledges an
 *  interrupt, BACKTOHOST parks the guest and starts a host shell, and GETDISKIMGNUM
 *  reports the guest's disk-image number. A handled call advances rip once. */
module Vmcall {
  import opened Headers
  import opened Machine
  import opened Host
  import opened Multiboot

  /** The disk-image number of this monitor (`static int vmdisk_number`), zero at start. */
  class DiskCounter {
    var value: Int32

    constructor ()
      ensures value == 0
    {
      value := 0;
    }

    /** `vmx_get_vmdisk_number()`. */
    method Get() returns (n: Int32)
      ensures n == value
    {
      return value;
    }

    /** `vmx_incr_vmdisk_number()`. The C increment is undefined on overflow, so the
     *  counter must be below the largest `int`. */
    method Incr()
      requires value < 0x7FFF_FFFF
      modifies this
      ensures value == old(value) + 1
    {
      value := value + 1;
    }
  }

  /** The lowest index from `i` on whose environment is the file-system server, or -1. */
  function FirstFsFrom(envs: seq<Env>, i: nat): (r: int)
    reads envs
    requires i <= |envs|
    decreases |envs| - i
    ensures r == -1 || i <= r < |envs|
    ensures r == -1 <==> forall j :: i <= j < |envs| ==> envs[j].envType != ENV_TYPE_FS
    ensures r != -1 ==> envs[r].envType == ENV_TYPE_FS
    ensures r != -1 ==> forall j :: i <= j < r ==> envs[j].envType != ENV_TYPE_FS
  {
    if i == |envs| then -1
    else if envs[i].envType == ENV_TYPE_FS then i
    else FirstFsFrom(envs, i + 1)
  }

  /** The scan of `envs[0 .. NENV)` for the file-system server in the IPCSEND case:
   *  `dstenv` is the index of the first match, or -1. */
  method FindFsEnv(k: Kernel) returns (dstenv: int)
    requires k.Valid()
    ensures dstenv == FirstFsFrom(k.envs, 0)
  {
    dstenv := -1;
    var i := 0;
    while i < NENV
      invariant 0 <= i <= NENV
      invariant dstenv == -1
      invariant FirstFsFrom(k.envs, 0) == FirstFsFrom(k.envs, i)
    {
      if k.envs[i].envType == ENV_TYPE_FS {
        dstenv := i;
        break;
      }
      i := i + 1;
    }
  }

  /** `handle_vmcall(tf, gInfo, eptrt)`. The host services answer through parameters:
   *  `page` is what `page_alloc(0)` returns, `mapStatus` what `ept_map_hva2gpa`
   *  returns, `sendStatus` and `recvStatus` what `sys_ipc_try_send` and
   *  `sys_ipc_recv` return, and `recvValue` the value the receive leaves in
   *  `curenv->env_ipc_value`. The code does not check `page_alloc` for NULL in the
   *  MBMAP case, so the caller must supply a page there. Error codes returned from
   *  this `bool` function read as true. */
  method HandleVmcall(tf: Trapframe, gInfo: GuestInfo, ept: Ept, vmcs: Vmcs, k: Kernel,
                      mem: PageContents, disk: DiskCounter, page: PageInfo?, mapStatus: Int32,
                      sendStatus: Int32, recvStatus: Int32, recvValue: U32)
    returns (handled: bool)
    requires ept.Valid() && k.Valid()
    requires tf.rax == VMX_VMCALL_MBMAP && ept.Gpa2Hva(MBMAP_GPA) == 0 ==> page != null
    modifies tf, ept, mem, k, k.curenv, PageFrame(page)
    ensures ept.Valid()
    ensures tf.rcx == old(tf.rcx) && tf.rdx == old(tf.rdx)
    ensures k.curenv.envType == old(k.curenv.envType)
    ensures old(tf.rax) != VMX_VMCALL_MBMAP ==>
              ept.pages == old(ept.pages) && mem.images == old(mem.images)
              && (page != null ==> page.ppRef == old(page.ppRef))
    // MBMAP: the boot information is copied to the page at 0x6000, which is allocated
    // and mapped first when nothing is mapped there yet.
    ensures old(tf.rax) == VMX_VMCALL_MBMAP ==>
              var hva := old(ept.Gpa2Hva(MBMAP_GPA));
              var image := BootImageFor(gInfo.physSz);
              && handled
              && k.calls == old(k.calls) && unchanged(k.curenv)
              && tf.rax == old(tf.rax) && tf.rsi == old(tf.rsi)
              && (hva != 0 ==>
                    && tf.rbx == MBMAP_GPA && tf.rip == Advanced(old(tf.rip), vmcs.exitInstrLength)
                    && ept.pages == old(ept.pages) && mem.images == old(mem.images)[hva := image]
                    && (page != null ==> page.ppRef == old(page.ppRef)))
              && (hva == 0 ==>
                    && page.ppRef == (old(page.ppRef) + 1) % TWO_16
                    && (mapStatus < 0 ==>
                          && tf.rbx == old(tf.rbx) && tf.rip == old(tf.rip)
                          && ept.pages == old(ept.pages) && mem.images == old(mem.images))
                    && (mapStatus >= 0 ==>
                          && tf.rbx == MBMAP_GPA && tf.rip == Advanced(old(tf.rip), vmcs.exitInstrLength)
                          && ept.pages == old(ept.pages)[MBMAP_GPA := page.kva]
                          && mem.images == old(mem.images)[page.kva := image]))
    // After a successful MBMAP the guest finds the boot information at rbx.
    ensures old(tf.rax) == VMX_VMCALL_MBMAP && (old(ept.Gpa2Hva(MBMAP_GPA)) != 0 || mapStatus >= 0) ==>
              ept.Gpa2Hva(tf.rbx) in mem.images
              && mem.images[ept.Gpa2Hva(tf.rbx)] == BootImageFor(gInfo.physSz)
    // IPCSEND: the destination must be the file-system server type, an environment of
    // that type must exist, and the buffer must be mapped; then the send goes to the
    // lowest such index.
    ensures old(tf.rax) == VMX_VMCALL_IPCSEND ==>
              var dstenv := old(FirstFsFrom(k.envs, 0));
              var hva := old(ept.Gpa2Hva(tf.rdx));
              && handled && unchanged(k.curenv)
              && (Low32(old(tf.rbx)) != ENV_TYPE_FS || dstenv == -1 || hva == 0 ==>
                    handled == Truth(E_INVAL) && unchanged(tf) && k.calls == old(k.calls))
              && (Low32(old(tf.rbx)) == ENV_TYPE_FS && dstenv != -1 && hva != 0 ==>
                    && k.calls == old(k.calls) + [IpcTrySend(dstenv, Low32(old(tf.rcx)), hva,
                                                             Low32(old(tf.rsi)))]
                    && tf.rax == IntToU64(sendStatus)
                    && tf.rip == Advanced(old(tf.rip), vmcs.exitInstrLength)
                    && tf.rbx == old(tf.rbx) && tf.rsi == old(tf.rsi))
    // IPCRECV: rip is advanced before the receive, and the case never reports handled.
    ensures old(tf.rax) == VMX_VMCALL_IPCRECV ==>
              && !handled
              && tf.rip == Advanced(old(tf.rip), vmcs.exitInstrLength)
              && tf.rax == IntToU64(recvStatus) && tf.rsi == recvValue && tf.rbx == old(tf.rbx)
              && k.calls == old(k.calls) + [IpcRecv(old(tf.rbx))]
              && k.curenv.envIpcValue == recvValue && k.curenv.envStatus == old(k.curenv.envStatus)
    ensures old(tf.rax) == VMX_VMCALL_LAPICEOI ==>
              && handled && k.calls == old(k.calls) + [LapicEoi] && unchanged(k.curenv)
              && tf.rip == Advanced(old(tf.rip), vmcs.exitInstrLength)
              && tf.rax == old(tf.rax) && tf.rbx == old(tf.rbx) && tf.rsi == old(tf.rsi)
    ensures old(tf.rax) == VMX_VMCALL_BACKTOHOST ==>
              && handled && k.calls == old(k.calls) + [CreateUserShell]
              && k.curenv.envStatus == ENV_NOT_RUNNABLE
              && k.curenv.envIpcValue == old(k.curenv.envIpcValue)
              && tf.rip == Advanced(old(tf.rip), vmcs.exitInstrLength)
              && tf.rax == old(tf.rax) && tf.rbx == old(tf.rbx) && tf.rsi == old(tf.rsi)
    ensures old(tf.rax) == VMX_VMCALL_GETDISKIMGNUM ==>
              && handled && k.calls == old(k.calls) && unchanged(k.curenv)
              && tf.rax == IntToU64(disk.value)
              && tf.rip == Advanced(old(tf.rip), vmcs.exitInstrLength)
              && tf.rbx == old(tf.rbx) && tf.rsi == old(tf.rsi)
    ensures old(tf.rax) !in {VMX_VMCALL_MBMAP, VMX_VMCALL_IPCSEND, VMX_VMCALL_IPCRECV,
                             VMX_VMCALL_LAPICEOI, VMX_VMCALL_BACKTOHOST, VMX_VMCALL_GETDISKIMGNUM} ==>
              !handled && unchanged(tf) && k.calls == old(k.calls) && unchanged(k.curenv)
  {
    handled := false;
    var call := tf.rax;
    if call == VMX_VMCALL_MBMAP {
      var image := BootImageFor(gInfo.physSz);
      var hva := ept.Gpa2Hva(MBMAP_GPA);
      if hva == 0 {
        var p := page;
        p.ppRef := (p.ppRef + 1) % TWO_16;
        hva := p.kva;
        var r := ept.MapHva2Gpa(hva, MBMAP_GPA, mapStatus);
        if r < 0 {
          return Truth(r);
        }
      }
      mem.WriteBootImage(hva, image);
      tf.rbx := MBMAP_GPA;
      handled := true;
    } else if call == VMX_VMCALL_IPCSEND {
      var dstenvType := Low32(tf.rbx);
      if dstenvType != ENV_TYPE_FS {
        return Truth(E_INVAL);
      }
      var dstenv := FindFsEnv(k);
      if dstenv == -1 {
        return Truth(E_INVAL);
      }
      var value := Low32(tf.rcx);
      var pa := tf.rdx;
      var perm := Low32(tf.rsi);
      var hva := ept.Gpa2Hva(pa);
      if hva == 0 {
        return Truth(-E_INVAL);
      }
      var r := k.SysIpcTrySend(dstenv, value, hva, perm, sendStatus);
      tf.rax := IntToU64(r);
      handled := true;
    } else if call == VMX_VMCALL_IPCRECV {
      tf.rip := Advanced(tf.rip, vmcs.exitInstrLength);
      var r := k.SysIpcRecv(tf.rbx, recvStatus, recvValue);
      tf.rax := IntToU64(r);
      tf.rsi := k.curenv.envIpcValue;
    } else if call == VMX_VMCALL_LAPICEOI {
      k.LapicEoiCall();
      handled := true;
    } else if call == VMX_VMCALL_BACKTOHOST {
      k.curenv.envStatus := ENV_NOT_RUNNABLE;
      k.CreateShell();
      handled := true;
    } else if call == VMX_VMCALL_GETDISKIMGNUM {
      tf.rax := IntToU64(disk.value);
      handled := true;
    }
    if handled {
      tf.rip := Advanced(tf.rip, vmcs.exitInstrLength);
    }
  }
}
