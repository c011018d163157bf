/** The host-side collaborators the exit handlers call but do not implement: the
 *  physical-page allocator's `struct PageInfo`, the second-level (EPT) translation
 *  bridge, and the kernel's environment table and services. Their internals are not
 *  part of this model: each service's answer is a parameter (an oracle), and the
 *  services that have effects outside the model record a call in a log. */
module Host {
  import opened Headers
  import opened Machine

  /** A physical page as the allocator hands it out (`struct PageInfo`): its kernel
   *  virtual address (`page2kva`) and its 16-bit reference count `pp_ref`. */
  class PageInfo {
    const kva: U64
    var ppRef: U16

    constructor (kva: U64)
      ensures this.kva == kva && ppRef == 0
    {
      this.kva := kva;
      ppRef := 0;
    }
  }

  /** The frame a handler may touch through `page`. */
  function PageFrame(page: PageInfo?): set<object> {
    if page == null then {} else {page}
  }

  /** The guest's second-level address space, seen as a map from guest page address to
   *  the host kernel virtual address mapped there. Access rights are not modelled. */
  class Ept {
    var pages: map<U64, U64>

    /** Only page starts are mapped. */
    ghost predicate Valid()
      reads this
    {
      forall g :: g in pages ==> PageAligned(g)
    }

    constructor ()
      ensures Valid() && pages == map[]
    {
      pages := map[];
    }

    /** `ept_gpa2hva`: the host address of `gpa`, the mapped host page plus the offset of
     *  `gpa` in its page, or NULL (0) when nothing is mapped there. */
    function Gpa2Hva(gpa: U64): (hva: U64)
      reads this
      ensures RoundDown(gpa) !in pages ==> hva == 0
      ensures RoundDown(gpa) in pages && pages[RoundDown(gpa)] + gpa % PGSIZE < TWO_64 ==>
                hva == pages[RoundDown(gpa)] + (gpa - RoundDown(gpa))
    {
      if RoundDown(gpa) in pages then (pages[RoundDown(gpa)] + gpa % PGSIZE) % TWO_64 else 0
    }

    /** `ept_map_hva2gpa(eptrt, hva, gpa, __EPTE_FULL, 0)`: `status` is the bridge's
     *  answer; a non-negative status means the page holding `gpa` now maps `hva`. */
    method MapHva2Gpa(hva: U64, gpa: U64, status: Int32) returns (r: Int32)
      requires Valid()
      modifies this
      ensures Valid()
      ensures r == status
      ensures pages == if status >= 0 then old(pages)[RoundDown(gpa) := hva] else old(pages)
    {
      r := status;
      if status >= 0 {
        pages := pages[RoundDown(gpa) := hva];
      }
    }
  }

  /** The fields of a `struct Env` the handlers read or write. */
  class Env {
    var envType: U32
    var envStatus: U32
    var envIpcValue: U32

    constructor (envType: U32, envStatus: U32, envIpcValue: U32)
      ensures this.envType == envType && this.envStatus == envStatus
      ensures this.envIpcValue == envIpcValue
    {
      this.envType, this.envStatus, this.envIpcValue := envType, envStatus, envIpcValue;
    }
  }

  /** A call into a kernel service whose effect lies outside this model. */
  datatype HostCall =
    | IpcTrySend(dst: int, value: U32, srcva: U64, perm: U32)
    | IpcRecv(dstva: U64)
    | LapicEoi
    | CreateUserShell

  /** The kernel as the hypercall handler sees it: the environment table `envs`, the
   *  running environment `curenv`, and the log of service calls made so far. */
  class Kernel {
    const envs: seq<Env>
    const curenv: Env
    var calls: seq<HostCall>

    ghost predicate Valid()
      reads this
    {
      |envs| == NENV
    }

    constructor (envs: seq<Env>, curenv: Env)
      requires |envs| == NENV
      ensures Valid() && this.envs == envs && this.curenv == curenv && calls == []
    {
      this.envs, this.curenv := envs, curenv;
      calls := [];
    }

    /** `sys_ipc_try_send(dst, value, srcva, perm)`, answering `status`. */
    method SysIpcTrySend(dst: int, value: U32, srcva: U64, perm: U32, status: Int32)
      returns (r: Int32)
      modifies this
      ensures r == status
      ensures calls == old(calls) + [IpcTrySend(dst, value, srcva, perm)]
    {
      r := status;
      calls := calls + [IpcTrySend(dst, value, srcva, perm)];
    }

    /** `sys_ipc_recv(dstva)`, answering `status`; the message it delivers leaves
     *  `value` in `curenv->env_ipc_value`. */
    method SysIpcRecv(dstva: U64, status: Int32, value: U32) returns (r: Int32)
      modifies this, curenv
      ensures r == status
      ensures calls == old(calls) + [IpcRecv(dstva)]
      ensures curenv.envIpcValue == value
      ensures curenv.envType == old(curenv.envType) && curenv.envStatus == old(curenv.envStatus)
    {
      r := status;
      calls := calls + [IpcRecv(dstva)];
      curenv.envIpcValue := value;
    }

    /** `lapic_eoi()`. */
    method LapicEoiCall()
      modifies this
      ensures calls == old(calls) + [LapicEoi]
    {
      calls := calls + [LapicEoi];
    }

    /** `ENV_CREATE(user_sh, ENV_TYPE_USER)`: a new host shell. */
    method CreateShell()
      modifies this
      ensures calls == old(calls) + [CreateUserShell]
    {
      calls := calls + [CreateUserShell];
    }
  }
}
