/** `handle_eptviolation`: a guest access to a guest-physical address that the EPT
 *  does not map. Conventional memory below 640 KiB and configured memory above 1 MiB
 *  are backed on demand by a fresh host page; the page holding the colour text
 *  buffer is passed through to the host's own frame buffer; every other address is
 *  refused and the guest is stopped. */
module EptFault {
  import opened Headers
  import opened Machine
  import opened Host

  /** How the handler treats a faulting guest-physical address. */
  datatype FaultPolicy = DemandPage | VgaPassThrough | Reject

  /** The address lies in guest RAM: below 640 KiB, or from 1 MiB up to the configured
   *  guest memory size. */
  predicate InGuestRam(gpa: U64, physSz: U64) {
    gpa < LOW_MEM_END || (HIGH_MEM_START <= gpa < physSz)
  }

  /** The address lies in the page of the colour text-mode buffer. */
  predicate InVgaPage(gpa: U64) {
    CGA_BUF <= gpa < CGA_BUF + PGSIZE
  }

  /** The branch `handle_eptviolation` takes for `gpa`. The frame buffer page lies in
   *  the legacy hole, so it is passed through whatever the guest memory size. */
  function ClassifyFault(gpa: U64, physSz: U64): (p: FaultPolicy)
    ensures p == DemandPage <==> InGuestRam(gpa, physSz)
    ensures p == VgaPassThrough <==> InVgaPage(gpa)
    ensures p == Reject <==> !InGuestRam(gpa, physSz) && !InVgaPage(gpa)
  {
    if gpa < LOW_MEM_END || (gpa >= HIGH_MEM_START && gpa < physSz) then DemandPage
    else if gpa >= CGA_BUF && gpa < CGA_BUF + PGSIZE then VgaPassThrough
    else Reject
  }

  /** Addresses of the legacy hole other than the frame buffer page are refused, and so
   *  is every address at or above both the configured memory size and 1 MiB. */
  lemma HoleAndBeyondRejected(gpa: U64, physSz: U64)
    requires (LOW_MEM_END <= gpa < HIGH_MEM_START && !InVgaPage(gpa))
          || (gpa >= physSz && gpa >= HIGH_MEM_START)
    ensures ClassifyFault(gpa, physSz) == Reject
  {
  }

  /** Conventional memory is paged in whatever the configured size: for a guest smaller
   *  than 640 KiB, addresses from its size up to 640 KiB are still demand-paged. */
  lemma LowMemoryPagedForSmallGuest(gpa: U64, physSz: U64)
    requires physSz <= gpa < LOW_MEM_END
    ensures ClassifyFault(gpa, physSz) == DemandPage
  {
  }

  /** Every page of guest RAM is backed by whole pages: if one address of a page is
   *  demand-paged, so is every address of the same page, provided the memory size is a
   *  multiple of the page size. */
  lemma DemandPagingCoversWholePages(gpa: U64, other: U64, physSz: U64)
    requires PageAligned(physSz)
    requires RoundDown(gpa) == RoundDown(other)
    requires ClassifyFault(gpa, physSz) == DemandPage
    ensures ClassifyFault(other, physSz) == DemandPage
  {
  }

  /** `handle_eptviolation(eptrt, ginfo)`. `page` is what `page_alloc(0)` returns and
   *  `mapStatus` what `ept_map_hva2gpa` returns; a failed `assert(r >= 0)` panics. */
  method HandleEptViolation(ept: Ept, gInfo: GuestInfo, vmcs: Vmcs, page: PageInfo?,
                            mapStatus: Int32) returns (c: Completion)
    requires ept.Valid()
    modifies ept, PageFrame(page)
    ensures ept.Valid()
    ensures var gpa := vmcs.guestPhysAddr;
            match ClassifyFault(gpa, gInfo.physSz)
            case DemandPage =>
              if page == null then
                c == Returns(false) && ept.pages == old(ept.pages)
              else
                && page.ppRef == (old(page.ppRef) + 1) % TWO_16
                && c == (if mapStatus >= 0 then Returns(true) else Panics)
                && ept.pages == if mapStatus >= 0 then old(ept.pages)[RoundDown(gpa) := page.kva]
                                else old(ept.pages)
            case VgaPassThrough =>
              && (page != null ==> page.ppRef == old(page.ppRef))
              && c == (if mapStatus >= 0 then Returns(true) else Panics)
              && ept.pages == if mapStatus >= 0 then old(ept.pages)[CGA_BUF := KERNBASE + CGA_BUF]
                              else old(ept.pages)
            case Reject =>
              && (page != null ==> page.ppRef == old(page.ppRef))
              && c == Returns(false) && ept.pages == old(ept.pages)
    ensures c == Returns(true) ==> RoundDown(vmcs.guestPhysAddr) in ept.pages
  {
    var gpa := vmcs.guestPhysAddr;
    if gpa < LOW_MEM_END || (gpa >= HIGH_MEM_START && gpa < gInfo.physSz) {
      var p := page;
      if p == null {
        return Returns(false);
      }
      p.ppRef := (p.ppRef + 1) % TWO_16;
      var r := ept.MapHva2Gpa(p.kva, RoundDown(gpa), mapStatus);
      if r < 0 {
        return Panics;
      }
      return Returns(true);
    } else if gpa >= CGA_BUF && gpa < CGA_BUF + PGSIZE {
      var r := ept.MapHva2Gpa(KERNBASE + CGA_BUF, CGA_BUF, mapStatus);
      if r < 0 {
        return Panics;
      }
      RoundDownInPage(CGA_BUF, gpa);
      return Returns(true);
    }
    return Returns(false);
  }
}
