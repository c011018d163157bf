/** The boot information the MBMAP hypercall hands to the guest: a Multiboot
 *  information header announcing a memory map (Multiboot Specification 0.6.96,
 *  section 3.3) followed by three memory-map entries: 640 KiB of conventional memory,
 *  the 384 KiB legacy I/O hole, and everything from 1 MiB up to the guest's memory
 *  size. The byte layout of the copy into guest memory is not modelled; the header
 *  and the entries are records. */
module Multiboot {
  import opened Headers
  import opened Machine

  /** Guest-physical address at which the boot information is placed. */
  const MBMAP_GPA: int := 0x6000

  /** The fields of `multiboot_info_t` the hypercall sets; the other fields are zero. */
  datatype MultibootInfo = MultibootInfo(flags: U32, mmapLength: U32, mmapAddr: U32)

  /** A `memory_map_t` entry: 64-bit base and length split into 32-bit halves. */
  datatype MemoryMap = MemoryMap(size: U32, baseAddrLow: U32, baseAddrHigh: U32,
                                 lengthLow: U32, lengthHigh: U32, typ: U32)

  /** The header followed by its memory-map entries, as copied to guest memory. */
  datatype BootImage = BootImage(info: MultibootInfo, mmap: seq<MemoryMap>)

  function Base(e: MemoryMap): U64 {
    Join32(e.baseAddrHigh, e.baseAddrLow)
  }

  function Length(e: MemoryMap): U64 {
    Join32(e.lengthHigh, e.lengthLow)
  }

  /** `gInfo->phys_sz - (1024 * 1024)` in `uint64_t`: it wraps when the guest has less
   *  than 1 MiB. */
  function HighMemLength(physSz: U64): (n: U64)
    ensures physSz >= HIGH_MEM_START ==> n == physSz - HIGH_MEM_START
    ensures physSz < HIGH_MEM_START ==> n == TWO_64 + physSz - HIGH_MEM_START
  {
    (physSz - HIGH_MEM_START) % TWO_64
  }

  /** The boot information `handle_vmcall` builds for a guest of `physSz` bytes. */
  function BootImageFor(physSz: U64): (b: BootImage)
    ensures b.info.flags == MB_FLAG_MMAP
    ensures b.info.mmapLength == |b.mmap| * MEMORY_MAP_SIZE
    ensures b.info.mmapAddr == MBMAP_GPA + MULTIBOOT_INFO_SIZE
    ensures |b.mmap| == 3
    ensures forall i :: 0 <= i < |b.mmap| ==> b.mmap[i].size == MEMORY_MAP_SIZE
    ensures b.mmap[0].typ == MB_TYPE_USABLE && b.mmap[1].typ == MB_TYPE_RESERVED
    ensures b.mmap[2].typ == MB_TYPE_USABLE
  {
    var himapAddr := HighMemLength(physSz);
    var lomap := MemoryMap(MEMORY_MAP_SIZE, 0, 0, 640 * 1024, 0, MB_TYPE_USABLE);
    var iohole := MemoryMap(MEMORY_MAP_SIZE, 640 * 1024, 0, 1024 * 1024 - 640 * 1024, 0,
                            MB_TYPE_RESERVED);
    var himap := MemoryMap(MEMORY_MAP_SIZE, 1024 * 1024, 0, Low32(himapAddr), High32(himapAddr),
                           MB_TYPE_USABLE);
    BootImage(MultibootInfo(MB_FLAG_MMAP, 3 * MEMORY_MAP_SIZE, MBMAP_GPA + MULTIBOOT_INFO_SIZE),
              [lomap, iohole, himap])
  }

  /** The entries describe conventional memory at 0, the legacy hole at 640 KiB and high
   *  memory at 1 MiB, with the lengths of the first two fixed, and the length halves of
   *  the third recombining to the memory size less 1 MiB (modulo 2^64). */
  lemma MemoryMapEntries(physSz: U64)
    ensures var m := BootImageFor(physSz).mmap;
            && Base(m[0]) == 0 && Length(m[0]) == LOW_MEM_END
            && Base(m[1]) == LOW_MEM_END && Length(m[1]) == HIGH_MEM_START - LOW_MEM_END
            && Base(m[2]) == HIGH_MEM_START && Length(m[2]) == HighMemLength(physSz)
  {
  }

  /** Each entry starts where the previous one ends: the map has no gap and no overlap. */
  lemma MemoryMapContiguous(physSz: U64)
    ensures var m := BootImageFor(physSz).mmap;
            forall i :: 0 <= i < |m| - 1 ==> Base(m[i + 1]) == Base(m[i]) + Length(m[i])
  {
    MemoryMapEntries(physSz);
  }

  /** For a guest of at least 1 MiB the map ends exactly at the guest's memory size: the
   *  three lengths add up to that size, and the usable ones to that size less the hole. */
  lemma MemoryMapCoversGuest(physSz: U64)
    requires physSz >= HIGH_MEM_START
    ensures var m := BootImageFor(physSz).mmap;
            && Base(m[2]) + Length(m[2]) == physSz
            && Length(m[0]) + Length(m[1]) + Length(m[2]) == physSz
            && Length(m[0]) + Length(m[2]) == physSz - (HIGH_MEM_START - LOW_MEM_END)
  {
    MemoryMapEntries(physSz);
  }

  /** For a guest below 1 MiB the high-memory entry claims almost 2^64 bytes. */
  lemma MemoryMapWrapsBelowOneMiB(physSz: U64)
    requires physSz < HIGH_MEM_START
    ensures var m := BootImageFor(physSz).mmap;
            Length(m[2]) > physSz && Base(m[2]) + Length(m[2]) == TWO_64 + physSz
  {
    MemoryMapEntries(physSz);
  }

  /** What was copied into host pages: the boot information written at a host kernel
   *  virtual address. */
  class PageContents {
    var images: map<U64, BootImage>

    constructor ()
      ensures images == map[]
    {
      images := map[];
    }

    /** The `memcpy`s of the header and the three entries to `hva`. */
    method WriteBootImage(hva: U64, image: BootImage)
      modifies this
      ensures images == old(images)[hva := image]
    {
      images := images[hva := image];
    }
  }
}
