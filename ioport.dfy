/** `handle_ioinstr`: emulation of the CMOS real-time clock ports, through which a
 *  guest BIOS-style probe reads the memory sizes. A write to the index port latches a
 *  register number; a read from the data port answers the base- and extended-memory
 *  size registers from the guest's configured memory size. Every other port access
 *  is unhandled. */
module IoPort {
  import opened Headers
  import opened Machine

  datatype Option<T> = None | Some(value: T)

  /** The parts of an I/O-instruction exit qualification the handler reads: the port
   *  number (bits 31:16) and the direction (bit 3, set for `in`). */
  datatype IoAccess = IoAccess(port: U16, isIn: bool)

  /** `(qualification >> 16) & 0xFFFF` and `BIT(qualification, 3)`: the port is the
   *  upper half of the low 32 bits, and the access is an `in` exactly when the low four
   *  bits of the qualification are at least 8. */
  function DecodeQualification(q: U64): (r: IoAccess)
    ensures r.port == Low32(q) / TWO_16
    ensures r.isIn <==> q % 16 >= 8
  {
    PortBits(q);
    BitMeaning(q, 3);
    IoAccess((q / TWO_16) % TWO_16, Bit(q, 3) == 1)
  }

  lemma PortBits(q: U64)
    ensures (q / TWO_16) % TWO_16 == (q % TWO_32) / TWO_16
  {
    var a, m := q / TWO_32, q % TWO_32;
    var s, t := m / TWO_16, m % TWO_16;
    assert q == TWO_32 * a + m;
    assert m == TWO_16 * s + t;
    assert q == (TWO_16 * a + s) * TWO_16 + t;
    DivModUnique(q, TWO_16, TWO_16 * a + s, t);
    DivModUnique(TWO_16 * a + s, TWO_16, a, s);
  }

  /** The qualification of a one-byte access through a port given in the instruction's
   *  DX register: all fields other than port and direction are zero. */
  function EncodeQualification(a: IoAccess): U64 {
    a.port * TWO_16 + (if a.isIn then 8 else 0)
  }

  /** Decoding reads back the port and direction that were encoded. */
  lemma DecodeEncode(a: IoAccess)
    ensures DecodeQualification(EncodeQualification(a)) == a
  {
    var q := EncodeQualification(a);
    var f := if a.isIn then 8 else 0;
    DivModUnique(q, TWO_16, a.port, f);
    DivModUnique(a.port, TWO_16, 0, a.port);
    DivModUnique(q, 8, a.port * 0x2000 + f / 8, 0);
    DivModUnique(a.port * 0x2000 + f / 8, 2, a.port * 0x1000, f / 8);
  }

  /** Decoding ignores the size, string, rep and operand-encoding fields: two
   *  qualifications that agree on bits 31:16 and bit 3 decode alike. */
  lemma DecodeReadsPortAndDirectionOnly(q: U64, q2: U64)
    requires (q / TWO_16) % TWO_16 == (q2 / TWO_16) % TWO_16
    requires Bit(q, 3) == Bit(q2, 3)
    ensures DecodeQualification(q) == DecodeQualification(q2)
  {
  }

  /** A 64-bit register stored into a C `int`: its low 32 bits, read as two's
   *  complement. */
  function ToInt32(x: U64): (n: Int32)
    ensures n % TWO_32 == Low32(x)
  {
    if Low32(x) < 0x8000_0000 then Low32(x) else Low32(x) - TWO_32
  }

  /** Memory above 1 MiB in KiB, as `(phys_sz / 1024) - 1024`; negative when the guest
   *  has less than 1 MiB. */
  function ExtendedKiB(physSz: U64): (r: int)
    ensures physSz >= HIGH_MEM_START ==> 0 <= r && r * 1024 <= physSz - HIGH_MEM_START < (r + 1) * 1024
    ensures physSz < HIGH_MEM_START ==> r < 0
  {
    physSz / 1024 - 1024
  }

  /** The answer of the CMOS data port for the latched register `index`, or None for a
   *  register the handler does not emulate. Each answer is one byte: the base memory
   *  size is 640 KiB, and the extended size is taken modulo 2^64 before its byte is
   *  extracted, which selects the same byte as arithmetic on the mathematical value. */
  function RtcData(index: Int32, physSz: U64): (r: Option<U64>)
    ensures r.Some? <==> index == NVRAM_BASELO || index == NVRAM_BASEHI
                         || index == NVRAM_EXTLO || index == NVRAM_EXTHI
    ensures r.Some? ==> r.value < 256
  {
    if index == NVRAM_BASELO then Some(640 % 256)
    else if index == NVRAM_BASEHI then Some((640 / 256) % 256)
    else if index == NVRAM_EXTLO then Some(ExtendedKiB(physSz) % 256)
    else if index == NVRAM_EXTHI then Some((ExtendedKiB(physSz) / 256) % 256)
    else None
  }

  /** The two base-memory bytes together say 640 KiB. */
  lemma BaseMemoryBytes(physSz: U64)
    ensures RtcData(NVRAM_BASEHI, physSz).value * 256 + RtcData(NVRAM_BASELO, physSz).value == 640
  {
  }

  /** The two extended-memory bytes together give the extended size modulo 2^16, and
   *  exactly the extended size for guests of 1 MiB up to 65 MiB. */
  lemma {:induction false} ExtendedMemoryBytes(physSz: U64)
    ensures RtcData(NVRAM_EXTHI, physSz).value * 256 + RtcData(NVRAM_EXTLO, physSz).value
            == ExtendedKiB(physSz) % 65536
    ensures HIGH_MEM_START <= physSz < HIGH_MEM_START + 65536 * 1024 ==>
            RtcData(NVRAM_EXTHI, physSz).value * 256 + RtcData(NVRAM_EXTLO, physSz).value
            == ExtendedKiB(physSz)
  {
    var e := ExtendedKiB(physSz);
    assert e == 65536 * (e / 65536) + 256 * ((e / 256) % 256) + e % 256 by {
      assert e == 256 * (e / 256) + e % 256;
      assert e / 256 == 256 * ((e / 256) / 256) + (e / 256) % 256;
      assert (e / 256) / 256 == e / 65536;
    }
  }

  /** The index latched by the last write to the CMOS index port (`static int
   *  port_iortc`, zero before the first write). */
  class RtcLatch {
    var portIortc: Int32

    constructor ()
      ensures portIortc == 0
    {
      portIortc := 0;
    }
  }

  /** The exit is one of the two accesses the handler emulates. */
  predicate Emulated(a: IoAccess, latched: Int32, physSz: U64) {
    || (a.port == IO_RTC && !a.isIn)
    || (a.port == IO_RTC + 1 && a.isIn && RtcData(latched, physSz).Some?)
  }

  /** `handle_ioinstr(tf, ginfo)`. */
  method HandleIoinstr(tf: Trapframe, gInfo: GuestInfo, vmcs: Vmcs, latch: RtcLatch)
    returns (handled: bool)
    modifies tf, latch
    ensures var a := DecodeQualification(vmcs.exitQualification);
            handled <==> Emulated(a, old(latch.portIortc), gInfo.physSz)
    ensures var a := DecodeQualification(vmcs.exitQualification);
            a.port == IO_RTC && !a.isIn ==>
              latch.portIortc == ToInt32(old(tf.rax)) && tf.rax == old(tf.rax)
    ensures var a := DecodeQualification(vmcs.exitQualification);
            var data := RtcData(old(latch.portIortc), gInfo.physSz);
            a.port == IO_RTC + 1 && a.isIn && data.Some? ==>
              latch.portIortc == old(latch.portIortc) && tf.rax == data.value
    ensures handled ==> tf.rip == Advanced(old(tf.rip), vmcs.exitInstrLength)
    ensures !handled ==> unchanged(tf) && unchanged(latch)
    ensures tf.rbx == old(tf.rbx) && tf.rcx == old(tf.rcx)
    ensures tf.rdx == old(tf.rdx) && tf.rsi == old(tf.rsi)
  {
    var qualification := vmcs.exitQualification;
    var portNumber := (qualification / TWO_16) % TWO_16;
    var isIn := Bit(qualification, 3) == 1;
    handled := false;
    if portNumber == IO_RTC {
      if !isIn {
        latch.portIortc := ToInt32(tf.rax);
        handled := true;
      }
    } else if portNumber == IO_RTC + 1 {
      if isIn {
        var data := RtcData(latch.portIortc, gInfo.physSz);
        if data.Some? {
          tf.rax := data.value;
          handled := true;
        }
      }
    }
    if handled {
      tf.rip := Advanced(tf.rip, vmcs.exitInstrLength);
    }
  }
}
