/** Machine words, the guest register snapshot (`struct Trapframe`), the VMCS fields
 *  the handlers read and write, and the per-guest configuration (`struct VmxGuestInfo`).
 *  Words are integers in the range of their C type; wrap-around, truncating casts and
 *  bit extraction are written out as arithmetic modulo powers of two. */
module Machine {
  import opened Headers

  const TWO_16: int := 0x1_0000
  const TWO_32: int := 0x1_0000_0000
  const TWO_64: int := 0x1_0000_0000_0000_0000

  type U64 = x: int | 0 <= x < TWO_64
  type U32 = x: int | 0 <= x < TWO_32
  type U16 = x: int | 0 <= x < TWO_16

  /** A C `int`. */
  type Int32 = x: int | -0x8000_0000 <= x < 0x8000_0000

  /** `(uint32_t)x`: the low half of a 64-bit word, the one 32-bit value that differs
   *  from `x` by a multiple of 2^32. */
  function Low32(x: U64): (r: U32)
    ensures (x - r) % TWO_32 == 0
  {
    x % TWO_32
  }

  /** `x >> 32`: the high half of a 64-bit word, the number of whole 2^32 blocks in `x`. */
  function High32(x: U64): (r: U32)
    ensures r * TWO_32 <= x < (r + 1) * TWO_32
  {
    x / TWO_32
  }

  /** The 64-bit word whose halves are `hi` and `lo`. */
  function Join32(hi: U32, lo: U32): (w: U64)
    ensures High32(w) == hi && Low32(w) == lo
  {
    hi * TWO_32 + lo
  }

  /** Euclidean division by a positive divisor is fixed by any quotient and remainder
   *  that recombine to the dividend. */
  lemma DivModUnique(x: int, d: int, q: int, r: int)
    requires 0 < d && 0 <= r < d && x == q * d + r
    ensures x / d == q && x % d == r
  {
    var q0, r0 := x / d, x % d;
    assert (q - q0) * d == r0 - r;
    if q > q0 {
      MulAtLeast(q - q0, d);
    } else if q < q0 {
      MulAtLeast(q0 - q, d);
    }
  }

  lemma MulAtLeast(k: int, d: int)
    requires k >= 1 && d > 0
    ensures k * d >= d
  {
  }

  lemma MulMono(c: int, a: int, b: int)
    requires c >= 0 && a >= b
    ensures c * a >= c * b
  {
    assert c * a - c * b == c * (a - b);
  }

  // ---- Single bits --------------------------------------------------------------------
  // The facts below are first proved for a divisor `p` standing for 2^n and then
  // stated for the bit position `n`.

  /** 2^n. */
  function Pow2(n: nat): (p: nat)
    ensures p >= 1
  {
    if n == 0 then 1 else 2 * Pow2(n - 1)
  }

  lemma Pow2Add(a: nat, b: nat)
    ensures Pow2(a + b) == Pow2(a) * Pow2(b)
  {
    if a > 0 {
      Pow2Add(a - 1, b);
      assert Pow2(a + b) == 2 * (Pow2(a - 1) * Pow2(b));
    }
  }

  /** `BIT(x, n)`: bit `n` of `x`, as 0 or 1. */
  function Bit(x: nat, n: nat): (b: nat)
    ensures b <= 1
  {
    (x / Pow2(n)) % 2
  }

  /** Two words that agree on every bit except bit `n`: the bits below it and the bits
   *  above it. */
  predicate SameOtherBits(a: nat, b: nat, n: nat) {
    a % Pow2(n) == b % Pow2(n) && a / Pow2(n + 1) == b / Pow2(n + 1)
  }

  /** Dividing by `2 * p` halves the quotient by `p`; the remainder keeps the bit at
   *  `p` and the part below it. */
  lemma DivByDouble(a: int, p: int)
    requires a >= 0 && p > 0
    ensures a / (2 * p) == (a / p) / 2
    ensures a % (2 * p) == p * ((a / p) % 2) + a % p
  {
    var t, r := a / p, a % p;
    var u, b := t / 2, t % 2;
    assert a == p * t + r;
    assert t == 2 * u + b;
    assert p * t == (2 * p) * u + p * b;
    DivModUnique(a, 2 * p, u, p * b + r);
  }

  /** A word recombines from its part above position `p`, the bit at `p` and its part
   *  below. */
  lemma SplitAt(a: int, p: int)
    requires a >= 0 && p > 0
    ensures a == (2 * p) * (a / (2 * p)) + p * ((a / p) % 2) + a % p
    ensures a % (2 * p) == p * ((a / p) % 2) + a % p
  {
    DivByDouble(a, p);
    assert a == (2 * p) * (a / (2 * p)) + a % (2 * p);
  }

  lemma WordFromBits(a: nat, n: nat)
    ensures a == Pow2(n + 1) * (a / Pow2(n + 1)) + Pow2(n) * Bit(a, n) + a % Pow2(n)
  {
    SplitAt(a, Pow2(n));
  }

  /** A word is determined by bit `n` and its other bits. */
  lemma BitsDetermineWord(a: nat, b: nat, n: nat)
    requires SameOtherBits(a, b, n) && Bit(a, n) == Bit(b, n)
    ensures a == b
  {
    WordFromBits(a, n);
    WordFromBits(b, n);
  }

  /** Bit `n` is set exactly when the word's residue modulo 2^(n+1) reaches 2^n: the
   *  C test `x & (1 << n)` is nonzero. */
  lemma BitMeaning(x: nat, n: nat)
    ensures Bit(x, n) == 1 <==> x % Pow2(n + 1) >= Pow2(n)
  {
    SplitAt(x, Pow2(n));
  }

  lemma SetFacts(x: int, p: int)
    requires x >= 0 && p > 0 && (x / p) % 2 == 0
    ensures ((x + p) / p) % 2 == 1 && (x + p) % p == x % p
    ensures (x + p) / (2 * p) == x / (2 * p)
  {
    var t, r := x / p, x % p;
    assert x == t * p + r;
    assert x + p == (t + 1) * p + r by {
      assert (t + 1) * p == t * p + p;
    }
    DivModUnique(x + p, p, t + 1, r);
    DivByDouble(x, p);
    DivByDouble(x + p, p);
    assert (t + 1) / 2 == t / 2;
  }

  lemma ClearFacts(x: int, p: int)
    requires x >= 0 && p > 0 && (x / p) % 2 == 1
    ensures ((x - p) / p) % 2 == 0 && (x - p) % p == x % p
    ensures (x - p) / (2 * p) == x / (2 * p) && x - p >= 0
  {
    var t, r := x / p, x % p;
    assert x == t * p + r;
    assert x - p == (t - 1) * p + r by {
      assert (t - 1) * p == t * p - p;
    }
    assert t >= 1;
    MulAtLeast(t, p);
    DivModUnique(x - p, p, t - 1, r);
    DivByDouble(x, p);
    DivByDouble(x - p, p);
    assert (t - 1) / 2 == t / 2;
  }

  /** `x | (1 << n)`: bit `n` is set and the other bits are kept. */
  function SetBit(x: nat, n: nat): (r: nat)
    ensures Bit(r, n) == 1 && SameOtherBits(r, x, n)
    ensures r >= x
  {
    if Bit(x, n) == 1 then x else SetFacts(x, Pow2(n)); x + Pow2(n)
  }

  /** `x & ~(1 << n)`: bit `n` is cleared and the other bits are kept. */
  function ClearBit(x: nat, n: nat): (r: nat)
    ensures Bit(r, n) == 0 && SameOtherBits(r, x, n)
    ensures r <= x
  {
    if Bit(x, n) == 1 then ClearFacts(x, Pow2(n)); x - Pow2(n) else x
  }

  lemma SetBelow(x: int, p: int, q: int)
    requires x >= 0 && p > 0 && (x / p) % 2 == 0 && x < (2 * p) * q
    ensures x + p < (2 * p) * q
  {
    SplitAt(x, p);
    var h := x / (2 * p);
    if h >= q {
      MulMono(2 * p, h, q);
      assert false;
    }
    MulMono(2 * p, q, h + 1);
  }

  /** Setting a bit below the width `w` keeps a `w`-bit word within `w` bits. */
  lemma SetBitInWidth(x: nat, n: nat, w: nat)
    requires n < w && x < Pow2(w)
    ensures SetBit(x, n) < Pow2(w)
  {
    if Bit(x, n) == 0 {
      Pow2Add(n + 1, w - n - 1);
      SetBelow(x, Pow2(n), Pow2(w - n - 1));
    }
  }

  lemma BitOfRemainder(x: int, p: int, k: int)
    requires x >= 0 && p > 0 && k > 0
    ensures (x / p) % 2 == ((x % ((2 * p) * k)) / p) % 2
  {
    var M := (2 * p) * k;
    var q, m := x / M, x % M;
    var s, r := m / p, m % p;
    assert x == M * q + m;
    assert m == p * s + r;
    assert x == (2 * k * q + s) * p + r;
    DivModUnique(x, p, 2 * k * q + s, r);
    assert s == 2 * (s / 2) + s % 2;
    DivModUnique(2 * k * q + s, 2, k * q + s / 2, s % 2);
  }

  /** A bit below the width `w` is a bit of the word's low `w` bits: truncating to `w`
   *  bits does not change it. */
  lemma BitInLowPart(x: nat, n: nat, w: nat)
    requires n < w
    ensures Bit(x, n) == Bit(x % Pow2(w), n)
  {
    Pow2Add(n + 1, w - n - 1);
    BitOfRemainder(x, Pow2(n), Pow2(w - n - 1));
  }

  /** `a | b` on unsigned words, computed bit by bit from the lowest. */
  function Or(a: nat, b: nat): (r: nat)
    ensures r >= a && r >= b
    decreases a + b
  {
    if a == 0 then b
    else if b == 0 then a
    else 2 * Or(a / 2, b / 2) + (if a % 2 == 1 || b % 2 == 1 then 1 else 0)
  }

  /** Bit `n` of a word is bit `n - 1` of the word halved. */
  lemma BitOfHalf(x: nat, n: nat)
    requires n > 0
    ensures Bit(x, n) == Bit(x / 2, n - 1)
  {
    var q := Pow2(n - 1);
    var s, t := (x / 2) / q, (x / 2) % q;
    assert x / 2 == q * s + t;
    assert x == (2 * q) * s + (2 * t + x % 2);
    DivModUnique(x, 2 * q, s, 2 * t + x % 2);
  }

  /** Halving `a | b` gives the OR of the halves; its lowest bit is the OR of the
   *  lowest bits. */
  lemma OrHalf(a: nat, b: nat)
    requires a != 0 && b != 0
    ensures Or(a, b) / 2 == Or(a / 2, b / 2)
    ensures Or(a, b) % 2 == 1 <==> a % 2 == 1 || b % 2 == 1
  {
    var c := if a % 2 == 1 || b % 2 == 1 then 1 else 0;
    var r := Or(a / 2, b / 2);
    assert Or(a, b) == 2 * r + c;
  }

  lemma BitZero(x: nat)
    ensures Bit(x, 0) == x % 2
  {
    assert Pow2(0) == 1;
  }

  /** Bit `n` of `a | b` is set exactly when it is set in `a` or in `b`. */
  lemma {:induction false} OrBits(a: nat, b: nat, n: nat)
    ensures Bit(Or(a, b), n) == 1 <==> Bit(a, n) == 1 || Bit(b, n) == 1
    decreases n
  {
    if a == 0 || b == 0 {
      assert Bit(0, n) == 0;
    } else {
      OrHalf(a, b);
      if n == 0 {
        BitZero(Or(a, b));
        BitZero(a);
        BitZero(b);
      } else {
        BitOfHalf(Or(a, b), n);
        BitOfHalf(a, n);
        BitOfHalf(b, n);
        OrBits(a / 2, b / 2, n - 1);
      }
    }
  }

  /** OR of two `n`-bit words is an `n`-bit word. */
  lemma {:induction false} OrInWidth(a: nat, b: nat, n: nat)
    requires a < Pow2(n) && b < Pow2(n)
    ensures Or(a, b) < Pow2(n)
    decreases n
  {
    if a != 0 && b != 0 {
      assert n > 0;
      OrInWidth(a / 2, b / 2, n - 1);
    }
  }

  lemma Pow2Of32()
    ensures Pow2(32) == TWO_32
  {
    assert Pow2(8) == 0x100;
    Pow2Add(8, 8);
    Pow2Add(16, 16);
  }

  /** An `int` stored into a `uint64_t` register: sign extension, which is the value
   *  modulo 2^64. */
  function IntToU64(n: Int32): (w: U64)
    ensures n >= 0 ==> w == n
    ensures n < 0 ==> w == TWO_64 + n
  {
    n % TWO_64
  }

  /** How C reads an `int` returned from a function declared `bool`: any nonzero value
   *  is true. */
  function Truth(n: int): (b: bool)
    ensures n < 0 ==> b
    ensures !b ==> n == 0
  {
    n != 0
  }

  /** `a` is the start of a page. */
  predicate PageAligned(a: int) {
    a % PGSIZE == 0
  }

  /** `ROUNDDOWN(a, PGSIZE)`: the start of the page holding `a`. */
  function RoundDown(a: U64): (r: U64)
    ensures PageAligned(r)
    ensures r <= a < r + PGSIZE
  {
    a - a % PGSIZE
  }

  /** Every address of a page rounds down to the page's start. */
  lemma RoundDownInPage(page: U64, a: U64)
    requires PageAligned(page) && page <= a < page + PGSIZE
    ensures RoundDown(a) == page
  {
  }

  /** `tf_rip += vmcs_read32(VMCS_32BIT_VMEXIT_INSTRUCTION_LENGTH)`: the sum wraps
   *  modulo 2^64. */
  function Advanced(rip: U64, len: U32): (r: U64)
    ensures rip + len < TWO_64 ==> r == rip + len
    ensures rip + len >= TWO_64 ==> r == rip + len - TWO_64
  {
    (rip + len) % TWO_64
  }

  /** How a handler's run ends: it returns its `bool`, or an `assert` in it fails and
   *  the kernel panics, which never returns to the dispatcher. */
  datatype Completion = Returns(handled: bool) | Panics

  /** The part of `struct Trapframe` the handlers use: the instruction pointer and the
   *  general-purpose registers they read or write. */
  class Trapframe {
    var rip: U64
    var rax: U64
    var rbx: U64
    var rcx: U64
    var rdx: U64
    var rsi: U64

    constructor (rip: U64, rax: U64, rbx: U64, rcx: U64, rdx: U64, rsi: U64)
      ensures this.rip == rip && this.rax == rax && this.rbx == rbx
      ensures this.rcx == rcx && this.rdx == rdx && this.rsi == rsi
    {
      this.rip, this.rax, this.rbx := rip, rax, rbx;
      this.rcx, this.rdx, this.rsi := rcx, rdx, rsi;
    }
  }

  /** The 32-bit VMCS control fields a handler writes with `vmcs_write32`. */
  datatype Control = ProcBasedVmexecControls | VmentryInterruptionInfo | VmentryControls

  /** The VMCS fields the exit handlers touch. Controls are written through `Write32`,
   *  which also appends to the ghost log `writes`, so that a write which stores a
   *  field's own value is still visible. The exit information fields and the guest
   *  RFLAGS are only read during an exit, so they are constants. */
  class Vmcs {
    var procBasedCtls: U32
    var entryIntrInfo: U32
    var entryCtls: U32
    const exitInstrLength: U32
    const guestRflags: U64
    const guestPhysAddr: U64
    const exitQualification: U64
    ghost var writes: seq<(Control, U32)>

    constructor (procBasedCtls: U32, entryIntrInfo: U32, entryCtls: U32,
                 exitInstrLength: U32, guestRflags: U64, guestPhysAddr: U64,
                 exitQualification: U64)
      ensures this.procBasedCtls == procBasedCtls && this.entryIntrInfo == entryIntrInfo
      ensures this.entryCtls == entryCtls && this.exitInstrLength == exitInstrLength
      ensures this.guestRflags == guestRflags && this.guestPhysAddr == guestPhysAddr
      ensures this.exitQualification == exitQualification && writes == []
    {
      this.procBasedCtls, this.entryIntrInfo, this.entryCtls := procBasedCtls, entryIntrInfo, entryCtls;
      this.exitInstrLength, this.guestRflags := exitInstrLength, guestRflags;
      this.guestPhysAddr, this.exitQualification := guestPhysAddr, exitQualification;
      writes := [];
    }

    /** `vmcs_read32` of a control field: the current value of that field. */
    function Read32(c: Control): (r: U32)
      reads this
      ensures c == ProcBasedVmexecControls ==> r == procBasedCtls
      ensures c == VmentryInterruptionInfo ==> r == entryIntrInfo
      ensures c == VmentryControls ==> r == entryCtls
    {
      match c
      case ProcBasedVmexecControls => procBasedCtls
      case VmentryInterruptionInfo => entryIntrInfo
      case VmentryControls => entryCtls
    }

    /** `vmcs_write32` of a control field. */
    method Write32(c: Control, v: U32)
      modifies this
      ensures procBasedCtls == if c == ProcBasedVmexecControls then v else old(procBasedCtls)
      ensures entryIntrInfo == if c == VmentryInterruptionInfo then v else old(entryIntrInfo)
      ensures entryCtls == if c == VmentryControls then v else old(entryCtls)
      ensures writes == old(writes) + [(c, v)]
      ensures Read32(c) == v
      ensures forall d: Control :: d != c ==> Read32(d) == old(Read32(d))
    {
      match c {
        case ProcBasedVmexecControls => procBasedCtls := v;
        case VmentryInterruptionInfo => entryIntrInfo := v;
        case VmentryControls => entryCtls := v;
      }
      writes := writes + [(c, v)];
    }
  }

  /** One slot of the guest MSR load/store area (`struct vmx_msr_entry`). */
  datatype MsrEntry = MsrEntry(msrIndex: U32, msrValue: U64)

  /** The part of `struct VmxGuestInfo` the handlers use: the configured guest physical
   *  memory size and the guest MSR area with its entry count. */
  class GuestInfo {
    const physSz: U64
    const msrCount: Int32
    const msrGuestArea: array<MsrEntry>

    /** The MSR area holds `msrCount` entries. */
    ghost predicate Valid()
      reads this
    {
      msrCount as int <= msrGuestArea.Length
    }

    constructor (physSz: U64, msrCount: Int32, msrGuestArea: array<MsrEntry>)
      requires msrCount as int <= msrGuestArea.Length
      ensures Valid()
      ensures this.physSz == physSz && this.msrCount == msrCount
      ensures this.msrGuestArea == msrGuestArea
    {
      this.physSz, this.msrCount, this.msrGuestArea := physSz, msrCount, msrGuestArea;
    }
  }
}
