/**
 * The NationalChip glue in front of the SysBus AHCI controller: a bank of
 * 32 plain 32-bit registers at offsets 0x80-0xFF of the AHCI window.  Writes
 * store the word; reads return it, except that the PHY control/status
 * register 0 always shows its "ready" field and PHY control/status
 * register 2 never shows its busy bit.
 */
module GxAhci {

  /** The bank spans 0x80 bytes, one word per register. */
  const RegCount: nat := 0x80 / 4
  /** Register indices within the bank (offset minus 0x80, over four). */
  const Phycs0r: nat := (0xC0 - 0x80) / 4
  const Phycs2r: nat := (0xC8 - 0x80) / 4
  /** Bit 29 of PHYCS0R (0x2 shifted left by 28) reads as 1. */
  const PhyReady: bv32 := 0x2 << 28
  /** Bit 24 of PHYCS2R reads as zero. */
  const PhyBusy: bv32 := 0x1 << 24

  /** A bus access the memory core lets through: aligned words inside the bank. */
  predicate ValidAddr(addr: nat)
  {
    addr < RegCount * 4 && addr % 4 == 0
  }

  /** What a read shows of the stored word `raw` of register `index`. */
  function Shown(index: nat, raw: bv32): (v: bv32)
    ensures index == Phycs0r ==> v & PhyReady == PhyReady && v & !PhyReady == raw & !PhyReady
    ensures index == Phycs2r ==> v & PhyBusy == 0 && v & !PhyBusy == raw & !PhyBusy
    ensures index != Phycs0r && index != Phycs2r ==> v == raw
  {
    if index == Phycs0r then raw | PhyReady
    else if index == Phycs2r then raw & !PhyBusy
    else raw
  }

  /** A read of the bank held in `regs`. */
  function ReadOf(regs: seq<bv32>, addr: nat): bv32
    requires |regs| == RegCount && ValidAddr(addr)
  {
    Shown(addr / 4, regs[addr / 4])
  }

  /** Reading a word back after it was written gives the word, with the
    * two fixed fields forced; every other register reads as before. */
  lemma WriteThenRead(regs: seq<bv32>, addr: nat, v: bv32, other: nat)
    requires |regs| == RegCount && ValidAddr(addr) && ValidAddr(other)
    ensures ReadOf(regs[addr / 4 := v], addr) == Shown(addr / 4, v)
    ensures addr / 4 != Phycs0r && addr / 4 != Phycs2r ==> ReadOf(regs[addr / 4 := v], addr) == v
    ensures other != addr ==> ReadOf(regs[addr / 4 := v], other) == ReadOf(regs, other)
  {
    if other != addr {
      DistinctWords(addr, other);
    }
  }

  /** Two different aligned addresses name different registers. */
  lemma DistinctWords(a: nat, b: nat)
    requires a % 4 == 0 && b % 4 == 0 && a != b
    ensures a / 4 != b / 4
  {
  }

  /** Writing back what was read changes nothing a read can see: the
    * fix-ups are idempotent. */
  lemma ReadWriteBackStable(regs: seq<bv32>, addr: nat)
    requires |regs| == RegCount && ValidAddr(addr)
    ensures ReadOf(regs[addr / 4 := ReadOf(regs, addr)], addr) == ReadOf(regs, addr)
  {
    var i := addr / 4;
    var raw := regs[i];
    if i == Phycs0r {
      assert (raw | PhyReady) | PhyReady == raw | PhyReady;
    } else if i == Phycs2r {
      assert (raw & !PhyBusy) & !PhyBusy == raw & !PhyBusy;
    }
  }

  class GxAhciState {
    const regs: array<bv32>

    predicate Valid()
      reads this
    {
      regs.Length == RegCount
    }

    constructor ()
      ensures Valid() && fresh(regs)
      ensures forall i :: 0 <= i < regs.Length ==> regs[i] == 0
    {
      regs := new bv32[RegCount](_ => 0);
    }

    /** `gx_ahci_mem_read`. */
    function Read(addr: nat): (v: bv32)
      requires Valid() && ValidAddr(addr)
      reads this, regs
      ensures v == ReadOf(regs[..], addr)
    {
      Shown(addr / 4, regs[addr / 4])
    }

    /** `gx_ahci_mem_write`: the word is stored as given. */
    method Write(addr: nat, v: bv32)
      requires Valid() && ValidAddr(addr)
      modifies regs
      ensures regs[..] == old(regs[..])[addr / 4 := v]
    {
      regs[addr / 4] := v;
    }
  }
}
