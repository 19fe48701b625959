/**
 * The DesignWare APB watchdog: control, timeout-range, restart and
 * interrupt-status registers.  The virtual clock is a parameter (`now`, in
 * milliseconds) of the operations that read it, and the QEMU timer is the
 * pair `armed`/`deadline` the device re-arms.
 */
module Watchdog {

  const CrOff: nat := 0x00
  const TorrOff: nat := 0x04
  const CcvrOff: nat := 0x08
  const CrrOff: nat := 0x0C
  const StatOff: nat := 0x10
  const EoiOff: nat := 0x14
  const CompParam5Off: nat := 0xE4
  const CompParam4Off: nat := 0xE8
  const CompParam3Off: nat := 0xEC
  const CompParam2Off: nat := 0xF0
  const CompParam1Off: nat := 0xF4
  const CompVersionOff: nat := 0xF8
  const CompTypeOff: nat := 0xFC

  /** The restart command a CRR write must carry in its low byte. */
  const RestartCommand: bv32 := 0x76
  const VersionId: bv32 := 0x3230312A
  const TypeId: bv32 := 0x44570120
  /** Counter ticks per second. */
  const BaseFreq: nat := 1000000

  /** The configuration the device reports in COMP_PARAM_1. */
  datatype CompParams = CompParams(
    alwaysEn: bool, dfltRmod: bool, dualTop: bool, hcRmod: bool, hcRpl: bool, hcTop: bool,
    useFixTop: bool, pause: bool, apbDataWidth: nat, dfltRpl: nat, dfltTop: nat,
    dfltTopInit: nat, cntWidth: nat)

  const Params: CompParams := CompParams(
    alwaysEn := false, dfltRmod := true, dualTop := false, hcRmod := false, hcRpl := false,
    hcTop := false, useFixTop := true, pause := false, apbDataWidth := 2, dfltRpl := 0,
    dfltTop := 0, dfltTopInit := 0, cntWidth := 16)

  function B(b: bool, bit: bv32): bv32 { if b then bit else 0 }

  /** COMP_PARAM_1 packed in its documented layout. */
  function ParamWord(p: CompParams): bv32
    requires p.apbDataWidth < 4 && p.dfltRpl < 8 && p.dfltTop < 16 && p.dfltTopInit < 16 && p.cntWidth < 32
  {
    B(p.alwaysEn, 0x1) | B(p.dfltRmod, 0x2) | B(p.dualTop, 0x4) | B(p.hcRmod, 0x8)
    | B(p.hcRpl, 0x10) | B(p.hcTop, 0x20) | B(p.useFixTop, 0x40) | B(p.pause, 0x80)
    | (p.apbDataWidth as bv32 << 8) | (p.dfltRpl as bv32 << 10)
    | (p.dfltTop as bv32 << 16) | (p.dfltTopInit as bv32 << 20) | (p.cntWidth as bv32 << 24)
  }

  lemma ParamWordValue()
    ensures ParamWord(Params) == 0x10000242
  {
  }

  /** The CR word: enable bit 0, response mode bit 1, reset pulse length
    * bits 2-4, bit 5 as written, the rest zero. */
  function CrWord(en: bool, rmod: bool, rpl: nat, noName: bool): (w: bv32)
    requires rpl < 8
    ensures w & 0xFFFFFFC0 == 0
  {
    B(en, 1) | B(rmod, 2) | (rpl as bv32 << 2) | B(noName, 0x20)
  }

  /** The fields of a CR word come back out of it. */
  lemma CrWordFields(en: bool, rmod: bool, rpl: nat, noName: bool)
    requires rpl < 8
    ensures var w := CrWord(en, rmod, rpl, noName);
      (w & 1 != 0) == en && (w & 2 != 0) == rmod && ((w >> 2) & 7) as nat == rpl
      && (w & 0x20 != 0) == noName
  {
    var r := rpl as bv32;
    assert r < 8;
    var w := CrWord(en, rmod, rpl, noName);
    assert w == B(en, 1) | B(rmod, 2) | (r << 2) | B(noName, 0x20);
    assert (w >> 2) & 7 == r;
  }

  /** The reset pulse length field (bits 2-4) of a CR value. */
  function RplOf(value: bv32): (r: nat)
    ensures r < 8
  {
    ((value >> 2) & 7) as nat
  }

  /** The TORR word: `top` in bits 0-3, `top_init` in bits 4-7. */
  function TorrWord(top: nat, topInit: nat): (w: bv32)
    requires top < 16 && topInit < 16
    ensures w <= 0xFF
  {
    (top as bv32) | (topInit as bv32 << 4)
  }

  function Pow2(n: nat): (p: nat)
    ensures p >= 1
  {
    if n == 0 then 1 else 2 * Pow2(n - 1)
  }

  /** The period in milliseconds for timeout range `top`: 2^(top+16)
    * counter ticks at the base frequency, truncated. */
  function TimeoutMs(top: nat): nat
  {
    Pow2(top + 16) * 1000 / BaseFreq
  }

  /** The period is the tick count divided by a thousand. */
  lemma TimeoutMsIsTicksPerKilo(top: nat)
    ensures TimeoutMs(top) == Pow2(top + 16) / 1000
  {
    var x := Pow2(top + 16);
    var q := x / 1000;
    var r := x % 1000;
    assert x * 1000 == q * BaseFreq + r * 1000;
    assert 0 <= r * 1000 < BaseFreq;
  }

  lemma {:induction false} Pow2Monotone(a: nat, b: nat)
    requires a <= b
    ensures Pow2(a) <= Pow2(b)
    decreases b
  {
    if a < b {
      Pow2Monotone(a, b - 1);
    }
  }

  /** A larger timeout range never gives a shorter period, and the reset
    * range gives 65 ms. */
  lemma TimeoutMonotone(t1: nat, t2: nat)
    requires t1 <= t2
    ensures TimeoutMs(t1) <= TimeoutMs(t2)
    ensures TimeoutMs(0) == 65
  {
    Pow2Monotone(t1 + 16, t2 + 16);
    assert Pow2(16) == 65536 by {
      assert Pow2(4) == 16;
      assert Pow2(8) == 256;
      assert Pow2(12) == 4096;
    }
  }

  /** CCVR: the time left to the deadline in counter ticks (a thousand per
    * millisecond at the base frequency), as the 32-bit register shows it. */
  function CounterValue(start: int, timeout: int, now: int): bv32
  {
    (((start + timeout - now) * (BaseFreq / 1000)) % 0x1_0000_0000) as bv32
  }

  class Wdt {
    var wdtEn: bool
    var rmod: bool
    var rpl: nat
    var noName: bool
    var top: nat
    var topInit: nat
    var stat: bool
    var timeout: nat
    /** When the timer was last armed, and whether it is pending and when it fires. */
    var start: int
    var armed: bool
    var deadline: int
    /** The interrupt output as last driven. */
    var irq: bool

    predicate Valid()
      reads this
    {
      rpl < 8 && top < 16 && topInit < 16 && irq == stat
    }

    /** What a read at `offset` returns. */
    function ReadValue(offset: nat, now: int): bv32
      requires Valid()
      reads this
    {
      if offset % 4 != 0 then 0
      else if offset == CrOff then CrWord(wdtEn, rmod, rpl, noName)
      else if offset == TorrOff then TorrWord(top, topInit)
      else if offset == CcvrOff then CounterValue(start, timeout, now)
      else if offset == StatOff then B(stat, 1)
      else if offset == CompParam1Off then ParamWord(Params)
      else if offset == CompVersionOff then VersionId
      else if offset == CompTypeOff then TypeId
      else 0
    }

    /** `_dw_apb_wdt_reset_timer` ran at `now`: an enabled watchdog records
      * `now` as its start and arms the timer for `now + timeout`; a
      * disabled one leaves the start and the timer as they were. */
    twostate predicate Restarted(now: int)
      reads this
    {
      if wdtEn then start == now && armed && deadline == now + timeout
      else start == old(start) && armed == old(armed) && deadline == old(deadline)
    }

    /** The start and the timer are as they were. */
    twostate predicate TimerKept()
      reads this
    {
      unchanged(this`start, this`armed, this`deadline)
    }

    /** `_dw_apb_wdt_reset_timer`: an enabled watchdog restarts its period. */
    method RestartTimer(now: int)
      modifies this
      ensures Restarted(now)
      ensures wdtEn ==> start == now && armed && deadline == now + timeout
      ensures !wdtEn ==> start == old(start) && armed == old(armed) && deadline == old(deadline)
      ensures wdtEn == old(wdtEn) && rmod == old(rmod) && rpl == old(rpl) && noName == old(noName)
      ensures top == old(top) && topInit == old(topInit) && stat == old(stat)
      ensures timeout == old(timeout) && irq == old(irq)
    {
      if wdtEn {
        start := now;
        armed := true;
        deadline := now + timeout;
      }
    }

    /** `_dw_apb_wdt_reset`: the configured defaults.  The interrupt line
      * and a pending timer are left as they were. */
    method Reset()
      modifies this
      ensures !wdtEn && rmod && rpl == 0 && !noName && top == 0 && topInit == 0
      ensures timeout == TimeoutMs(0) == 65 && !stat
      ensures irq == old(irq) && armed == old(armed) && deadline == old(deadline)
      ensures start == old(start)
      ensures Valid() <==> !irq
    {
      TimeoutMonotone(0, 0);
      wdtEn := Params.alwaysEn;
      rmod := Params.dfltRmod;
      rpl := Params.dfltRpl;
      noName := false;
      top := Params.dfltTop;
      topInit := Params.dfltTopInit;
      timeout := TimeoutMs(Params.dfltTop);
      stat := false;
    }

    /** `_dw_apb_wdt_timeout`: the timer fires.  In interrupt mode the
      * first expiry raises the interrupt and restarts the period; a second
      * expiry (status still set) and reset mode ask for a system reset,
      * which the device model does not perform. */
    method Expire(now: int)
      requires Valid()
      modifies this
      ensures Valid()
      ensures stat == (old(stat) || old(rmod))
      ensures old(rmod) && !old(stat) && wdtEn ==> armed && deadline == now + timeout
      ensures !(old(rmod) && !old(stat)) ==> armed == false && deadline == old(deadline)
      ensures old(rmod) && !old(stat) && wdtEn ==> start == now
      ensures old(rmod) && !old(stat) && !wdtEn ==> !armed && deadline == old(deadline) && start == old(start)
      ensures !(old(rmod) && !old(stat)) ==> start == old(start)
      ensures wdtEn == old(wdtEn) && rmod == old(rmod) && rpl == old(rpl) && noName == old(noName)
      ensures top == old(top) && topInit == old(topInit) && timeout == old(timeout)
    {
      armed := false;
      if rmod && !stat {
        stat := true;
        irq := stat;
        RestartTimer(now);
      }
    }

    /** `_dw_apb_wdt_read`.  Only an EOI read changes the device: it clears
      * the status and restarts the period. */
    method Read(offset: nat, now: int) returns (v: bv32)
      requires Valid()
      modifies this
      ensures Valid()
      ensures v == old(ReadValue(offset, now))
      ensures offset == EoiOff ==> !stat && !irq && Restarted(now)
      ensures offset != EoiOff ==> stat == old(stat) && armed == old(armed) && deadline == old(deadline)
      ensures offset != EoiOff ==> unchanged(this)
      ensures wdtEn == old(wdtEn) && rmod == old(rmod) && rpl == old(rpl) && noName == old(noName)
      ensures top == old(top) && topInit == old(topInit) && timeout == old(timeout)
    {
      v := ReadValue(offset, now);
      if offset == EoiOff {
        stat := false;
        irq := stat;
        RestartTimer(now);
      }
    }

    /** `_dw_apb_wdt_write`: CR, TORR and CRR take writes; unaligned
      * offsets and every other register ignore them. */
    method Write(offset: nat, value: bv32, now: int)
      requires Valid()
      modifies this
      ensures Valid()
      ensures offset == CrOff ==>
        ReadValue(CrOff, now) == (old(ReadValue(CrOff, now)) & 1) | (value & 0x3F)
        && wdtEn == (old(wdtEn) || value & 1 != 0)
        && top == old(top) && timeout == old(timeout) && stat == old(stat)
      ensures offset == CrOff ==>
        rmod == (value & 2 != 0) && rpl == RplOf(value) && noName == (value & 0x20 != 0)
        && topInit == old(topInit) && irq == old(irq)
      ensures offset == CrOff && value & 1 != 0 && !old(wdtEn) ==> armed && deadline == now + timeout
      ensures offset == CrOff && value & 1 != 0 && !old(wdtEn) ==> Restarted(now)
      ensures offset == CrOff && !(value & 1 != 0 && !old(wdtEn)) ==> TimerKept()
      ensures offset == TorrOff ==>
        ReadValue(TorrOff, now) == (value & 0xF) | (old(ReadValue(TorrOff, now)) & 0xF0)
        && top == (value & 0xF) as nat && timeout == TimeoutMs(top)
        && wdtEn == old(wdtEn) && stat == old(stat)
      ensures offset == TorrOff ==>
        topInit == old(topInit) && unchanged(this`rmod, this`rpl, this`noName, this`irq) && TimerKept()
      ensures offset == CrrOff && value & 0xFF == RestartCommand ==>
        !stat && !irq && wdtEn == old(wdtEn) && timeout == old(timeout)
        && (wdtEn ==> armed && deadline == now + timeout)
      ensures offset == CrrOff && value & 0xFF == RestartCommand ==>
        Restarted(now) && unchanged(this`rmod, this`rpl, this`noName, this`top, this`topInit)
      ensures Ignored(offset, value) ==> unchanged(this)
      ensures Ignored(offset, value) ==>
        wdtEn == old(wdtEn) && rmod == old(rmod) && rpl == old(rpl) && noName == old(noName)
        && top == old(top) && topInit == old(topInit) && stat == old(stat)
        && timeout == old(timeout) && armed == old(armed) && deadline == old(deadline) && irq == old(irq)
    {
      hide TimeoutMs, CounterValue, ParamWord, Pow2, RplOf;
      if offset % 4 != 0 {
        return;
      }
      if offset == CrOff {
        WriteCr(value, now);
      } else if offset == TorrOff {
        WriteTorr(value);
      } else if offset == CrrOff {
        WriteCrr(value, now);
      }
    }

    /** A CR write: the enable bit can be set but never cleared (setting it
      * starts the period); response mode, pulse length and bit 5 follow the
      * written value. */
    method WriteCr(value: bv32, now: int)
      requires Valid()
      modifies this
      ensures Valid()
      ensures CrWord(wdtEn, rmod, rpl, noName)
        == (CrWord(old(wdtEn), old(rmod), old(rpl), old(noName)) & 1) | (value & 0x3F)
      ensures wdtEn == (old(wdtEn) || value & 1 != 0)
      ensures rmod == (value & 2 != 0) && rpl == RplOf(value) && noName == (value & 0x20 != 0)
      ensures top == old(top) && topInit == old(topInit) && timeout == old(timeout) && stat == old(stat)
      ensures value & 1 != 0 && !old(wdtEn) ==> armed && deadline == now + timeout
      ensures !(value & 1 != 0 && !old(wdtEn)) ==> armed == old(armed) && deadline == old(deadline)
      ensures value & 1 != 0 && !old(wdtEn) ==> Restarted(now)
      ensures !(value & 1 != 0 && !old(wdtEn)) ==> TimerKept()
      ensures irq == old(irq)
    {
      CrUpdate(wdtEn, rmod, rpl, noName, value);
      if value & 1 != 0 && !wdtEn {
        wdtEn := true;
        RestartTimer(now);
      }
      if !Params.hcRmod {
        rmod := value & 2 != 0;
      }
      if !Params.hcRpl {
        rpl := RplOf(value);
      }
      noName := value & 0x20 != 0;
    }

    /** A TORR write: `top` follows the written value and sets the period;
      * `top_init` is kept, as the watchdog has no dual timeout range. */
    method WriteTorr(value: bv32)
      requires Valid()
      modifies this
      ensures Valid()
      ensures forall now :: ReadValue(TorrOff, now) == (value & 0xF) | (old(ReadValue(TorrOff, now)) & 0xF0)
      ensures top == (value & 0xF) as nat && topInit == old(topInit) && timeout == TimeoutMs(top)
      ensures wdtEn == old(wdtEn) && rmod == old(rmod) && rpl == old(rpl) && noName == old(noName)
      ensures stat == old(stat) && armed == old(armed) && deadline == old(deadline)
      ensures TimerKept() && irq == old(irq)
    {
      TorrUpdate(top, topInit, value);
      if !Params.hcTop {
        // the dual-range `top_init` update is dead code under these parameters
        top := (value & 0xF) as nat;
      }
      timeout := TimeoutMs(top);
    }

    /** A CRR write: the restart command clears the interrupt and restarts
      * the period; any other value does nothing. */
    method WriteCrr(value: bv32, now: int)
      requires Valid()
      modifies this
      ensures Valid()
      ensures value & 0xFF == RestartCommand ==> !stat && (wdtEn ==> armed && deadline == now + timeout)
      ensures value & 0xFF != RestartCommand ==>
        stat == old(stat) && armed == old(armed) && deadline == old(deadline)
      ensures value & 0xFF == RestartCommand ==> !irq && Restarted(now)
      ensures value & 0xFF != RestartCommand ==> unchanged(this)
      ensures wdtEn == old(wdtEn) && rmod == old(rmod) && rpl == old(rpl) && noName == old(noName)
      ensures top == old(top) && topInit == old(topInit) && timeout == old(timeout)
    {
      if value & 0xFF == RestartCommand {
        stat := false;
        irq := stat;
        RestartTimer(now);
      }
    }
  }

  /** The CR word after a write keeps the enable bit (sticky) and takes
    * the low six bits of the value otherwise. */
  lemma CrUpdate(en: bool, rmod: bool, rpl: nat, noName: bool, value: bv32)
    requires rpl < 8
    ensures CrWord(en || value & 1 != 0, value & 2 != 0, RplOf(value), value & 0x20 != 0)
      == (CrWord(en, rmod, rpl, noName) & 1) | (value & 0x3F)
  {
    assert RplOf(value) as bv32 == (value >> 2) & 7;
    CrMix(en, rmod, rpl as bv32, noName, value);
  }

  /** `CrUpdate` on the packed bits alone. */
  lemma CrMix(en: bool, rmod: bool, r: bv32, noName: bool, value: bv32)
    requires r < 8
    ensures B(en || value & 1 != 0, 1) | B(value & 2 != 0, 2) | (((value >> 2) & 7) << 2) | B(value & 0x20 != 0, 0x20)
      == ((B(en, 1) | B(rmod, 2) | (r << 2) | B(noName, 0x20)) & 1) | (value & 0x3F)
  {
    assert (B(en, 1) | B(rmod, 2) | (r << 2) | B(noName, 0x20)) & 1 == B(en, 1);
    assert value & 0x3F == (value & 1) | (value & 2) | (((value >> 2) & 7) << 2) | (value & 0x20);
  }

  /** The TORR word after a write: the new `top`, the old `top_init`. */
  lemma TorrUpdate(top: nat, topInit: nat, value: bv32)
    requires top < 16 && topInit < 16
    ensures TorrWord((value & 0xF) as nat, topInit) == (value & 0xF) | (TorrWord(top, topInit) & 0xF0)
  {
    assert (value & 0xF) as nat as bv32 == value & 0xF;
    TorrMix(top as bv32, topInit as bv32, value);
  }

  /** `TorrUpdate` on the packed bits alone. */
  lemma TorrMix(t: bv32, ti: bv32, value: bv32)
    requires t < 16 && ti < 16
    ensures (value & 0xF) | (ti << 4) == (value & 0xF) | ((t | (ti << 4)) & 0xF0)
  {
  }


  /** The writes that change nothing: unaligned offsets, read-only and
    * unmapped registers, and a CRR write without the restart command. */
  predicate Ignored(offset: nat, value: bv32)
  {
    offset % 4 != 0
    || (offset != CrOff && offset != TorrOff && offset != CrrOff)
    || (offset == CrrOff && value & 0xFF != RestartCommand)
  }
}
