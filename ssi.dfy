/**
 * The DesignWare synchronous serial interface (SSI) as the NationalChip
 * model implements it: the register file, the 32-word transmit and
 * receive FIFOs, the standard transfer (drain the TX FIFO, then in EEPROM
 * read mode fill the RX FIFO) and the enhanced (dual/quad/octal) transfer,
 * which first sends an instruction and an address taken from the TX FIFO.
 *
 * The SPI bus is the oracle `bus` (see SsiLink).  The interrupt line, the
 * two DMA request lines and the chip-select line are the booleans `irq`,
 * `txDma`, `rxDma` and `csHigh`, as last driven.  The FIFO library refuses
 * a push onto a full FIFO and a pop from an empty one; the operations that
 * would do either state it as a precondition.
 */
module DwcSsi {
  import opened SsiLink

  /** Register offsets. */
  const Ctrlr0Off: nat := 0x00
  const Ctrlr1Off: nat := 0x04
  const SsienrOff: nat := 0x08
  const SerOff: nat := 0x10
  const BaudrOff: nat := 0x14
  const TxftlrOff: nat := 0x18
  const RxftlrOff: nat := 0x1C
  const TxflrOff: nat := 0x20
  const RxflrOff: nat := 0x24
  const SrOff: nat := 0x28
  const ImrOff: nat := 0x2C
  const IsrOff: nat := 0x30
  const RisrOff: nat := 0x34
  const TxoicrOff: nat := 0x38
  const RxoicrOff: nat := 0x3C
  const RxuicrOff: nat := 0x40
  const MsticrOff: nat := 0x44
  const DmacrOff: nat := 0x4C
  const DmatdlrOff: nat := 0x50
  const DmardlrOff: nat := 0x54
  const IdrOff: nat := 0x58
  const VersionOff: nat := 0x5C
  const Dr0Off: nat := 0x60
  const Dr35Off: nat := 0xEC
  const RxSampleDelayOff: nat := 0xF0
  const SpiCtrlr0Off: nat := 0xF4
  const DdrDriveEdgeOff: nat := 0xF8

  /** Identification and version words. */
  const IdCode: bv32 := 0x2021_0205
  const VersionId: bv32 := 0x3230_312A

  /** RISR bits. */
  const Txeir: bv32 := 0x01
  const Txoir: bv32 := 0x02
  const Rxuir: bv32 := 0x04
  const Rxoir: bv32 := 0x08
  const Rxfir: bv32 := 0x10
  const Mstir: bv32 := 0x20

  /** SR bits. */
  const Tfnf: bv32 := 0x02
  const Tfe: bv32 := 0x04
  const Rfne: bv32 := 0x08
  const Rff: bv32 := 0x10

  /** DMACR bits. */
  const Rdmae: bv32 := 0x1
  const Tdmae: bv32 := 0x2

  function B(b: bool, bit: bv32): bv32 { if b then bit else 0 }

  /** A status word with `bit` raised. */
  function Raise(w: bv32, bit: bv32): (r: bv32)
    ensures r & bit == bit && r & !bit == w & !bit
  {
    w | bit
  }

  // Register fields.
  function Tmod(ctrlr0: bv32): bv32 { (ctrlr0 >> 10) & 3 }
  function SpiFrf(ctrlr0: bv32): bv32 { (ctrlr0 >> 22) & 3 }
  function Ndf(ctrlr1: bv32): nat { (ctrlr1 & 0xFFFF) as nat }
  function Txfthr(txftlr: bv32): nat { (txftlr >> 16) as nat }
  function Dmatdl(dmatdlr: bv32): nat { (dmatdlr & 0xFFFF) as nat }

  /** RISR after a transfer that ran the transmit step (`tx`) and raised
    * RXFIR in the receive step (`rxf`). */
  function Raised(risr: bv32, tx: bool, rxf: bool): (r: bv32)
    ensures !tx && !rxf ==> r == risr
    ensures tx ==> r & Txeir == Txeir
    ensures rxf ==> r & Rxfir == Rxfir
    ensures r & !(Txeir | Rxfir) == risr & !(Txeir | Rxfir)
  {
    var mid := if tx then Raise(risr, Txeir) else risr;
    if rxf then Raise(mid, Rxfir) else mid
  }

  /** Whether the RX level is above the RXFTLR threshold. */
  predicate Above(rxLevel: nat, rxftlr: bv32) { rxLevel > rxftlr as nat }

  /** Any offset of the data register window DR0-DR35. */
  predicate IsData(offset: nat)
  {
    Dr0Off <= offset <= Dr35Off
  }

  /** The registers a guest may not program while the controller is
    * enabled. */
  predicate Gated(offset: nat)
  {
    offset == Ctrlr0Off || offset == Ctrlr1Off || offset == BaudrOff
    || offset == RxSampleDelayOff || offset == SpiCtrlr0Off
  }

  /** The register offsets a write handles and returns from; a write to
    * any other offset (TXFTLR included, which falls through) drives the
    * interrupt line anew. */
  predicate Handled(offset: nat)
  {
    offset == Ctrlr0Off || offset == Ctrlr1Off || offset == SsienrOff || offset == SerOff
    || offset == BaudrOff || offset == RxftlrOff || offset == ImrOff || offset == DmacrOff
    || offset == DmatdlrOff || offset == DmardlrOff || offset == RxSampleDelayOff
    || offset == SpiCtrlr0Off || offset == DdrDriveEdgeOff
  }

  /** The offsets whose write drives the DMA request lines anew. */
  predicate DmaSetting(offset: nat)
  {
    offset == DmacrOff || offset == DmatdlrOff || offset == DmardlrOff
  }

  /** The offsets whose read clears one RISR bit. */
  predicate ClearOnRead(offset: nat)
  {
    offset == TxoicrOff || offset == RxoicrOff || offset == RxuicrOff || offset == MsticrOff
  }

  /** The RISR bit a clear-on-read offset clears. */
  function ClearedBit(offset: nat): bv32
  {
    if offset == TxoicrOff then Txoir
    else if offset == RxoicrOff then Rxoir
    else if offset == RxuicrOff then Rxuir
    else Mstir
  }

  /** The interrupt line: a raw status bit that is not masked off. */
  function IrqOf(risr: bv32, imr: bv32): bool { risr & imr != 0 }

  /** The transmit DMA request: the TX level at or below DMATDLR, with
    * transmit DMA enabled. */
  function TxDmaOf(txLevel: nat, dmatdlr: bv32, dmacr: bv32): bool
  {
    txLevel <= Dmatdl(dmatdlr) && dmacr & Tdmae != 0
  }

  /** The receive DMA request: anything in the RX FIFO, with receive DMA
    * enabled. */
  function RxDmaOf(rxLevel: nat, dmacr: bv32): bool
  {
    rxLevel > 0 && dmacr & Rdmae != 0
  }

  /** The SR word for the two FIFO levels. */
  function Status(txLevel: nat, rxLevel: nat): (sr: bv32)
    ensures sr & Tfnf != 0 <==> txLevel != Capacity
    ensures sr & Tfe != 0 <==> txLevel == 0
    ensures sr & Rfne != 0 <==> rxLevel != 0
    ensures sr & Rff != 0 <==> rxLevel == Capacity
    ensures sr & !(Tfnf | Tfe | Rfne | Rff) == 0
  {
    B(txLevel != Capacity, Tfnf) | B(txLevel == 0, Tfe) | B(rxLevel != 0, Rfne)
    | B(rxLevel == Capacity, Rff)
  }

  /** A TXFTLR write: the transmit threshold only when below the FIFO
    * capacity, the transfer start level always. */
  function TxftlrWrite(old_: bv32, value: bv32): (r: bv32)
    ensures r >> 16 == value >> 16
    ensures r & 0xFFFF == if value & 0xFFFF < 32 then value & 0xFFFF else old_ & 0xFFFF
  {
    if value & 0xFFFF < 32 then value else (old_ & 0xFFFF) | (value & 0xFFFF_0000)
  }

  /** An RXFTLR write: taken only when it does not exceed the FIFO
    * capacity. */
  function RxftlrWrite(old_: bv32, value: bv32): (r: bv32)
    ensures r == value || r == old_
    ensures r == value <==> value <= 32 || value == old_
  {
    if value <= 32 then value else old_
  }

  /** An IMR write keeps the seven defined mask bits. */
  function ImrWrite(value: bv32): (r: bv32)
    ensures r & !0x7F == 0 && r & 0x7F == value & 0x7F
  {
    value & 0x7F
  }

  /** The programmable registers. */
  datatype Regs = Regs(ctrlr0: bv32, ctrlr1: bv32, ser: bv32, baudr: bv32, txftlr: bv32,
                       rxftlr: bv32, imr: bv32, dmacr: bv32, dmatdlr: bv32, dmardlr: bv32,
                       rxSampleDelay: bv32, spiCtrlr0: bv32)

  /** The register at an offset, zero for any other offset. */
  function Field(r: Regs, offset: nat): bv32
  {
    if offset == Ctrlr0Off then r.ctrlr0
    else if offset == Ctrlr1Off then r.ctrlr1
    else if offset == SerOff then r.ser
    else if offset == BaudrOff then r.baudr
    else if offset == TxftlrOff then r.txftlr
    else if offset == RxftlrOff then r.rxftlr
    else if offset == ImrOff then r.imr
    else if offset == DmacrOff then r.dmacr
    else if offset == DmatdlrOff then r.dmatdlr
    else if offset == DmardlrOff then r.dmardlr
    else if offset == RxSampleDelayOff then r.rxSampleDelay
    else if offset == SpiCtrlr0Off then r.spiCtrlr0
    else 0
  }

  /** The registers a write stores as given. */
  predicate Plain(offset: nat)
  {
    offset == Ctrlr0Off || offset == Ctrlr1Off || offset == SerOff || offset == BaudrOff
    || offset == DmacrOff || offset == DmatdlrOff || offset == DmardlrOff
    || offset == RxSampleDelayOff || offset == SpiCtrlr0Off
  }

  /**
   * The register file after a write of `value` at `offset` (the data
   * window aside): only the register at `offset` may change; gated
   * registers keep their value while the controller is enabled; RXFTLR
   * takes only values up to the FIFO capacity and IMR only its seven
   * defined bits.
   */
  function Stored(r: Regs, enabled: bool, offset: nat, value: bv32): (s: Regs)
    ensures enabled && Gated(offset) ==> s == r
    ensures offset != Ctrlr0Off ==> s.ctrlr0 == r.ctrlr0
    ensures offset != Ctrlr1Off ==> s.ctrlr1 == r.ctrlr1
    ensures offset != SerOff ==> s.ser == r.ser
    ensures offset != BaudrOff ==> s.baudr == r.baudr
    ensures offset != TxftlrOff ==> s.txftlr == r.txftlr
    ensures offset != RxftlrOff ==> s.rxftlr == r.rxftlr
    ensures offset != ImrOff ==> s.imr == r.imr
    ensures offset != DmacrOff ==> s.dmacr == r.dmacr
    ensures offset != DmatdlrOff ==> s.dmatdlr == r.dmatdlr
    ensures offset != DmardlrOff ==> s.dmardlr == r.dmardlr
    ensures offset != RxSampleDelayOff ==> s.rxSampleDelay == r.rxSampleDelay
    ensures offset != SpiCtrlr0Off ==> s.spiCtrlr0 == r.spiCtrlr0
    ensures Plain(offset) && !(enabled && Gated(offset)) ==> Field(s, offset) == value
    ensures offset == TxftlrOff ==> s.txftlr == TxftlrWrite(r.txftlr, value)
    ensures offset == RxftlrOff ==> s.rxftlr == RxftlrWrite(r.rxftlr, value)
    ensures offset == ImrOff ==> s.imr == ImrWrite(value)
  {
    if Gated(offset) && enabled then r
    else if offset == Ctrlr0Off then r.(ctrlr0 := value)
    else if offset == Ctrlr1Off then r.(ctrlr1 := value)
    else if offset == SerOff then r.(ser := value)
    else if offset == BaudrOff then r.(baudr := value)
    else if offset == TxftlrOff then r.(txftlr := TxftlrWrite(r.txftlr, value))
    else if offset == RxftlrOff then r.(rxftlr := RxftlrWrite(r.rxftlr, value))
    else if offset == ImrOff then r.(imr := ImrWrite(value))
    else if offset == DmacrOff then r.(dmacr := value)
    else if offset == DmatdlrOff then r.(dmatdlr := value)
    else if offset == DmardlrOff then r.(dmardlr := value)
    else if offset == RxSampleDelayOff then r.(rxSampleDelay := value)
    else if offset == SpiCtrlr0Off then r.(spiCtrlr0 := value)
    else r
  }

  /** Whether a write starts a transfer: some word already went out since
    * the controller was enabled, or the TX level passed the start level. */
  predicate Triggers(txCount: nat, txLevel: nat, txftlr: bv32)
  {
    txCount != 0 || txLevel > Txfthr(txftlr)
  }

  /** The standard transfer on the link: drain, then in EEPROM read mode
    * fill. */
  function Normal(l: Link, tmod: bv32, frames: nat): Link
  {
    var t := Flush(l, tmod == TxAndRx);
    if tmod == EepromRead then Fill(t, frames) else t
  }

  /** Whether the enhanced transfer gets past its instruction and address
    * phase: already sent, or enough words queued for it. */
  predicate Started(l: Link, spi: bv32, sent: bool)
  {
    sent || |l.tx| >= Needed(spi)
  }

  /** The instruction and address phase, followed in RX_ONLY mode by the
    * wait cycles and the receive step. */
  function Prelude(l: Link, spi: bv32, tmod: bv32, frames: nat): Link
    requires ConsumedAsWritten(spi) <= |l.tx|
  {
    var f := Framed(l, spi);
    if tmod == RxOnly then Fill(f.(bus := SendAll(f.bus, Zeros(WaitCycles(spi)))), frames)
    else f
  }

  /** The enhanced transfer on the link. */
  function Enhanced(l: Link, spi: bv32, tmod: bv32, frames: nat, sent: bool): Link
    requires Started(l, spi, sent) && !sent ==> ConsumedAsWritten(spi) <= |l.tx|
  {
    if !Started(l, spi, sent) then l
    else
      var p := if sent then l else Prelude(l, spi, tmod, frames);
      if tmod == EepromRead || tmod == RxOnly then p else Flush(p, tmod == TxAndRx)
  }

  /**
   * Whether the FIFOs can take the transfer a data write starts: in the
   * enhanced transfer the instruction and address phase finds the words it
   * pops, and in TX_AND_RX mode the RX FIFO has room for every answer.
   */
  predicate Fits(l: Link, r: Regs, sent: bool)
  {
    var tmod := Tmod(r.ctrlr0);
    if SpiFrf(r.ctrlr0) == 0 then
      tmod == TxAndRx ==> |l.rx| + |l.tx| <= Capacity
    else
      (Started(l, r.spiCtrlr0, sent) && !sent ==> ConsumedAsWritten(r.spiCtrlr0) <= |l.tx|) &&
      (Started(l, r.spiCtrlr0, sent) && tmod == TxAndRx ==>
         |l.rx| + |l.tx| <= Capacity + (if sent then 0 else ConsumedAsWritten(r.spiCtrlr0)))
  }

  /** The transfer a data write starts: standard when CTRLR0.SPI_FRF is
    * zero, enhanced otherwise. */
  function Xfer(l: Link, r: Regs, sent: bool): Link
    requires Fits(l, r, sent)
  {
    var frames := Ndf(r.ctrlr1) + 1;
    if SpiFrf(r.ctrlr0) == 0 then Normal(l, Tmod(r.ctrlr0), frames)
    else Enhanced(l, r.spiCtrlr0, Tmod(r.ctrlr0), frames, sent)
  }

  /**
   * The standard transfer sends every queued word in order and counts it;
   * in TX_ONLY mode it leaves the receive side alone, in TX_AND_RX mode it
   * queues one answer per word sent, and in EEPROM read mode it clocks in
   * after sending.
   */
  lemma NormalShape(l: Link, tmod: bv32, frames: nat)
    ensures var n := Normal(l, tmod, frames);
            n.tx == [] && n.txCount == l.txCount + |l.tx| &&
            Starts(n.bus, l.bus.sent + l.tx) &&
            (tmod == TxOnly ==>
               n.rx == l.rx && n.rxCount == l.rxCount && n.bus == SendAll(l.bus, l.tx)) &&
            (tmod == TxAndRx ==>
               n.rx == l.rx + Replies(l.bus.answers, |l.tx|) && n.bus == SendAll(l.bus, l.tx))
  {
    var t := Flush(l, tmod == TxAndRx);
    FlushShape(l, tmod == TxAndRx);
    assert Starts(t.bus, l.bus.sent + l.tx);
    if tmod == EepromRead {
      FillShape(t, frames);
      StartsAfter(t.bus, l.bus.sent + l.tx, Zeros(Room(t, frames)));
    }
  }

  /**
   * Once the enhanced transfer starts, the instruction and address words
   * go out before anything else; in the receive modes the data words stay
   * queued, otherwise they follow on the bus and the TX FIFO is drained.
   */
  lemma EnhancedFramesFirst(l: Link, spi: bv32, tmod: bv32, frames: nat)
    requires Needed(spi) <= |l.tx| && ConsumedAsWritten(spi) <= |l.tx|
    ensures var e := Enhanced(l, spi, tmod, frames, false);
            var frame := FrameWords(spi, l.tx);
            Starts(e.bus, l.bus.sent + frame) &&
            (tmod == EepromRead || tmod == RxOnly ==> e.tx == l.tx[ConsumedAsWritten(spi)..]) &&
            (tmod != EepromRead && tmod != RxOnly ==>
               e.tx == [] && e.bus.sent == l.bus.sent + frame + l.tx[ConsumedAsWritten(spi)..])
  {
    var frame := FrameWords(spi, l.tx);
    var f := Framed(l, spi);
    assert Starts(f.bus, l.bus.sent + frame);
    if tmod == RxOnly {
      var w := f.(bus := SendAll(f.bus, Zeros(WaitCycles(spi))));
      StartsAfter(f.bus, l.bus.sent + frame, Zeros(WaitCycles(spi)));
      FillShape(w, frames);
      StartsAfter(w.bus, l.bus.sent + frame, Zeros(Room(w, frames)));
    } else if tmod != EepromRead {
      FlushShape(f, tmod == TxAndRx);
    }
  }

  /** Whether the transfer runs the transmit step. */
  predicate Transmits(l: Link, ctrlr0: bv32, spi: bv32, sent: bool)
  {
    var tmod := Tmod(ctrlr0);
    SpiFrf(ctrlr0) == 0 || (Started(l, spi, sent) && tmod != EepromRead && tmod != RxOnly)
  }

  /** Whether the transfer runs the receive step. */
  predicate Receives(l: Link, ctrlr0: bv32, spi: bv32, sent: bool)
  {
    var tmod := Tmod(ctrlr0);
    if SpiFrf(ctrlr0) == 0 then tmod == EepromRead
    else Started(l, spi, sent) && !sent && tmod == RxOnly
  }

  class Ssi {
    var enable: bool
    var instAddrSent: bool
    var tx: seq<bv32>
    var rx: seq<bv32>
    var txCount: nat
    var rxCount: nat
    var bus: Bus
    var regs: Regs
    var risr: bv32
    var irq: bool
    var txDma: bool
    var rxDma: bool
    /** The chip-select output: high deselects the flash. */
    var csHigh: bool

    /** A controller as realized: every register zero, both FIFOs empty,
      * no output line raised, and the flash on the bus answering with
      * `answers`. */
    constructor(answers: seq<bv32>)
      ensures Valid() && !enable && Emptied()
      ensures regs == Regs(0, 0, 0, 0, 0, 0, 0, 0, 0, 0, 0, 0) && risr == 0
      ensures !irq && !txDma && !rxDma && !csHigh
      ensures bus == Bus([], answers)
    {
      enable, instAddrSent := false, false;
      tx, rx, txCount, rxCount := [], [], 0, 0;
      bus := Bus([], answers);
      regs := Regs(0, 0, 0, 0, 0, 0, 0, 0, 0, 0, 0, 0);
      risr := 0;
      irq, txDma, rxDma, csHigh := false, false, false, false;
    }

    /** Neither FIFO holds more than its capacity. */
    predicate Valid()
      reads this`tx, this`rx
    {
      |tx| <= Capacity && |rx| <= Capacity
    }

    function Link(): Link
      reads this`tx, this`rx, this`txCount, this`rxCount, this`bus
    {
      SsiLink.Link(tx, rx, txCount, rxCount, bus)
    }

    /** In TX_AND_RX mode every word sent brings one back. */
    function Echo(): bool
      reads this`regs
    {
      Tmod(regs.ctrlr0) == TxAndRx
    }

    /** The receive step stops once NDF + 1 words have come in. */
    function Frames(): nat
      reads this`regs
    {
      Ndf(regs.ctrlr1) + 1
    }

    /** Both DMA request lines as the current levels and settings give. */
    predicate DmaLines()
      reads this`tx, this`rx, this`regs, this`txDma, this`rxDma
    {
      txDma == TxDmaOf(|tx|, regs.dmatdlr, regs.dmacr) && rxDma == RxDmaOf(|rx|, regs.dmacr)
    }

    /** The value a read returns at an offset whose read changes nothing. */
    function Peek(offset: nat): bv32
      requires Valid()
      reads this
    {
      if offset == SsienrOff then B(enable, 1)
      else if offset == TxflrOff then |tx| as bv32
      else if offset == RxflrOff then |rx| as bv32
      else if offset == SrOff then Status(|tx|, |rx|)
      else if offset == IsrOff then regs.imr & risr
      else if offset == RisrOff then risr
      else if offset == IdrOff then IdCode
      else if offset == VersionOff then VersionId
      else Field(regs, offset)
    }

    /** `_dwc_ssi_update_irq`. */
    method UpdateIrq()
      modifies this`irq
      ensures irq == IrqOf(risr, old(regs.imr))
    {
      irq := IrqOf(risr, regs.imr);
    }

    /** `_dwc_ssi_update_dma`. */
    method UpdateDma()
      modifies this`txDma, this`rxDma
      ensures DmaLines()
    {
      txDma := TxDmaOf(|tx|, regs.dmatdlr, regs.dmacr);
      rxDma := RxDmaOf(|rx|, regs.dmacr);
    }

    /** One word on the bus: `ssi_transfer`. */
    method Transfer(w: bv32) returns (a: bv32)
      modifies this`bus
      ensures bus == SendAll(old(bus), [w]) && a == Answer(old(bus))
    {
      a := Answer(bus);
      bus := SendAll(bus, [w]);
    }

    /** The oldest TX word, removed. */
    method Pop() returns (w: bv32)
      requires tx != []
      modifies this`tx
      ensures w == old(tx)[0] && tx == old(tx)[1..]
    {
      w := tx[0];
      tx := tx[1..];
    }

    /** `_dwc_ssi_tx`: drains the TX FIFO onto the bus, in TX_AND_RX mode
      * queueing every answer for reception, then raises TXEIR. */
    method Tx()
      requires Valid() && (Echo() ==> |rx| + |tx| <= Capacity)
      modifies this`tx, this`rx, this`txCount, this`rxCount, this`bus, this`risr, this`irq,
               this`txDma, this`rxDma
      ensures Valid()
      ensures Link() == Flush(old(Link()), old(Echo()))
      ensures risr == Raise(old(risr), Txeir)
      ensures irq == IrqOf(risr, old(regs.imr))
      ensures DmaLines()
    {
      hide Flush, Fill, SendAll, Answer, Raise, IrqOf, TxDmaOf, RxDmaOf;
      Drain();
      risr := Raise(risr, Txeir);
      UpdateIrq();
      UpdateDma();
    }

    /** The loop of `_dwc_ssi_tx`. */
    method Drain()
      requires Valid() && (Echo() ==> |rx| + |tx| <= Capacity)
      modifies this`tx, this`rx, this`txCount, this`rxCount, this`bus
      ensures Valid()
      ensures Link() == Flush(old(Link()), old(Echo()))
    {
      hide Flush, SendAll, Answer;
      var echo := Tmod(regs.ctrlr0) == TxAndRx;
      ghost var goal := Flush(Link(), echo);
      while tx != []
        invariant |rx| <= Capacity && (echo ==> |rx| + |tx| <= Capacity)
        invariant Flush(Link(), echo) == goal
        decreases |tx|
      {
        ghost var before := Link();
        FlushStep(before, echo);
        var w := Pop();
        var a := Transfer(w);
        txCount := txCount + 1;
        if echo {
          rx := rx + [a];
          rxCount := rxCount + 1;
        }
        assert Link() == Shift(before, echo);
      }
      FlushStep(Link(), echo);
    }

    /** `_dwc_ssi_rx`: clocks words in while the RX FIFO has room and fewer
      * than NDF + 1 have been received, then raises RXFIR if the level is
      * above RXFTLR. */
    method Rx()
      requires Valid()
      modifies this`rx, this`rxCount, this`bus, this`risr, this`irq, this`txDma, this`rxDma
      ensures Valid()
      ensures Link() == Fill(old(Link()), old(Frames()))
      ensures risr == if Above(|rx|, old(regs.rxftlr)) then Raise(old(risr), Rxfir) else old(risr)
      ensures irq == if Above(|rx|, old(regs.rxftlr)) then IrqOf(risr, old(regs.imr)) else old(irq)
      ensures DmaLines()
    {
      hide Flush, Fill, SendAll, Answer, Raise, IrqOf, TxDmaOf, RxDmaOf, Above, Ndf, Tmod;
      Clock();
      RxSignal();
    }

    /** The tail of `_dwc_ssi_rx`: RXFIR and the interrupt line when the RX
      * level is above RXFTLR, then the DMA lines. */
    method RxSignal()
      modifies this`risr, this`irq, this`txDma, this`rxDma
      ensures risr == if Above(|rx|, regs.rxftlr) then Raise(old(risr), Rxfir) else old(risr)
      ensures irq == if Above(|rx|, regs.rxftlr) then IrqOf(risr, regs.imr) else old(irq)
      ensures DmaLines()
    {
      if Above(|rx|, regs.rxftlr) {
        risr := Raise(risr, Rxfir);
        UpdateIrq();
      }
      UpdateDma();
    }

    /** The loop of `_dwc_ssi_rx`. */
    method Clock()
      requires Valid()
      modifies this`rx, this`rxCount, this`bus
      ensures Valid()
      ensures Link() == Fill(old(Link()), old(Frames()))
    {
      hide Fill, SendAll, Answer;
      ghost var goal := Fill(Link(), Frames());
      while |rx| < Capacity && rxCount < Ndf(regs.ctrlr1) + 1
        invariant |rx| <= Capacity
        invariant Fill(Link(), Frames()) == goal
        decreases Capacity - |rx|
      {
        ghost var before := Link();
        FillStep(before, Frames());
        var a := Transfer(0);
        rxCount := rxCount + 1;
        rx := rx + [a];
        assert Link() == Take(before);
      }
      FillStep(Link(), Frames());
    }

    /** Sends the low `n` bytes of `w`, least significant first. */
    method SendLsbFirst(w: bv32, n: nat)
      requires n <= 4
      modifies this`bus
      ensures bus == SendAll(old(bus), InstBytes(w, n))
    {
      for i := 0 to n
        invariant bus == SendAll(old(bus), InstBytes(w, n)[..i])
      {
        var _ := Transfer(ByteOf(w, i));
        SendConcat(old(bus), InstBytes(w, n)[..i], [ByteOf(w, i)]);
        assert InstBytes(w, n)[..i + 1] == InstBytes(w, n)[..i] + [ByteOf(w, i)];
      }
      assert InstBytes(w, n)[..n] == InstBytes(w, n);
    }

    /** Sends the low `n` bytes of `w`, most significant first. */
    method SendMsbFirst(w: bv32, n: nat)
      requires n <= 4
      modifies this`bus
      ensures bus == SendAll(old(bus), AddrBytes(w, n))
    {
      var i: int := n - 1;
      assert AddrBytes(w, n)[..0] == [];
      SendNothing(old(bus));
      while i >= 0
        invariant -1 <= i < n
        invariant bus == SendAll(old(bus), AddrBytes(w, n)[..n - 1 - i])
        decreases i
      {
        var _ := Transfer(ByteOf(w, i));
        SendConcat(old(bus), AddrBytes(w, n)[..n - 1 - i], [ByteOf(w, i)]);
        assert AddrBytes(w, n)[..n - i] == AddrBytes(w, n)[..n - 1 - i] + [ByteOf(w, i)];
        i := i - 1;
      }
      assert AddrBytes(w, n)[..n] == AddrBytes(w, n);
    }

    /** Pops `k` TX words and sends each unchanged. */
    method SendWords(k: nat)
      requires k <= |tx|
      modifies this`tx, this`bus
      ensures tx == old(tx)[k..]
      ensures bus == SendAll(old(bus), old(tx)[..k])
    {
      assert old(tx)[..0] == [];
      SendNothing(old(bus));
      for i := 0 to k
        invariant tx == old(tx)[i..]
        invariant bus == SendAll(old(bus), old(tx)[..i])
      {
        var w := Pop();
        var _ := Transfer(w);
        SendConcat(old(bus), old(tx)[..i], [w]);
        assert old(tx)[..i + 1] == old(tx)[..i] + [w];
      }
    }

    /** Clocks `n` zero words out. */
    method SendZeros(n: nat)
      modifies this`bus
      ensures bus == SendAll(old(bus), Zeros(n))
    {
      assert Zeros(n)[..0] == [];
      SendNothing(old(bus));
      for i := 0 to n
        invariant bus == SendAll(old(bus), Zeros(n)[..i])
      {
        var _ := Transfer(0);
        SendConcat(old(bus), Zeros(n)[..i], [0]);
        assert Zeros(n)[..i + 1] == Zeros(n)[..i] + [0];
      }
      assert Zeros(n)[..n] == Zeros(n);
    }

    /** The instruction and address phase of `_dwc_ssi_enhance_xfer`. */
    method SendFrame(spi: bv32)
      requires ConsumedAsWritten(spi) <= |tx|
      modifies this`tx, this`bus
      ensures tx == old(tx)[ConsumedAsWritten(spi)..]
      ensures bus == SendAll(old(bus), FrameWords(spi, old(tx)))
    {
      var t := TransType(spi);
      if t == 0 || t == 1 {
        SendInstruction(spi);
        ghost var first := InstPart(spi, old(tx));
        ghost var rest := tx;
        SendAddress(spi);
        SendConcat(old(bus), first, AddrPart(spi, rest));
        FrameSplits(spi, old(tx));
      } else if t == 2 {
        var inst := Pop();
        var addr := Pop();
        var _ := Transfer(((inst & 0xFF) << 24) | (addr & 0xFF_FFFF));
        assert tx == old(tx)[2..];
      } else {
        SendNothing(old(bus));
        assert tx == old(tx)[0..];
      }
    }

    /** The instruction bytes of the standard and mixed framings. */
    method SendInstruction(spi: bv32)
      requires InstWords(spi) <= |tx|
      modifies this`tx, this`bus
      ensures tx == old(tx)[InstWords(spi)..]
      ensures bus == SendAll(old(bus), InstPart(spi, old(tx)))
    {
      if InstWords(spi) == 1 {
        var inst := Pop();
        SendLsbFirst(inst, InstByteCount(spi));
      } else {
        SendNothing(old(bus));
      }
    }

    /** The address of the standard and mixed framings: in standard framing
      * one word is popped and its low bytes sent unless the address takes
      * two words; otherwise the address words go out whole. */
    method SendAddress(spi: bv32)
      requires TransType(spi) <= 1 && AddrPops(spi) <= |tx|
      modifies this`tx, this`bus
      ensures tx == old(tx)[AddrPops(spi)..]
      ensures bus == SendAll(old(bus), AddrPart(spi, old(tx)))
    {
      if TransType(spi) == 0 && AddrWords(spi) <= 1 {
        var addr := Pop();
        SendMsbFirst(addr, AddrByteCount(spi));
      } else {
        SendWords(AddrWords(spi));
      }
    }

    /** `_dwc_ssi_normal_xfer`: the transmit step, then in EEPROM read mode
      * the receive step. */
    method NormalXfer()
      requires Valid() && (Echo() ==> |rx| + |tx| <= Capacity)
      modifies this`tx, this`rx, this`txCount, this`rxCount, this`bus, this`risr, this`irq,
               this`txDma, this`rxDma
      ensures Valid()
      ensures Link() == Normal(old(Link()), Tmod(old(regs.ctrlr0)), old(Frames()))
      ensures risr == Raised(old(risr), true, Tmod(old(regs.ctrlr0)) == EepromRead && Above(|rx|, old(regs.rxftlr)))
      ensures irq == IrqOf(risr, old(regs.imr))
      ensures DmaLines()
    {
      hide Tmod, Ndf, Above, Raise, IrqOf, TxDmaOf, RxDmaOf, Flush, Fill, SendAll, Answer;
      Tx();
      if Tmod(regs.ctrlr0) == EepromRead {
        Rx();
      }
    }

    /** `_dwc_ssi_enhance_xfer`: once enough words are queued, the
      * instruction and address phase (in RX_ONLY mode followed by the wait
      * cycles and the receive step); then, outside the EEPROM read and
      * RX_ONLY modes, the transmit step. */
    method EnhanceXfer()
      requires Valid() && SpiFrf(regs.ctrlr0) != 0
      requires Started(Link(), regs.spiCtrlr0, instAddrSent) && !instAddrSent ==>
        ConsumedAsWritten(regs.spiCtrlr0) <= |tx|
      requires Started(Link(), regs.spiCtrlr0, instAddrSent) && Echo() ==>
        |rx| + |tx| <= Capacity + (if instAddrSent then 0 else ConsumedAsWritten(regs.spiCtrlr0))
      modifies this`tx, this`rx, this`txCount, this`rxCount, this`bus, this`risr, this`irq,
               this`txDma, this`rxDma, this`instAddrSent
      ensures Valid()
      ensures instAddrSent == Started(old(Link()), old(regs.spiCtrlr0), old(instAddrSent))
      ensures Link() == Enhanced(old(Link()), old(regs.spiCtrlr0), Tmod(old(regs.ctrlr0)), old(Frames()), old(instAddrSent))
      ensures var tx := Transmits(old(Link()), old(regs.ctrlr0), old(regs.spiCtrlr0), old(instAddrSent));
              var rxf := Receives(old(Link()), old(regs.ctrlr0), old(regs.spiCtrlr0), old(instAddrSent)) &&
                         Above(|rx|, old(regs.rxftlr));
              risr == Raised(old(risr), tx, rxf) &&
              irq == (if tx || rxf then IrqOf(risr, old(regs.imr)) else old(irq))
      ensures if Transmits(old(Link()), old(regs.ctrlr0), old(regs.spiCtrlr0), old(instAddrSent)) ||
                 Receives(old(Link()), old(regs.ctrlr0), old(regs.spiCtrlr0), old(instAddrSent))
              then DmaLines() else txDma == old(txDma) && rxDma == old(rxDma)
    {
      hide Tmod, Ndf, Above, Raise, IrqOf, TxDmaOf, RxDmaOf, Flush, Fill, SendAll, Answer,
           Replies, Zeros, ConsumedAsWritten, Needed, TransType, AddrL, InstL, WaitCycles, AddrWords,
           InstWords, FrameWords, Prelude;
      var tmod := Tmod(regs.ctrlr0);
      if !instAddrSent {
        if |tx| < Needed(regs.spiCtrlr0) {
          return;
        }
        Prologue();
      }
      if tmod == EepromRead || tmod == RxOnly {
        return;
      }
      Tx();
    }

    /** The instruction and address phase of `_dwc_ssi_enhance_xfer`, with
      * the wait cycles and the receive step that follow it in RX_ONLY
      * mode. */
    method Prologue()
      requires Valid() && !instAddrSent && ConsumedAsWritten(regs.spiCtrlr0) <= |tx|
      modifies this`tx, this`rx, this`rxCount, this`bus, this`risr, this`irq, this`txDma,
               this`rxDma, this`instAddrSent
      ensures Valid() && instAddrSent && txCount == old(txCount)
      ensures |tx| == |old(tx)| - ConsumedAsWritten(old(regs.spiCtrlr0))
      ensures Tmod(old(regs.ctrlr0)) != RxOnly ==> rx == old(rx)
      ensures Link() == Prelude(old(Link()), old(regs.spiCtrlr0), Tmod(old(regs.ctrlr0)), old(Frames()))
      ensures var rxf := Tmod(old(regs.ctrlr0)) == RxOnly && Above(|rx|, old(regs.rxftlr));
              risr == (if rxf then Raise(old(risr), Rxfir) else old(risr)) &&
              irq == (if rxf then IrqOf(risr, old(regs.imr)) else old(irq))
      ensures if Tmod(old(regs.ctrlr0)) == RxOnly then DmaLines()
              else txDma == old(txDma) && rxDma == old(rxDma)
    {
      hide Tmod, Ndf, Above, Raise, IrqOf, TxDmaOf, RxDmaOf, Flush, Fill, SendAll, Answer,
           Replies, Zeros, ConsumedAsWritten, Needed, TransType, AddrL, InstL, WaitCycles, AddrWords,
           InstWords, FrameWords, Framed;
      Frame();
      instAddrSent := true;
      if Tmod(regs.ctrlr0) == RxOnly {
        Wait();
      }
    }

    /** The instruction and address words on the link. */
    method Frame()
      requires ConsumedAsWritten(regs.spiCtrlr0) <= |tx|
      modifies this`tx, this`bus
      ensures Link() == Framed(old(Link()), old(regs.spiCtrlr0))
      ensures |tx| == |old(tx)| - ConsumedAsWritten(old(regs.spiCtrlr0))
    {
      SendFrame(regs.spiCtrlr0);
    }

    /** The wait cycles of RX_ONLY mode, then the receive step. */
    method Wait()
      requires Valid()
      modifies this`rx, this`rxCount, this`bus, this`risr, this`irq, this`txDma, this`rxDma
      ensures Valid()
      ensures Link() == Fill(old(Link()).(bus := SendAll(old(bus), Zeros(WaitCycles(old(regs.spiCtrlr0))))),
                             old(Frames()))
      ensures risr == if Above(|rx|, old(regs.rxftlr)) then Raise(old(risr), Rxfir) else old(risr)
      ensures irq == if Above(|rx|, old(regs.rxftlr)) then IrqOf(risr, old(regs.imr)) else old(irq)
      ensures DmaLines()
    {
      SendZeros(WaitCycles(regs.spiCtrlr0));
      Rx();
    }

    /** The transfer a data write starts: standard when CTRLR0.SPI_FRF is
      * zero, enhanced otherwise. */
    method StartXfer()
      requires Valid() && Fits(Link(), regs, instAddrSent)
      modifies this`tx, this`rx, this`txCount, this`rxCount, this`bus, this`risr, this`irq,
               this`txDma, this`rxDma, this`instAddrSent
      ensures Valid()
      ensures Link() == Xfer(old(Link()), old(regs), old(instAddrSent))
      ensures instAddrSent
           == (old(instAddrSent) || (SpiFrf(old(regs.ctrlr0)) != 0 && Started(old(Link()), old(regs.spiCtrlr0), false)))
      ensures var tx := Transmits(old(Link()), old(regs.ctrlr0), old(regs.spiCtrlr0), old(instAddrSent));
              var rx := Receives(old(Link()), old(regs.ctrlr0), old(regs.spiCtrlr0), old(instAddrSent));
              var rxf := rx && Above(|this.rx|, old(regs.rxftlr));
              risr == Raised(old(risr), tx, rxf) &&
              irq == (if tx || rxf then IrqOf(risr, old(regs.imr)) else old(irq)) &&
              if tx || rx then DmaLines() else txDma == old(txDma) && rxDma == old(rxDma)
    {
      hide Tmod, Ndf, Above, Raise, Raised, IrqOf, TxDmaOf, RxDmaOf, Flush, Fill, SendAll, Answer,
           Replies, Zeros, ConsumedAsWritten, Needed, TransType, AddrL, InstL, WaitCycles, AddrWords,
           InstWords, FrameWords, Prelude, Normal, Enhanced;
      if SpiFrf(regs.ctrlr0) == 0 {
        NormalXfer();
      } else {
        EnhanceXfer();
      }
    }

    /** A write to the data window: push the word onto the TX FIFO and, once
      * the start level is passed (or a transfer already ran since the
      * controller was enabled), start a transfer. */
    method WriteData(value: bv32)
      requires Valid() && |tx| < Capacity
      requires Triggers(txCount, |tx| + 1, regs.txftlr) ==>
        Fits(Link().(tx := tx + [value]), regs, instAddrSent)
      modifies this`tx, this`rx, this`txCount, this`rxCount, this`bus, this`risr, this`irq,
               this`txDma, this`rxDma, this`instAddrSent
      ensures Valid()
      ensures var l := old(Link()).(tx := old(tx) + [value]);
              var go := Triggers(old(txCount), |l.tx|, old(regs.txftlr));
              Link() == (if go then Xfer(l, old(regs), old(instAddrSent)) else l) &&
              instAddrSent == (old(instAddrSent) ||
                               (go && SpiFrf(old(regs.ctrlr0)) != 0 && Started(l, old(regs.spiCtrlr0), false)))
      ensures var l := old(Link()).(tx := old(tx) + [value]);
              var go := Triggers(old(txCount), |l.tx|, old(regs.txftlr));
              var tx := go && Transmits(l, old(regs.ctrlr0), old(regs.spiCtrlr0), old(instAddrSent));
              var rx := go && Receives(l, old(regs.ctrlr0), old(regs.spiCtrlr0), old(instAddrSent));
              var rxf := rx && Above(|this.rx|, old(regs.rxftlr));
              risr == Raised(old(risr), tx, rxf) &&
              irq == (if tx || rxf then IrqOf(risr, old(regs.imr)) else old(irq)) &&
              if tx || rx then DmaLines() else txDma == old(txDma) && rxDma == old(rxDma)
    {
      hide Tmod, Ndf, Above, Raise, Raised, IrqOf, TxDmaOf, RxDmaOf, Flush, Fill, SendAll, Answer,
           Replies, Zeros, ConsumedAsWritten, Needed, TransType, AddrL, InstL, WaitCycles, AddrWords,
           InstWords, FrameWords, Prelude, Normal, Enhanced, Xfer, Fits, Transmits, Receives;
      tx := tx + [value];
      if txCount != 0 || |tx| > Txfthr(regs.txftlr) {
        StartXfer();
      }
    }

    /** A read of any offset outside the data window (`_dwc_ssi_read`):
      * the interrupt-clear registers return their RISR bit as 0 or 1,
      * clear it and drive the interrupt line; every other offset returns
      * its value and changes nothing. */
    method Read(offset: nat) returns (v: bv32)
      requires Valid() && !IsData(offset)
      modifies this`risr, this`irq
      ensures ClearOnRead(offset) ==>
        v == B(old(risr) & ClearedBit(offset) != 0, 1) &&
        risr == old(risr) & !ClearedBit(offset) && irq == IrqOf(risr, old(regs.imr))
      ensures !ClearOnRead(offset) ==> v == old(Peek(offset)) && risr == old(risr) && irq == old(irq)
    {
      if ClearOnRead(offset) {
        var bit := ClearedBit(offset);
        v := B(risr & bit != 0, 1);
        risr := risr & !bit;
        UpdateIrq();
      } else {
        v := Peek(offset);
      }
    }

    /** A read of the data window: nothing in TX_ONLY mode; otherwise the
      * receive step, then the oldest RX word, popped.  The DMA lines keep
      * the levels the receive step left. */
    method ReadData() returns (v: bv32)
      requires Valid()
      requires Tmod(regs.ctrlr0) != TxOnly ==> rx != [] || rxCount < Frames()
      modifies this`rx, this`rxCount, this`bus, this`risr, this`irq, this`txDma, this`rxDma
      ensures Valid()
      ensures Tmod(old(regs.ctrlr0)) == TxOnly ==>
        v == 0 && Link() == old(Link()) && risr == old(risr) && irq == old(irq) &&
        txDma == old(txDma) && rxDma == old(rxDma)
      ensures Tmod(old(regs.ctrlr0)) != TxOnly ==>
        var f := Fill(old(Link()), old(Frames()));
        f.rx != [] && v == f.rx[0] && Link() == f.(rx := f.rx[1..]) &&
        v == (if old(rx) != [] then old(rx)[0] else Answer(old(bus))) &&
        risr == (if Above(|f.rx|, old(regs.rxftlr)) then Raise(old(risr), Rxfir) else old(risr)) &&
        irq == (if Above(|f.rx|, old(regs.rxftlr)) then IrqOf(risr, old(regs.imr)) else old(irq)) &&
        txDma == TxDmaOf(|tx|, old(regs.dmatdlr), old(regs.dmacr)) && rxDma == RxDmaOf(|f.rx|, old(regs.dmacr))
    {
      hide Tmod, Ndf, Above, Raise, IrqOf, TxDmaOf, RxDmaOf, Flush, SendAll, Answer,
           Replies, Zeros;
      if Tmod(regs.ctrlr0) == TxOnly {
        return 0;
      }
      FillStops(Link(), Frames());
      FillFront(Link(), Frames());
      Rx();
      v := rx[0];
      rx := rx[1..];
    }

    /** A write of any offset outside the data window (`_dwc_ssi_write`):
      * the register file as `Stored` gives; SSIENR switches the controller,
      * clearing both FIFOs and the counters when it turns off; SER and
      * SSIENR drive the chip select; the DMA settings drive the DMA lines;
      * TXFTLR and every offset the write does not handle drive the
      * interrupt line. */
    method Write(offset: nat, value: bv32)
      requires Valid() && !IsData(offset)
      modifies this`enable, this`tx, this`rx, this`txCount, this`rxCount, this`instAddrSent,
               this`regs, this`irq, this`txDma, this`rxDma, this`csHigh
      ensures Valid()
      ensures regs == Stored(old(regs), old(enable), offset, value)
      ensures enable == if offset == SsienrOff then value & 1 == 1 else old(enable)
      ensures if offset == SsienrOff && value & 1 == 0 then Emptied()
              else tx == old(tx) && rx == old(rx) && txCount == old(txCount) &&
                   rxCount == old(rxCount) && instAddrSent == old(instAddrSent)
      ensures csHigh == if offset == SsienrOff then value & 1 == 0 || old(regs.ser) & 1 == 0
                        else if offset == SerOff then value & 1 == 0
                        else old(csHigh)
      ensures irq == if Handled(offset) then old(irq) else IrqOf(old(risr), regs.imr)
      ensures if DmaSetting(offset) then DmaLines()
              else txDma == old(txDma) && rxDma == old(rxDma)
    {
      if offset == SsienrOff {
        SetEnable(value);
      } else {
        Configure(offset, value);
      }
    }

    /** A write outside SSIENR and the data window. */
    method Configure(offset: nat, value: bv32)
      requires offset != SsienrOff && !IsData(offset)
      modifies this`regs, this`irq, this`txDma, this`rxDma, this`csHigh
      ensures regs == Stored(old(regs), enable, offset, value)
      ensures csHigh == if offset == SerOff then value & 1 == 0 else old(csHigh)
      ensures irq == if Handled(offset) then old(irq) else IrqOf(risr, regs.imr)
      ensures if DmaSetting(offset) then DmaLines()
              else txDma == old(txDma) && rxDma == old(rxDma)
    {
      Program(offset, value);
      Signal(offset, value);
    }

    /** The output lines a write outside SSIENR and the data window drives,
      * from the registers it has just stored. */
    method Signal(offset: nat, value: bv32)
      modifies this`irq, this`txDma, this`rxDma, this`csHigh
      ensures csHigh == if offset == SerOff then value & 1 == 0 else old(csHigh)
      ensures irq == if Handled(offset) then old(irq) else IrqOf(risr, old(regs.imr))
      ensures if DmaSetting(offset) then DmaLines()
              else txDma == old(txDma) && rxDma == old(rxDma)
    {
      if offset == SerOff {
        csHigh := value & 1 == 0;
      }
      if DmaSetting(offset) {
        UpdateDma();
      } else if !Handled(offset) {
        UpdateIrq();
      }
    }

    /** An SSIENR write. */
    method SetEnable(value: bv32)
      modifies this`enable, this`tx, this`rx, this`txCount, this`rxCount, this`instAddrSent,
               this`csHigh
      ensures enable == (value & 1 == 1)
      ensures old(Valid()) ==> Valid()
      ensures if !enable then Emptied() && csHigh
              else tx == old(tx) && rx == old(rx) && txCount == old(txCount) &&
                   rxCount == old(rxCount) && instAddrSent == old(instAddrSent) &&
                   csHigh == (old(regs.ser) & 1 == 0)
    {
      enable := value & 1 == 1;
      if enable {
        csHigh := regs.ser & 1 == 0;
      } else {
        tx := [];
        rx := [];
        rxCount := 0;
        txCount := 0;
        instAddrSent := false;
        csHigh := true;
      }
    }

    /** The register-file part of a write outside SSIENR and the data
      * window. */
    method Program(offset: nat, value: bv32)
      requires offset != SsienrOff && !IsData(offset)
      modifies this`regs
      ensures regs == Stored(old(regs), enable, offset, value)
    {
      regs := Stored(regs, enable, offset, value);
    }

    /** Both FIFOs empty, both counters zero and no prologue sent: the state
      * an SSIENR write of 0 and a reset leave. */
    predicate Emptied()
      reads this`tx, this`rx, this`txCount, this`rxCount, this`instAddrSent
    {
      tx == [] && rx == [] && txCount == 0 && rxCount == 0 && !instAddrSent
    }

    /** `_dwc_ssi_reset`: the controller off, both FIFOs and the counters
      * cleared, DMA disabled; the other registers and the output lines
      * keep their values. */
    method Reset()
      modifies this`enable, this`tx, this`rx, this`txCount, this`rxCount, this`instAddrSent,
               this`regs
      ensures !enable && Emptied() && Valid()
      ensures regs == old(regs).(dmacr := 0, dmatdlr := 0, dmardlr := 0)
    {
      enable := false;
      tx := [];
      rx := [];
      rxCount := 0;
      txCount := 0;
      instAddrSent := false;
      regs := regs.(dmacr := 0, dmatdlr := 0, dmardlr := 0);
    }
  }
}
