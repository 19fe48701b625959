/**
 * The DesignWare APB UART: the 16-entry receive ring, the divisor latch
 * behind LCR bit 7, the interrupt identity kept in IIR and the three output
 * lines (interrupt, transmit-DMA and receive-DMA requests).  Bytes the guest
 * transmits are appended to `sent`, which stands for the character backend.
 *
 * LSR and USR are kept as the status bits the device sets and clears, and
 * IIR as its identity field: the device never touches their other bits, so
 * the register words are functions of these fields.
 */
module DwUart {
  import RingWindow

  const FifoDepth: nat := 16

  /** LSR bits. */
  const LsrTemt: bv32 := 0x40
  const LsrThre: bv32 := 0x20
  const LsrOe: bv32 := 0x2
  const LsrDr: bv32 := 0x1
  /** USR bits; the transmit side has no FIFO, so TFE and TFNF always read set. */
  const UsrRff: bv32 := 0x10
  const UsrRfne: bv32 := 0x8
  const UsrTfe: bv32 := 0x4
  const UsrTfnf: bv32 := 0x2
  /** LCR bit 7 switches offsets 0x00 and 0x04 to the divisor latch. */
  const Dlab: bv32 := 0x80

  const CprValue: bv32 := 0x020002
  const UcvValue: bv32 := 0x3230312A
  const CtrValue: bv32 := 0x44570110

  function B(b: bool, bit: bv32): bv32 { if b then bit else 0 }

  datatype Option<T> = None | Some(value: T)

  /** The interrupt identities IIR reports in bits 0-3. */
  datatype Identity = NoInterrupt | ThrEmpty | RxAvailable

  function Code(id: Identity): (c: bv32)
    ensures c & !0xF == 0
  {
    match id
    case NoInterrupt => 0x1
    case ThrEmpty => 0x2
    case RxAvailable => 0x4
  }

  /** The identity a code stands for, if any. */
  function Decode(c: bv32): (id: Option<Identity>)
    ensures id.Some? ==> Code(id.value) == c
  {
    if c == 0x1 then Some(NoInterrupt)
    else if c == 0x2 then Some(ThrEmpty)
    else if c == 0x4 then Some(RxAvailable)
    else None
  }

  /** Every identity has its own code. */
  lemma CodeRoundTrip(id: Identity)
    ensures Decode(Code(id)) == Some(id)
  {
  }

  /** The interrupt line: THR-empty with IER bit 1, or received data with
    * IER bit 0. */
  function IrqLevel(id: Identity, ier: bv32): bool
  {
    (id == ThrEmpty && ier & 0x2 != 0) || (id == RxAvailable && ier & 0x1 != 0)
  }

  /** No pending identity keeps the line low, and a pending one raises it
    * exactly when its enable bit is set. */
  lemma IrqNeedsIdentityAndEnable(id: Identity, ier: bv32)
    ensures id == NoInterrupt ==> !IrqLevel(id, ier)
    ensures id == ThrEmpty ==> (IrqLevel(id, ier) <==> ier & 0x2 != 0)
    ensures id == RxAvailable ==> (IrqLevel(id, ier) <==> ier & 0x1 != 0)
    ensures ier & 0x3 == 0 ==> !IrqLevel(id, ier)
  {
  }

  /** The receive trigger level FCR selects: 1, 4, 8 or 14 entries by
    * bits 6-7 with the FIFO on, one entry with it off. */
  function RxTrigger(fcr: bv32): (t: nat)
    ensures t == 1 || t == 4 || t == 8 || t == 14
    ensures fcr & 1 == 0 ==> t == 1
  {
    if fcr & 1 == 0 then 1
    else
      var sel := (fcr >> 6) & 3;
      if sel == 0 then 1 else if sel == 1 then 4 else if sel == 2 then 8 else 14
  }

  /** With the FIFO on, FCR bits 6-7 index the level table. */
  lemma RxTriggerTable(fcr: bv32)
    requires fcr & 1 != 0
    ensures RxTrigger(fcr) == [1, 4, 8, 14][((fcr >> 6) & 3) as nat]
  {
    var sel := (fcr >> 6) & 3;
    assert sel == 0 || sel == 1 || sel == 2 || sel == 3;
  }

  /** A larger selector never gives a lower trigger level. */
  lemma RxTriggerMonotone(f1: bv32, f2: bv32)
    requires f1 & 1 != 0 && f2 & 1 != 0
    requires (f1 >> 6) & 3 <= (f2 >> 6) & 3
    ensures RxTrigger(f1) <= RxTrigger(f2)
  {
  }

  /** The LSR word the status bits make up. */
  function LsrWord(temt: bool, thre: bool, oe: bool, dr: bool): (w: bv32)
    ensures (w & LsrDr != 0) == dr && (w & LsrOe != 0) == oe
    ensures (w & LsrThre != 0) == thre && (w & LsrTemt != 0) == temt
    ensures w & !0x63 == 0
  {
    B(temt, LsrTemt) | B(thre, LsrThre) | B(oe, LsrOe) | B(dr, LsrDr)
  }

  /** The USR word the receive-FIFO bits make up. */
  function UsrWord(rff: bool, rfne: bool): (w: bv32)
    ensures (w & UsrRff != 0) == rff && (w & UsrRfne != 0) == rfne
    ensures w & (UsrTfe | UsrTfnf) == UsrTfe | UsrTfnf
    ensures w & !0x1E == 0
  {
    B(rff, UsrRff) | B(rfne, UsrRfne) | UsrTfe | UsrTfnf
  }

  class DwApbUart {
    var dll: bv32
    var dlh: bv32
    var ier: bv32
    /** IIR's identity field. */
    var iid: Identity
    var fcr: bv32
    var lcr: bv32
    var mcr: bv32
    var msr: bv32
    /** LSR: transmitter empty, holding register empty, overrun, data ready. */
    var temt: bool
    var thre: bool
    var oe: bool
    var dr: bool
    /** USR: receive FIFO full and not empty. */
    var rff: bool
    var rfne: bool
    const rxFifo: array<bv32>
    var rxPos: nat
    var rxCount: nat
    var rxTrigger: nat
    /** The output lines as last driven. */
    var irq: bool
    var txDma: bool
    var rxDma: bool
    /** Everything written to the character backend, oldest first. */
    var sent: seq<bv8>

    /** The ring is within bounds, a FIFO-less UART holds no count, the
      * trigger level follows FCR, and the lines follow the registers. */
    predicate Valid()
      reads this
    {
      rxFifo.Length == FifoDepth && rxPos < FifoDepth && rxCount <= FifoDepth
      && (fcr & 1 == 0 ==> rxCount == 0)
      && rxTrigger == RxTrigger(fcr)
      && irq == IrqLevel(iid, ier) && rxDma == dr
    }

    /** The received entries not yet read, oldest first. */
    function Queue(): (q: seq<bv32>)
      requires Valid()
      reads this, rxFifo
      ensures |q| == rxCount
    {
      RingWindow.Window(rxFifo[..], rxPos, rxCount)
    }

    function Iir(): bv32
      reads this
    {
      Code(iid)
    }

    function Lsr(): bv32
      reads this
    {
      LsrWord(temt, thre, oe, dr)
    }

    function Usr(): bv32
      reads this
    {
      UsrWord(rff, rfne)
    }

    /** `_dw_apb_uart_init`: the reset register values. */
    constructor ()
      ensures Valid() && fresh(rxFifo)
      ensures Queue() == [] && rxTrigger == 1
      ensures dlh == 0x4 && Iir() == 0x1 && Lsr() == 0x60 && Usr() == 0x6
      ensures dll == 0 && ier == 0 && fcr == 0 && lcr == 0 && mcr == 0 && msr == 0
      ensures !irq && !rxDma && !txDma && sent == []
    {
      dll, dlh, ier, iid, fcr, lcr, mcr, msr := 0, 0x4, 0, NoInterrupt, 0, 0, 0, 0;
      temt, thre, oe, dr, rff, rfne := true, true, false, false, false, false;
      rxFifo := new bv32[FifoDepth](_ => 0);
      rxPos, rxCount, rxTrigger := 0, 0, 1;
      irq, txDma, rxDma := false, false, false;
      sent := [];
    }

    /** `_dw_apb_uart_update`: drive the three lines from the registers. */
    method Update()
      modifies this`irq, this`txDma, this`rxDma
      ensures irq == IrqLevel(iid, ier) && txDma && rxDma == dr
    {
      irq := IrqLevel(iid, ier);
      txDma := true;
      rxDma := dr;
    }

    /** `_dw_apb_uart_can_receive`: room for one more entry. */
    function CanReceive(): (r: bool)
      requires Valid()
      reads this
      ensures fcr & 1 != 0 ==> (r <==> rxCount < FifoDepth)
      ensures fcr & 1 == 0 ==> r
    {
      if fcr & 1 != 0 then rxCount < 16 else rxCount < 1
    }

    /** `_dw_apb_uart_receive` for a backend that honours `CanReceive`:
      * only the first byte of `buf` is taken.  A byte arriving while RFF
      * is set flags an overrun. */
    method Receive(buf: seq<bv8>)
      requires Valid()
      requires |buf| > 0 ==> CanReceive()
      modifies this`oe, this`dr, this`rff, this`rfne, this`iid, this`rxCount
      modifies this`irq, this`txDma, this`rxDma, rxFifo
      ensures Valid()
      ensures |buf| == 0 ==> unchanged(this) && unchanged(rxFifo)
      ensures |buf| > 0 && fcr & 1 != 0 ==>
        Queue() == old(Queue()) + [buf[0] as bv32] && rff == (old(rff) || rxCount == FifoDepth)
      ensures |buf| > 0 && fcr & 1 == 0 ==>
        rxFifo[..] == old(rxFifo[..])[0 := buf[0] as bv32] && rff && Queue() == []
      ensures |buf| > 0 ==>
        dr && rfne && iid == RxAvailable && oe == (old(oe) || old(rff))
    {
      if |buf| < 1 {
        return;
      }
      if fcr & 1 == 0 {
        ReceiveHolding(buf[0]);
      } else {
        ReceiveFifo(buf[0]);
      }
    }

    /** Receiving with the FIFO off replaces the holding register. */
    method ReceiveHolding(b: bv8)
      requires Valid() && fcr & 1 == 0
      modifies this`oe, this`dr, this`rff, this`rfne, this`iid, this`irq, this`txDma, this`rxDma, rxFifo
      ensures Valid()
      ensures rxFifo[..] == old(rxFifo[..])[0 := b as bv32]
      ensures dr && rff && rfne && iid == RxAvailable && oe == (old(oe) || old(rff))
    {
      hide RxTrigger, IrqLevel, RingWindow.Window;
      if rff {
        oe := true;
      }
      rxFifo[0] := b as bv32;
      rff := true;
      rfne := true;
      iid := RxAvailable;
      dr := true;
      Update();
    }

    /** Receiving with the FIFO on appends to the queue; the sixteenth
      * entry sets RFF. */
    method ReceiveFifo(b: bv8)
      requires Valid() && fcr & 1 != 0 && rxCount < FifoDepth
      modifies this`oe, this`dr, this`rff, this`rfne, this`iid, this`rxCount, this`irq, this`txDma
      modifies this`rxDma, rxFifo
      ensures Valid()
      ensures Queue() == old(Queue()) + [b as bv32]
      ensures rff == (old(rff) || rxCount == FifoDepth)
      ensures dr && rfne && iid == RxAvailable && oe == (old(oe) || old(rff))
    {
      hide RxTrigger, IrqLevel, RingWindow.Window;
      if rff {
        oe := true;
      }
      PushEntry(b as bv32);
      dr := true;
      rfne := true;
      if rxCount == 16 {
        rff := true;
      }
      iid := RxAvailable;
      Update();
    }

    /** The ring bookkeeping of a FIFO receive: store at the tail, count it. */
    method PushEntry(x: bv32)
      requires rxFifo.Length == FifoDepth && rxPos < FifoDepth && rxCount < FifoDepth
      modifies this`rxCount, rxFifo
      ensures rxCount == old(rxCount) + 1
      ensures RingWindow.Window(rxFifo[..], rxPos, rxCount)
        == RingWindow.Window(old(rxFifo[..]), rxPos, old(rxCount)) + [x]
    {
      var slot := RingWindow.Tail(FifoDepth, rxPos, rxCount);
      RingWindow.Push(rxFifo[..], rxPos, rxCount, x);
      rxFifo[slot] := x;
      rxCount := rxCount + 1;
    }

    /** The ring bookkeeping of a FIFO read: drop the oldest entry. */
    method PopEntry()
      requires rxFifo.Length == FifoDepth && rxPos < FifoDepth && 0 < rxCount <= FifoDepth
      modifies this`rxPos, this`rxCount
      ensures rxPos < FifoDepth && rxCount == old(rxCount) - 1
      ensures RingWindow.Window(rxFifo[..], old(rxPos), old(rxCount))[0] == rxFifo[old(rxPos)]
      ensures RingWindow.Window(rxFifo[..], rxPos, rxCount)
        == RingWindow.Window(rxFifo[..], old(rxPos), old(rxCount))[1..]
    {
      RingWindow.Pop(rxFifo[..], rxPos, rxCount);
      rxCount := rxCount - 1;
      rxPos := RingWindow.Next(FifoDepth, rxPos);
    }

    /** A read of RBR: with the FIFO on the oldest entry leaves the queue
      * (an empty queue returns the entry at the start again); with it off
      * the holding register is returned.  Data-ready and the FIFO flags
      * clear once nothing is left. */
    method ReadRbr() returns (v: bv32)
      requires Valid()
      modifies this`dr, this`rff, this`rfne, this`iid, this`rxPos, this`rxCount
      modifies this`irq, this`txDma, this`rxDma
      ensures Valid()
      ensures fcr & 1 != 0 && old(rxCount) > 0 ==> v == old(Queue())[0] && Queue() == old(Queue())[1..]
      ensures fcr & 1 != 0 && old(rxCount) == 0 ==> v == rxFifo[rxPos] && rxPos == old(rxPos) && rxCount == 0
      ensures fcr & 1 == 0 ==> v == rxFifo[0]
      ensures !rff && iid == NoInterrupt && !irq
      ensures rxCount == 0 ==> !dr && !rfne
      ensures rxCount != 0 ==> dr == old(dr) && rfne == old(rfne)
      ensures txDma && (fcr & 1 == 0 ==> rxPos == old(rxPos))
    {
      rff := false;
      if fcr & 1 != 0 {
        v := TakeEntry();
      } else {
        rfne := false;
        dr := false;
        v := rxFifo[0];
      }
      iid := NoInterrupt;
      Update();
    }

    /** The FIFO half of an RBR read: the entry at the start is returned
      * and, if the queue holds any, dropped from it. */
    method TakeEntry() returns (v: bv32)
      requires Valid() && fcr & 1 != 0
      modifies this`dr, this`rfne, this`rxPos, this`rxCount
      ensures rxPos < FifoDepth && rxCount <= old(rxCount)
      ensures old(rxCount) > 0 ==>
        v == old(Queue())[0] && RingWindow.Window(rxFifo[..], rxPos, rxCount) == old(Queue())[1..]
      ensures old(rxCount) == 0 ==> v == rxFifo[rxPos] && rxPos == old(rxPos) && rxCount == 0
      ensures rxCount == 0 ==> !dr && !rfne
      ensures rxCount != 0 ==> dr == old(dr) && rfne == old(rfne)
    {
      v := rxFifo[rxPos];
      if rxCount > 0 {
        PopEntry();
      }
      if rxCount == 0 {
        dr := false;
        rfne := false;
      }
    }

    /** What a read of word `index` returns, for the registers whose read
      * has no side effect. */
    function PlainValue(index: nat): bv32
      reads this
    {
      if index == 1 then (if lcr & Dlab != 0 then dlh else ier)
      else if index == 3 then lcr
      else if index == 4 then mcr
      else if index == 5 then Lsr()
      else if index == 6 then msr
      else if index == 0x1F then Usr()
      else if index == 0x3D then CprValue
      else if index == 0x3E then UcvValue
      else if index == 0x3F then CtrValue
      else 0
    }

    /** A read of IIR: showing THR-empty acknowledges that interrupt. */
    method ReadIir() returns (v: bv32)
      requires Valid()
      modifies this`iid, this`irq, this`txDma, this`rxDma
      ensures Valid()
      ensures v == old(Iir()) && iid == (if old(iid) == ThrEmpty then NoInterrupt else old(iid))
      ensures old(iid) == ThrEmpty ==> txDma && rxDma == old(rxDma)
      ensures old(iid) != ThrEmpty ==> unchanged(this)
    {
      v := Iir();
      if iid == ThrEmpty {
        iid := NoInterrupt;
        Update();
      }
    }

    /** DLL and DLH are as they were. */
    twostate predicate DivisorKept()
      reads this
    {
      unchanged(this`dll, this`dlh)
    }

    /** FCR, the trigger level and the receive ring are as they were. */
    twostate predicate RingKept()
      reads this
    {
      unchanged(this`fcr, this`rxTrigger, this`rxPos, this`rxCount)
    }

    /** The interrupt and DMA lines are as they were. */
    twostate predicate LinesKept()
      reads this
    {
      unchanged(this`irq, this`txDma, this`rxDma)
    }

    /** The transmit side (what the backend got, TEMT, THRE) is as it was. */
    twostate predicate TxKept()
      reads this
    {
      unchanged(this`sent, this`temt, this`thre)
    }

    /** `_dw_apb_uart_read`.  Word 0 is DLL or RBR; reading IIR while it
      * shows THR-empty acknowledges that interrupt; the rest only read. */
    method Read(offset: nat) returns (v: bv32)
      requires Valid() && offset < 0x1000
      modifies this`dr, this`rff, this`rfne, this`iid, this`rxPos, this`rxCount
      modifies this`irq, this`txDma, this`rxDma
      ensures Valid()
      ensures offset / 4 == 0 && lcr & Dlab != 0 ==> v == dll && unchanged(this)
      ensures offset / 4 == 0 && lcr & Dlab == 0 && fcr & 1 != 0 && old(rxCount) > 0 ==>
        v == old(Queue())[0] && Queue() == old(Queue())[1..]
      ensures offset / 4 == 0 && lcr & Dlab == 0 && fcr & 1 != 0 && old(rxCount) == 0 ==>
        v == rxFifo[rxPos] && rxPos == old(rxPos) && Queue() == []
      ensures offset / 4 == 0 && lcr & Dlab == 0 && fcr & 1 == 0 ==> v == rxFifo[0]
      ensures offset / 4 == 0 && lcr & Dlab == 0 ==>
        !rff && iid == NoInterrupt && !irq && Usr() & UsrRff == 0 && Iir() == Code(NoInterrupt)
        && (rxCount == 0 ==> !dr && !rfne && Lsr() & LsrDr == 0 && Usr() & UsrRfne == 0)
        && (rxCount != 0 ==> dr == old(dr) && rfne == old(rfne))
      ensures offset / 4 == 0 && lcr & Dlab == 0 ==> txDma && (fcr & 1 == 0 ==> rxPos == old(rxPos))
      ensures offset / 4 == 2 ==>
        v == old(Iir()) && iid == (if old(iid) == ThrEmpty then NoInterrupt else old(iid))
      ensures offset / 4 == 2 ==>
        Queue() == old(Queue()) && unchanged(this`dr, this`rff, this`rfne, this`rxPos, this`rxCount)
      ensures offset / 4 == 2 && old(iid) != ThrEmpty ==> unchanged(this)
      ensures offset / 4 == 2 && old(iid) == ThrEmpty ==> txDma && rxDma == old(rxDma)
      ensures offset / 4 != 0 && offset / 4 != 2 ==> v == PlainValue(offset / 4) && unchanged(this)
    {
      var index := offset / 4;
      if index == 0 {
        if lcr & Dlab != 0 {
          v := dll;
        } else {
          v := ReadRbr();
        }
      } else if index == 2 {
        v := ReadIir();
      } else {
        v := PlainValue(index);
      }
    }

    /** A THR write: the low byte goes to the backend, the transmitter
      * reports empty, and THR-empty becomes the identity unless received
      * data is pending. */
    method WriteThr(value: bv32)
      requires Valid()
      modifies this`sent, this`thre, this`temt, this`iid, this`irq, this`txDma, this`rxDma
      ensures Valid()
      ensures sent == old(sent) + [(value & 0xFF) as bv8] && temt && thre
      ensures iid == if old(iid) != RxAvailable then ThrEmpty else old(iid)
      ensures txDma && rxDma == old(rxDma)
      ensures ThrWritten(value)
    {
      hide RxTrigger, IrqLevel, RingWindow.Window;
      sent := sent + [(value & 0xFF) as bv8];
      thre, temt := true, true;
      if iid != RxAvailable {
        iid := ThrEmpty;
      }
      Update();
    }

    /** An IER write: THR-empty becomes the identity, whatever was pending. */
    method WriteIer(value: bv32)
      requires Valid()
      modifies this`ier, this`iid, this`irq, this`txDma, this`rxDma
      ensures Valid()
      ensures ier == value && iid == ThrEmpty && irq == (value & 2 != 0)
      ensures txDma && rxDma == old(rxDma)
      ensures IerWritten(value)
    {
      ier := value;
      iid := ThrEmpty;
      Update();
    }

    /** An FCR write: toggling the FIFO enable or setting bit 1 empties
      * the receive ring; the trigger level follows the new value. */
    method WriteFcr(value: bv32)
      requires Valid()
      modifies this`fcr, this`rxTrigger, this`rxPos, this`rxCount
      ensures Valid()
      ensures fcr == value && rxTrigger == RxTrigger(value)
      ensures (old(fcr) ^ value) & 1 != 0 || value & 2 != 0 ==> rxPos == 0 && rxCount == 0
      ensures !((old(fcr) ^ value) & 1 != 0 || value & 2 != 0) ==>
        rxPos == old(rxPos) && rxCount == old(rxCount)
      ensures (old(fcr) ^ value) & 1 != 0 || value & 2 != 0 ==> Queue() == []
      ensures !((old(fcr) ^ value) & 1 != 0 || value & 2 != 0) ==> Queue() == old(Queue())
      ensures FcrWritten(value)
    {
      if (fcr & 1) ^ (value & 1) != 0 {
        rxPos := 0;
        rxCount := 0;
      }
      fcr := value;
      rxTrigger := RxTrigger(fcr);
      if fcr & 2 != 0 {
        rxPos := 0;
        rxCount := 0;
      }
    }

    /** What a DLL write (word 0 under DLAB) does: DLL takes the value. */
    twostate predicate DllWritten(value: bv32)
      reads this
    {
      dll == value && unchanged(this`dlh, this`ier, this`iid, this`lcr, this`mcr)
      && RingKept() && LinesKept() && TxKept()
    }

    /** What a THR write does: the low byte goes to the backend, TEMT and
      * THRE set, THR-empty becomes the identity unless received data is
      * pending, and the lines follow. */
    twostate predicate ThrWritten(value: bv32)
      reads this
    {
      sent == old(sent) + [(value & 0xFF) as bv8] && temt && thre
      && iid == (if old(iid) != RxAvailable then ThrEmpty else old(iid))
      && DivisorKept() && unchanged(this`ier, this`lcr, this`mcr) && RingKept() && txDma && rxDma == old(rxDma)
    }

    /** What a DLH write (word 1 under DLAB) does: DLH takes the value. */
    twostate predicate DlhWritten(value: bv32)
      reads this
    {
      dlh == value && unchanged(this`dll, this`ier, this`iid, this`lcr, this`mcr)
      && RingKept() && LinesKept() && TxKept()
    }

    /** What an IER write does: IER takes the value, THR-empty becomes the
      * identity and the line follows IER bit 1. */
    twostate predicate IerWritten(value: bv32)
      reads this
    {
      ier == value && iid == ThrEmpty && irq == (value & 2 != 0)
      && DivisorKept() && unchanged(this`lcr, this`mcr) && RingKept() && TxKept() && txDma && rxDma == old(rxDma)
    }

    /** What an FCR write does: FCR and the trigger level follow the value;
      * toggling the FIFO enable or setting bit 1 empties the queue, which
      * is otherwise kept. */
    twostate predicate FcrWritten(value: bv32)
      requires old(Valid()) && Valid()
      reads this, rxFifo
    {
      fcr == value && rxTrigger == RxTrigger(value)
      && DivisorKept() && unchanged(this`ier, this`iid, this`lcr, this`mcr) && LinesKept() && TxKept()
      && (if (old(fcr) ^ value) & 1 != 0 || value & 2 != 0 then rxPos == 0 && Queue() == []
          else rxPos == old(rxPos) && Queue() == old(Queue()))
    }

    /** What an LCR write does: LCR takes the value. */
    twostate predicate LcrWritten(value: bv32)
      reads this
    {
      lcr == value && DivisorKept() && unchanged(this`ier, this`iid, this`mcr) && RingKept() && LinesKept() && TxKept()
    }

    /** What an MCR write does: MCR takes the value. */
    twostate predicate McrWritten(value: bv32)
      reads this
    {
      mcr == value && DivisorKept() && unchanged(this`ier, this`iid, this`lcr) && RingKept() && LinesKept() && TxKept()
    }

    /** What `_dw_apb_uart_write` does at word `index`: words 0 and 1 reach
      * DLL/DLH with LCR bit 7 set and THR/IER otherwise, words 2-4 are FCR,
      * LCR and MCR, and every other word (LSR, MSR, USR, unknown ones)
      * ignores the write. */
    twostate predicate Written(index: nat, value: bv32)
      requires old(Valid()) && Valid()
      reads this, rxFifo
    {
      if index == 0 then (if old(lcr) & Dlab != 0 then DllWritten(value) else ThrWritten(value))
      else if index == 1 then (if old(lcr) & Dlab != 0 then DlhWritten(value) else IerWritten(value))
      else if index == 2 then FcrWritten(value)
      else if index == 3 then LcrWritten(value)
      else if index == 4 then McrWritten(value)
      else unchanged(this)
    }

    /** A write that only stores its word: DLL or DLH under DLAB, LCR or MCR. */
    method Latch(index: nat, value: bv32)
      requires Valid() && index in {0, 1, 3, 4} && (index <= 1 ==> lcr & Dlab != 0)
      modifies this`dll, this`dlh, this`lcr, this`mcr
      ensures Valid()
      ensures index == 0 ==> DllWritten(value)
      ensures index == 1 ==> DlhWritten(value)
      ensures index == 3 ==> LcrWritten(value)
      ensures index == 4 ==> McrWritten(value)
    {
      if index == 0 {
        dll := value;
      } else if index == 1 {
        dlh := value;
      } else if index == 3 {
        lcr := value;
      } else {
        mcr := value;
      }
    }

    /** `_dw_apb_uart_write`: `Written` at word `offset / 4`, which states
      * the fields the write changes and that every other stays. */
    method Write(offset: nat, value: bv32)
      requires Valid() && offset < 0x1000
      modifies this`dll, this`dlh, this`ier, this`iid, this`fcr, this`lcr, this`mcr, this`temt
      modifies this`thre, this`rxPos, this`rxCount, this`rxTrigger, this`irq, this`txDma
      modifies this`rxDma, this`sent
      ensures Valid()
      ensures Written(offset / 4, value)
    {
      hide RxTrigger, IrqLevel, RingWindow.Window, Queue;
      hide DllWritten, ThrWritten, DlhWritten, IerWritten, FcrWritten, LcrWritten, McrWritten;
      var index := offset / 4;
      if index == 0 {
        if lcr & Dlab != 0 {
          Latch(index, value);
        } else {
          WriteThr(value);
        }
      } else if index == 1 {
        if lcr & Dlab != 0 {
          Latch(index, value);
        } else {
          WriteIer(value);
        }
      } else if index == 2 {
        WriteFcr(value);
      } else if index == 3 || index == 4 {
        Latch(index, value);
      }
    }
  }
}
