/**
 * The NationalChip model of the DesignWare mobile storage host (SD/MMC):
 * the register file, the 128-word data FIFO between the guest and the card,
 * command issue with response packing, and the internal DMA that walks a
 * descriptor list in guest memory.
 *
 * The card is an oracle (`cardData`, the bytes it has ready; `cardSink`,
 * every byte it has been sent; `commands`, every request it has been
 * issued), its reply to a command is a parameter, and guest memory is the
 * byte map `mem`.  The DMA timer is the flag `dmaPending` and the method
 * `DmaTimer` that runs when it fires.
 */
module DwcSdhc {
  import opened SdhcLayout
  import opened SdhcData
  import GuestMemory
  import RingWindow

  /** A request issued to the card: command index and argument. */
  datatype Request = Request(index: bv32, arg: bv32)

  /** The card's answer to a request: the response length it reports and
    * its 16-byte response buffer. */
  datatype Reply = Reply(rlen: int, bytes: seq<bv8>)

  class Controller {
    var ctrl: bv32
    var bytcnt: nat
    var intmask: bv32
    var cmd: bv32
    var resp: seq<bv32>
    var rintsts: bv32
    /** STATUS bits 0-3, as last refreshed. */
    var level: Level
    /** IDSTS without its state machine field, and that field. */
    var idsts: bv32
    var fsm: nat
    var dscaddr: bv32
    /** Every other word of the register block, by word index. */
    var plain: seq<bv32>
    const fifo: array<bv32>
    var start: nat
    var count: nat
    var irq: bool
    var dmaPending: bool
    var cardPowered: bool
    var mem: GuestMemory.Memory
    var cardData: seq<bv8>
    var cardSink: seq<bv8>
    var commands: seq<Request>

    /** The ring and the byte count are in range. */
    predicate RingSound()
      reads this`start, this`count, this`bytcnt
    {
      fifo.Length == FifoDepth && start < FifoDepth && count <= FifoDepth && bytcnt < Word
    }

    /** The ring and the registers have their shapes. */
    predicate Sound()
      reads this`start, this`count, this`bytcnt, this`resp, this`plain, this`fsm
    {
      RingSound() && |resp| == 4 && |plain| == RegWords && fsm < 16
    }

    /** Between guest accesses the FIFO flags follow the count and the
      * self-clearing CTRL reset bits are clear. */
    predicate Valid()
      reads this`start, this`count, this`bytcnt, this`resp, this`plain, this`fsm, this`level, this`ctrl
    {
      Sound()
      && level.empty == (count == 0) && level.full == (count == FifoDepth)
      && ctrl & (ControllerReset | FifoReset) == 0
    }

    /** Between guest accesses no FIFO reset is pending. */
    lemma NoFifoReset()
      requires Valid()
      ensures ctrl & FifoReset == 0
    {
    }

    /** The FIFO (its words, position and count), BYTCNT and the card's
      * data are as they were: no exchange with the card took place. */
    twostate predicate PortKept()
      reads this, fifo
    {
      unchanged(this`start, this`count, this`bytcnt, this`cardData, this`cardSink) && unchanged(fifo)
    }

    /** The internal DMA's walk (IDSTS, its state machine, the descriptor
      * address) and guest memory are as they were. */
    twostate predicate WalkKept()
      reads this
    {
      unchanged(this`idsts, this`fsm, this`dscaddr, this`mem)
    }

    /** CMD, RESP0-RESP3 and the requests sent to the card are as they were. */
    twostate predicate CommandKept()
      reads this
    {
      unchanged(this`cmd, this`resp, this`commands)
    }

    /** The FIFO's words, oldest first. */
    function Queue(): (q: seq<bv32>)
      requires RingSound()
      reads this`start, this`count, this`bytcnt, fifo
      ensures |q| == count
    {
      RingWindow.Window(fifo[..], start, count)
    }

    /** The FIFO, the count and the card, as the card exchange sees them. */
    function CardPort(): (p: Port)
      requires RingSound()
      reads this`start, this`count, this`bytcnt, fifo, this`cardData, this`cardSink
      ensures p.Valid()
    {
      Port(Queue(), bytcnt, cardData, cardSink)
    }

    /** What the descriptor walk works on. */
    function DmaState(): Dma
      reads this`mem, this`cardData, this`cardSink, this`bytcnt, this`fsm, this`dscaddr
    {
      Dma(mem, cardData, cardSink, bytcnt, fsm, dscaddr)
    }

    function Fifoth(): bv32
      requires |plain| == RegWords
      reads this`plain
    {
      plain[FifothOff / 4]
    }

    function CmdArg(): bv32
      requires |plain| == RegWords
      reads this`plain
    {
      plain[CmdargOff / 4]
    }

    function Dbaddr(): bv32
      requires |plain| == RegWords
      reads this`plain
    {
      plain[DbaddrOff / 4]
    }

    function Bmod(): bv32
      requires |plain| == RegWords
      reads this`plain
    {
      plain[BmodOff / 4]
    }

    /** The direction of the current data command: CMD bit 10 set means
      * host to card. */
    predicate HostToCard()
      reads this`cmd
    {
      cmd & ReadOrWrite != 0
    }

    /** Word `i` of the register block as a plain read returns it. */
    function WordAt(i: nat): bv32
      requires Sound() && i < RegWords
      reads this`start, this`count, this`bytcnt, this`resp, this`plain, this`fsm,
        this`ctrl, this`intmask, this`cmd, this`rintsts, this`level, this`idsts, this`dscaddr
    {
      if i == CtrlOff / 4 then ctrl
      else if i == BytcntOff / 4 then WordOf(bytcnt)
      else if i == IntmaskOff / 4 then intmask
      else if i == CmdOff / 4 then cmd
      else if Resp0Off / 4 <= i <= Resp3Off / 4 then resp[i - Resp0Off / 4]
      else if i == RintstsOff / 4 then rintsts
      else if i == StatusOff / 4 then StatusWord(level, count)
      else if i == IdstsOff / 4 then IdstsWord(idsts, fsm)
      else if i == DscaddrOff / 4 then dscaddr
      else plain[i]
    }

    /** What a read below the FIFO port returns: MINTSTS is computed, the
      * register block is read by word, anything else reads as zero. */
    function ValueAt(offset: nat): bv32
      requires Sound() && offset < FifoBase
      reads this`start, this`count, this`bytcnt, this`resp, this`plain, this`fsm,
        this`ctrl, this`intmask, this`cmd, this`rintsts, this`level, this`idsts, this`dscaddr
    {
      if offset == MintstsOff then Mintsts(rintsts, intmask)
      else if offset < RegBytes then WordAt(offset / 4)
      else 0
    }

    /** `_dwc_sdhc_interrupts_update`. */
    method UpdateIrq()
      modifies this`irq
      ensures irq == IrqLevel(rintsts, intmask, ctrl)
    {
      irq := IrqLevel(rintsts, intmask, ctrl);
    }

    /** `_dwc_sdhc_fifolevel_update`: with CTRL's FIFO reset bit set the
      * FIFO empties and TXDR is raised; otherwise the flags are refreshed
      * from the count. */
    method LevelUpdate()
      requires Sound()
      modifies this`start, this`count, this`level, this`rintsts, this`irq
      ensures Sound() && irq == IrqLevel(rintsts, intmask, ctrl)
      ensures level.empty == (count == 0) && level.full == (count == FifoDepth)
      ensures ctrl & FifoReset != 0 ==>
        start == 0 && count == 0 && level == Level(false, true, true, false)
        && rintsts == (old(rintsts) | TxDataRequest)
      ensures ctrl & FifoReset == 0 ==>
        start == old(start) && count == old(count) && level == LevelOf(count, Fifoth())
        && rintsts == Requests(old(rintsts), count, Fifoth(), HostToCard())
      ensures (CardPort(), rintsts) == Leveled(old(CardPort()), old(rintsts), cmd, ctrl, Fifoth())
    {
      if ctrl & FifoReset != 0 {
        start, count := 0, 0;
        level := Level(false, true, true, false);
        rintsts := rintsts | TxDataRequest;
        UpdateIrq();
      } else {
        RefreshLevel();
      }
    }

    /** The flags follow the count, the data requests are raised against
      * the watermarks, the line is updated and then the watermark flags
      * follow. */
    method RefreshLevel()
      requires Sound()
      modifies this`level, this`rintsts, this`irq
      ensures irq == IrqLevel(rintsts, intmask, ctrl)
      ensures level == LevelOf(count, Fifoth())
      ensures rintsts == Requests(old(rintsts), count, Fifoth(), HostToCard())
    {
      level := level.(empty := count == 0, full := count == FifoDepth);
      rintsts := Requests(rintsts, count, Fifoth(), HostToCard());
      UpdateIrq();
      level := level.(rxWm := count > RxWatermark(Fifoth()), txWm := count <= TxWatermark(Fifoth()));
    }

    /** The ring bookkeeping of a word entering the FIFO. */
    method PushEntry(x: bv32)
      requires Sound() && count < FifoDepth
      modifies this`count, fifo
      ensures Sound() && count == old(count) + 1
      ensures Queue() == old(Queue()) + [x]
    {
      var slot := RingWindow.Tail(FifoDepth, start, count);
      RingWindow.Push(fifo[..], start, count, x);
      fifo[slot] := x;
      count := count + 1;
    }

    /** The ring bookkeeping of the oldest word leaving the FIFO. */
    method PopEntry() returns (x: bv32)
      requires Sound() && count > 0
      modifies this`start, this`count
      ensures Sound() && count == old(count) - 1
      ensures x == old(Queue())[0] && Queue() == old(Queue())[1..]
    {
      RingWindow.Pop(fifo[..], start, count);
      x := fifo[start];
      start := RingWindow.Next(FifoDepth, start);
      count := count - 1;
    }

    /** The card-read loop of `_dwc_sdhc_transfer`. */
    method FillFifo()
      requires Sound()
      modifies this`count, this`bytcnt, this`cardData, fifo
      ensures Sound() && CardPort() == Fill(old(CardPort()))
    {
      while count < FifoDepth && bytcnt > 0 && |cardData| > 0
        invariant Sound()
        invariant Fill(CardPort()) == Fill(old(CardPort()))
        decreases FifoDepth - count
      {
        var w := CardWord(cardData);
        PushEntry(w);
        cardData := Drop(cardData, 4);
        bytcnt := Less4(bytcnt);
      }
    }

    /** The card-write loop of `_dwc_sdhc_transfer`. */
    method DrainFifo()
      requires Sound()
      modifies this`start, this`count, this`bytcnt, this`cardSink
      ensures Sound() && CardPort() == Drain(old(CardPort()))
    {
      while count > 0 && bytcnt > 0
        invariant Sound()
        invariant Drain(CardPort()) == Drain(old(CardPort()))
        decreases count
      {
        var w := PopEntry();
        cardSink := cardSink + GuestMemory.LeBytes(w);
        bytcnt := Less4(bytcnt);
      }
    }

    /** `_dwc_sdhc_transfer`: with a data command, move words between the
      * FIFO and the card as `Exchange` says, and raise data-transfer-over
      * once the byte count is spent. */
    method Transfer()
      requires Sound()
      modifies this`start, this`count, this`bytcnt, this`cardData, this`cardSink, fifo
      modifies this`rintsts, this`irq
      ensures Sound()
      ensures (CardPort(), rintsts) == Exchanged(old(CardPort()), old(rintsts), cmd)
    {
      hide IrqLevel, Fill, Drain, Exchange, Exchanged;
      if cmd & DataExpected == 0 {
        NoExchange(CardPort(), cmd);
        return;
      }
      MoveWords();
      SignalOver();
    }

    /** Data-transfer-over is raised, and the line updated, once the count
      * is spent. */
    method SignalOver()
      modifies this`rintsts, this`irq
      ensures rintsts == if bytcnt == 0 then old(rintsts) | DataTransferOver else old(rintsts)
      ensures bytcnt == 0 ==> irq == IrqLevel(rintsts, intmask, ctrl)
    {
      if bytcnt == 0 {
        rintsts := rintsts | DataTransferOver;
        UpdateIrq();
      }
    }

    /** The word moves of a data command: card to FIFO for a read, FIFO to
      * card for a write. */
    method MoveWords()
      requires Sound() && cmd & DataExpected != 0
      modifies this`start, this`count, this`bytcnt, this`cardData, this`cardSink, fifo
      ensures Sound() && CardPort() == Exchange(old(CardPort()), cmd)
    {
      if !HostToCard() {
        FillFifo();
      } else {
        DrainFifo();
      }
    }

    /** `_dwc_sdhc_update`: exchange with the card, then refresh the FIFO
      * flags. */
    method Update()
      requires Sound()
      modifies this`start, this`count, this`bytcnt, this`cardData, this`cardSink, fifo
      modifies this`rintsts, this`irq, this`level
      ensures Sound() && irq == IrqLevel(rintsts, intmask, ctrl)
      ensures (CardPort(), rintsts) == AfterUpdate(old(CardPort()), old(rintsts), cmd, ctrl, Fifoth())
      ensures level == if ctrl & FifoReset != 0 then Level(false, true, true, false) else LevelOf(count, Fifoth())
      ensures level.empty == (count == 0) && level.full == (count == FifoDepth)
    {
      hide Exchanged, Leveled, Requests, IrqLevel, LevelOf, B;
      Transfer();
      LevelUpdate();
    }

    /** A read of the FIFO port: with the FIFO empty it flags an underrun
      * and returns 0; otherwise the oldest word leaves and the controller
      * updates. */
    method ReadFifo() returns (v: bv32)
      requires Valid()
      modifies this`start, this`count, this`bytcnt, this`cardData, this`cardSink, fifo
      modifies this`rintsts, this`irq, this`level
      ensures Valid()
      ensures old(count) == 0 ==> (v == 0 && rintsts == (old(rintsts) | FifoUnderrun)
        && irq == old(irq) && Queue() == [] && CardPort() == old(CardPort()))
      ensures old(count) > 0 ==>
        v == old(Queue())[0] && irq == IrqLevel(rintsts, intmask, ctrl)
        && (CardPort(), rintsts) == AfterUpdate(old(CardPort()).(queue := old(Queue())[1..]), old(rintsts), cmd, ctrl, Fifoth())
      ensures FifoRead(v)
    {
      hide AfterUpdate, IrqLevel, LevelOf, Queue, CardPort;
      if level.empty {
        rintsts := rintsts | FifoUnderrun;
        return 0;
      }
      v := Dequeue();
    }

    /** The oldest word leaves the FIFO and the controller updates. */
    method Dequeue() returns (v: bv32)
      requires Valid() && count > 0
      modifies this`start, this`count, this`bytcnt, this`cardData, this`cardSink, fifo
      modifies this`rintsts, this`irq, this`level
      ensures Valid() && v == old(Queue())[0] && irq == IrqLevel(rintsts, intmask, ctrl) && level == LevelOf(count, Fifoth())
      ensures (CardPort(), rintsts) == AfterUpdate(old(CardPort()).(queue := old(Queue())[1..]), old(rintsts), cmd, ctrl, Fifoth())
    {
      hide AfterUpdate, IrqLevel, LevelOf;
      NoFifoReset();
      v := PopEntry();
      Update();
    }

    /** A write of the FIFO port: with the FIFO full it flags the error and
      * updates the line; otherwise the word enters and the controller
      * updates. */
    method WriteFifo(value: bv32)
      requires Valid()
      modifies this`start, this`count, this`bytcnt, this`cardData, this`cardSink, fifo
      modifies this`rintsts, this`irq, this`level
      ensures Valid() && irq == IrqLevel(rintsts, intmask, ctrl)
      ensures old(count) == FifoDepth ==> (rintsts == (old(rintsts) | FifoUnderrun)
        && CardPort() == old(CardPort()))
      ensures old(count) < FifoDepth ==>
        (CardPort(), rintsts) == AfterUpdate(old(CardPort()).(queue := old(Queue()) + [value]), old(rintsts), cmd, ctrl, Fifoth())
      ensures FifoWritten(value)
    {
      hide AfterUpdate, IrqLevel, LevelOf, Queue, CardPort;
      if level.full {
        rintsts := rintsts | FifoUnderrun;
        UpdateIrq();
        return;
      }
      Enqueue(value);
    }

    /** A word joins the FIFO and the controller updates. */
    method Enqueue(value: bv32)
      requires Valid() && count < FifoDepth
      modifies this`start, this`count, this`bytcnt, this`cardData, this`cardSink, fifo
      modifies this`rintsts, this`irq, this`level
      ensures Valid() && irq == IrqLevel(rintsts, intmask, ctrl) && level == LevelOf(count, Fifoth())
      ensures (CardPort(), rintsts) == AfterUpdate(old(CardPort()).(queue := old(Queue()) + [value]), old(rintsts), cmd, ctrl, Fifoth())
    {
      hide AfterUpdate, IrqLevel, LevelOf;
      NoFifoReset();
      PushEntry(value);
      Update();
    }

    /** `_dwc_sdhc_command`: a clock-update-only command is not sent and
      * only clears START_CMD.  Any other is issued with CMDARG; a response
      * of the expected length is packed into RESP0-RESP3 and any other
      * length raises response-timeout; without the internal DMA an
      * auto-stop CMD12 follows; command-done is raised and the line
      * updated. */
    method Command(c: bv32, reply: Reply)
      requires Sound() && |reply.bytes| == 16
      modifies this`cmd, this`commands, this`resp, this`rintsts, this`irq
      ensures Sound() && cmd == c & !StartCmd
      ensures rintsts == Answered(old(rintsts), c, reply.rlen, reply.bytes)
      ensures c & UpdateClockOnly != 0 ==>
        commands == old(commands) && resp == old(resp) && irq == old(irq)
      ensures c & UpdateClockOnly == 0 ==>
        var stop := c & SendAutoStop != 0 && ctrl & UseInternalDmac == 0;
        commands == old(commands) + [Request(c & 0x3F, CmdArg())] + (if stop then [Request(12, CmdArg())] else [])
      ensures c & UpdateClockOnly == 0 ==>
        var packed := PackResponse(reply.rlen, reply.bytes, c & ResponseLength != 0);
        resp == (if c & ResponseExpect != 0 && packed.Some? then packed.value else old(resp))
      ensures c & UpdateClockOnly == 0 ==> irq == IrqLevel(rintsts, intmask, ctrl)
    {
      cmd := c & !StartCmd;
      if c & UpdateClockOnly != 0 {
        return;
      }
      SendCommand(c, reply);
    }

    /** The part of `_dwc_sdhc_command` that sends a command to the card. */
    method SendCommand(c: bv32, reply: Reply)
      requires Sound() && |reply.bytes| == 16 && c & UpdateClockOnly == 0
      modifies this`commands, this`resp, this`rintsts, this`irq
      ensures Sound()
      ensures rintsts == Answered(old(rintsts), c, reply.rlen, reply.bytes)
      ensures var stop := c & SendAutoStop != 0 && ctrl & UseInternalDmac == 0;
        commands == old(commands) + [Request(c & 0x3F, CmdArg())] + (if stop then [Request(12, CmdArg())] else [])
      ensures var packed := PackResponse(reply.rlen, reply.bytes, c & ResponseLength != 0);
        resp == (if c & ResponseExpect != 0 && packed.Some? then packed.value else old(resp))
      ensures irq == IrqLevel(rintsts, intmask, ctrl)
    {
      hide Answered, PackResponse;
      var request := Request(c & 0x3F, CmdArg());
      commands := commands + [request];
      Respond(c, reply);
      if c & SendAutoStop != 0 && ctrl & UseInternalDmac == 0 {
        commands := commands + [Request(12, request.arg)];
      }
      AnsweredIs(old(rintsts), c, reply.rlen, reply.bytes);
      SetCommandDone();
    }

    /** Raise command-done and drive the line. */
    method SetCommandDone()
      modifies this`rintsts, this`irq
      ensures rintsts == old(rintsts) | CommandDone && irq == IrqLevel(rintsts, intmask, ctrl)
    {
      rintsts := rintsts | CommandDone;
      UpdateIrq();
    }

    /** The response half of `_dwc_sdhc_command`: when CMD expects a
      * response, one of the expected length is packed into RESP0-RESP3 and
      * any other length raises response-timeout. */
    method Respond(c: bv32, reply: Reply)
      requires Sound() && |reply.bytes| == 16
      modifies this`resp, this`rintsts
      ensures Sound()
      ensures var packed := PackResponse(reply.rlen, reply.bytes, c & ResponseLength != 0);
        resp == (if c & ResponseExpect != 0 && packed.Some? then packed.value else old(resp))
        && rintsts == old(rintsts) | B(c & ResponseExpect != 0 && packed.None?, ResponseTimeout)
    {
      var packed := PackResponse(reply.rlen, reply.bytes, c & ResponseLength != 0);
      if c & ResponseExpect != 0 {
        match packed
        case Some(words) =>
          resp := words;
        case None =>
          rintsts := rintsts | ResponseTimeout;
      }
    }

    /** The memory-to-card direction of `_dwc_sdhc_idma_transfer`: bursts
      * are read from memory and sent until the buffer or the count is
      * spent; a failed read stops it. */
    method SendBuffer(addr: bv32, size: nat) returns (failed: bool)
      requires Sound()
      modifies this`cardSink, this`bytcnt, this`fsm
      ensures Sound() && fsm == FsmDmaWrite
      ensures var t := ToCard(mem, addr as int, size, old(bytcnt), old(cardSink));
        cardSink == t.sink && bytcnt == t.bytcnt && failed == t.failed
    {
      fsm := FsmDmaWrite;
      var t := Send(mem, addr as int, size, bytcnt, cardSink);
      cardSink, bytcnt, failed := t.sink, t.bytcnt, t.failed;
    }

    /** The card-to-memory direction of `_dwc_sdhc_idma_transfer`: while
      * the card has data ready, bursts are taken from the card and written
      * to memory; a failed write stops it after the bytes were taken. */
    method ReceiveBuffer(addr: bv32, size: nat) returns (failed: bool)
      requires Sound()
      modifies this`mem, this`cardData, this`bytcnt, this`fsm
      ensures Sound() && fsm == FsmDmaRead
      ensures var t := ToMemory(old(mem), addr as int, size, old(bytcnt), old(cardData));
        mem == t.mem && cardData == t.cardData && bytcnt == t.bytcnt && failed == t.failed
    {
      fsm := FsmDmaRead;
      var t := Receive(mem, addr as int, size, bytcnt, cardData);
      mem, cardData, bytcnt, failed := t.mem, t.cardData, t.bytcnt, t.failed;
    }

    /** `_dwc_sdhc_idma_transfer`: one buffer in the direction CMD gives.
      * It returns -2 when a memory read failed, -1 when a memory write
      * failed, and otherwise the number of bytes moved, which is what
      * BYTCNT went down by. */
    method IdmaTransfer(addr: bv32, size: nat) returns (result: int)
      requires Sound()
      modifies this`mem, this`cardData, this`cardSink, this`bytcnt, this`fsm
      ensures Sound()
      ensures var r := Move(old(DmaState()), HostToCard(), addr, size);
        DmaState() == r.0
        && result == (if !r.1 then old(bytcnt) - bytcnt else if HostToCard() then -2 else -1)
    {
      var before, failed := bytcnt, false;
      if HostToCard() {
        failed := SendBuffer(addr, size);
        result := if failed then -2 else before - bytcnt;
      } else {
        failed := ReceiveBuffer(addr, size);
        result := if failed then -1 else before - bytcnt;
      }
    }

    /** The buffers of an owned descriptor, as `_dwc_sdhc_idma_process`
      * moves them: buffer 1, then buffer 2 of an unchained descriptor when
      * its size is not zero; a negative result stops the walk. */
    method MoveBuffers(d: Descriptor) returns (failed: bool)
      requires Sound()
      modifies this`mem, this`cardData, this`cardSink, this`bytcnt, this`fsm
      ensures Sound() && (DmaState(), failed) == Buffers(old(DmaState()), HostToCard(), d)
    {
      var result := IdmaTransfer(d.des2, d.Size1());
      if result < 0 {
        return true;
      }
      if !d.Chained() && d.Size2() != 0 {
        result := IdmaTransfer(d.des3, d.Size2());
        if result < 0 {
          return true;
        }
      }
      return false;
    }

    /** One pass of `_dwc_sdhc_idma_process`'s loop: read the descriptor at
      * DSCADDR, check OWN and BS1, move the buffers, and either stop, finish
      * or go on to the next descriptor. */
    method DescriptorStep() returns (ending: Ending)
      requires Sound()
      modifies this`mem, this`cardData, this`cardSink, this`bytcnt, this`fsm, this`dscaddr
      ensures Sound()
      ensures DmaState() == Step(old(DmaState()), HostToCard(), Dbaddr(), SkipLength(Bmod())).0
      ensures ending == Step(old(DmaState()), HostToCard(), Dbaddr(), SkipLength(Bmod())).1
    {
      hide Step, Checked, Walk, Queue, CardPort, WordAt, ValueAt, Fifoth, CmdArg, GuestMemory.ReadWords, SkipLength, DescriptorOf;
      ghost var s := DmaState();
      fsm := FsmDescRead;
      var words := GuestMemory.ReadWords(mem, dscaddr as int, 4);
      if words.None? {
        StepUnread(s, HostToCard(), Dbaddr(), SkipLength(Bmod()));
        return Halted;
      }
      StepRead(s, HostToCard(), Dbaddr(), SkipLength(Bmod()), words.value);
      CheckedFromAnyFsm(s, HostToCard(), DescriptorOf(words.value), Dbaddr(), SkipLength(Bmod()), FsmDescRead);
      ending := Check(DescriptorOf(words.value));
    }

    /** The checks of a pass on the descriptor read: OWN clear suspends the
      * walk, BS1 zero stops it, and otherwise the descriptor is served. */
    method Check(d: Descriptor) returns (ending: Ending)
      requires Sound()
      modifies this`mem, this`cardData, this`cardSink, this`bytcnt, this`fsm, this`dscaddr
      ensures Sound()
      ensures (DmaState(), ending) == Checked(old(DmaState()), HostToCard(), d, Dbaddr(), SkipLength(Bmod()))
    {
      hide Served;
      fsm := FsmDescCheck;
      if !d.Owned() {
        fsm := FsmSuspend;
        return Halted;
      }
      if d.Size1() == 0 {
        return Halted;
      }
      ServedFromAnyFsm(old(DmaState()), HostToCard(), d, Dbaddr(), SkipLength(Bmod()), FsmDescCheck);
      ending := Serve(d);
    }

    /** The part of a pass after the checks: move the buffers, then finish
      * after the last descriptor or go on to the next one. */
    method Serve(d: Descriptor) returns (ending: Ending)
      requires Sound()
      modifies this`mem, this`cardData, this`cardSink, this`bytcnt, this`fsm, this`dscaddr
      ensures Sound()
      ensures (DmaState(), ending) == Served(old(DmaState()), HostToCard(), d, Dbaddr(), SkipLength(Bmod()))
    {
      var failed := MoveBuffers(d);
      if failed {
        return Halted;
      }
      if d.Last() {
        return Finished(d.NoCompletionIrq());
      }
      if d.Chained() {
        dscaddr := d.des3;
      } else if d.EndOfRing() {
        dscaddr := Dbaddr();
      } else {
        dscaddr := dscaddr + SkipLength(Bmod());
      }
      return Continue;
    }

    /** The loop of `_dwc_sdhc_idma_process`, at most `fuel` passes. */
    method RunDescriptors(fuel: nat) returns (ending: Ending)
      requires Sound()
      modifies this`mem, this`cardData, this`cardSink, this`bytcnt, this`fsm, this`dscaddr
      ensures Sound()
      ensures DmaState() == Walk(fuel, old(DmaState()), HostToCard(), Dbaddr(), SkipLength(Bmod())).0
      ensures ending == Walk(fuel, old(DmaState()), HostToCard(), Dbaddr(), SkipLength(Bmod())).1
    {
      hide Step, Walk, Queue, CardPort, WordAt, ValueAt, Fifoth, CmdArg, SkipLength;
      ghost var toCard, base, skip := HostToCard(), Dbaddr(), SkipLength(Bmod());
      ghost var goal := Walk(fuel, DmaState(), toCard, base, skip);
      var left := fuel;
      while left > 0
        invariant Sound()
        invariant Walk(left, DmaState(), toCard, base, skip) == goal
        decreases left
      {
        ghost var s := DmaState();
        WalkOnce(left, s, toCard, base, skip);
        ending := DescriptorStep();
        if !ending.Continue? {
          return;
        }
        left := left - 1;
      }
      WalkDry(DmaState(), toCard, base, skip);
      return Exhausted;
    }

    /** `_dwc_sdhc_idma_process`: with a data command, the walk starts at
      * DBADDR; when it completes the list, an auto-stop CMD12 is issued and,
      * unless the last descriptor disables it, IDSTS TI (host to card) or
      * RI (card to host) is raised. */
    method IdmaProcess(fuel: nat)
      requires Sound()
      modifies this`mem, this`cardData, this`cardSink, this`bytcnt, this`fsm, this`dscaddr
      modifies this`commands, this`idsts
      ensures Sound()
      ensures cmd & DataExpected == 0 ==>
        DmaState() == old(DmaState()) && commands == old(commands) && idsts == old(idsts)
      ensures cmd & DataExpected != 0 ==>
        var r := Walk(fuel, old(DmaState()).(dscaddr := Dbaddr()), HostToCard(), Dbaddr(), SkipLength(Bmod()));
        DmaState() == r.0
        && commands == old(commands) + (if r.1.Finished? && cmd & SendAutoStop != 0 then [Request(12, 0)] else [])
        && idsts == (if r.1.Finished? && !r.1.quiet then old(idsts) | (if HostToCard() then IdstsTi else IdstsRi) else old(idsts))
    {
      hide Walk, Queue, CardPort, WordAt, ValueAt, Fifoth, CmdArg, SkipLength;
      if cmd & DataExpected == 0 {
        return;
      }
      dscaddr := Dbaddr();
      ghost var first := DmaState();
      assert first == old(DmaState()).(dscaddr := Dbaddr());
      var ending := RunDescriptors(fuel);
      ghost var r := Walk(fuel, first, HostToCard(), Dbaddr(), SkipLength(Bmod()));
      assert DmaState() == r.0 && ending == r.1;
      if ending.Finished? {
        Complete(ending.quiet);
      }
    }

    /** The end of a completed walk: an auto-stop CMD12 is issued and,
      * unless the last descriptor's DIC bit is set, IDSTS TI (host to card)
      * or RI (card to host) is raised. */
    method Complete(quiet: bool)
      modifies this`commands, this`idsts
      ensures commands == old(commands) + (if cmd & SendAutoStop != 0 then [Request(12, 0)] else [])
      ensures idsts == if quiet then old(idsts) else old(idsts) | (if HostToCard() then IdstsTi else IdstsRi)
    {
      if cmd & SendAutoStop != 0 {
        commands := commands + [Request(12, 0)];
      }
      if !quiet {
        idsts := idsts | (if HostToCard() then IdstsTi else IdstsRi);
      }
    }

    /** The DMA timer firing: a pending walk runs. */
    method DmaTimer(fuel: nat)
      requires Sound()
      modifies this`mem, this`cardData, this`cardSink, this`bytcnt, this`fsm, this`dscaddr
      modifies this`commands, this`idsts, this`dmaPending
      ensures Sound() && !dmaPending
      ensures !old(dmaPending) ==>
        DmaState() == old(DmaState()) && commands == old(commands) && idsts == old(idsts)
      ensures old(dmaPending) && cmd & DataExpected != 0 ==>
        DmaState() == Walk(fuel, old(DmaState()).(dscaddr := Dbaddr()), HostToCard(), Dbaddr(), SkipLength(Bmod())).0
      ensures old(dmaPending) && cmd & DataExpected == 0 ==>
        DmaState() == old(DmaState()) && commands == old(commands) && idsts == old(idsts)
      ensures old(dmaPending) && cmd & DataExpected != 0 ==>
        var r := Walk(fuel, old(DmaState()).(dscaddr := Dbaddr()), HostToCard(), Dbaddr(), SkipLength(Bmod()));
        commands == old(commands) + (if r.1.Finished? && cmd & SendAutoStop != 0 then [Request(12, 0)] else [])
        && idsts == (if r.1.Finished? && !r.1.quiet then old(idsts) | (if HostToCard() then IdstsTi else IdstsRi) else old(idsts))
    {
      if dmaPending {
        dmaPending := false;
        IdmaProcess(fuel);
      }
    }

    /** What a read of the FIFO port does: with the FIFO empty it flags an
      * underrun and returns 0, changing nothing else (the line included);
      * otherwise it returns the oldest word and the controller updates
      * with the rest, leaving the flags to follow the new count. */
    twostate predicate FifoRead(v: bv32)
      requires old(Valid()) && Valid()
      reads this, fifo
    {
      if old(count) == 0 then
        PortKept() && WalkKept() && CommandKept() && unchanged(this`ctrl, this`intmask, this`level, this`plain, this`irq, this`dmaPending, this`cardPowered) && v == 0 && rintsts == old(rintsts) | FifoUnderrun
      else
        WalkKept() && CommandKept() && unchanged(this`ctrl, this`intmask, this`plain, this`dmaPending, this`cardPowered)
        && v == old(Queue())[0] && irq == IrqLevel(rintsts, intmask, ctrl) && level == LevelOf(count, Fifoth())
        && (CardPort(), rintsts) == AfterUpdate(old(CardPort()).(queue := old(Queue())[1..]), old(rintsts), cmd, ctrl, Fifoth())
    }

    /** What a write of the FIFO port does: with the FIFO full it flags the
      * error and updates the line; otherwise the word joins the FIFO and
      * the controller updates, leaving the flags to follow the new count. */
    twostate predicate FifoWritten(value: bv32)
      requires old(Valid()) && Valid()
      reads this, fifo
    {
      irq == IrqLevel(rintsts, intmask, ctrl)
      && if old(count) == FifoDepth then
        PortKept() && WalkKept() && CommandKept() && unchanged(this`ctrl, this`intmask, this`level, this`plain, this`dmaPending, this`cardPowered) && rintsts == old(rintsts) | FifoUnderrun
      else
        WalkKept() && CommandKept() && unchanged(this`ctrl, this`intmask, this`plain, this`dmaPending, this`cardPowered) && level == LevelOf(count, Fifoth())
        && (CardPort(), rintsts) == AfterUpdate(old(CardPort()).(queue := old(Queue()) + [value]), old(rintsts), cmd, ctrl, Fifoth())
    }

    /** What a CTRL write does: the controller updates under the written
      * value (a FIFO reset empties the FIFO and sets the flags of an empty
      * FIFO), the line follows, and the two reset bits read clear. */
    twostate predicate ControlWritten(value: bv32)
      requires old(Valid()) && Valid()
      reads this, fifo
    {
      ctrl == SelfCleared(value) && irq == IrqLevel(rintsts, intmask, value)
      && level == (if value & FifoReset != 0 then Level(false, true, true, false) else LevelOf(count, Fifoth()))
      && (CardPort(), rintsts) == AfterUpdate(old(CardPort()), old(rintsts), cmd, value, Fifoth())
    }

    /** What a PWREN write does: the word is stored and bit 0 powers the
      * card. */
    twostate predicate PowerWritten(value: bv32)
      requires old(Valid())
      reads this, fifo
    {
      plain == old(plain)[PwrenOff / 4 := value] && cardPowered == (value & 1 != 0)
    }

    /** What an INTMASK write does: the mask is stored and the line follows. */
    twostate predicate MaskWritten(value: bv32)
      reads this, fifo
    {
      intmask == value && irq == IrqLevel(rintsts, value, ctrl)
    }

    /** What a CMD write does: CMD is stored without START_CMD, RESP0-RESP3
      * are cleared and the command is issued (a response of the expected
      * length is packed, and without the internal DMA an auto-stop CMD12
      * with CMDARG follows).  With the internal DMA the DMA timer is armed
      * and the FIFO is left alone; otherwise the controller updates. */
    twostate predicate CommandWritten(value: bv32, reply: Reply)
      requires old(Valid()) && Valid() && |reply.bytes| == 16
      reads this, fifo
    {
      var packed := PackResponse(reply.rlen, reply.bytes, value & ResponseLength != 0);
      var stop := value & SendAutoStop != 0 && ctrl & UseInternalDmac == 0;
      var answered := Answered(old(rintsts), value, reply.rlen, reply.bytes);
      cmd == value & !StartCmd
      && (value & UpdateClockOnly != 0 ==> commands == old(commands) && resp == [0, 0, 0, 0])
      && (value & UpdateClockOnly == 0 ==>
        commands == old(commands) + [Request(value & 0x3F, CmdArg())] + (if stop then [Request(12, CmdArg())] else [])
        && resp == (if value & ResponseExpect != 0 && packed.Some? then packed.value else [0, 0, 0, 0]))
      && if ctrl & UseInternalDmac != 0 then
        dmaPending && rintsts == answered
        && irq == (if value & UpdateClockOnly != 0 then old(irq) else IrqLevel(rintsts, intmask, ctrl))
      else
        irq == IrqLevel(rintsts, intmask, ctrl) && level == LevelOf(count, Fifoth())
        && (CardPort(), rintsts) == AfterUpdate(old(CardPort()), answered, cmd, ctrl, Fifoth())
    }

    /** What a RINTSTS write does: the written bits are cleared, the flags
      * follow the count, the data requests are raised again against the
      * watermarks and the line follows. */
    twostate predicate RawStatusWritten(value: bv32)
      requires Valid()
      reads this, fifo
    {
      level == LevelOf(count, Fifoth())
      && rintsts == Requests(ClearRaw(old(rintsts), value), count, Fifoth(), HostToCard())
      && irq == IrqLevel(rintsts, intmask, ctrl)
    }

    /** What an IDSTS write does: the written interrupt bits are cleared
      * and the line follows. */
    twostate predicate DmaStatusWritten(value: bv32)
      reads this, fifo
    {
      idsts == ClearIdsts(old(idsts), value) && irq == IrqLevel(rintsts, intmask, ctrl)
    }

    /** What an IDINTEN write does: the word is stored and the line follows. */
    twostate predicate DmaEnableWritten(value: bv32)
      requires old(Valid())
      reads this, fifo
    {
      plain == old(plain)[IdintenOff / 4 := value] && irq == IrqLevel(rintsts, intmask, ctrl)
    }

    /** What a write of a plainly stored register does: BYTCNT takes the
      * value as its count, any other word is stored as it is. */
    twostate predicate WordStored(offset: nat, value: bv32)
      requires old(Valid()) && offset < RegBytes
      reads this, fifo
    {
      if offset == BytcntOff then bytcnt == CountOf(value) && plain == old(plain)
      else bytcnt == old(bytcnt) && plain == old(plain)[offset / 4 := value]
    }

    /** What a write to CTRL, PWREN, INTMASK or CMD does. */
    twostate predicate SetupWritten(offset: nat, value: bv32, reply: Reply)
      requires old(Valid()) && Valid() && |reply.bytes| == 16
      reads this, fifo
    {
      if offset == CtrlOff then
        WalkKept() && CommandKept() && unchanged(this`intmask, this`plain, this`dmaPending, this`cardPowered) && ControlWritten(value)
      else if offset == PwrenOff then PortKept() && WalkKept() && CommandKept() && unchanged(this`ctrl, this`intmask, this`rintsts, this`level, this`irq, this`dmaPending) && PowerWritten(value)
      else if offset == IntmaskOff then PortKept() && WalkKept() && CommandKept() && unchanged(this`ctrl, this`rintsts, this`level, this`plain, this`dmaPending, this`cardPowered) && MaskWritten(value)
      else if ctrl & UseInternalDmac != 0 then
        PortKept() && WalkKept() && unchanged(this`ctrl, this`intmask, this`level, this`plain, this`cardPowered) && CommandWritten(value, reply)
      else
        WalkKept() && unchanged(this`ctrl, this`intmask, this`plain, this`dmaPending, this`cardPowered) && CommandWritten(value, reply)
    }

    /** What a write to any other writable register of the block does:
      * RINTSTS and IDSTS clear bits, PLDMND arms the DMA timer and stores
      * nothing, IDINTEN is stored and drives the line, and every other word
      * is stored. */
    twostate predicate StatusWritten(offset: nat, value: bv32)
      requires old(Valid()) && Valid() && offset < RegBytes
      reads this, fifo
    {
      if offset == RintstsOff then PortKept() && WalkKept() && CommandKept() && unchanged(this`ctrl, this`intmask, this`plain, this`dmaPending, this`cardPowered) && RawStatusWritten(value)
      else if offset == PldmndOff then PortKept() && WalkKept() && CommandKept() && unchanged(this`ctrl, this`intmask, this`rintsts, this`level, this`plain, this`irq, this`cardPowered) && dmaPending
      else if offset == IdstsOff then PortKept() && CommandKept() && unchanged(this`ctrl, this`intmask, this`rintsts, this`level, this`fsm, this`dscaddr, this`plain, this`dmaPending, this`cardPowered, this`mem) && DmaStatusWritten(value)
      else if offset == IdintenOff then PortKept() && WalkKept() && CommandKept() && unchanged(this`ctrl, this`intmask, this`rintsts, this`level, this`dmaPending, this`cardPowered) && DmaEnableWritten(value)
      else WalkKept() && CommandKept() && unchanged(this`ctrl, this`intmask, this`rintsts, this`level, this`start, this`count, this`irq, this`dmaPending, this`cardPowered, this`cardData, this`cardSink) && unchanged(fifo) && WordStored(offset, value)
    }

    /** What `_dwc_sdhc_write` does at a word-aligned offset: the FIFO port
      * at 0x200 and above, nothing at all past the register block or at a
      * read-only register, and otherwise the register's own effect. */
    twostate predicate Written(offset: nat, value: bv32, reply: Reply)
      requires old(Valid()) && Valid() && |reply.bytes| == 16
      reads this, fifo
    {
      if offset >= FifoBase then FifoWritten(value)
      else if offset >= RegBytes || ReadOnly(offset) then unchanged(this) && unchanged(fifo)
      else if offset in {CtrlOff, PwrenOff, IntmaskOff, CmdOff} then SetupWritten(offset, value, reply)
      else StatusWritten(offset, value)
    }

    /** `_dwc_sdhc_read`: the FIFO port at 0x200 and above; below it MINTSTS
      * is computed, the register block reads by word and anything else
      * reads as zero, without side effects. */
    method Read(offset: nat) returns (v: bv32)
      requires Valid()
      modifies this`start, this`count, this`bytcnt, this`cardData, this`cardSink, fifo
      modifies this`rintsts, this`irq, this`level
      ensures Valid()
      ensures offset < FifoBase ==> v == old(ValueAt(offset)) && unchanged(this) && unchanged(fifo)
      ensures offset >= FifoBase && old(count) == 0 ==>
        v == 0 && rintsts == (old(rintsts) | FifoUnderrun) && CardPort() == old(CardPort())
      ensures offset >= FifoBase && old(count) > 0 ==>
        v == old(Queue())[0]
        && (CardPort(), rintsts) == AfterUpdate(old(CardPort()).(queue := old(Queue())[1..]), old(rintsts), cmd, ctrl, Fifoth())
      ensures offset >= FifoBase ==> FifoRead(v)
    {
      hide AfterUpdate, CardPort, Queue, WordAt, Mintsts;
      if offset >= FifoBase {
        v := ReadFifo();
      } else {
        v := ValueAt(offset);
      }
    }

    /** A CTRL write: the value is stored, the controller updates with it
      * (a FIFO reset empties the FIFO), then the two self-clearing reset
      * bits are cleared. */
    method WriteControl(value: bv32)
      requires Valid()
      modifies this`ctrl, this`start, this`count, this`bytcnt, this`cardData, this`cardSink, fifo
      modifies this`rintsts, this`irq, this`level
      ensures Valid() && ctrl == SelfCleared(value)
      ensures irq == IrqLevel(rintsts, intmask, value)
      ensures (CardPort(), rintsts) == AfterUpdate(old(CardPort()), old(rintsts), cmd, value, Fifoth())
      ensures level == (if value & FifoReset != 0 then Level(false, true, true, false) else LevelOf(count, Fifoth()))
      ensures ControlWritten(value)
    {
      hide AfterUpdate, IrqLevel, SelfCleared, WordAt, ValueAt, LevelOf, CardPort, Queue, Fifoth, Exchanged, Leveled, Requests, Mintsts, DmaState;
      ctrl := value;
      Update();
      ghost var settled := level;
      assert settled == if value & FifoReset != 0 then Level(false, true, true, false) else LevelOf(count, Fifoth());
      ClearResets();
    }

    /** The end of a CTRL write: the two reset bits clear themselves. */
    method ClearResets()
      requires Sound() && level.empty == (count == 0) && level.full == (count == FifoDepth)
      modifies this`ctrl
      ensures Valid() && ctrl == SelfCleared(old(ctrl))
    {
      ctrl := SelfCleared(ctrl);
    }

    /** A PWREN write: stored, and bit 0 powers the card. */
    method WritePower(value: bv32)
      requires Valid()
      modifies this`plain, this`cardPowered
      ensures Valid()
      ensures plain == old(plain)[PwrenOff / 4 := value] && cardPowered == (value & 1 != 0)
      ensures WordAt(PwrenOff / 4) == value
      ensures PowerWritten(value)
    {
      plain := plain[PwrenOff / 4 := value];
      cardPowered := value & 1 != 0;
      PlainAt(PwrenOff / 4);
    }

    /** An INTMASK write: stored, and the line follows the new mask. */
    method WriteMask(value: bv32)
      requires Valid()
      modifies this`intmask, this`irq
      ensures Valid() && intmask == value && irq == IrqLevel(rintsts, value, ctrl)
      ensures MaskWritten(value)
    {
      intmask := value;
      UpdateIrq();
    }

    /** A CMD write: stored, RESP0-RESP3 cleared, the command issued; with
      * the internal DMA the DMA timer is armed, otherwise the controller
      * updates. */
    method WriteCommand(value: bv32, reply: Reply)
      requires Valid() && |reply.bytes| == 16
      modifies this`cmd, this`commands, this`resp, this`dmaPending
      modifies this`start, this`count, this`bytcnt, this`cardData, this`cardSink, fifo
      modifies this`rintsts, this`irq, this`level
      ensures Valid() && cmd == value & !StartCmd
      ensures value & UpdateClockOnly != 0 ==> commands == old(commands) && resp == [0, 0, 0, 0]
      ensures value & UpdateClockOnly == 0 ==>
        var packed := PackResponse(reply.rlen, reply.bytes, value & ResponseLength != 0);
        var stop := value & SendAutoStop != 0 && ctrl & UseInternalDmac == 0;
        commands == old(commands) + [Request(value & 0x3F, CmdArg())] + (if stop then [Request(12, CmdArg())] else [])
        && resp == (if value & ResponseExpect != 0 && packed.Some? then packed.value else [0, 0, 0, 0])
      ensures ctrl & UseInternalDmac != 0 ==>
        dmaPending && CardPort() == old(CardPort())
        && rintsts == Answered(old(rintsts), value, reply.rlen, reply.bytes)
      ensures ctrl & UseInternalDmac == 0 ==>
        dmaPending == old(dmaPending) && irq == IrqLevel(rintsts, intmask, ctrl)
        && (CardPort(), rintsts) == AfterUpdate(old(CardPort()), Answered(old(rintsts), value, reply.rlen, reply.bytes), cmd, ctrl, Fifoth())
      ensures ctrl & UseInternalDmac != 0 ==>
        irq == (if value & UpdateClockOnly != 0 then old(irq) else IrqLevel(rintsts, intmask, ctrl))
        && PortKept() && WalkKept() && unchanged(this`ctrl, this`intmask, this`level, this`plain, this`cardPowered)
      ensures ctrl & UseInternalDmac == 0 ==> level == LevelOf(count, Fifoth())
      ensures CommandWritten(value, reply)
    {
      hide AfterUpdate, Answered, IrqLevel, WordAt, ValueAt, LevelOf, PackResponse, CardPort, Fifoth, CmdArg, Queue, Exchanged, Leveled, Requests, Mintsts, DmaState;
      Issue(value, reply);
      Proceed();
    }

    /** The first half of a CMD write: the value is stored, RESP0-RESP3 are
      * cleared and the command is issued. */
    method Issue(value: bv32, reply: Reply)
      requires Valid() && |reply.bytes| == 16
      modifies this`cmd, this`commands, this`resp, this`rintsts, this`irq
      ensures Valid() && cmd == value & !StartCmd
      ensures rintsts == Answered(old(rintsts), value, reply.rlen, reply.bytes)
      ensures value & UpdateClockOnly != 0 ==> commands == old(commands) && resp == [0, 0, 0, 0] && irq == old(irq)
      ensures value & UpdateClockOnly == 0 ==>
        var packed := PackResponse(reply.rlen, reply.bytes, value & ResponseLength != 0);
        var stop := value & SendAutoStop != 0 && ctrl & UseInternalDmac == 0;
        commands == old(commands) + [Request(value & 0x3F, CmdArg())] + (if stop then [Request(12, CmdArg())] else [])
        && resp == (if value & ResponseExpect != 0 && packed.Some? then packed.value else [0, 0, 0, 0])
        && irq == IrqLevel(rintsts, intmask, ctrl)
    {
      hide Answered, IrqLevel, WordAt, ValueAt, LevelOf, CardPort, Queue;
      resp := [0, 0, 0, 0];
      Command(value, reply);
    }

    /** The second half of a CMD write: with the internal DMA the DMA timer
      * is armed, otherwise the controller updates. */
    method Proceed()
      requires Valid()
      modifies this`dmaPending
      modifies this`start, this`count, this`bytcnt, this`cardData, this`cardSink, fifo
      modifies this`rintsts, this`irq, this`level
      ensures Valid()
      ensures ctrl & UseInternalDmac != 0 ==>
        dmaPending && CardPort() == old(CardPort()) && rintsts == old(rintsts) && irq == old(irq)
      ensures ctrl & UseInternalDmac == 0 ==>
        dmaPending == old(dmaPending) && irq == IrqLevel(rintsts, intmask, ctrl)
        && (CardPort(), rintsts) == AfterUpdate(old(CardPort()), old(rintsts), cmd, ctrl, Fifoth())
      ensures ctrl & UseInternalDmac != 0 ==> PortKept() && WalkKept() && CommandKept() && unchanged(this`ctrl, this`intmask, this`rintsts, this`level, this`plain, this`irq, this`cardPowered)
      ensures ctrl & UseInternalDmac == 0 ==> level == LevelOf(count, Fifoth())
    {
      hide AfterUpdate, IrqLevel, WordAt, ValueAt, LevelOf;
      if ctrl & UseInternalDmac != 0 {
        dmaPending := true;
      } else {
        Update();
      }
    }

    /** A RINTSTS write: the written bits are cleared, then the FIFO flags
      * and data requests are refreshed. */
    method ClearRawStatus(value: bv32)
      requires Valid()
      modifies this`start, this`count, this`level, this`rintsts, this`irq
      ensures Valid() && start == old(start) && count == old(count)
      ensures rintsts == Requests(ClearRaw(old(rintsts), value), count, Fifoth(), HostToCard())
      ensures level == LevelOf(count, Fifoth()) && irq == IrqLevel(rintsts, intmask, ctrl)
      ensures RawStatusWritten(value) && StatusWritten(RintstsOff, value)
    {
      hide DmaStatusWritten, DmaEnableWritten, WordStored;
      rintsts := ClearRaw(rintsts, value);
      LevelUpdate();
    }

    /** A PLDMND write: whatever the value, the DMA timer is armed and
      * nothing is stored. */
    method ArmDma(value: bv32)
      requires Valid()
      modifies this`dmaPending
      ensures Valid() && dmaPending
      ensures StatusWritten(PldmndOff, value)
    {
      hide RawStatusWritten, DmaStatusWritten, DmaEnableWritten, WordStored;
      dmaPending := true;
    }

    /** An IDSTS write: the written interrupt bits are cleared. */
    method ClearDmaStatus(value: bv32)
      requires Valid()
      modifies this`idsts, this`irq
      ensures Valid() && idsts == ClearIdsts(old(idsts), value) && irq == IrqLevel(rintsts, intmask, ctrl)
      ensures DmaStatusWritten(value) && StatusWritten(IdstsOff, value)
    {
      hide RawStatusWritten, DmaEnableWritten, WordStored, Valid, Sound, RingSound;
      hide ClearIdsts, IrqLevel, Requests, ClearRaw, LevelOf, AfterUpdate, WordAt, ValueAt, CardPort, Queue, Fifoth, HostToCard, DmaState;
      idsts := ClearIdsts(idsts, value);
      UpdateIrq();
    }

    /** An IDINTEN write: stored, then the line is updated. */
    method WriteDmaEnable(value: bv32)
      requires Valid()
      modifies this`plain, this`irq
      ensures Valid() && plain == old(plain)[IdintenOff / 4 := value] && irq == IrqLevel(rintsts, intmask, ctrl)
      ensures WordAt(IdintenOff / 4) == value
      ensures DmaEnableWritten(value) && StatusWritten(IdintenOff, value)
    {
      hide RawStatusWritten, DmaStatusWritten, WordStored;
      plain := plain[IdintenOff / 4 := value];
      UpdateIrq();
      PlainAt(IdintenOff / 4);
    }

    /** A write to any other register of the block: stored as it is. */
    method StoreWord(offset: nat, value: bv32)
      requires Valid() && offset < RegBytes && offset % 4 == 0
      requires offset != CtrlOff && offset != IntmaskOff && offset != CmdOff
      requires offset != RintstsOff && offset != IdstsOff && !ReadOnly(offset)
      modifies this`plain, this`bytcnt
      ensures Valid() && WordAt(offset / 4) == value
      ensures offset == BytcntOff ==> bytcnt == CountOf(value) && plain == old(plain)
      ensures offset != BytcntOff ==> bytcnt == old(bytcnt) && plain == old(plain)[offset / 4 := value]
      ensures WordStored(offset, value)
      ensures offset != PldmndOff && offset != IdintenOff ==> StatusWritten(offset, value)
    {
      hide RawStatusWritten, DmaStatusWritten, DmaEnableWritten;
      hide WordAt, ReadOnly, Cased, CountOf, WordOf;
      if offset == BytcntOff {
        bytcnt := CountOf(value);
        WordRoundTrip(value);
        CountAt();
      } else {
        PlainIndex(offset);
        plain := plain[offset / 4 := value];
        PlainAt(offset / 4);
      }
    }

    /** BYTCNT reads as the count. */
    lemma CountAt()
      requires Sound()
      ensures WordAt(BytcntOff / 4) == WordOf(bytcnt)
    {
    }

    /** A word the controller keeps no state of its own for reads as
      * stored. */
    lemma PlainAt(i: nat)
      requires Sound() && i < RegWords && !Cased(i)
      ensures WordAt(i) == plain[i]
    {
    }

    /** `_dwc_sdhc_reset`: the register block takes its reset values and
      * the FIFO count returns to zero; the FIFO's read position, the
      * interrupt line, the armed DMA timer and the card are left as they
      * were. */
    method Reset()
      requires Sound()
      modifies this`ctrl, this`bytcnt, this`intmask, this`cmd, this`resp, this`rintsts, this`level
      modifies this`idsts, this`fsm, this`dscaddr, this`plain, this`count
      ensures Valid() && count == 0 && start == old(start) && plain == ResetBlock()
      ensures ctrl == 0 && intmask == 0 && cmd == 0 && rintsts == 0 && idsts == 0 && fsm == 0 && dscaddr == 0
      ensures bytcnt == CountOf(BytcntReset) && resp == [0, 0, 0, 0] && level == Level(false, true, true, false)
    {
      ctrl, intmask, cmd, rintsts, idsts, fsm, dscaddr := 0, 0, 0, 0, 0, 0, 0;
      bytcnt := CountOf(BytcntReset);
      resp := [0, 0, 0, 0];
      level := Level(false, true, true, false);
      plain := ResetBlock();
      count := 0;
    }

    /** After `Reset` every word of the register block reads as its reset
      * value: STATUS shows an empty FIFO below the receive watermark. */
    lemma ResetView(i: nat)
      requires Sound() && i < RegWords && count == 0
      requires ctrl == 0 && intmask == 0 && cmd == 0 && rintsts == 0 && idsts == 0 && fsm == 0 && dscaddr == 0
      requires bytcnt == CountOf(BytcntReset) && resp == [0, 0, 0, 0] && level == Level(false, true, true, false)
      requires plain == ResetBlock()
      ensures WordAt(i) == ResetWord(i)
    {
      if i == StatusOff / 4 {
        StatusAfterReset();
      } else if i == BytcntOff / 4 {
        WordRoundTrip(BytcntReset);
      } else if Resp0Off / 4 <= i <= Resp3Off / 4 {
        assert WordAt(i) == resp[i - Resp0Off / 4] == 0;
      } else if i == IdstsOff / 4 {
        assert WordAt(i) == IdstsWord(0, 0) == 0 == ResetWord(i);
      } else if i == CtrlOff / 4 || i == IntmaskOff / 4 || i == CmdOff / 4 || i == RintstsOff / 4 || i == DscaddrOff / 4 {
        assert WordAt(i) == 0 == ResetWord(i);
      } else {
        assert WordAt(i) == plain[i];
        assert plain[i] == ResetWord(i);
      }
    }

    /** A controller in its reset state over the given guest memory and a
      * card with `card` ready to be read; no request has been issued. */
    constructor(memory: GuestMemory.Memory, card: seq<bv8>)
      ensures Valid() && fresh(fifo) && count == 0 && start == 0
      ensures forall i | 0 <= i < RegWords :: WordAt(i) == ResetWord(i)
      ensures mem == memory && cardData == card && cardSink == [] && commands == []
      ensures !irq && !dmaPending && !cardPowered
    {
      fifo := new bv32[FifoDepth](_ => 0);
      start, count, bytcnt, resp, plain, fsm := 0, 0, 0, [0, 0, 0, 0], seq(RegWords, _ => 0), 0;
      irq, dmaPending, cardPowered := false, false, false;
      mem, cardData, cardSink, commands := memory, card, [], [];
      new;
      Reset();
      forall i | 0 <= i < RegWords
        ensures WordAt(i) == ResetWord(i)
      {
        ResetView(i);
      }
    }

    /** `_dwc_sdhc_write` for a word-aligned offset: the FIFO port pushes
      * a word; beyond the register block nothing happens; each register
      * with a side effect takes its own path; the read-only registers
      * ignore the write; every other word is stored as it is. */
    method Write(offset: nat, value: bv32, reply: Reply)
      requires Valid() && offset % 4 == 0 && |reply.bytes| == 16
      modifies this, fifo
      ensures Valid()
      ensures offset >= FifoBase && old(count) == FifoDepth ==>
        rintsts == (old(rintsts) | FifoUnderrun) && CardPort() == old(CardPort())
      ensures offset >= FifoBase && old(count) < FifoDepth ==>
        (CardPort(), rintsts) == AfterUpdate(old(CardPort()).(queue := old(Queue()) + [value]), old(rintsts), cmd, ctrl, Fifoth())
      ensures (RegBytes <= offset < FifoBase || ReadOnly(offset)) ==>
        forall i | 0 <= i < RegWords :: WordAt(i) == old(WordAt(i))
      ensures offset == CtrlOff ==> ctrl == SelfCleared(value)
      ensures offset == PwrenOff ==> cardPowered == (value & 1 != 0)
      ensures offset == IntmaskOff ==> intmask == value && irq == IrqLevel(rintsts, value, ctrl)
      ensures offset == CmdOff ==> cmd == value & !StartCmd
      ensures offset == RintstsOff ==> rintsts == Requests(ClearRaw(old(rintsts), value), count, Fifoth(), HostToCard())
      ensures offset == PldmndOff ==> dmaPending && WordAt(PldmndOff / 4) == old(WordAt(PldmndOff / 4))
      ensures offset == IdstsOff ==> idsts == ClearIdsts(old(idsts), value)
      ensures offset < RegBytes && !ReadOnly(offset) && PlainWrite(offset) ==> WordAt(offset / 4) == value
      ensures Written(offset, value, reply)
    {
      hide AfterUpdate, Answered, SelfCleared, IrqLevel, Requests, ClearRaw, ClearIdsts, LevelOf, PackResponse;
      if offset >= FifoBase {
        WriteFifo(value);
      } else {
        WriteRegister(offset, value, reply);
      }
    }

    /** The register half of `_dwc_sdhc_write`. */
    method WriteRegister(offset: nat, value: bv32, reply: Reply)
      requires Valid() && offset % 4 == 0 && offset < FifoBase && |reply.bytes| == 16
      modifies this, fifo
      ensures Valid()
      ensures (RegBytes <= offset < FifoBase || ReadOnly(offset)) ==>
        forall i | 0 <= i < RegWords :: WordAt(i) == old(WordAt(i))
      ensures offset == CtrlOff ==> ctrl == SelfCleared(value)
      ensures offset == PwrenOff ==> cardPowered == (value & 1 != 0)
      ensures offset == IntmaskOff ==> intmask == value && irq == IrqLevel(rintsts, value, ctrl)
      ensures offset == CmdOff ==> cmd == value & !StartCmd
      ensures offset == RintstsOff ==> rintsts == Requests(ClearRaw(old(rintsts), value), count, Fifoth(), HostToCard())
      ensures offset == PldmndOff ==> dmaPending && WordAt(PldmndOff / 4) == old(WordAt(PldmndOff / 4))
      ensures offset == IdstsOff ==> idsts == ClearIdsts(old(idsts), value)
      ensures offset < RegBytes && !ReadOnly(offset) && PlainWrite(offset) ==> WordAt(offset / 4) == value
      ensures Written(offset, value, reply)
    {
      hide AfterUpdate, Answered, SelfCleared, IrqLevel, Requests, ClearRaw, ClearIdsts, LevelOf, PackResponse, WordAt;
      if offset >= RegBytes || ReadOnly(offset) {
      } else if offset in {CtrlOff, PwrenOff, IntmaskOff, CmdOff} {
        WriteSetup(offset, value, reply);
      } else {
        WriteStatus(offset, value);
      }
    }

    /** The writes to CTRL, PWREN, INTMASK and CMD. */
    method WriteSetup(offset: nat, value: bv32, reply: Reply)
      requires Valid() && offset in {CtrlOff, PwrenOff, IntmaskOff, CmdOff} && |reply.bytes| == 16
      modifies this, fifo
      ensures Valid()
      ensures offset == CtrlOff ==> ctrl == SelfCleared(value)
      ensures offset == PwrenOff ==> cardPowered == (value & 1 != 0)
      ensures offset == IntmaskOff ==> intmask == value && irq == IrqLevel(rintsts, value, ctrl)
      ensures offset == CmdOff ==> cmd == value & !StartCmd
      ensures PlainWrite(offset) ==> WordAt(offset / 4) == value
      ensures SetupWritten(offset, value, reply)
    {
      hide AfterUpdate, Answered, SelfCleared, IrqLevel, Requests, ClearRaw, ClearIdsts, LevelOf, PackResponse;
      hide WordAt, ValueAt, CardPort, Queue, Fifoth, CmdArg, Exchanged, Leveled, Mintsts, DmaState;
      hide ControlWritten, PowerWritten, MaskWritten, CommandWritten;
      hide Valid, Sound, RingSound, Dbaddr, Bmod, HostToCard;
      if offset == CtrlOff {
        WriteControl(value);
      } else if offset == PwrenOff {
        WritePower(value);
      } else if offset == IntmaskOff {
        WriteMask(value);
      } else {
        WriteCommand(value, reply);
      }
    }

    /** The writes to RINTSTS, PLDMND, IDSTS, IDINTEN and the plainly stored
      * registers. */
    method WriteStatus(offset: nat, value: bv32)
      requires Valid() && offset % 4 == 0 && offset < RegBytes && !ReadOnly(offset)
      requires offset !in {CtrlOff, PwrenOff, IntmaskOff, CmdOff}
      modifies this
      ensures Valid()
      ensures offset == RintstsOff ==> rintsts == Requests(ClearRaw(old(rintsts), value), count, Fifoth(), HostToCard())
      ensures offset == PldmndOff ==> dmaPending && WordAt(PldmndOff / 4) == old(WordAt(PldmndOff / 4))
      ensures offset == IdstsOff ==> idsts == ClearIdsts(old(idsts), value)
      ensures PlainWrite(offset) ==> WordAt(offset / 4) == value
      ensures StatusWritten(offset, value)
    {
      hide AfterUpdate, Answered, SelfCleared, IrqLevel, Requests, ClearRaw, ClearIdsts, LevelOf, PackResponse;
      hide WordAt, ValueAt, CardPort, Queue, Fifoth, CmdArg, Exchanged, Leveled, Mintsts, DmaState, HostToCard;
      hide StatusWritten, RawStatusWritten, DmaStatusWritten, DmaEnableWritten, WordStored, Valid;
      if offset == RintstsOff {
        ClearRawStatus(value);
      } else if offset == PldmndOff {
        ArmDma(value);
      } else if offset == IdstsOff {
        ClearDmaStatus(value);
      } else if offset == IdintenOff {
        WriteDmaEnable(value);
      } else {
        StoreWord(offset, value);
      }
    }
  }
}
