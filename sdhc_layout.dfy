/**
 * Register layout of the DesignWare mobile storage host (SD/MMC) as the
 * NationalChip model lays it out: word offsets, the bit fields of CTRL, CMD,
 * RINTSTS, STATUS, FIFOTH, BMOD and IDSTS, the internal-DMA descriptor, and
 * the packing of a card's response bytes into RESP0-RESP3.
 */
module SdhcLayout {

  datatype Option<T> = None | Some(value: T)

  /** The data FIFO holds 128 words; its port starts at 0x200. */
  const FifoDepth: nat := 0x80
  const FifoBase: nat := 0x200
  /** The main register block spans 0x9C bytes. */
  const RegBytes: nat := 0x9C
  const RegWords: nat := 0x9C / 4

  /** Register offsets. */
  const CtrlOff: nat := 0x00
  const PwrenOff: nat := 0x04
  const TmoutOff: nat := 0x14
  const BlksizOff: nat := 0x1C
  const BytcntOff: nat := 0x20
  const IntmaskOff: nat := 0x24
  const CmdargOff: nat := 0x28
  const CmdOff: nat := 0x2C
  const Resp0Off: nat := 0x30
  const Resp3Off: nat := 0x3C
  const MintstsOff: nat := 0x40
  const RintstsOff: nat := 0x44
  const StatusOff: nat := 0x48
  const FifothOff: nat := 0x4C
  const CdetectOff: nat := 0x50
  const WrtprtOff: nat := 0x54
  const TcbcntOff: nat := 0x5C
  const TbbcntOff: nat := 0x60
  const VeridOff: nat := 0x6C
  const DebnceOff: nat := 0x64
  const HconOff: nat := 0x70
  const RstnOff: nat := 0x78
  const BmodOff: nat := 0x80
  const PldmndOff: nat := 0x84
  const DbaddrOff: nat := 0x88
  const IdstsOff: nat := 0x8C
  const IdintenOff: nat := 0x90
  const DscaddrOff: nat := 0x94
  const BufaddrOff: nat := 0x98

  /** CTRL bits. */
  const ControllerReset: bv32 := 0x1
  const FifoReset: bv32 := 0x2
  const IntEnable: bv32 := 0x10
  const UseInternalDmac: bv32 := 0x200_0000

  /** CMD bits. */
  const ResponseExpect: bv32 := 0x40
  const ResponseLength: bv32 := 0x80
  const DataExpected: bv32 := 0x200
  const ReadOrWrite: bv32 := 0x400
  const SendAutoStop: bv32 := 0x1000
  const UpdateClockOnly: bv32 := 0x20_0000
  const StartCmd: bv32 := 0x8000_0000

  /** RINTSTS bits. */
  const CommandDone: bv32 := 0x4
  const DataTransferOver: bv32 := 0x8
  const TxDataRequest: bv32 := 0x10
  const RxDataRequest: bv32 := 0x20
  const ResponseTimeout: bv32 := 0x100
  const FifoUnderrun: bv32 := 0x800

  /** STATUS: the bits the model keeps fixed, and where the count sits. */
  const StatusFixed: bv32 := 0x100
  const FifoCountShift: bv32 := 17

  /** IDSTS bits, the ones a write clears, and the state machine field. */
  const IdstsTi: bv32 := 0x1
  const IdstsRi: bv32 := 0x2
  const IdstsClearable: bv32 := 0x337
  const FsmShift: bv32 := 13
  const FsmMask: bv32 := 0x1_E000

  /** Internal-DMA state machine states. */
  const FsmSuspend: nat := 1
  const FsmDescRead: nat := 2
  const FsmDescCheck: nat := 3
  const FsmDmaRead: nat := 6
  const FsmDmaWrite: nat := 7

  /** The largest burst the internal DMA moves at once. */
  const BurstSize: nat := 16

  /** The reset values of the registers the reset sets. */
  const TmoutReset: bv32 := 0xFFFF_FF40
  const BlksizReset: bv32 := 0x200
  const BytcntReset: bv32 := 0x200
  const FifothReset: bv32 := 0x7F_0000
  const CdetectReset: bv32 := 0xFFFF_FFFE
  const DebnceReset: bv32 := 0x00FF_FFFF
  const VeridReset: bv32 := 0x5432_270A
  const HconReset: bv32 := 0x79_2CC3
  const RstnReset: bv32 := 0xFFFF
  /** STATUS after reset: transmit watermark and empty flags, count zero. */
  const StatusReset: bv32 := 0x106

  /** Word `i` of the register block as the reset leaves it. */
  function ResetWord(i: nat): bv32
  {
    if i == TmoutOff / 4 then TmoutReset
    else if i == BlksizOff / 4 then BlksizReset
    else if i == BytcntOff / 4 then BytcntReset
    else if i == StatusOff / 4 then StatusReset
    else if i == FifothOff / 4 then FifothReset
    else if i == CdetectOff / 4 then CdetectReset
    else if i == DebnceOff / 4 then DebnceReset
    else if i == VeridOff / 4 then VeridReset
    else if i == HconOff / 4 then HconReset
    else if i == RstnOff / 4 then RstnReset
    else 0
  }

  /** The register block's reset values, by word index. */
  function ResetBlock(): (r: seq<bv32>)
    ensures |r| == RegWords && forall i | 0 <= i < RegWords :: r[i] == ResetWord(i)
  {
    seq(RegWords, i requires 0 <= i => ResetWord(i))
  }

  /** The word indices a read answers from the controller's own state
    * rather than from the stored block. */
  predicate Cased(i: nat)
  {
    i == CtrlOff / 4 || i == BytcntOff / 4 || i == IntmaskOff / 4 || i == CmdOff / 4
    || (Resp0Off / 4 <= i <= Resp3Off / 4) || i == RintstsOff / 4 || i == StatusOff / 4
    || i == IdstsOff / 4 || i == DscaddrOff / 4
  }

  /** An aligned write that takes the default path lands on a stored word. */
  lemma PlainIndex(offset: nat)
    requires offset % 4 == 0 && offset < RegBytes && !ReadOnly(offset)
    requires offset != CtrlOff && offset != BytcntOff && offset != IntmaskOff && offset != CmdOff
    requires offset != RintstsOff && offset != IdstsOff
    ensures offset / 4 < RegWords && !Cased(offset / 4)
  {
  }

  /** BYTCNT's word as the byte count the controller keeps. */
  function CountOf(w: bv32): (n: nat)
    ensures n < 0x1_0000_0000
  {
    w as nat
  }

  /** A byte count below 2^32 as the word BYTCNT reads. */
  function WordOf(n: nat): bv32
    requires n < 0x1_0000_0000
  {
    n as bv32
  }

  /** A word survives its trip through an unbounded count. */
  lemma WordRoundTrip(w: bv32)
    ensures WordOf(CountOf(w)) == w
  {
  }

  /** The reset STATUS word is the one the FIFO flags of an empty FIFO
    * with the reset watermarks give. */
  lemma StatusAfterReset()
    ensures StatusWord(Level(false, true, true, false), 0) == StatusReset
    ensures LevelOf(0, FifothReset) == Level(false, true, true, false)
  {
    ResetWatermarks();
  }

  /** RINTSTS after a command write: a clock-update-only command changes
    * nothing; any other raises command-done, and response-timeout when a
    * response was expected and the card's was not of the expected length. */
  function Answered(rintsts: bv32, cmd: bv32, rlen: int, bytes: seq<bv8>): (r: bv32)
    requires |bytes| == 16
    ensures cmd & UpdateClockOnly != 0 ==> r == rintsts
    ensures cmd & UpdateClockOnly == 0 ==> r & CommandDone != 0
    ensures r & !(CommandDone | ResponseTimeout) == rintsts & !(CommandDone | ResponseTimeout)
  {
    if cmd & UpdateClockOnly != 0 then rintsts
    else rintsts | B(cmd & ResponseExpect != 0 && PackResponse(rlen, bytes, cmd & ResponseLength != 0).None?, ResponseTimeout)
         | CommandDone
  }

  /** A command that is sent: RINTSTS as the response step leaves it,
    * with command-done raised. */
  lemma AnsweredIs(rintsts: bv32, cmd: bv32, rlen: int, bytes: seq<bv8>)
    requires |bytes| == 16 && cmd & UpdateClockOnly == 0
    ensures Answered(rintsts, cmd, rlen, bytes)
      == (rintsts | B(cmd & ResponseExpect != 0 && PackResponse(rlen, bytes, cmd & ResponseLength != 0).None?, ResponseTimeout))
         | CommandDone
  {
  }

  /** The offsets a write ignores: RESP0-RESP3, MINTSTS, STATUS, CDETECT,
    * WRTPRT, TCBCNT, TBBCNT, VERID, HCON, DSCADDR and BUFADDR. */
  predicate ReadOnly(offset: nat)
  {
    (Resp0Off <= offset <= Resp3Off && offset % 4 == 0)
    || offset in {MintstsOff, StatusOff, CdetectOff, WrtprtOff, TcbcntOff,
                  TbbcntOff, VeridOff, HconOff, DscaddrOff, BufaddrOff}
  }

  /** The writable offsets whose word takes the written value as it is:
    * all but CTRL (reset bits self-clear), INTMASK and RINTSTS and IDSTS
    * (computed), CMD (START_CMD clears) and PLDMND (only arms the DMA). */
  predicate PlainWrite(offset: nat)
  {
    offset !in {CtrlOff, IntmaskOff, CmdOff, RintstsOff, PldmndOff, IdstsOff}
  }

  function B(b: bool, bit: bv32): bv32 { if b then bit else 0 }

  /** The interrupt line: some raw status bit is unmasked and CTRL enables
    * interrupts. */
  function IrqLevel(rintsts: bv32, intmask: bv32, ctrl: bv32): (up: bool)
    ensures up ==> ctrl & IntEnable != 0
    ensures up <==> Mintsts(rintsts, intmask) != 0 && ctrl & IntEnable != 0
  {
    rintsts & intmask != 0 && ctrl & IntEnable != 0
  }

  /** What MINTSTS reads: the raw status under the mask. */
  function Mintsts(rintsts: bv32, intmask: bv32): (m: bv32)
    ensures m & !rintsts == 0 && m & !intmask == 0
  {
    rintsts & intmask
  }

  /** CTRL after a write has taken effect: the controller and FIFO reset
    * bits clear themselves and every other bit keeps its value. */
  function SelfCleared(ctrl: bv32): (r: bv32)
    ensures r & (ControllerReset | FifoReset) == 0
    ensures r & !(ControllerReset | FifoReset) == ctrl & !(ControllerReset | FifoReset)
  {
    ctrl & !(ControllerReset | FifoReset)
  }

  /** A RINTSTS write clears exactly the written bits. */
  function ClearRaw(rintsts: bv32, value: bv32): (r: bv32)
    ensures r & value == 0
    ensures r & !value == rintsts & !value
  {
    rintsts & !value
  }

  /** FIFOTH: the transmit watermark in bits 0-11, the receive one in 16-27. */
  function TxWatermark(fifoth: bv32): (w: nat)
    ensures w < 4096
  {
    (fifoth & 0xFFF) as nat
  }

  function RxWatermark(fifoth: bv32): (w: nat)
    ensures w < 4096
  {
    ((fifoth >> 16) & 0xFFF) as nat
  }

  /** The reset FIFOTH puts the receive watermark one below the depth. */
  lemma ResetWatermarks()
    ensures RxWatermark(FifothReset) == FifoDepth - 1 && TxWatermark(FifothReset) == 0
  {
    assert (FifothReset >> 16) & 0xFFF == 0x7F;
    assert FifothReset & 0xFFF == 0;
  }

  /** The FIFO level flags STATUS reports for `count` words. */
  datatype Level = Level(rxWm: bool, txWm: bool, empty: bool, full: bool)

  function LevelOf(count: nat, fifoth: bv32): (l: Level)
    ensures l.empty <==> count == 0
    ensures l.full <==> count == FifoDepth
    ensures l.rxWm <==> count > RxWatermark(fifoth)
    ensures l.txWm <==> count <= TxWatermark(fifoth)
  {
    Level(count > RxWatermark(fifoth), count <= TxWatermark(fifoth), count == 0, count == FifoDepth)
  }

  /** The data requests a level update raises in RINTSTS: RXDR when the
    * card is being read and the FIFO is above its receive watermark, TXDR
    * when the card is being written and the FIFO is at or below its
    * transmit watermark.  Raised bits are never lowered here. */
  function Requests(rintsts: bv32, count: nat, fifoth: bv32, toCard: bool): (r: bv32)
    ensures r & !(RxDataRequest | TxDataRequest) == rintsts & !(RxDataRequest | TxDataRequest)
    ensures r & RxDataRequest != 0 <==> rintsts & RxDataRequest != 0 || (!toCard && count > RxWatermark(fifoth))
    ensures r & TxDataRequest != 0 <==> rintsts & TxDataRequest != 0 || (toCard && count <= TxWatermark(fifoth))
  {
    rintsts | B(!toCard && count > RxWatermark(fifoth), RxDataRequest)
            | B(toCard && count <= TxWatermark(fifoth), TxDataRequest)
  }

  /** The STATUS word: level flags in bits 0-3, the fixed card-present bit
    * and the FIFO count in bits 17-29. */
  function StatusWord(l: Level, count: nat): (w: bv32)
    requires count <= FifoDepth
  {
    B(l.rxWm, 0x1) | B(l.txWm, 0x2) | B(l.empty, 0x4) | B(l.full, 0x8)
    | StatusFixed | ((count as bv32) << FifoCountShift)
  }

  /** The count field of a STATUS word gives the count back, and the flag
    * bits give the flags. */
  lemma StatusFields(l: Level, count: nat)
    requires count <= FifoDepth
    ensures (StatusWord(l, count) >> FifoCountShift) & 0x1FFF == count as bv32
    ensures StatusWord(l, count) & 0x4 != 0 <==> l.empty
    ensures StatusWord(l, count) & 0x8 != 0 <==> l.full
  {
    var flags := B(l.rxWm, 0x1) | B(l.txWm, 0x2) | B(l.empty, 0x4) | B(l.full, 0x8);
    var c := count as bv32;
    assert c <= 0x80;
    assert flags & !0xF == 0;
    StatusBits(flags, c);
    assert flags & 0x4 != 0 <==> l.empty;
    assert flags & 0x8 != 0 <==> l.full;
  }

  /** The bit-level core of `StatusFields`. */
  lemma StatusBits(flags: bv32, c: bv32)
    requires flags & !0xF == 0 && c <= 0x80
    ensures ((flags | StatusFixed | (c << FifoCountShift)) >> FifoCountShift) & 0x1FFF == c
    ensures (flags | StatusFixed | (c << FifoCountShift)) & 0xF == flags
  {
  }

  /** The state machine value an IDSTS read shows in bits 13-16. */
  function IdstsWord(flags: bv32, fsm: nat): (w: bv32)
    requires fsm < 16
  {
    flags | ((fsm as bv32) << FsmShift)
  }

  /** An IDSTS write clears the interrupt bits set in the value (TI, RI,
    * FBE, DU, CES, NIS, AIS) and nothing else. */
  function ClearIdsts(flags: bv32, value: bv32): (r: bv32)
    ensures r & value & IdstsClearable == 0
    ensures r & !(value & IdstsClearable) == flags & !(value & IdstsClearable)
  {
    flags & !(value & IdstsClearable)
  }

  /** BMOD bits 2-6: the gap between dual-buffer descriptors. */
  function SkipLength(bmod: bv32): (d: bv32)
    ensures d < 32
  {
    (bmod >> 2) & 0x1F
  }

  /** An internal-DMA descriptor: four words. */
  datatype Descriptor = Descriptor(des0: bv32, des1: bv32, des2: bv32, des3: bv32)
  {
    predicate NoCompletionIrq() { des0 & 0x2 != 0 }
    predicate Last() { des0 & 0x4 != 0 }
    predicate Chained() { des0 & 0x10 != 0 }
    predicate EndOfRing() { des0 & 0x20 != 0 }
    predicate Owned() { des0 & 0x8000_0000 != 0 }

    /** DES1 bits 0-12 and 13-25: the sizes of the two buffers. */
    function Size1(): (n: nat)
      ensures n < 8192
    {
      (des1 & 0x1FFF) as nat
    }

    function Size2(): (n: nat)
      ensures n < 8192
    {
      ((des1 >> 13) & 0x1FFF) as nat
    }
  }

  /** A descriptor from the four words read at its address. */
  function DescriptorOf(ws: seq<bv32>): Descriptor
    requires |ws| == 4
  {
    Descriptor(ws[0], ws[1], ws[2], ws[3])
  }

  /** Where the walk goes after a descriptor whose buffers were moved, as
    * the controller model computes it: nowhere after the last one; to DES3
    * in chained mode; back to the list base at the end of a ring; else
    * DSL bytes further on, counted from the current descriptor's start. */
  function NextAsWritten(d: Descriptor, current: bv32, base: bv32, skip: bv32): (next: Option<bv32>)
    ensures next.None? <==> d.Last()
    ensures next.Some? && d.Chained() ==> next.value == d.des3
    ensures next.Some? && !d.Chained() && d.EndOfRing() ==> next.value == base
  {
    if d.Last() then None
    else if d.Chained() then Some(d.des3)
    else if d.EndOfRing() then Some(base)
    else Some(current + skip)
  }

  /** With a skip length below 16, which includes BMOD's reset value 0, an
    * unchained descriptor that is neither last nor at the ring's end is
    * followed by one that starts inside its own 16 bytes; with skip 0 the
    * walk reads the same descriptor again. */
  lemma AsWrittenOverlaps(d: Descriptor, current: bv32, base: bv32, bmod: bv32)
    requires !d.Last() && !d.Chained() && !d.EndOfRing()
    requires SkipLength(bmod) < 16
    ensures NextAsWritten(d, current, base, SkipLength(bmod)).Some?
    ensures NextAsWritten(d, current, base, SkipLength(bmod)).value - current < 16
    ensures SkipLength(bmod) == 0 ==> NextAsWritten(d, current, base, SkipLength(bmod)).value == current
  {
  }

  /** Where the walk evidently should go after a descriptor: as
    * `NextAsWritten`, except that an unchained descriptor is followed by
    * the one that starts DSL words after its own 16 bytes end, 32-bit
    * addresses wrapping, as the skip length is defined. */
  function NextDescriptor(d: Descriptor, current: bv32, base: bv32, skip: bv32): (next: Option<bv32>)
    requires skip < 32
    ensures next.None? <==> d.Last()
    ensures next.Some? && d.Chained() ==> next.value == d.des3
    ensures next.Some? && !d.Chained() && d.EndOfRing() ==> next.value == base
  {
    if d.Last() then None
    else if d.Chained() then Some(d.des3)
    else if d.EndOfRing() then Some(base)
    else Some(current + 16 + skip * 4)
  }

  /** An unchained, non-final descriptor inside the ring is followed by one
    * that starts past its own 16 bytes, exactly DSL words of gap further
    * on, and so never by itself. */
  lemma NextLeavesDescriptor(d: Descriptor, current: bv32, base: bv32, skip: bv32)
    requires skip < 32
    requires !d.Last() && !d.Chained() && !d.EndOfRing()
    ensures var next := NextDescriptor(d, current, base, skip).value;
      next - current == 16 + 4 * skip && next - current >= 16 && next != current
  {
  }

  /** The big-endian word of four response bytes, as RESPn holds it. */
  function BeWord(b0: bv8, b1: bv8, b2: bv8, b3: bv8): bv32
  {
    (b0 as bv32 << 24) | (b1 as bv32 << 16) | (b2 as bv32 << 8) | b3 as bv32
  }

  /** The four bytes of a word, most significant first. */
  function BeBytes(w: bv32): (r: seq<bv8>)
    ensures |r| == 4
  {
    [((w >> 24) & 0xFF) as bv8, ((w >> 16) & 0xFF) as bv8, ((w >> 8) & 0xFF) as bv8, (w & 0xFF) as bv8]
  }

  /** The bytes of a response word come back in the order they arrived. */
  lemma BeRoundTrip(b0: bv8, b1: bv8, b2: bv8, b3: bv8)
    ensures BeBytes(BeWord(b0, b1, b2, b3)) == [b0, b1, b2, b3]
  {
  }

  /** The word of bytes `b[4k..4k+4]`. */
  function BeAt(b: seq<bv8>, k: nat): bv32
    requires 4 * k + 4 <= |b|
  {
    BeWord(b[4 * k], b[4 * k + 1], b[4 * k + 2], b[4 * k + 3])
  }

  lemma BeAtRoundTrip(b: seq<bv8>, k: nat)
    requires 4 * k + 4 <= |b|
    ensures BeBytes(BeAt(b, k)) == b[4 * k .. 4 * k + 4]
  {
    BeRoundTrip(b[4 * k], b[4 * k + 1], b[4 * k + 2], b[4 * k + 3]);
  }

  /** RESP0-RESP3 after a command that expects a response: a 4-byte answer
    * to a short command fills RESP0, a 16-byte answer to a long one fills
    * RESP3 down to RESP0 with the first word in RESP3; anything else is a
    * response timeout (None). */
  function PackResponse(rlen: int, bytes: seq<bv8>, long: bool): (r: Option<seq<bv32>>)
    requires |bytes| == 16
    ensures r.Some? <==> (rlen == 4 && !long) || (rlen == 16 && long)
    ensures r.Some? ==> |r.value| == 4
    ensures r.Some? && !long ==> r.value[1..] == [0, 0, 0]
  {
    if rlen == 4 && !long then Some([BeAt(bytes, 0), 0, 0, 0])
    else if rlen == 16 && long then Some([BeAt(bytes, 3), BeAt(bytes, 2), BeAt(bytes, 1), BeAt(bytes, 0)])
    else None
  }

  /** The response bytes the packed registers stand for. */
  function Unpack(resp: seq<bv32>, long: bool): (b: seq<bv8>)
    requires |resp| == 4
    ensures |b| == if long then 16 else 4
  {
    if long then BeBytes(resp[3]) + BeBytes(resp[2]) + BeBytes(resp[1]) + BeBytes(resp[0])
    else BeBytes(resp[0])
  }

  /** Reading the response registers back gives the card's bytes: the
    * packing loses nothing and keeps their order. */
  lemma ResponseRoundTrip(rlen: int, bytes: seq<bv8>, long: bool)
    requires |bytes| == 16
    requires PackResponse(rlen, bytes, long).Some?
    ensures Unpack(PackResponse(rlen, bytes, long).value, long) == bytes[..if long then 16 else 4]
  {
    var r := PackResponse(rlen, bytes, long).value;
    BeAtRoundTrip(bytes, 0);
    if long {
      BeAtRoundTrip(bytes, 1);
      BeAtRoundTrip(bytes, 2);
      BeAtRoundTrip(bytes, 3);
      assert bytes[..16] == bytes[0..4] + bytes[4..8] + bytes[8..12] + bytes[12..16];
    }
  }
}
