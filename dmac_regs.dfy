/**
 * Register layout of the DesignWare AHB DMA controller: the bit fields of the
 * per-channel registers, the register offsets, the transfer-type codes and
 * the in-memory linked-list item.  Every field is a shift-and-mask accessor
 * over the 32-bit register value.
 */
module DmacRegs {
  import opened GuestMemory

  // ---------------------------------------------------------------------------
  // Register offsets

  const ChannelCount: nat := 8
  const ChannelStride: nat := 0x58

  const SarOff: nat := 0x00
  const DarOff: nat := 0x08
  const LlpOff: nat := 0x10
  const CtlLOff: nat := 0x18
  const CtlHOff: nat := 0x1C
  const SstatOff: nat := 0x20
  const DstatOff: nat := 0x28
  const SstatarOff: nat := 0x30
  const DstatarOff: nat := 0x38
  const CfgLOff: nat := 0x40
  const CfgHOff: nat := 0x44
  const SgrOff: nat := 0x48
  const DsrOff: nat := 0x50

  /** The in-channel offsets of the thirteen channel registers. */
  const ChannelRegOffsets: seq<nat> :=
    [SarOff, DarOff, LlpOff, CtlLOff, CtlHOff, SstatOff, DstatOff, SstatarOff, DstatarOff,
     CfgLOff, CfgHOff, SgrOff, DsrOff]

  /** Offset of register `r` of channel `c`. */
  function ChannelReg(c: nat, r: nat): nat
  {
    c * ChannelStride + r
  }

  /** First offset of the interrupt block; the channel block ends below it. */
  const RawBase: nat := 0x2C0
  const StatusBase: nat := 0x2E8
  const MaskBase: nat := 0x310
  const ClearBase: nat := 0x338
  /** Each interrupt block holds five registers, 8 bytes apart, in the order
    * transfer, block, source transaction, destination transaction, error. */
  const IntStride: nat := 8
  const StatusIntOff: nat := 0x360
  const ReqSrcOff: nat := 0x368
  const LstDstOff: nat := 0x390
  const DmaCfgOff: nat := 0x398
  const ChEnOff: nat := 0x3A0
  const DmaIdOff: nat := 0x3A8
  const DmaTestOff: nat := 0x3B0
  const LpTimeoutOff: nat := 0x3B8
  const Param6LOff: nat := 0x3C8
  const Param6HOff: nat := 0x3CC
  const Param2LOff: nat := 0x3E8
  const Param2HOff: nat := 0x3EC
  const Param1LOff: nat := 0x3F0
  const Param1HOff: nat := 0x3F4
  const CompIdOff: nat := 0x3F8

  /** Interrupt kinds, in register and status-bit order. */
  const IntTfr: nat := 0
  const IntBlock: nat := 1
  const IntSrcTran: nat := 2
  const IntDstTran: nat := 3
  const IntErr: nat := 4
  const IntKinds: nat := 5

  const DmaIdValue: bv32 := 0x02080901
  const LpTimeoutValue: bv32 := 0x08
  const CompIdValue: bv32 := 0x44571110
  /** DMA_COMP_PARAMS for every channel: scatter, gather, multi-block and
    * control write-back enabled, any flow controller, maximum burst 16,
    * programmable masters, FIFO depth 128. */
  const ParamChannel: bv32 := 0x4922DB00
  /** All eight channels have a programmable multi-block type. */
  const Param2H: bv32 := 0
  /** All eight channels have a maximum block size of 4095. */
  const Param1L: bv32 := 0xAAAAAAAA
  /** Combined interrupt output, 8 channels (encoded 7), 2 master interfaces,
    * 64-bit master 1, 16 handshake interfaces, encoded parameters. */
  const Param1H: bv32 := 0x3820170C
  /** The highest channel index, field num_channels of Param1H. */
  const MaxChannel: nat := 7

  /** Channel `c`'s registers all lie below the interrupt block, and the
    * channel part of the address decoder recovers channel and register. */
  lemma ChannelRegDecode(c: nat, k: nat)
    requires c < ChannelCount && k < |ChannelRegOffsets|
    ensures ChannelReg(c, ChannelRegOffsets[k]) <= ChannelReg(MaxChannel, DsrOff) < RawBase
    ensures ChannelReg(c, ChannelRegOffsets[k]) / ChannelStride == c
    ensures ChannelReg(c, ChannelRegOffsets[k]) % ChannelStride == ChannelRegOffsets[k]
  {
    var r := ChannelRegOffsets[k];
    assert r <= DsrOff < ChannelStride;
    assert ChannelReg(c, r) == c * ChannelStride + r;
  }

  // ---------------------------------------------------------------------------
  // LLP: list master select in bits 1:0, item address in bits 31:2

  function LlpLms(v: bv32): (m: nat)
    ensures m < 4
  {
    (v & 3) as nat
  }

  function LlpLoc(v: bv32): bv32
  {
    v >> 2
  }

  /** Address of the next linked-list item: the LLP with its master bits cleared. */
  function LliAddress(v: bv32): (a: bv32)
    ensures a & 3 == 0
    ensures a == LlpLoc(v) << 2
  {
    v & 0xFFFFFFFC
  }

  /** The chain ends exactly when the address part of the LLP is zero. */
  lemma LlpEndIff(v: bv32)
    ensures LlpLoc(v) == 0 <==> LliAddress(v) == 0
  {
  }

  // ---------------------------------------------------------------------------
  // CTL_L

  function IntEn(v: bv32): bool { v & 1 != 0 }

  function DstTrWidth(v: bv32): (w: nat)
    ensures w < 8
  {
    ((v >> 1) & 7) as nat
  }

  function SrcTrWidth(v: bv32): (w: nat)
    ensures w < 8
  {
    ((v >> 4) & 7) as nat
  }

  function Dinc(v: bv32): (d: nat)
    ensures d < 4
  {
    ((v >> 7) & 3) as nat
  }

  function Sinc(v: bv32): (d: nat)
    ensures d < 4
  {
    ((v >> 9) & 3) as nat
  }

  function TtFc(v: bv32): (t: nat)
    ensures t < 8
  {
    ((v >> 20) & 7) as nat
  }

  function Dms(v: bv32): (m: nat)
    ensures m < 4
  {
    ((v >> 23) & 3) as nat
  }

  function Sms(v: bv32): (m: nat)
    ensures m < 4
  {
    ((v >> 25) & 3) as nat
  }

  // Transfer type and flow control codes
  const M2mDmac: nat := 0
  const M2pDmac: nat := 1
  const P2mDmac: nat := 2
  const P2pDmac: nat := 3
  const P2mPerp: nat := 4
  const P2pSrcp: nat := 5
  const M2pPerp: nat := 6
  const P2pDstp: nat := 7

  /** A peripheral is the flow controller exactly for the codes with bit 2 set. */
  predicate PeripheralFlow(ttfc: nat)
    requires ttfc < 8
  {
    (ttfc as bv32) & 4 != 0
  }

  lemma PeripheralFlowCodes(ttfc: nat)
    requires ttfc < 8
    ensures PeripheralFlow(ttfc) <==> ttfc in {P2mPerp, P2pSrcp, M2pPerp, P2pDstp}
  {
    assert ttfc == 0 || ttfc == 1 || ttfc == 2 || ttfc == 3 || ttfc == 4 || ttfc == 5 || ttfc == 6 || ttfc == 7;
  }

  /** Bytes moved per transfer for a width code. */
  function TrWidth(code: nat): (w: bv32)
    requires code < 8
    ensures w == 1 << (if code < 5 then code else 5)
  {
    [1, 2, 4, 8, 16, 32, 32, 32][code]
  }

  // ---------------------------------------------------------------------------
  // CTL_H: block size in bits 11:0, done in bit 12

  function BlockTs(v: bv32): (n: bv32)
    ensures n <= 4095
  {
    v & 0xFFF
  }

  function Done(v: bv32): bool { v & 0x1000 != 0 }

  /** CTL_H with the done bit set and every other bit kept. */
  function WithDone(v: bv32): (r: bv32)
    ensures Done(r) && BlockTs(r) == BlockTs(v)
    ensures r & 0xFFFFEFFF == v & 0xFFFFEFFF
  {
    v | 0x1000
  }

  // ---------------------------------------------------------------------------
  // CFG_L and CFG_H

  function ChSusp(v: bv32): bool { v & 0x100 != 0 }
  function FifoEmpty(v: bv32): bool { v & 0x200 != 0 }
  function HsSelDst(v: bv32): bool { v & 0x400 != 0 }
  function HsSelSrc(v: bv32): bool { v & 0x800 != 0 }

  /** CFG_L with the FIFO-empty status bit set and every other bit kept. */
  function WithFifoEmpty(v: bv32): (r: bv32)
    ensures FifoEmpty(r)
    ensures r & 0xFFFFFDFF == v & 0xFFFFFDFF
  {
    v | 0x200
  }

  /** Source and destination hardware handshake interfaces: four bits each,
    * so always one of the sixteen handshake lines. */
  function SrcPer(v: bv32): (p: nat)
    ensures p < 16
  {
    ((v >> 7) & 0xF) as nat
  }

  function DstPer(v: bv32): (p: nat)
    ensures p < 16
  {
    ((v >> 11) & 0xF) as nat
  }

  // ---------------------------------------------------------------------------
  // Linked-list item: seven 32-bit words in memory

  datatype Lli = Lli(sar: bv32, dar: bv32, llp: bv32, ctlL: bv32, ctlH: bv32, sstat: bv32, dstat: bv32)

  const LliWords: nat := 7

  function LliOfWords(w: seq<bv32>): (l: Lli)
    requires |w| == LliWords
    ensures LliToWords(l) == w
  {
    Lli(w[0], w[1], w[2], w[3], w[4], w[5], w[6])
  }

  function LliToWords(l: Lli): (w: seq<bv32>)
    ensures |w| == LliWords
  {
    [l.sar, l.dar, l.llp, l.ctlL, l.ctlH, l.sstat, l.dstat]
  }

  /** Fetch an item from an address space; fails as the bus read fails. */
  function ReadLli(m: Memory, addr: int): (r: Option<Lli>)
    ensures r.Some? <==> Mapped(m, addr, 4 * LliWords)
  {
    match ReadWords(m, addr, LliWords)
    case None => None
    case Some(w) => Some(LliOfWords(w))
  }

  /** An item stored in memory in the documented layout is fetched intact. */
  lemma ReadStoredLli(m: Memory, addr: int, l: Lli)
    requires Mapped(m, addr, 4 * LliWords)
    ensures WriteWords(m, addr, LliToWords(l)).Some?
    ensures ReadLli(WriteWords(m, addr, LliToWords(l)).value, addr) == Some(l)
  {
    WriteWordsThenRead(m, addr, LliToWords(l));
  }
}
