/**
 * The register interface of the DMA controller: the address decoder, what
 * a guest read returns and what a guest write changes.
 */
module DmacAccess {
  import opened GuestMemory
  import opened DmacRegs
  import opened ChannelBits
  import opened DmacEngine

  /** The register an offset selects. */
  datatype Reg =
    | InChannel(c: nat, r: nat)
    | Raw(k: nat)
    | Status(k: nat)
    | Mask(k: nat)
    | Clear(k: nat)
    | StatusInt
    | SoftHandshake(n: nat)
    | DmaCfg
    | ChEn
    | DmaId
    | DmaTest
    | LpTimeout
    | Param6L
    | ParamChannel(n: nat)
    | Param2HReg
    | Param1LReg
    | Param1HReg
    | CompId
    | Unmapped

  /** The first offset past the channel block: every offset below it belongs
    * to a channel. */
  const ChannelBlockEnd: nat := ChannelReg(MaxChannel, DsrOff) + 1

  /** Offsets `base`, `base + 8`, ... of a block of `n` registers. */
  predicate InBlock(offset: nat, base: nat, n: nat)
  {
    base <= offset < base + IntStride * n && (offset - base) % IntStride == 0
  }

  function Decode(offset: nat): (reg: Reg)
    ensures offset < ChannelBlockEnd <==> reg.InChannel?
    ensures reg.InChannel? ==> reg.c <= MaxChannel && reg.r < ChannelStride
    ensures (reg.Raw? || reg.Status? || reg.Mask? || reg.Clear?) ==> reg.k < IntKinds
  {
    if offset < ChannelBlockEnd then InChannel(offset / ChannelStride, offset % ChannelStride)
    else if InBlock(offset, RawBase, IntKinds) then Raw((offset - RawBase) / IntStride)
    else if InBlock(offset, StatusBase, IntKinds) then Status((offset - StatusBase) / IntStride)
    else if InBlock(offset, MaskBase, IntKinds) then Mask((offset - MaskBase) / IntStride)
    else if InBlock(offset, ClearBase, IntKinds) then Clear((offset - ClearBase) / IntStride)
    else if offset == StatusIntOff then StatusInt
    else if InBlock(offset, ReqSrcOff, 6) then SoftHandshake((offset - ReqSrcOff) / IntStride)
    else if offset == DmaCfgOff then DmaCfg
    else if offset == ChEnOff then ChEn
    else if offset == DmaIdOff then DmaId
    else if offset == DmaTestOff then DmaTest
    else if offset == LpTimeoutOff then LpTimeout
    else if offset == Param6LOff then Param6L
    else if Param6HOff <= offset <= Param2LOff && (offset - Param6HOff) % 4 == 0 then
      ParamChannel((offset - Param6HOff) / 4)
    else if offset == Param2HOff then Param2HReg
    else if offset == Param1LOff then Param1LReg
    else if offset == Param1HOff then Param1HReg
    else if offset == CompIdOff then CompId
    else Unmapped
  }

  /** The offset of a register, the inverse of the decoder. */
  function Offset(reg: Reg): nat
  {
    match reg
    case InChannel(c, r) => ChannelReg(c, r)
    case Raw(k) => RawBase + IntStride * k
    case Status(k) => StatusBase + IntStride * k
    case Mask(k) => MaskBase + IntStride * k
    case Clear(k) => ClearBase + IntStride * k
    case StatusInt => StatusIntOff
    case SoftHandshake(n) => ReqSrcOff + IntStride * n
    case DmaCfg => DmaCfgOff
    case ChEn => ChEnOff
    case DmaId => DmaIdOff
    case DmaTest => DmaTestOff
    case LpTimeout => LpTimeoutOff
    case Param6L => Param6LOff
    case ParamChannel(n) => Param6HOff + 4 * n
    case Param2HReg => Param2HOff
    case Param1LReg => Param1LOff
    case Param1HReg => Param1HOff
    case CompId => CompIdOff
    case Unmapped => 0
  }

  /** The registers the decoder can select. */
  predicate Named(reg: Reg)
  {
    match reg
    case InChannel(c, r) => c <= MaxChannel && r < ChannelStride && ChannelReg(c, r) < ChannelBlockEnd
    case Raw(k) => k < IntKinds
    case Status(k) => k < IntKinds
    case Mask(k) => k < IntKinds
    case Clear(k) => k < IntKinds
    case SoftHandshake(n) => n < 6
    case ParamChannel(n) => n < 8
    case Unmapped => false
    case _ => true
  }

  /** Every named register decodes back from its offset. */
  lemma DecodeOffset(reg: Reg)
    requires Named(reg)
    ensures Decode(Offset(reg)) == reg
  {
    match reg
    case InChannel(c, r) =>
      assert ChannelReg(c, r) == c * ChannelStride + r;
      assert (c * ChannelStride + r) / ChannelStride == c;
      assert (c * ChannelStride + r) % ChannelStride == r;
    case Raw(_) => DecodeIntOffset(reg);
    case Status(_) => DecodeIntOffset(reg);
    case Mask(_) => DecodeIntOffset(reg);
    case Clear(_) => DecodeIntOffset(reg);
    case _ => DecodeFixedOffset(reg);
  }

  /** The interrupt register blocks decode back from their offsets. */
  lemma DecodeIntOffset(reg: Reg)
    requires Named(reg) && (reg.Raw? || reg.Status? || reg.Mask? || reg.Clear?)
    ensures Decode(Offset(reg)) == reg
  {
  }

  /** The controller-wide registers decode back from their offsets. */
  lemma DecodeFixedOffset(reg: Reg)
    requires Named(reg) && !(reg.InChannel? || reg.Raw? || reg.Status? || reg.Mask? || reg.Clear?)
    ensures Decode(Offset(reg)) == reg
  {
  }

  /** The thirteen registers of each channel decode to that channel. */
  lemma DecodeChannelRegs(c: nat, k: nat)
    requires c < ChannelCount && k < |ChannelRegOffsets|
    ensures Decode(ChannelReg(c, ChannelRegOffsets[k])) == InChannel(c, ChannelRegOffsets[k])
  {
    ChannelRegDecode(c, k);
  }

  // ---------------------------------------------------------------------------
  // Reads

  /** `_dw_ahb_dmac_channel_read`: CTL_H reads back the running transfer
    * count while the channel is enabled; the status registers and the
    * reserved offsets read as zero. */
  function ChannelRead(d: Dmac, c: nat, r: nat): (v: bv32)
    requires WellFormed(d)
    ensures c > MaxChannel ==> v == 0
    ensures c <= MaxChannel && r == CtlHOff ==>
      v == if d.enabled[c] then d.channels[c].transferNum else d.channels[c].ctlH
    ensures c <= MaxChannel && r in {SstatOff, DstatOff, SstatarOff, DstatarOff} ==> v == 0
  {
    if c > MaxChannel then 0
    else
      var ch := d.channels[c];
      if r == SarOff then ch.sar
      else if r == DarOff then ch.dar
      else if r == LlpOff then ch.llp
      else if r == CtlLOff then ch.ctlL
      else if r == CtlHOff then (if d.enabled[c] then ch.transferNum else ch.ctlH)
      else if r == CfgLOff then ch.cfgL
      else if r == CfgHOff then ch.cfgH
      else if r == SgrOff then ch.sgr
      else if r == DsrOff then ch.dsr
      else 0
  }

  function StatusFlag(d: Dmac, k: nat): bool
    requires WellFormed(d) && k < IntKinds
  {
    Any(Both(d.raw[k], d.mask[k]))
  }

  /** StatusInt: bit `k` is set when some channel has both the raw and the
    * mask flag of kind `k`. */
  function IntStatus(d: Dmac): (s: bv32)
    requires WellFormed(d)
    ensures s <= 0x1F
  {
    Flag(StatusFlag(d, IntTfr), 0x01) | Flag(StatusFlag(d, IntBlock), 0x02)
    | Flag(StatusFlag(d, IntSrcTran), 0x04) | Flag(StatusFlag(d, IntDstTran), 0x08)
    | Flag(StatusFlag(d, IntErr), 0x10)
  }

  lemma FlagsNonZero(b0: bool, b1: bool, b2: bool, b3: bool, b4: bool)
    ensures (Flag(b0, 0x01) | Flag(b1, 0x02) | Flag(b2, 0x04) | Flag(b3, 0x08) | Flag(b4, 0x10) != 0)
      == (b0 || b1 || b2 || b3 || b4)
  {
  }

  /** The interrupt line is the OR of the StatusInt bits. */
  lemma IntStatusIrq(d: Dmac)
    requires WellFormed(d)
    ensures IntStatus(d) != 0 <==> IrqLevel(d.raw, d.mask)
  {
    hide Flag, Any, Both;
    FlagsNonZero(StatusFlag(d, 0), StatusFlag(d, 1), StatusFlag(d, 2), StatusFlag(d, 3), StatusFlag(d, 4));
    if IrqLevel(d.raw, d.mask) {
      var k, c :| 0 <= k < IntKinds && 0 <= c < Channels && d.raw[k][c] && d.mask[k][c];
      assert Both(d.raw[k], d.mask[k])[c];
      AnyIff(Both(d.raw[k], d.mask[k]));
      assert StatusFlag(d, k);
      assert k == 0 || k == 1 || k == 2 || k == 3 || k == 4;
    } else {
      forall k | 0 <= k < IntKinds ensures !StatusFlag(d, k) {
        AnyIff(Both(d.raw[k], d.mask[k]));
      }
    }
  }

  /** `_dw_ahb_dmac_read`. */
  function Read(d: Dmac, offset: nat): (v: bv32)
    requires WellFormed(d)
  {
    match Decode(offset)
    case InChannel(c, r) => ChannelRead(d, c, r)
    case Raw(k) => Pack(d.raw[k])
    case Status(k) => Pack(d.raw[k]) & Pack(d.mask[k])
    case Mask(k) => Pack(d.mask[k])
    case Clear(_) => 0
    case StatusInt => IntStatus(d)
    case SoftHandshake(_) => 0
    case DmaCfg => if d.dmaEnable then 1 else 0
    case ChEn => Pack(d.enabled)
    case DmaId => DmaIdValue
    case DmaTest => 0
    case LpTimeout => LpTimeoutValue
    case Param6L => 0
    case ParamChannel(_) => DmacRegs.ParamChannel
    case Param2HReg => Param2H
    case Param1LReg => Param1L
    case Param1HReg => Param1H
    case CompId => CompIdValue
    case Unmapped => 0
  }

  /** A raw register reads as its eight channel flags. */
  lemma RawRead(d: Dmac, k: nat)
    requires WellFormed(d) && k < IntKinds
    ensures Read(d, RawBase + IntStride * k) == Pack(d.raw[k])
  {
    hide Pack, Unpack, MaskedFlags, ClearedFlags, ChannelRead, ChannelWrite, IntStatus;
    DecodeOffset(Raw(k));
  }

  /** A mask register reads as its eight channel flags. */
  lemma MaskRead(d: Dmac, k: nat)
    requires WellFormed(d) && k < IntKinds
    ensures Read(d, MaskBase + IntStride * k) == Pack(d.mask[k])
  {
    hide Pack, Unpack, MaskedFlags, ClearedFlags, ChannelRead, ChannelWrite, IntStatus;
    DecodeOffset(Mask(k));
  }

  /** A status register reads as the AND of the packed raw and mask flags. */
  lemma StatusPackedRead(d: Dmac, k: nat)
    requires WellFormed(d) && k < IntKinds
    ensures Read(d, StatusBase + IntStride * k) == Pack(d.raw[k]) & Pack(d.mask[k])
  {
    DecodeOffset(Status(k));
  }

  /** A status register reads as the AND of its raw and mask registers, and
    * is non-zero exactly when its StatusInt bit is set. */
  lemma StatusRead(d: Dmac, k: nat)
    requires WellFormed(d) && k < IntKinds
    ensures Read(d, StatusBase + IntStride * k) == Read(d, RawBase + IntStride * k) & Read(d, MaskBase + IntStride * k)
    ensures Read(d, StatusBase + IntStride * k) != 0 <==> StatusFlag(d, k)
  {
    StatusPackedRead(d, k);
    RawRead(d, k);
    MaskRead(d, k);
    OverlapIff(d.raw[k], d.mask[k]);
  }

  // ---------------------------------------------------------------------------
  // Writes

  /** `_dw_ahb_dmac_channel_write`: the registers store the value as
    * written, CFG_L with its FIFO-empty bit forced on; the status and
    * reserved offsets ignore the write.  An enabled channel accepts writes
    * too. */
  function ChannelWrite(d: Dmac, c: nat, r: nat, v: bv32): (d': Dmac)
    requires WellFormed(d)
    ensures WellFormed(d')
    ensures d'.(channels := d.channels) == d
    ensures forall j :: 0 <= j < ChannelCount && j != c ==> d'.channels[j] == d.channels[j]
  {
    if c > MaxChannel then d
    else
      var ch := d.channels[c];
      var ch' :=
        if r == SarOff then ch.(sar := v)
        else if r == DarOff then ch.(dar := v)
        else if r == LlpOff then ch.(llp := v)
        else if r == CtlLOff then ch.(ctlL := v)
        else if r == CtlHOff then ch.(ctlH := v)
        else if r == CfgLOff then ch.(cfgL := WithFifoEmpty(v))
        else if r == CfgHOff then ch.(cfgH := v)
        else if r == SgrOff then ch.(sgr := v)
        else if r == DsrOff then ch.(dsr := v)
        else ch;
      d.(channels := d.channels[c := ch'])
  }

  /** Re-evaluate the interrupt line after the flags changed. */
  function UpdateIrq(d: Dmac): (r: Dmac)
    requires WellFormed(d)
    ensures WellFormed(r) && Synced(r) && r.(irq := d.irq) == d
  {
    d.(irq := IrqLevel(d.raw, d.mask))
  }

  /** `_dw_ahb_dmac_write`.  The flag says whether the write asks for the
    * engine to run (a channel-enable write that leaves a channel enabled). */
  function Write(d: Dmac, offset: nat, v: bv32): (r: (Dmac, bool))
    requires WellFormed(d)
    ensures WellFormed(r.0)
  {
    match Decode(offset)
    case InChannel(c, reg) => (ChannelWrite(d, c, reg, v), false)
    case Raw(k) => (UpdateIrq(d.(raw := d.raw[k := Unpack(v)])), false)
    case Mask(k) => (UpdateIrq(d.(mask := d.mask[k := MaskedFlags(d.mask[k], v)])), false)
    case Clear(k) => (UpdateIrq(d.(raw := d.raw[k := ClearedFlags(d.raw[k], v)])), false)
    case DmaCfg =>
      var on := v & 1 != 0;
      (d.(dmaEnable := on, enabled := if on then d.enabled else NoFlags), false)
    case ChEn =>
      if d.dmaEnable then
        var en := MaskedFlags(d.enabled, v);
        (d.(enabled := en), Any(en))
      else (d, false)
    case _ => (d, false)
  }

  // ---------------------------------------------------------------------------
  // Properties of the register interface

  /** Every write keeps the invariant and keeps the line in step. */
  lemma WriteKeepsInv(d: Dmac, offset: nat, v: bv32)
    requires Inv(d) && Synced(d)
    ensures Inv(Write(d, offset, v).0) && Synced(Write(d, offset, v).0)
  {
  }

  /** A write to a channel register reads back as written, except CTL_H of
    * an enabled channel (which reads the transfer count) and CFG_L (whose
    * FIFO-empty bit reads as set). */
  lemma ChannelWriteRead(d: Dmac, c: nat, k: nat, v: bv32)
    requires WellFormed(d) && c < ChannelCount && k < |ChannelRegOffsets|
    ensures var r := ChannelRegOffsets[k];
      var off := ChannelReg(c, r);
      var v' := Read(Write(d, off, v).0, off);
      (r in {SarOff, DarOff, LlpOff, CtlLOff, CfgHOff, SgrOff, DsrOff} ==> v' == v)
      && (r == CtlHOff ==> v' == if d.enabled[c] then d.channels[c].transferNum else v)
      && (r == CfgLOff ==> v' == v | 0x200)
      && (r in {SstatOff, DstatOff, SstatarOff, DstatarOff} ==> v' == 0)
  {
    DecodeChannelRegs(c, k);
  }

  /** A raw write keeps the low eight bits of the value. */
  lemma RawWriteRead(d: Dmac, k: nat, v: bv32)
    requires WellFormed(d) && k < IntKinds
    ensures var off := RawBase + IntStride * k;
      Read(Write(d, off, v).0, off) == v & 0xFF
  {
    hide Pack, Unpack, ChannelRead, ChannelWrite, IntStatus;
    DecodeOffset(Raw(k));
    PackUnpack(v);
  }

  /** A mask write updates exactly the bits whose write-enable bit is set:
    * the new register is `(~we & old) | (we & v)`. */
  lemma MaskWriteRead(d: Dmac, k: nat, v: bv32)
    requires WellFormed(d) && k < IntKinds
    ensures var off := MaskBase + IntStride * k;
      Read(Write(d, off, v).0, off) == MaskedValue(Read(d, off), WriteEnable(v), v)
  {
    hide Pack, Unpack, MaskedFlags, ClearedFlags, ChannelRead, ChannelWrite, IntStatus;
    DecodeOffset(Mask(k));
    MaskedFlagsWord(d.mask[k], v);
  }

  /** A mask write with no write-enable bit changes nothing. */
  lemma MaskWriteNoEnable(d: Dmac, k: nat, v: bv32)
    requires WellFormed(d) && k < IntKinds && WriteEnable(v) == 0 && Synced(d)
    ensures Write(d, MaskBase + IntStride * k, v).0 == d
  {
    hide Pack, Unpack, MaskedFlags, ClearedFlags, ChannelRead, ChannelWrite, IntStatus;
    DecodeOffset(Mask(k));
    var m := MaskedFlags(d.mask[k], v);
    forall c | 0 <= c < Channels ensures m[c] == d.mask[k][c] {
      assert WriteEnable(v) & Bit(c) == 0;
    }
    assert m == d.mask[k];
    assert d.mask[k := m] == d.mask;
  }

  /** A clear write clears the raw bits given in its low byte and no others. */
  lemma ClearWriteRead(d: Dmac, k: nat, v: bv32)
    requires WellFormed(d) && k < IntKinds
    ensures Read(Write(d, ClearBase + IntStride * k, v).0, RawBase + IntStride * k)
      == Read(d, RawBase + IntStride * k) & !(v & 0xFF)
  {
    hide Pack, Unpack, MaskedFlags, ClearedFlags, ChannelRead, ChannelWrite, IntStatus;
    DecodeOffset(Clear(k));
    DecodeOffset(Raw(k));
    ClearedFlagsWord(d.raw[k], v);
  }

  /** Turning the controller off turns every channel off; a channel-enable
    * write has no effect while it is off. */
  lemma DmaCfgWriteOff(d: Dmac, v: bv32)
    requires WellFormed(d) && v & 1 == 0
    ensures var d' := Write(d, DmaCfgOff, v).0;
      !d'.dmaEnable && Read(d', ChEnOff) == 0 && Read(d', DmaCfgOff) == 0
  {
    DecodeOffset(DmaCfg);
    DecodeOffset(ChEn);
  }

  lemma ChEnIgnoredWhileOff(d: Dmac, v: bv32)
    requires WellFormed(d) && !d.dmaEnable
    ensures Write(d, ChEnOff, v) == (d, false)
  {
    DecodeOffset(ChEn);
  }

  /** A channel-enable write while on: the register becomes the byte-enable
    * update of the old one, and the engine is asked to run exactly when some
    * channel is left enabled. */
  lemma ChEnWrite(d: Dmac, v: bv32)
    requires WellFormed(d) && d.dmaEnable
    ensures var (d', run) := Write(d, ChEnOff, v);
      Read(d', ChEnOff) == MaskedValue(Read(d, ChEnOff), WriteEnable(v), v)
      && (run <==> Read(d', ChEnOff) != 0)
  {
    DecodeOffset(ChEn);
    MaskedFlagsWord(d.enabled, v);
    PackNonZero(MaskedFlags(d.enabled, v));
  }

  /** After reset every register reads as its documented reset value. */
  lemma ResetReads(d: Dmac, offset: nat)
    requires |d.masters| == 4
    ensures var v := Read(ResetState(d), offset);
      match Decode(offset)
      case DmaId => v == DmaIdValue
      case CompId => v == CompIdValue
      case LpTimeout => v == LpTimeoutValue
      case ParamChannel(_) => v == DmacRegs.ParamChannel
      case Param2HReg => v == Param2H
      case Param1LReg => v == Param1L
      case Param1HReg => v == Param1H
      case _ => v == 0
  {
    var r := ResetState(d);
    match Decode(offset)
    case InChannel(c, reg) =>
    case Raw(k) => assert r.raw[k] == NoFlags;
    case Status(k) => assert r.raw[k] == NoFlags;
    case Mask(k) => assert r.mask[k] == NoFlags;
    case StatusInt =>
      forall k | 0 <= k < IntKinds ensures !StatusFlag(r, k) {
        assert Both(r.raw[k], r.mask[k]) == NoFlags;
      }
    case ChEn => assert r.enabled == NoFlags;
    case _ =>
  }
}
