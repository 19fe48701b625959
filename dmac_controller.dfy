/**
 * The DMA controller as a device object whose registers and engine state
 * are updated in place, as the device model does.  Every method is proved
 * to leave the object in the state the corresponding function of `Dmac`
 * or `DmacAccess` describes.
 */
module DmacController {
  import opened GuestMemory
  import opened DmacRegs
  import opened ChannelBits
  import opened DmacEngine
  import DmacAccess

  /** The block-end loop, unfolded once where it stops at once. */
  lemma ReloadLoopStep(d: Dmac, i: nat, fuel: Fuel)
    requires WellFormed(d) && i < ChannelCount
    ensures !BlockFinished(d.channels[i]) ==> ReloadLoop(d, i, fuel) == (d, Open)
    ensures BlockFinished(d.channels[i]) && fuel.Empty? ==>
      ReloadLoop(d, i, fuel) == (d, OutOfFuel)
  {
  }

  /** The block-end loop, unfolded once when the block is finished and
    * fuel is left: one pass, then either the loop again with one unit of
    * fuel less (an item was loaded) or a closed gate. */
  lemma ReloadLoopNext(d: Dmac, i: nat, fuel: Fuel, d': Dmac, more: bool)
    requires WellFormed(d) && i < ChannelCount && fuel.More?
    requires BlockFinished(d.channels[i])
    requires EndOfBlock(d, i) == (d', more)
    ensures WellFormed(d')
    ensures ReloadLoop(d, i, fuel) == if more then ReloadLoop(d', i, fuel.rest) else (d', Closed)
  {
  }

  class Controller {
    var channels: seq<Channel>
    var handshake: seq<int>
    var raw: seq<seq<bool>>
    var mask: seq<seq<bool>>
    var dmaEnable: bool
    var enabled: seq<bool>
    var masters: seq<Memory>
    var irq: bool

    /** The controller's state as a value. */
    function Snap(): Dmac
      reads this
    {
      Dmac(channels, handshake, raw, mask, dmaEnable, enabled, masters, irq)
    }

    /** Between accesses the engine's invariant holds and the line is in
      * step with the flags. */
    predicate Valid()
      reads this
    {
      Inv(Snap()) && Synced(Snap())
    }

    /** A controller after `_dw_ahb_dmac_reset`, with the interrupt line low. */
    constructor(spaces: seq<Memory>)
      requires |spaces| == 4
      ensures Valid()
      ensures Snap() == ResetState(Dmac([], [], [], [], false, [], spaces, false))
    {
      var none := [NoFlags, NoFlags, NoFlags, NoFlags, NoFlags];
      channels := seq(ChannelCount, _ => IdleChannel);
      handshake := seq(16, _ => 0);
      raw := none;
      mask := none;
      dmaEnable := false;
      enabled := NoFlags;
      masters := spaces;
      irq := false;
    }

    /** `_dw_ahb_dmac_reset`. */
    method Reset()
      requires WellFormed(Snap())
      modifies this
      ensures Snap() == ResetState(old(Snap()))
      ensures Inv(Snap())
    {
      var none := [NoFlags, NoFlags, NoFlags, NoFlags, NoFlags];
      raw := none;
      mask := none;
      dmaEnable := false;
      enabled := NoFlags;
      handshake := seq(16, _ => 0);
      channels := seq(ChannelCount, _ => IdleChannel);
    }

    /** `_dw_ahb_dmac_handshake`: the flag asks for the engine to run. */
    method SetHandshake(hs: nat, level: int) returns (run: bool)
      requires WellFormed(Snap()) && hs < 16
      modifies this
      ensures Snap() == Handshake(old(Snap()), hs, level)
      ensures run == (level != 0)
      ensures old(Valid()) ==> Valid()
    {
      handshake := handshake[hs := level];
      run := level != 0;
    }

    /** `_dw_ahb_dmac_write`. */
    method Write(offset: nat, v: bv32) returns (run: bool)
      requires WellFormed(Snap())
      modifies this
      ensures (Snap(), run) == DmacAccess.Write(old(Snap()), offset, v)
      ensures old(Valid()) ==> Valid()
    {
      if Valid() {
        DmacAccess.WriteKeepsInv(Snap(), offset, v);
      }
      hide Unpack, MaskedFlags, ClearedFlags, Any, IrqLevel, DmacAccess.ChannelWrite, DmacAccess.Decode;
      run := false;
      match DmacAccess.Decode(offset)
      case InChannel(c, r) =>
        channels := DmacAccess.ChannelWrite(Snap(), c, r, v).channels;
      case Raw(k) =>
        raw := raw[k := Unpack(v)];
        irq := IrqLevel(raw, mask);
      case Mask(k) =>
        mask := mask[k := MaskedFlags(mask[k], v)];
        irq := IrqLevel(raw, mask);
      case Clear(k) =>
        raw := raw[k := ClearedFlags(raw[k], v)];
        irq := IrqLevel(raw, mask);
      case DmaCfg =>
        dmaEnable := v & 1 != 0;
        if !dmaEnable {
          enabled := NoFlags;
        }
      case ChEn =>
        if dmaEnable {
          enabled := MaskedFlags(enabled, v);
          run := Any(enabled);
        }
      case _ =>
    }

    // -------------------------------------------------------------------------
    // The engine

    /** Set channel `i`'s raw flag of kind `k` and drive the line. */
    method Raise(k: nat, i: nat)
      requires WellFormed(Snap()) && k < IntKinds && i < ChannelCount
      modifies this
      ensures Snap() == RaiseIf(old(Snap()), true, k, i)
    {
      raw := raw[k := raw[k][i := true]];
      irq := IrqLevel(raw, mask);
    }

    /** Error on channel `i`: error interrupt if enabled, channel disabled. */
    method Fail(i: nat)
      requires WellFormed(Snap()) && i < ChannelCount
      modifies this
      ensures Snap() == Fault(old(Snap()), i)
    {
      if IntEn(channels[i].ctlL) {
        Raise(IntErr, i);
      }
      enabled := enabled[i := false];
    }

    /** One pass of the block-end loop; `more` says an item was loaded. */
    method EndBlock(i: nat) returns (more: bool)
      requires WellFormed(Snap()) && i < ChannelCount
      modifies this
      ensures (Snap(), more) == EndOfBlock(old(Snap()), i)
    {
      hide LastBlock, Fault, RaiseIf, Reload, ReadLli;
      var ch := channels[i].(ctlH := WithDone(channels[i].ctlH));
      channels := channels[i := ch];
      if LlpLoc(ch.llp) == 0 {
        FinishTransfer(i);
        return false;
      }
      var item := ReadLli(masters[LlpLms(ch.llp)], LliAddress(ch.llp) as int);
      if item.None? {
        Fail(i);
        return false;
      }
      LoadItem(i, item.value);
      return true;
    }

    /** The end of the last block: interrupts, count cleared, disabled. */
    method FinishTransfer(i: nat)
      requires WellFormed(Snap()) && i < ChannelCount
      modifies this
      ensures Snap() == LastBlock(old(Snap()), i)
    {
      var ch := channels[i];
      if IntEn(ch.ctlL) {
        Raise(IntBlock, i);
        Raise(IntTfr, i);
      }
      channels := channels[i := ch.(transferNum := 0)];
      enabled := enabled[i := false];
    }

    /** The next item loaded into channel `i`, with its block interrupt. */
    method LoadItem(i: nat, l: Lli)
      requires WellFormed(Snap()) && i < ChannelCount
      modifies this
      ensures Snap() == RaiseIf(SetChannel(old(Snap()), i, Reload(old(channels[i]), l)), IntEn(l.ctlL), IntBlock, i)
    {
      channels := channels[i := Reload(channels[i], l)];
      if IntEn(l.ctlL) {
        Raise(IntBlock, i);
      }
    }

    /** `_dw_ahb_dmac_check_channel`. */
    method CheckChannel(i: nat, fuel: Fuel) returns (g: Gate)
      requires WellFormed(Snap()) && i < ChannelCount
      modifies this
      ensures (Snap(), g) == ChannelGate(old(Snap()), i, fuel)
    {
      if ChSusp(channels[i].cfgL) || PeripheralFlow(TtFc(channels[i].ctlL)) {
        Fail(i);
        g := Closed;
      } else {
        g := CloseBlocks(i, fuel);
      }
    }

    /** The block-end loop of the gate: close or reload finished blocks
      * until the channel has a transfer left in its block. */
    method CloseBlocks(i: nat, fuel: Fuel) returns (g: Gate)
      requires WellFormed(Snap()) && i < ChannelCount
      modifies this
      ensures (Snap(), g) == ReloadLoop(old(Snap()), i, fuel)
    {
      var f := fuel;
      while BlockFinished(channels[i]) && f.More?
        invariant WellFormed(Snap())
        invariant ReloadLoop(Snap(), i, f) == ReloadLoop(old(Snap()), i, fuel)
        decreases f
      {
        ghost var before := Snap();
        var more := EndBlock(i);
        ReloadLoopNext(before, i, f, Snap(), more);
        if !more {
          return Closed;
        }
        f := f.rest;
      }
      ReloadLoopStep(Snap(), i, f);
      if BlockFinished(channels[i]) {
        return OutOfFuel;
      }
      return Open;
    }

    /** `_dw_ahb_dmac_check_src`. */
    method CheckSrc(i: nat) returns (ok: bool)
      requires WellFormed(Snap()) && i < ChannelCount
      modifies this
      ensures (Snap(), ok) == SrcGate(old(Snap()), i)
    {
      var ch := channels[i];
      var t := TtFc(ch.ctlL);
      if t == M2mDmac || t == M2pDmac || t == M2pPerp {
        return true;
      }
      if HsSelSrc(ch.cfgL) {
        Fail(i);
        return false;
      }
      return handshake[SrcPer(ch.cfgH)] != 0;
    }

    /** `_dw_ahb_dmac_check_dst`. */
    method CheckDst(i: nat) returns (ok: bool)
      requires WellFormed(Snap()) && i < ChannelCount
      modifies this
      ensures (Snap(), ok) == DstGate(old(Snap()), i)
    {
      var ch := channels[i];
      var t := TtFc(ch.ctlL);
      if t == M2mDmac || t == P2mDmac || t == P2mPerp {
        return true;
      }
      if HsSelDst(ch.cfgL) {
        Fail(i);
        return false;
      }
      return handshake[DstPer(ch.cfgH)] != 0;
    }

    /** The source half of the transfer loop's body. */
    method ReadSource(i: nat) returns (data: Option<seq<bv8>>)
      requires WellFormed(Snap()) && i < ChannelCount
      modifies this
      ensures (Snap(), data) == ReadUnit(old(Snap()), i)
    {
      var ch := channels[i];
      var sw := TrWidth(SrcTrWidth(ch.ctlL));
      data := ReadBytes(masters[Sms(ch.ctlL)], ch.sar as int, sw as nat);
      if data.None? {
        Fail(i);
      } else {
        channels := channels[i := ch.(sar := Advance(ch.sar, Sinc(ch.ctlL), sw))];
      }
    }

    /** The destination half of the transfer loop's body. */
    method WriteDest(i: nat, data: seq<bv8>)
      requires WellFormed(Snap()) && i < ChannelCount
      modifies this
      ensures Snap() == WriteUnit(old(Snap()), i, data)
    {
      var ch := channels[i];
      var dw := TrWidth(DstTrWidth(ch.ctlL));
      var written := WriteBytes(masters[Dms(ch.ctlL)], ch.dar as int, Payload(data, dw as nat));
      if written.None? {
        assert WriteUnit(Snap(), i, data) == Fault(Snap(), i);
        Fail(i);
      } else {
        WriteUnitStores(Snap(), i, data, written.value);
        var ch' := ch.(dar := Advance(ch.dar, Dinc(ch.ctlL), dw), transferNum := ch.transferNum + 1);
        masters := masters[Dms(ch.ctlL) := written.value];
        channels := channels[i := ch'];
      }
    }

    /** The body of the transfer loop: one unit from source to destination. */
    method MoveUnit(i: nat)
      requires WellFormed(Snap()) && i < ChannelCount
      modifies this
      ensures Snap() == TransferUnit(old(Snap()), i)
    {
      var data := ReadSource(i);
      if data.Some? {
        WriteDest(i, data.value);
      }
    }

    /** The transfer loop of channel `i`; `exhausted` says the fuel ran out. */
    method RunChannel(i: nat, fuel: Fuel) returns (exhausted: bool)
      requires WellFormed(Snap()) && i < ChannelCount
      modifies this
      ensures (Snap(), exhausted) == ChannelRun(old(Snap()), i, fuel)
    {
      var f := fuel;
      while true
        invariant WellFormed(Snap())
        invariant ChannelRun(Snap(), i, f) == ChannelRun(old(Snap()), i, fuel)
        decreases f
      {
        if f.Empty? {
          return true;
        }
        ghost var before := Snap();
        var g := CheckChannel(i, f);
        if g == OutOfFuel {
          return true;
        }
        if g == Closed {
          return false;
        }
        var s := CheckSrc(i);
        if !s {
          return false;
        }
        var t := CheckDst(i);
        if !t {
          return false;
        }
        MoveUnit(i);
        assert Pass(before, i, f) == (Snap(), Moved);
        f := f.rest;
      }
    }

    /** `_dw_ahb_dmac_process`: run every enabled channel, in order;
      * `exhausted` says a channel's loop outlasted the fuel, and the run
      * stops at that channel. */
    method Process(fuel: Fuel) returns (exhausted: bool)
      requires WellFormed(Snap())
      modifies this
      ensures (Snap(), exhausted) == DmacEngine.Process(old(Snap()), fuel)
      ensures old(Valid()) ==> Valid()
    {
      for i := 0 to ChannelCount
        invariant WellFormed(Snap())
        invariant ProcessFrom(Snap(), i, fuel) == ProcessFrom(old(Snap()), 0, fuel)
      {
        if enabled[i] {
          exhausted := RunChannel(i, fuel);
          if exhausted {
            return;
          }
        }
      }
      exhausted := false;
    }
  }
}
