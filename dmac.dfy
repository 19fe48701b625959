/**
 * The DesignWare AHB DMA controller, as a state machine over one controller
 * record: eight channels, sixteen hardware handshake levels, five raw/mask
 * interrupt pairs, the global enable and the channel-enable mask, and the
 * four AHB master address spaces the channels read and write.
 *
 * This module gives the meaning of every operation as a function from the
 * old record to the new one; `DmacController` runs the same operations
 * in place, and its methods are proved to agree with these functions.
 *
 * Loops that the device does not bound carry a `fuel` argument: when the
 * fuel runs out the model stops and reports it, where the device would go
 * on spinning.
 */
module DmacEngine {
  import opened GuestMemory
  import opened DmacRegs
  import opened ChannelBits

  datatype Channel = Channel(
    sar: bv32, dar: bv32, llp: bv32, ctlL: bv32, ctlH: bv32,
    cfgL: bv32, cfgH: bv32, sgr: bv32, dsr: bv32,
    /** Transfers completed in the current block. */
    transferNum: bv32)

  const IdleChannel: Channel := Channel(0, 0, 0, 0, 0, 0, 0, 0, 0, 0)

  datatype Dmac = Dmac(
    channels: seq<Channel>,
    handshake: seq<int>,
    /** Raw and mask flags, indexed by interrupt kind (IntTfr .. IntErr) and
      * then by channel. */
    raw: seq<seq<bool>>,
    mask: seq<seq<bool>>,
    dmaEnable: bool,
    /** Channel-enable flags, one per channel. */
    enabled: seq<bool>,
    masters: seq<Memory>,
    /** Level of the combined interrupt output. */
    irq: bool)

  predicate WellFormed(d: Dmac)
  {
    (|d.channels|, |d.handshake|, |d.raw|, |d.mask|, |d.enabled|, |d.masters|)
      == (ChannelCount, 16, IntKinds, IntKinds, Channels, 4)
    && forall k :: 0 <= k < IntKinds ==> (|d.raw[k]|, |d.mask[k]|) == (Channels, Channels)
  }

  /** What every reachable controller satisfies: a channel can only be
    * enabled while the controller is. */
  predicate Inv(d: Dmac)
  {
    WellFormed(d) && (!d.dmaEnable ==> forall c :: 0 <= c < Channels ==> !d.enabled[c])
  }

  /** The combined interrupt: some channel has both the raw and the mask
    * flag of some kind set. */
  predicate IrqLevel(raw: seq<seq<bool>>, mask: seq<seq<bool>>)
    requires |raw| == IntKinds && |mask| == IntKinds
    requires forall k :: 0 <= k < IntKinds ==> |raw[k]| == Channels && |mask[k]| == Channels
  {
    exists k, c :: 0 <= k < IntKinds && 0 <= c < Channels && raw[k][c] && mask[k][c]
  }

  /** The interrupt output agrees with the raw and mask flags. */
  predicate Synced(d: Dmac)
    requires WellFormed(d)
  {
    d.irq == IrqLevel(d.raw, d.mask)
  }

  // ---------------------------------------------------------------------------
  // Small state updates shared by the gates and the transfer loop

  /** What a step of the engine on channel `i` may do to the rest of the
    * controller: the other channels' registers, enable and raw flags, the
    * handshake levels, the masks and the global enable stay as they were;
    * channel `i` can lose its enable flag and gain raw flags, never the
    * reverse; and the interrupt line stays in step with the flags. */
  predicate Confined(d: Dmac, r: Dmac, i: nat)
    requires WellFormed(d) && WellFormed(r) && i < ChannelCount
  {
    OthersKept(d, r, i) && ChannelWound(d, r, i)
  }

  /** The part of `Confined` about everything but channel `i`. */
  predicate OthersKept(d: Dmac, r: Dmac, i: nat)
    requires WellFormed(d) && WellFormed(r) && i < ChannelCount
  {
    (forall j :: 0 <= j < ChannelCount && j != i ==> r.channels[j] == d.channels[j])
    && r.handshake == d.handshake && r.mask == d.mask && r.dmaEnable == d.dmaEnable
    && (forall j :: 0 <= j < Channels && j != i ==> r.enabled[j] == d.enabled[j])
    && (forall k, j :: 0 <= k < IntKinds && 0 <= j < Channels && j != i ==> r.raw[k][j] == d.raw[k][j])
  }

  /** The part of `Confined` about channel `i` and the line. */
  predicate ChannelWound(d: Dmac, r: Dmac, i: nat)
    requires WellFormed(d) && WellFormed(r) && i < ChannelCount
  {
    (r.enabled[i] ==> d.enabled[i])
    && (forall k :: 0 <= k < IntKinds && d.raw[k][i] ==> r.raw[k][i])
    && (Synced(d) ==> Synced(r))
  }

  lemma ConfinedTrans(d1: Dmac, d2: Dmac, d3: Dmac, i: nat)
    requires WellFormed(d1) && WellFormed(d2) && WellFormed(d3) && i < ChannelCount
    requires Confined(d1, d2, i) && Confined(d2, d3, i)
    ensures Confined(d1, d3, i)
  {
  }

  /** A confined step keeps the invariant. */
  lemma ConfinedKeepsInv(d: Dmac, r: Dmac, i: nat)
    requires WellFormed(d) && WellFormed(r) && i < ChannelCount
    requires Confined(d, r, i)
    ensures Inv(d) ==> Inv(r)
  {
    if Inv(d) && !r.dmaEnable {
      forall c | 0 <= c < Channels ensures !r.enabled[c] {
        if c != i { assert r.enabled[c] == d.enabled[c]; }
      }
    }
  }

  /** Replace channel `i`'s registers. */
  function SetChannel(d: Dmac, i: nat, ch: Channel): (r: Dmac)
    requires WellFormed(d) && i < ChannelCount
    ensures WellFormed(r) && r.channels[i] == ch
    ensures r.raw == d.raw && r.masters == d.masters && r.enabled == d.enabled
  {
    d.(channels := d.channels[i := ch])
  }

  /** When `cond`, set channel `i`'s raw flag of kind `k` and drive the line. */
  function RaiseIf(d: Dmac, cond: bool, k: nat, i: nat): (r: Dmac)
    requires WellFormed(d) && k < IntKinds && i < ChannelCount
    ensures WellFormed(r)
    ensures r.raw == (if cond then d.raw[k := d.raw[k][i := true]] else d.raw)
    ensures r.channels == d.channels && r.masters == d.masters && r.enabled == d.enabled
    ensures cond ==> Synced(r)
  {
    if cond then
      var raw := d.raw[k := d.raw[k][i := true]];
      d.(raw := raw, irq := IrqLevel(raw, d.mask))
    else d
  }

  /** Clear channel `i`'s enable flag. */
  function Disable(d: Dmac, i: nat): (r: Dmac)
    requires WellFormed(d) && i < ChannelCount
    ensures WellFormed(r) && !r.enabled[i]
    ensures r.channels == d.channels && r.masters == d.masters && r.raw == d.raw
  {
    d.(enabled := d.enabled[i := false])
  }

  /** An error on channel `i`: raise the error interrupt if the channel
    * asks for interrupts, and disable the channel. */
  function Fault(d: Dmac, i: nat): (r: Dmac)
    requires WellFormed(d) && i < ChannelCount
    ensures WellFormed(r) && !r.enabled[i]
    ensures r.channels == d.channels && r.masters == d.masters
    ensures r.raw == (if IntEn(d.channels[i].ctlL) then d.raw[IntErr := d.raw[IntErr][i := true]] else d.raw)
  {
    Disable(RaiseIf(d, IntEn(d.channels[i].ctlL), IntErr, i), i)
  }

  // ---------------------------------------------------------------------------
  // Flow-control gate

  /** The channel's current block has no transfer left. */
  predicate BlockFinished(ch: Channel)
  {
    ch.transferNum >= BlockTs(ch.ctlH)
  }

  datatype Gate = Open | Closed | OutOfFuel

  /** How many more rounds the model follows a loop that the device does
    * not bound. */
  datatype Fuel = Empty | More(rest: Fuel)

  /** Descriptor reload: the item's addresses and control words replace the
    * channel's, the block count restarts, configuration stays. */
  function Reload(ch: Channel, l: Lli): (r: Channel)
    ensures r.sar == l.sar && r.dar == l.dar && r.llp == l.llp && r.ctlL == l.ctlL && r.ctlH == l.ctlH
    ensures r.transferNum == 0
    ensures r.cfgL == ch.cfgL && r.cfgH == ch.cfgH && r.sgr == ch.sgr && r.dsr == ch.dsr
  {
    ch.(sar := l.sar, dar := l.dar, llp := l.llp, ctlL := l.ctlL, ctlH := l.ctlH, transferNum := 0)
  }

  /** One pass of the block-end loop of the gate, entered when the current
    * block is exhausted.  The flag says whether a next item was loaded. */
  function EndOfBlock(d: Dmac, i: nat): (r: (Dmac, bool))
    requires WellFormed(d) && i < ChannelCount
    ensures WellFormed(r.0)
    ensures Done(r.0.channels[i].ctlH) || r.1
    ensures r.1 ==> r.0.enabled[i] == d.enabled[i]
    ensures !r.1 ==> !r.0.enabled[i]
  {
    var ch := d.channels[i].(ctlH := WithDone(d.channels[i].ctlH));
    var d1 := SetChannel(d, i, ch);
    if LlpLoc(ch.llp) == 0 then (LastBlock(d1, i), false)
    else
      match ReadLli(d.masters[LlpLms(ch.llp)], LliAddress(ch.llp) as int)
      case None => (Fault(d1, i), false)
      case Some(l) => (RaiseIf(SetChannel(d1, i, Reload(ch, l)), IntEn(l.ctlL), IntBlock, i), true)
  }

  /** The end of the last block of a transfer: block and transfer-complete
    * interrupts (if enabled), block count cleared, channel disabled. */
  function LastBlock(d: Dmac, i: nat): (r: Dmac)
    requires WellFormed(d) && i < ChannelCount
    ensures WellFormed(r) && !r.enabled[i]
    ensures r.channels[i] == d.channels[i].(transferNum := 0) && r.masters == d.masters
    ensures r.raw == if IntEn(d.channels[i].ctlL)
      then d.raw[IntBlock := d.raw[IntBlock][i := true]][IntTfr := d.raw[IntTfr][i := true]]
      else d.raw
  {
    var en := IntEn(d.channels[i].ctlL);
    var d1 := RaiseIf(d, en, IntBlock, i);
    var d2 := RaiseIf(d1, en, IntTfr, i);
    var d3 := SetChannel(d2, i, d.channels[i].(transferNum := 0));
    Disable(d3, i)
  }

  /** The block-end loop: repeat EndOfBlock while the block is exhausted. */
  function ReloadLoop(d: Dmac, i: nat, fuel: Fuel): (r: (Dmac, Gate))
    requires WellFormed(d) && i < ChannelCount
    ensures WellFormed(r.0)
    ensures r.1 == Open ==> !BlockFinished(r.0.channels[i])
    ensures r.1 == Open ==> r.0.enabled[i] == d.enabled[i]
    ensures r.1 == Closed ==> !r.0.enabled[i]
    decreases fuel
  {
    if !BlockFinished(d.channels[i]) then (d, Open)
    else if fuel.Empty? then (d, OutOfFuel)
    else
      var (d', more) := EndOfBlock(d, i);
      if more then ReloadLoop(d', i, fuel.rest) else (d', Closed)
  }

  /** `_dw_ahb_dmac_check_channel`: a suspended channel or one whose
    * transfer type puts a peripheral in control of the flow is refused and
    * disabled; otherwise finished blocks are closed or reloaded until the
    * channel has a transfer left in its block. */
  function ChannelGate(d: Dmac, i: nat, fuel: Fuel): (r: (Dmac, Gate))
    requires WellFormed(d) && i < ChannelCount
    ensures WellFormed(r.0)
    ensures r.1 == Open ==> !BlockFinished(r.0.channels[i])
    ensures r.1 == Closed ==> !r.0.enabled[i]
  {
    var ch := d.channels[i];
    if ChSusp(ch.cfgL) then (Fault(d, i), Closed)
    else if PeripheralFlow(TtFc(ch.ctlL)) then (Fault(d, i), Closed)
    else ReloadLoop(d, i, fuel)
  }

  // ---------------------------------------------------------------------------
  // Handshake gates

  /** `_dw_ahb_dmac_check_src`: memory sources are always ready; a software
    * handshake is refused with an error; otherwise the source's hardware
    * handshake line decides. */
  function SrcGate(d: Dmac, i: nat): (r: (Dmac, bool))
    requires WellFormed(d) && i < ChannelCount
    ensures WellFormed(r.0) && r.0.channels == d.channels
    ensures var ch := d.channels[i];
      r.1 <==> TtFc(ch.ctlL) in {M2mDmac, M2pDmac, M2pPerp}
               || (!HsSelSrc(ch.cfgL) && d.handshake[SrcPer(ch.cfgH)] != 0)
    ensures var ch := d.channels[i];
      r.0 == (if TtFc(ch.ctlL) !in {M2mDmac, M2pDmac, M2pPerp} && HsSelSrc(ch.cfgL) then Fault(d, i) else d)
  {
    var ch := d.channels[i];
    var t := TtFc(ch.ctlL);
    if t == M2mDmac || t == M2pDmac || t == M2pPerp then (d, true)
    else if HsSelSrc(ch.cfgL) then (Fault(d, i), false)
    else (d, d.handshake[SrcPer(ch.cfgH)] != 0)
  }

  /** `_dw_ahb_dmac_check_dst`, the same for the destination side. */
  function DstGate(d: Dmac, i: nat): (r: (Dmac, bool))
    requires WellFormed(d) && i < ChannelCount
    ensures WellFormed(r.0) && r.0.channels == d.channels
    ensures var ch := d.channels[i];
      r.1 <==> TtFc(ch.ctlL) in {M2mDmac, P2mDmac, P2mPerp}
               || (!HsSelDst(ch.cfgL) && d.handshake[DstPer(ch.cfgH)] != 0)
    ensures var ch := d.channels[i];
      r.0 == (if TtFc(ch.ctlL) !in {M2mDmac, P2mDmac, P2mPerp} && HsSelDst(ch.cfgL) then Fault(d, i) else d)
  {
    var ch := d.channels[i];
    var t := TtFc(ch.ctlL);
    if t == M2mDmac || t == P2mDmac || t == P2mPerp then (d, true)
    else if HsSelDst(ch.cfgL) then (Fault(d, i), false)
    else (d, d.handshake[DstPer(ch.cfgH)] != 0)
  }

  // ---------------------------------------------------------------------------
  // One transfer unit

  /** Address update after a transfer of `w` bytes: increment, decrement
    * (both modulo 2^32, as the 32-bit register wraps) or no change. */
  function Advance(addr: bv32, inc: nat, w: bv32): bv32
    requires inc < 4
  {
    if inc == 0 then addr + w else if inc == 1 then addr - w else addr
  }

  /** The bytes written to the destination: the device writes from a 32-byte
    * buffer that holds the bytes just read; the model fills the part beyond
    * the source width with zeros. */
  function Payload(data: seq<bv8>, n: nat): (p: seq<bv8>)
    ensures |p| == n
    ensures forall j :: 0 <= j < n && j < |data| ==> p[j] == data[j]
  {
    seq(n, j requires 0 <= j < n => if j < |data| then data[j] else 0)
  }

  /** The source half of a transfer unit: read one source-width unit from
    * the source master and advance the source address; a failed read
    * raises the error interrupt and disables the channel. */
  function ReadUnit(d: Dmac, i: nat): (r: (Dmac, Option<seq<bv8>>))
    requires WellFormed(d) && i < ChannelCount
    ensures WellFormed(r.0)
  {
    var ch := d.channels[i];
    var sw := TrWidth(SrcTrWidth(ch.ctlL));
    match ReadBytes(d.masters[Sms(ch.ctlL)], ch.sar as int, sw as nat)
    case None => (Fault(d, i), None)
    case Some(data) => (SetChannel(d, i, ch.(sar := Advance(ch.sar, Sinc(ch.ctlL), sw))), Some(data))
  }

  /** The destination half: write one destination-width unit of `data` to
    * the destination master, advance the destination address and count the
    * transfer; a failed write raises the error interrupt and disables the
    * channel. */
  function WriteUnit(d: Dmac, i: nat, data: seq<bv8>): (r: Dmac)
    requires WellFormed(d) && i < ChannelCount
    ensures WellFormed(r)
  {
    var ch := d.channels[i];
    var dw := TrWidth(DstTrWidth(ch.ctlL));
    match WriteBytes(d.masters[Dms(ch.ctlL)], ch.dar as int, Payload(data, dw as nat))
    case None => Fault(d, i)
    case Some(m) =>
      var ch' := ch.(dar := Advance(ch.dar, Dinc(ch.ctlL), dw), transferNum := ch.transferNum + 1);
      SetChannel(d, i, ch').(masters := d.masters[Dms(ch.ctlL) := m])
  }

  /** The destination half when the write goes through. */
  lemma WriteUnitStores(d: Dmac, i: nat, data: seq<bv8>, m: Memory)
    requires WellFormed(d) && i < ChannelCount
    requires var ch := d.channels[i];
      WriteBytes(d.masters[Dms(ch.ctlL)], ch.dar as int, Payload(data, TrWidth(DstTrWidth(ch.ctlL)) as nat)) == Some(m)
    ensures var ch := d.channels[i];
      var dw := TrWidth(DstTrWidth(ch.ctlL));
      WriteUnit(d, i, data)
      == SetChannel(d, i, ch.(dar := Advance(ch.dar, Dinc(ch.ctlL), dw), transferNum := ch.transferNum + 1))
           .(masters := d.masters[Dms(ch.ctlL) := m])
  {
  }

  /** One iteration of the transfer loop: the source half, then (when the
    * read succeeded) the destination half.  A failed access keeps whatever
    * was already updated. */
  function TransferUnit(d: Dmac, i: nat): (r: Dmac)
    requires WellFormed(d) && i < ChannelCount
    ensures WellFormed(r)
  {
    var (d1, data) := ReadUnit(d, i);
    if data.None? then d1 else WriteUnit(d1, i, data.value)
  }

  /** What one evaluation of the loop condition decides. */
  datatype Step = Moved | Stopped | Exhausted

  /** One pass of the transfer loop of channel `i`: the flow-control gate,
    * then the source and destination gates (each asked only when the one
    * before let the channel through), then one transfer unit. */
  function Pass(d: Dmac, i: nat, fuel: Fuel): (r: (Dmac, Step))
    requires WellFormed(d) && i < ChannelCount
    ensures WellFormed(r.0)
  {
    var (d1, g) := ChannelGate(d, i, fuel);
    if g == OutOfFuel then (d1, Exhausted)
    else if g == Closed then (d1, Stopped)
    else
      var (d2, s) := SrcGate(d1, i);
      if !s then (d2, Stopped)
      else
        var (d3, t) := DstGate(d2, i);
        if !t then (d3, Stopped)
        else
          (TransferUnit(d3, i), Moved)
  }

  /** The transfer loop of one channel: passes until a gate stops it.  The
    * loop does not look at the channel's enable flag, so after a failed
    * access the gates are asked again and the access retried.  The flag
    * says the fuel ran out first. */
  function ChannelRun(d: Dmac, i: nat, fuel: Fuel): (r: (Dmac, bool))
    requires WellFormed(d) && i < ChannelCount
    ensures WellFormed(r.0)
    decreases fuel
  {
    if fuel.Empty? then (d, true)
    else
      var (d1, step) := Pass(d, i, fuel);
      if step == Exhausted then (d1, true)
      else if step == Stopped then (d1, false)
      else ChannelRun(d1, i, fuel.rest)
  }

  /** `_dw_ahb_dmac_process` from channel `i` on: each enabled channel runs
    * its transfer loop, in channel order.  The flag says a channel's loop
    * outlasted the fuel; the device would still be in that loop, so the
    * run ends there and no later channel runs. */
  function ProcessFrom(d: Dmac, i: nat, fuel: Fuel): (r: (Dmac, bool))
    requires WellFormed(d) && i <= ChannelCount
    ensures WellFormed(r.0)
    ensures r.0.dmaEnable == d.dmaEnable && r.0.mask == d.mask && r.0.handshake == d.handshake
    ensures forall c :: 0 <= c < Channels && r.0.enabled[c] ==> d.enabled[c]
    ensures Inv(d) ==> Inv(r.0)
    ensures Synced(d) ==> Synced(r.0)
    decreases ChannelCount - i
  {
    if i == ChannelCount then (d, false)
    else if d.enabled[i] then
      var (d1, spent) := ChannelRun(d, i, fuel);
      ChannelRunConfined(d, i, fuel);
      ConfinedKeepsInv(d, d1, i);
      if spent then (d1, true) else ProcessFrom(d1, i + 1, fuel)
    else ProcessFrom(d, i + 1, fuel)
  }

  function Process(d: Dmac, fuel: Fuel): (r: (Dmac, bool))
    requires WellFormed(d)
    ensures WellFormed(r.0) && (Inv(d) ==> Inv(r.0)) && (Synced(d) ==> Synced(r.0))
  {
    ProcessFrom(d, 0, fuel)
  }

  // ---------------------------------------------------------------------------
  // Every step on channel `i` is confined to channel `i`

  lemma ConfinedRefl(d: Dmac, i: nat)
    requires WellFormed(d) && i < ChannelCount
    ensures Confined(d, d, i)
  {
  }

  lemma SetChannelConfined(d: Dmac, i: nat, ch: Channel)
    requires WellFormed(d) && i < ChannelCount
    ensures Confined(d, SetChannel(d, i, ch), i)
  {
  }

  lemma ChannelMastersConfined(d: Dmac, i: nat, ch: Channel, ms: seq<Memory>)
    requires WellFormed(d) && i < ChannelCount && |ms| == |d.masters|
    ensures WellFormed(SetChannel(d, i, ch).(masters := ms))
    ensures Confined(d, SetChannel(d, i, ch).(masters := ms), i)
  {
  }

  lemma RaiseIfConfined(d: Dmac, cond: bool, k: nat, i: nat)
    requires WellFormed(d) && k < IntKinds && i < ChannelCount
    ensures Confined(d, RaiseIf(d, cond, k, i), i)
  {
  }

  lemma FaultConfined(d: Dmac, i: nat)
    requires WellFormed(d) && i < ChannelCount
    ensures Confined(d, Fault(d, i), i)
  {
    hide Confined;
    var d1 := RaiseIf(d, IntEn(d.channels[i].ctlL), IntErr, i);
    RaiseIfConfined(d, IntEn(d.channels[i].ctlL), IntErr, i);
    ConfinedTrans(d, d1, Disable(d1, i), i);
  }

  lemma LastBlockConfined(d: Dmac, i: nat)
    requires WellFormed(d) && i < ChannelCount
    ensures Confined(d, LastBlock(d, i), i)
  {
    hide Confined;
    var en := IntEn(d.channels[i].ctlL);
    var d1 := RaiseIf(d, en, IntBlock, i);
    var d2 := RaiseIf(d1, en, IntTfr, i);
    var d3 := SetChannel(d2, i, d.channels[i].(transferNum := 0));
    RaiseIfConfined(d, en, IntBlock, i);
    RaiseIfConfined(d1, en, IntTfr, i);
    SetChannelConfined(d2, i, d.channels[i].(transferNum := 0));
    ConfinedTrans(d, d1, d2, i);
    ConfinedTrans(d, d2, d3, i);
    ConfinedTrans(d, d3, Disable(d3, i), i);
  }

  lemma EndOfBlockConfined(d: Dmac, i: nat)
    requires WellFormed(d) && i < ChannelCount
    ensures Confined(d, EndOfBlock(d, i).0, i)
  {
    hide Confined;
    var ch := d.channels[i].(ctlH := WithDone(d.channels[i].ctlH));
    var d1 := SetChannel(d, i, ch);
    SetChannelConfined(d, i, ch);
    if LlpLoc(ch.llp) == 0 {
      assert EndOfBlock(d, i).0 == LastBlock(d1, i);
      LastBlockConfined(d1, i);
      ConfinedTrans(d, d1, LastBlock(d1, i), i);
    } else {
      match ReadLli(d.masters[LlpLms(ch.llp)], LliAddress(ch.llp) as int)
      case None =>
        assert EndOfBlock(d, i).0 == Fault(d1, i);
        FaultConfined(d1, i);
        ConfinedTrans(d, d1, Fault(d1, i), i);
      case Some(l) =>
        var d2 := SetChannel(d1, i, Reload(ch, l));
        assert EndOfBlock(d, i).0 == RaiseIf(d2, IntEn(l.ctlL), IntBlock, i);
        SetChannelConfined(d1, i, Reload(ch, l));
        RaiseIfConfined(d2, IntEn(l.ctlL), IntBlock, i);
        ConfinedTrans(d, d1, d2, i);
        ConfinedTrans(d, d2, RaiseIf(d2, IntEn(l.ctlL), IntBlock, i), i);
    }
  }

  lemma {:induction false} ReloadLoopConfined(d: Dmac, i: nat, fuel: Fuel)
    requires WellFormed(d) && i < ChannelCount
    ensures Confined(d, ReloadLoop(d, i, fuel).0, i)
    decreases fuel
  {
    hide Confined;
    if !BlockFinished(d.channels[i]) || fuel.Empty? {
      ConfinedRefl(d, i);
    } else {
      var (d', more) := EndOfBlock(d, i);
      EndOfBlockConfined(d, i);
      if more {
        ReloadLoopConfined(d', i, fuel.rest);
        ConfinedTrans(d, d', ReloadLoop(d', i, fuel.rest).0, i);
      }
    }
  }

  lemma ChannelGateConfined(d: Dmac, i: nat, fuel: Fuel)
    requires WellFormed(d) && i < ChannelCount
    ensures Confined(d, ChannelGate(d, i, fuel).0, i)
  {
    FaultConfined(d, i);
    ReloadLoopConfined(d, i, fuel);
  }

  lemma ReadUnitConfined(d: Dmac, i: nat)
    requires WellFormed(d) && i < ChannelCount
    ensures Confined(d, ReadUnit(d, i).0, i)
  {
    FaultConfined(d, i);
    var ch := d.channels[i];
    SetChannelConfined(d, i, ch.(sar := Advance(ch.sar, Sinc(ch.ctlL), TrWidth(SrcTrWidth(ch.ctlL)))));
  }

  lemma WriteUnitConfined(d: Dmac, i: nat, data: seq<bv8>)
    requires WellFormed(d) && i < ChannelCount
    ensures Confined(d, WriteUnit(d, i, data), i)
  {
    hide Confined;
    var ch := d.channels[i];
    var dw := TrWidth(DstTrWidth(ch.ctlL));
    match WriteBytes(d.masters[Dms(ch.ctlL)], ch.dar as int, Payload(data, dw as nat))
    case None =>
      assert WriteUnit(d, i, data) == Fault(d, i);
      FaultConfined(d, i);
    case Some(m) =>
      var ch' := ch.(dar := Advance(ch.dar, Dinc(ch.ctlL), dw), transferNum := ch.transferNum + 1);
      assert WriteUnit(d, i, data) == SetChannel(d, i, ch').(masters := d.masters[Dms(ch.ctlL) := m]);
      ChannelMastersConfined(d, i, ch', d.masters[Dms(ch.ctlL) := m]);
  }

  lemma TransferUnitConfined(d: Dmac, i: nat)
    requires WellFormed(d) && i < ChannelCount
    ensures Confined(d, TransferUnit(d, i), i)
  {
    hide Confined;
    var (d1, data) := ReadUnit(d, i);
    ReadUnitConfined(d, i);
    if data.Some? {
      WriteUnitConfined(d1, i, data.value);
      ConfinedTrans(d, d1, WriteUnit(d1, i, data.value), i);
    }
  }

  lemma SrcGateConfined(d: Dmac, i: nat)
    requires WellFormed(d) && i < ChannelCount
    ensures Confined(d, SrcGate(d, i).0, i)
  {
    FaultConfined(d, i);
    ConfinedRefl(d, i);
  }

  lemma DstGateConfined(d: Dmac, i: nat)
    requires WellFormed(d) && i < ChannelCount
    ensures Confined(d, DstGate(d, i).0, i)
  {
    FaultConfined(d, i);
    ConfinedRefl(d, i);
  }

  lemma PassConfined(d: Dmac, i: nat, fuel: Fuel)
    requires WellFormed(d) && i < ChannelCount
    ensures Confined(d, Pass(d, i, fuel).0, i)
  {
    hide Confined, ChannelGate, SrcGate, DstGate, TransferUnit, Fault;
    var (d1, g) := ChannelGate(d, i, fuel);
    ChannelGateConfined(d, i, fuel);
    if g == Open {
      var (d2, s) := SrcGate(d1, i);
      SrcGateConfined(d1, i);
      ConfinedTrans(d, d1, d2, i);
      if s {
        var (d3, t) := DstGate(d2, i);
        DstGateConfined(d2, i);
        ConfinedTrans(d, d2, d3, i);
        if t {
          TransferUnitConfined(d3, i);
          ConfinedTrans(d, d3, TransferUnit(d3, i), i);
        }
      }
    }
  }

  /** A channel's transfer loop touches only that channel. */
  lemma {:induction false} ChannelRunConfined(d: Dmac, i: nat, fuel: Fuel)
    requires WellFormed(d) && i < ChannelCount
    ensures Confined(d, ChannelRun(d, i, fuel).0, i)
    decreases fuel
  {
    hide Confined;
    if fuel.Empty? {
      ConfinedRefl(d, i);
    } else {
      var (d1, step) := Pass(d, i, fuel);
      PassConfined(d, i, fuel);
      if step == Moved {
        assert ChannelRun(d, i, fuel) == ChannelRun(d1, i, fuel.rest);
        ChannelRunConfined(d1, i, fuel.rest);
        ConfinedTrans(d, d1, ChannelRun(d1, i, fuel.rest).0, i);
      } else {
        assert ChannelRun(d, i, fuel).0 == d1;
      }
    }
  }

  // ---------------------------------------------------------------------------
  // Handshake input and reset

  /** `_dw_ahb_dmac_handshake`: record the level of one hardware handshake
    * line.  A non-zero level asks for the engine to run. */
  function Handshake(d: Dmac, hs: nat, level: int): (r: Dmac)
    requires WellFormed(d) && hs < 16
    ensures WellFormed(r) && r.handshake[hs] == level
    ensures forall h :: 0 <= h < 16 && h != hs ==> r.handshake[h] == d.handshake[h]
    ensures r.(handshake := d.handshake) == d
  {
    d.(handshake := d.handshake[hs := level])
  }

  const NoFlags: seq<bool> := [false, false, false, false, false, false, false, false]

  /** `_dw_ahb_dmac_reset`: everything cleared except the master address
    * spaces and the interrupt line, which reset does not drive. */
  function ResetState(d: Dmac): (r: Dmac)
    requires |d.masters| == 4
    ensures Inv(r)
    ensures !r.dmaEnable && forall c :: 0 <= c < Channels ==> !r.enabled[c]
    ensures forall k, c :: 0 <= k < IntKinds && 0 <= c < Channels ==> !r.raw[k][c] && !r.mask[k][c]
    ensures forall c :: 0 <= c < ChannelCount ==> r.channels[c] == IdleChannel
    ensures forall h :: 0 <= h < 16 ==> r.handshake[h] == 0
    ensures r.masters == d.masters && r.irq == d.irq
  {
    var none := [NoFlags, NoFlags, NoFlags, NoFlags, NoFlags];
    Dmac(seq(ChannelCount, _ => IdleChannel), seq(16, _ => 0), none, none, false, NoFlags, d.masters, d.irq)
  }

  // ---------------------------------------------------------------------------
  // Properties of the engine

  /** A suspended channel is refused: it is disabled, raises the error
    * interrupt exactly when its interrupts are enabled, and nothing else
    * about it changes. */
  lemma SuspendedChannelRefused(d: Dmac, i: nat, fuel: Fuel)
    requires WellFormed(d) && i < ChannelCount && ChSusp(d.channels[i].cfgL)
    ensures var (r, g) := ChannelGate(d, i, fuel);
      g == Closed && !r.enabled[i] && r.channels == d.channels
      && (r.raw[IntErr][i] <==> d.raw[IntErr][i] || IntEn(d.channels[i].ctlL))
  {
  }

  /** Transfers in which a peripheral controls the flow are refused the same way. */
  lemma PeripheralFlowRefused(d: Dmac, i: nat, fuel: Fuel)
    requires WellFormed(d) && i < ChannelCount && !ChSusp(d.channels[i].cfgL)
    requires TtFc(d.channels[i].ctlL) in {P2mPerp, P2pSrcp, M2pPerp, P2pDstp}
    ensures var (r, g) := ChannelGate(d, i, fuel);
      g == Closed && !r.enabled[i] && r.channels == d.channels
      && (r.raw[IntErr][i] <==> d.raw[IntErr][i] || IntEn(d.channels[i].ctlL))
  {
    PeripheralFlowCodes(TtFc(d.channels[i].ctlL));
  }

  /** A channel with transfers left in its block passes the gate untouched. */
  lemma BlockInProgress(d: Dmac, i: nat, fuel: Fuel)
    requires WellFormed(d) && i < ChannelCount
    requires !ChSusp(d.channels[i].cfgL) && !PeripheralFlow(TtFc(d.channels[i].ctlL))
    requires !BlockFinished(d.channels[i])
    ensures ChannelGate(d, i, fuel) == (d, Open)
  {
  }

  /** The end of the last block (LLP address zero): the gate closes, the
    * channel is disabled with its done bit set and its count cleared, and
    * the block and transfer interrupts are raised when enabled. */
  lemma LastBlockCloses(d: Dmac, i: nat, fuel: Fuel)
    requires WellFormed(d) && i < ChannelCount && fuel.More?
    requires !ChSusp(d.channels[i].cfgL) && !PeripheralFlow(TtFc(d.channels[i].ctlL))
    requires BlockFinished(d.channels[i])
    requires LlpLoc(d.channels[i].llp) == 0
    ensures var (r, g) := ChannelGate(d, i, fuel);
      var ch := d.channels[i];
      g == Closed && !r.enabled[i]
      && r.channels[i] == ch.(ctlH := WithDone(ch.ctlH), transferNum := 0)
      && (r.raw[IntBlock][i] <==> d.raw[IntBlock][i] || IntEn(ch.ctlL))
      && (r.raw[IntTfr][i] <==> d.raw[IntTfr][i] || IntEn(ch.ctlL))
  {
  }

  /** A block ends and the LLP names an item that can be fetched: the item's
    * addresses, LLP and control words replace the channel's, the count
    * restarts, and the block interrupt is raised when the new control word
    * enables interrupts.  If the new block is not empty the gate opens. */
  lemma NextItemLoaded(d: Dmac, i: nat, fuel: Fuel, l: Lli)
    requires WellFormed(d) && i < ChannelCount && fuel.More?
    requires !ChSusp(d.channels[i].cfgL) && !PeripheralFlow(TtFc(d.channels[i].ctlL))
    requires BlockFinished(d.channels[i])
    requires LlpLoc(d.channels[i].llp) != 0
    requires ReadLli(d.masters[LlpLms(d.channels[i].llp)], LliAddress(d.channels[i].llp) as int) == Some(l)
    requires BlockTs(l.ctlH) > 0
    ensures var (r, g) := ChannelGate(d, i, fuel);
      g == Open && r.enabled == d.enabled
      && r.channels[i] == Reload(d.channels[i], l)
      && (r.raw[IntBlock][i] <==> d.raw[IntBlock][i] || IntEn(l.ctlL))
  {
    var e := EndOfBlock(d, i);
    EndOfBlockLoads(d, i, l);
    assert ChannelGate(d, i, fuel) == ReloadLoop(d, i, fuel) by {
      PeripheralFlowCodes(TtFc(d.channels[i].ctlL));
    }
    assert ReloadLoop(d, i, fuel) == ReloadLoop(e.0, i, fuel.rest);
    assert ReloadLoop(e.0, i, fuel.rest) == (e.0, Open);
  }

  lemma EndOfBlockLoads(d: Dmac, i: nat, l: Lli)
    requires WellFormed(d) && i < ChannelCount
    requires LlpLoc(d.channels[i].llp) != 0
    requires ReadLli(d.masters[LlpLms(d.channels[i].llp)], LliAddress(d.channels[i].llp) as int) == Some(l)
    ensures var e := EndOfBlock(d, i);
      e.1 && e.0.channels[i] == Reload(d.channels[i], l) && e.0.enabled == d.enabled
      && (e.0.raw[IntBlock][i] <==> d.raw[IntBlock][i] || IntEn(l.ctlL))
  {
    hide WithDone, ReadLli, LliAddress, LlpLoc, LlpLms, IntEn, LastBlock, Fault;
    var ch := d.channels[i].(ctlH := WithDone(d.channels[i].ctlH));
    var d1 := SetChannel(d, i, ch);
    assert ch.llp == d.channels[i].llp;
    assert EndOfBlock(d, i) == (RaiseIf(SetChannel(d1, i, Reload(ch, l)), IntEn(l.ctlL), IntBlock, i), true);
    assert Reload(ch, l) == Reload(d.channels[i], l);
  }

  /** A block ends and the item cannot be fetched: the gate closes with the
    * error interrupt (per the old control word) and the channel disabled. */
  lemma ItemFetchFails(d: Dmac, i: nat, fuel: Fuel)
    requires WellFormed(d) && i < ChannelCount && fuel.More?
    requires !ChSusp(d.channels[i].cfgL) && !PeripheralFlow(TtFc(d.channels[i].ctlL))
    requires BlockFinished(d.channels[i])
    requires LlpLoc(d.channels[i].llp) != 0
    requires !Mapped(d.masters[LlpLms(d.channels[i].llp)], LliAddress(d.channels[i].llp) as int, 4 * LliWords)
    ensures var (r, g) := ChannelGate(d, i, fuel);
      var ch := d.channels[i];
      g == Closed && !r.enabled[i] && r.channels[i] == ch.(ctlH := WithDone(ch.ctlH))
      && (r.raw[IntErr][i] <==> d.raw[IntErr][i] || IntEn(ch.ctlL))
  {
  }

  /** An item whose LLP points back at itself and whose block is empty keeps
    * the gate reloading it: the loop never ends, whatever the fuel. */
  lemma {:induction false} EmptySelfLinkedItemSpins(d: Dmac, i: nat, fuel: Fuel, l: Lli)
    requires WellFormed(d) && i < ChannelCount
    requires BlockFinished(d.channels[i])
    requires d.channels[i].llp == l.llp && LlpLoc(l.llp) != 0 && BlockTs(l.ctlH) == 0
    requires ReadLli(d.masters[LlpLms(l.llp)], LliAddress(l.llp) as int) == Some(l)
    ensures ReloadLoop(d, i, fuel).1 == OutOfFuel
    decreases fuel
  {
    if fuel.More? {
      var (d1, more) := EndOfBlock(d, i);
      assert more && d1.channels[i] == Reload(d.channels[i], l) && d1.masters == d.masters;
      EmptySelfLinkedItemSpins(d1, i, fuel.rest, l);
    }
  }

  /** A transfer unit whose accesses both succeed: the destination receives
    * the source bytes, both addresses move by their widths as programmed,
    * and the count goes up by one. */
  lemma UnitMovesData(d: Dmac, i: nat)
    requires WellFormed(d) && i < ChannelCount
    requires var ch := d.channels[i];
      Mapped(d.masters[Sms(ch.ctlL)], ch.sar as int, TrWidth(SrcTrWidth(ch.ctlL)) as nat)
      && Mapped(d.masters[Dms(ch.ctlL)], ch.dar as int, TrWidth(DstTrWidth(ch.ctlL)) as nat)
    ensures var ch := d.channels[i];
      var r := TransferUnit(d, i);
      var sw := TrWidth(SrcTrWidth(ch.ctlL));
      var dw := TrWidth(DstTrWidth(ch.ctlL));
      var data := ReadBytes(d.masters[Sms(ch.ctlL)], ch.sar as int, sw as nat).value;
      r.enabled == d.enabled && r.raw == d.raw
      && r.channels[i] == ch.(sar := Advance(ch.sar, Sinc(ch.ctlL), sw),
                              dar := Advance(ch.dar, Dinc(ch.ctlL), dw),
                              transferNum := ch.transferNum + 1)
      && ReadBytes(r.masters[Dms(ch.ctlL)], ch.dar as int, dw as nat) == Some(Payload(data, dw as nat))
  {
    var ch := d.channels[i];
    var sw := TrWidth(SrcTrWidth(ch.ctlL));
    var dw := TrWidth(DstTrWidth(ch.ctlL));
    var data := ReadBytes(d.masters[Sms(ch.ctlL)], ch.sar as int, sw as nat).value;
    WriteThenRead(d.masters[Dms(ch.ctlL)], ch.dar as int, Payload(data, dw as nat));
  }

  /** A destination access that fails after the source read leaves the
    * source address advanced but nothing else moved, and disables the
    * channel. */
  lemma UnitDestinationFails(d: Dmac, i: nat)
    requires WellFormed(d) && i < ChannelCount
    requires var ch := d.channels[i];
      Mapped(d.masters[Sms(ch.ctlL)], ch.sar as int, TrWidth(SrcTrWidth(ch.ctlL)) as nat)
      && !Mapped(d.masters[Dms(ch.ctlL)], ch.dar as int, TrWidth(DstTrWidth(ch.ctlL)) as nat)
    ensures var ch := d.channels[i];
      var r := TransferUnit(d, i);
      !r.enabled[i] && r.masters == d.masters
      && r.channels[i] == ch.(sar := Advance(ch.sar, Sinc(ch.ctlL), TrWidth(SrcTrWidth(ch.ctlL))))
      && (r.raw[IntErr][i] <==> d.raw[IntErr][i] || IntEn(ch.ctlL))
  {
  }

  /** The source of channel `i` is memory, its block has transfers left
    * and its source unit lies outside the master's address space. */
  predicate UnreadableSource(d: Dmac, i: nat)
    requires WellFormed(d) && i < ChannelCount
  {
    var ch := d.channels[i];
    !ChSusp(ch.cfgL) && TtFc(ch.ctlL) == M2mDmac && !BlockFinished(ch)
    && !Mapped(d.masters[Sms(ch.ctlL)], ch.sar as int, TrWidth(SrcTrWidth(ch.ctlL)) as nat)
  }

  /** The transfer loop ignores the enable flag: with an unreadable
    * memory source, a pass faults (disabling the channel) and reports that
    * it moved a unit, and the state after it has an unreadable source
    * again, so the loop is entered once more.  The device never leaves it. */
  lemma UnreadableSourceStep(d: Dmac, i: nat, fuel: Fuel)
    requires WellFormed(d) && i < ChannelCount && fuel.More? && UnreadableSource(d, i)
    ensures Pass(d, i, fuel) == (Fault(d, i), Moved) && UnreadableSource(Fault(d, i), i)
    ensures ChannelRun(d, i, fuel) == ChannelRun(Fault(d, i), i, fuel.rest)
  {
    PeripheralFlowCodes(TtFc(d.channels[i].ctlL));
    BlockInProgress(d, i, fuel);
    assert SrcGate(d, i) == (d, true);
    assert DstGate(d, i) == (d, true);
  }

  /** A confined step on channel `i` leaves another channel's registers and
    * enable flag as they were. */
  lemma KeptChannel(d: Dmac, r: Dmac, i: nat, c: nat)
    requires WellFormed(d) && WellFormed(r) && i < ChannelCount && c < ChannelCount && c != i
    requires Confined(d, r, i)
    ensures r.channels[c] == d.channels[c] && r.enabled[c] == d.enabled[c]
  {
  }

  /** A channel that is disabled when the engine reaches it is not touched. */
  lemma {:induction false} DisabledChannelsUntouched(d: Dmac, i: nat, fuel: Fuel, c: nat)
    requires WellFormed(d) && i <= ChannelCount && c < ChannelCount && !d.enabled[c]
    ensures ProcessFrom(d, i, fuel).0.channels[c] == d.channels[c]
    decreases ChannelCount - i
  {
    hide Confined, ChannelRun;
    if i < ChannelCount {
      if d.enabled[i] {
        var (d1, spent) := ChannelRun(d, i, fuel);
        ChannelRunConfined(d, i, fuel);
        KeptChannel(d, d1, i, c);
        if !spent {
          assert ProcessFrom(d, i, fuel) == ProcessFrom(d1, i + 1, fuel);
          DisabledChannelsUntouched(d1, i + 1, fuel, c);
        }
      } else {
        DisabledChannelsUntouched(d, i + 1, fuel, c);
      }
    }
  }

  /** A channel whose transfer loop outlasts the fuel ends the run, flagged,
    * and every later channel is left as it was: the device never gets past
    * that channel's loop. */
  lemma SpinningChannelEndsRun(d: Dmac, i: nat, fuel: Fuel, c: nat)
    requires WellFormed(d) && i < c < ChannelCount && d.enabled[i] && ChannelRun(d, i, fuel).1
    ensures ProcessFrom(d, i, fuel) == (ChannelRun(d, i, fuel).0, true)
    ensures ProcessFrom(d, i, fuel).0.channels[c] == d.channels[c]
    ensures ProcessFrom(d, i, fuel).0.enabled[c] == d.enabled[c]
  {
    hide Confined;
    ChannelRunConfined(d, i, fuel);
    KeptChannel(d, ChannelRun(d, i, fuel).0, i, c);
  }

  /** With no channel enabled the engine changes nothing and nothing spins. */
  lemma {:induction false} NothingEnabledIdle(d: Dmac, i: nat, fuel: Fuel)
    requires WellFormed(d) && i <= ChannelCount
    requires forall c :: i <= c < ChannelCount ==> !d.enabled[c]
    ensures ProcessFrom(d, i, fuel) == (d, false)
    decreases ChannelCount - i
  {
    if i < ChannelCount {
      NothingEnabledIdle(d, i + 1, fuel);
    }
  }
}
