/**
 * The DesignWare Ethernet MAC (`DwcEMACState`): its word-indexed register
 * file, the MDIO management port to the PHY, the transmit poll demand that
 * walks the transmit descriptor ring, and frame reception into the receive
 * ring.
 */
module DwcEmac {
  import opened GuestMemory
  import opened EmacPhy
  import opened EmacRing

  /** Words in the register file (`R_MAX`). */
  const RegCount: nat := 0x500

  // Word indices (byte offset / 4).
  const GmiiAddr: nat := 0x004
  const GmiiData: nat := 0x005
  const Version: nat := 0x008
  const AddrHigh0: nat := 0x010
  const AddrLow0: nat := 0x011
  const BusMode: nat := 0x400
  const XmtPoll: nat := 0x401
  const RcvBase: nat := 0x403
  const TxBase: nat := 0x404
  const Status: nat := 0x405
  const Control: nat := 0x406
  const IntrEna: nat := 0x407
  const CurTx: nat := 0x412
  const CurRx: nat := 0x413

  /** What VERSION reads as. */
  const VersionId: bv32 := 0x37

  /** DMA_CONTROL: start/stop receive. */
  const ControlSr: bv32 := 0x2

  /** DMA_STATUS bits raised for a received (or runt) frame: RI | NIS. */
  const RxDone: bv32 := 0x0001_0040
  /** DMA_STATUS bits raised when no receive descriptor is free: RU | AIS. */
  const RxUnavailable: bv32 := 0x0000_8080

  /** Frames shorter than this are refused. */
  const MinFrame: nat := 12

  /** GMII_ADDR: the operation is a write (GW). */
  const GmiiWrite: bv32 := 0x2
  /** GMII_ADDR and BUS_MODE: the self-clearing busy / software reset bit. */
  const SelfClear: bv32 := 0x1

  /** A register read (`dwc_emac_read`): VERSION is fixed, other words in
    * the register file read as stored, anything past it as zero. */
  function ReadOf(regs: seq<bv32>, addr: nat): (v: bv32)
    requires |regs| == RegCount
  {
    var i := addr / 4;
    if i == Version then VersionId else if i < RegCount then regs[i] else 0
  }

  /** What a register write (`dwc_emac_write`) leaves in the register file
    * at word `i`, the MDIO and transmit side effects apart. */
  function Stored(regs: seq<bv32>, i: nat, v: bv32): (r: seq<bv32>)
    requires |regs| == RegCount
    ensures |r| == RegCount
  {
    if i == GmiiAddr || i == BusMode then regs[i := Cleared(v, SelfClear)]
    else if i == XmtPoll then regs
    else if i == Status then regs[Status := Cleared(regs[Status], v)]
    else if i == RcvBase then regs[RcvBase := v][CurRx := v]
    else if i == TxBase then regs[TxBase := v][CurTx := v]
    else if i < RegCount then regs[i := v]
    else regs
  }

  /** `Stored` case by case, for callers that keep it folded. */
  lemma StoredCases(regs: seq<bv32>, i: nat, v: bv32)
    requires |regs| == RegCount
    ensures i == GmiiAddr || i == BusMode ==> Stored(regs, i, v) == regs[i := Cleared(v, SelfClear)]
    ensures i == XmtPoll ==> Stored(regs, i, v) == regs
    ensures i == Status ==> Stored(regs, i, v) == regs[Status := Cleared(regs[Status], v)]
    ensures i == RcvBase ==> Stored(regs, i, v) == regs[RcvBase := v][CurRx := v]
    ensures i == TxBase ==> Stored(regs, i, v) == regs[TxBase := v][CurTx := v]
    ensures i !in {GmiiAddr, BusMode, XmtPoll, Status, RcvBase, TxBase} && i < RegCount ==> Stored(regs, i, v) == regs[i := v]
    ensures RegCount <= i ==> Stored(regs, i, v) == regs
  {
  }

  /** The register file after transmit work: only DMA_STATUS and the
    * current transmit descriptor address differ. */
  function Transmitted(regs: seq<bv32>, status: bv32, cur: bv32): (r: seq<bv32>)
    requires |regs| == RegCount
    ensures |r| == RegCount
  {
    regs[Status := status][CurTx := cur]
  }

  /** Transmit work on top of transmit work is one piece of it. */
  lemma TransmittedTwice(regs: seq<bv32>, s1: bv32, c1: bv32, s2: bv32, c2: bv32)
    requires |regs| == RegCount
    ensures Transmitted(Transmitted(regs, s1, c1), s2, c2) == Transmitted(regs, s2, c2)
  {
  }

  /** Transmit work leaves the transmit ring base alone. */
  lemma TransmittedBase(regs: seq<bv32>, status: bv32, cur: bv32)
    requires |regs| == RegCount
    ensures Transmitted(regs, status, cur)[TxBase] == regs[TxBase]
  {
  }

  /** No transmit work leaves the register file as it is. */
  lemma TransmittedNothing(regs: seq<bv32>)
    requires |regs| == RegCount
    ensures Transmitted(regs, regs[Status], regs[CurTx]) == regs
  {
  }

  /** Storing a word's own value changes nothing. */
  lemma KeepWord(regs: seq<bv32>, i: nat)
    requires i < |regs|
    ensures regs[i := regs[i]] == regs
  {
  }

  /** `dwc_emac_update_irq`: the line is high while an enabled status bit
    * is pending. */
  predicate IrqOf(regs: seq<bv32>)
    requires |regs| == RegCount
  {
    Pending(regs[Status], regs[IntrEna])
  }

  /** Some status bit is pending whose source is enabled. */
  predicate Pending(status: bv32, enabled: bv32)
  {
    status & enabled != 0
  }

  /** A word that is neither VERSION nor given a special meaning on write
    * reads back as written. */
  lemma WriteThenRead(regs: seq<bv32>, addr: nat, v: bv32)
    requires |regs| == RegCount && addr / 4 < RegCount
    requires addr / 4 !in {Version, GmiiAddr, BusMode, XmtPoll, Status}
    ensures ReadOf(Stored(regs, addr / 4, v), addr) == v
  {
  }

  /** Writing DMA_STATUS clears exactly the bits written as one (write one
    * to clear); no other word changes. */
  lemma StatusWriteClears(regs: seq<bv32>, v: bv32)
    requires |regs| == RegCount
    ensures var r := Stored(regs, Status, v);
      r[Status] & v == 0 && r[Status] & !v == regs[Status] & !v
      && forall k :: 0 <= k < RegCount && k != Status ==> r[k] == regs[k]
  {
    ClearBits(regs[Status], v);
  }

  lemma ClearBits(x: bv32, v: bv32)
    ensures (x & !v) & v == 0 && (x & !v) & !v == x & !v
  {
  }

  /** Writing a ring base also points the current descriptor at it. */
  lemma BaseWriteSetsCurrent(regs: seq<bv32>, v: bv32)
    requires |regs| == RegCount
    ensures Stored(regs, RcvBase, v)[RcvBase] == v && Stored(regs, RcvBase, v)[CurRx] == v
    ensures Stored(regs, TxBase, v)[TxBase] == v && Stored(regs, TxBase, v)[CurTx] == v
  {
  }

  /** VERSION reads the same whatever is written anywhere. */
  lemma VersionFixed(regs: seq<bv32>, i: nat, v: bv32, addr: nat)
    requires |regs| == RegCount && addr / 4 == Version
    ensures ReadOf(Stored(regs, i, v), addr) == VersionId
  {
  }

  /** The MDIO busy bit and the software reset bit complete at once: they
    * always read back clear. A transmit poll demand is not stored. */
  lemma SelfClearing(regs: seq<bv32>, v: bv32)
    requires |regs| == RegCount
    ensures ReadOf(Stored(regs, GmiiAddr, v), 4 * GmiiAddr) & SelfClear == 0
    ensures ReadOf(Stored(regs, BusMode, v), 4 * BusMode) & SelfClear == 0
    ensures Stored(regs, XmtPoll, v) == regs
  {
    assert (v & !SelfClear) & SelfClear == 0;
  }

  /** Writes past the register file are dropped and such reads give zero. */
  lemma OutOfRange(regs: seq<bv32>, addr: nat, v: bv32)
    requires |regs| == RegCount && addr / 4 >= RegCount
    ensures Stored(regs, addr / 4, v) == regs && ReadOf(regs, addr) == 0
  {
  }

  /** Acknowledging every pending status bit, or masking every source,
    * lowers the interrupt line. */
  lemma IrqLowered(regs: seq<bv32>)
    requires |regs| == RegCount
    ensures !IrqOf(Stored(regs, Status, regs[Status]))
    ensures !IrqOf(Stored(regs, IntrEna, 0))
  {
    assert regs[Status] & !regs[Status] == 0;
  }

  // The MDIO management port.

  /** The PHY address field (bits 11-15) of a GMII_ADDR word. */
  function PhyField(v: bv32): bv8
  {
    ((v >> 11) & 0x1F) as bv8
  }

  /** The PHY register field (bits 6-10) of a GMII_ADDR word. */
  function RegField(v: bv32): bv8
  {
    ((v >> 6) & 0x1F) as bv8
  }

  /** The GMII_ADDR word a driver writes to start an MDIO operation. */
  function GmiiCommand(phy: bv8, reg: bv8, write: bool): (v: bv32)
    requires phy < 32 && reg < 32
  {
    (phy as bv32 << 11) | (reg as bv32 << 6) | (if write then GmiiWrite else 0) | SelfClear
  }

  /** A command word carries the PHY address it was built from. */
  lemma CommandPhy(phy: bv8, reg: bv8, write: bool)
    requires phy < 32 && reg < 32
    ensures PhyField(GmiiCommand(phy, reg, write)) == phy
  {
  }

  /** A command word carries the register number it was built from. */
  lemma CommandReg(phy: bv8, reg: bv8, write: bool)
    requires phy < 32 && reg < 32
    ensures RegField(GmiiCommand(phy, reg, write)) == reg
  {
  }

  /** A command word is a write command exactly when built as one. */
  lemma CommandWrite(phy: bv8, reg: bv8, write: bool)
    requires phy < 32 && reg < 32
    ensures (GmiiCommand(phy, reg, write) & GmiiWrite != 0) == write
  {
  }

  /** A 16-bit MDIO value as the 32-bit GMII_DATA register holds it. */
  function Widen(h: bv16): bv32
  {
    h as bv32
  }

  /** The PHY after a GMII_ADDR write `v`: a write operation hands the low
    * half of GMII_DATA to the PHY, a read operation leaves it alone. */
  function MdioPhy(p: Phy, phyAddr: bv8, data: bv32, v: bv32, up: bool): Phy
  {
    if v & GmiiWrite != 0 then MdioWrite(p, phyAddr, PhyField(v), RegField(v), (data & 0xFFFF) as bv16, up)
    else p
  }

  /** The register file after a GMII_ADDR write `v`, before GMII_ADDR itself
    * is stored: a read operation loads GMII_DATA with the PHY's answer. */
  function MdioRegs(regs: seq<bv32>, p: Phy, phyAddr: bv8, v: bv32): (r: seq<bv32>)
    requires |regs| == RegCount
    ensures |r| == RegCount
  {
    if v & GmiiWrite != 0 then regs
    else regs[GmiiData := Widen(MdioRead(p, phyAddr, PhyField(v), RegField(v)))]
  }

  /** The driver's MDIO round trip: data written to GMII_DATA, a write
    * command for the advertisement register, then a read command for it,
    * leaves the low half of the data in GMII_DATA. */
  lemma MdioRoundTrip(regs: seq<bv32>, p: Phy, phyAddr: bv8, x: bv32, up: bool)
    requires |regs| == RegCount && phyAddr < 32
    ensures var r1 := Stored(regs, GmiiData, x);
      var wr := GmiiCommand(phyAddr, Anar, true);
      var p2 := MdioPhy(p, phyAddr, r1[GmiiData], wr, up);
      var r2 := Stored(MdioRegs(r1, p, phyAddr, wr), GmiiAddr, wr);
      var rd := GmiiCommand(phyAddr, Anar, false);
      var r3 := Stored(MdioRegs(r2, p2, phyAddr, rd), GmiiAddr, rd);
      r3[GmiiData] == x & 0xFFFF
  {
    hide Stored, MdioRegs, MdioPhy, GmiiCommand, PhyField, RegField, MdioRead, MdioWrite, Widen;
    var r1 := Stored(regs, GmiiData, x);
    DataWriteStores(regs, x);
    var wr := GmiiCommand(phyAddr, Anar, true);
    var rd := GmiiCommand(phyAddr, Anar, false);
    var p2 := MdioPhy(p, phyAddr, r1[GmiiData], wr, up);
    var r2 := Stored(MdioRegs(r1, p, phyAddr, wr), GmiiAddr, wr);
    WriteCommandStores(p, phyAddr, x, up);
    WriteCommandKeepsData(r1, p, phyAddr);
    ReadCommandLoads(r2, p2, phyAddr);
    LowHalf(x);
  }

  /** A GMII_DATA write is kept as written. */
  lemma DataWriteStores(regs: seq<bv32>, x: bv32)
    requires |regs| == RegCount
    ensures Stored(regs, GmiiData, x)[GmiiData] == x
  {
  }

  /** An MDIO write command for ANAR stores the low half of the data. */
  lemma WriteCommandStores(p: Phy, phyAddr: bv8, x: bv32, up: bool)
    requires phyAddr < 32
    ensures MdioPhy(p, phyAddr, x, GmiiCommand(phyAddr, Anar, true), up) == p.(anar := (x & 0xFFFF) as bv16)
  {
    CommandPhy(phyAddr, Anar, true);
    CommandReg(phyAddr, Anar, true);
    CommandWrite(phyAddr, Anar, true);
  }

  /** An MDIO write command leaves GMII_DATA as it was. */
  lemma WriteCommandKeepsData(regs: seq<bv32>, p: Phy, phyAddr: bv8)
    requires |regs| == RegCount && phyAddr < 32
    ensures Stored(MdioRegs(regs, p, phyAddr, GmiiCommand(phyAddr, Anar, true)), GmiiAddr, GmiiCommand(phyAddr, Anar, true))[GmiiData]
         == regs[GmiiData]
  {
    CommandWrite(phyAddr, Anar, true);
  }

  /** An MDIO read command for ANAR loads GMII_DATA with it. */
  lemma ReadCommandLoads(regs: seq<bv32>, p: Phy, phyAddr: bv8)
    requires |regs| == RegCount && phyAddr < 32
    ensures Stored(MdioRegs(regs, p, phyAddr, GmiiCommand(phyAddr, Anar, false)), GmiiAddr, GmiiCommand(phyAddr, Anar, false))[GmiiData]
         == Widen(p.anar)
  {
    hide Stored, MdioRegs, MdioRead, GmiiCommand, PhyField, RegField, Widen;
    var c := GmiiCommand(phyAddr, Anar, false);
    var r := MdioRegs(regs, p, phyAddr, c);
    ReadCommandAnswers(regs, p, phyAddr);
    AddressKeepsData(r, c);
  }

  /** An MDIO read command for ANAR puts the PHY's ANAR into GMII_DATA. */
  lemma ReadCommandAnswers(regs: seq<bv32>, p: Phy, phyAddr: bv8)
    requires |regs| == RegCount && phyAddr < 32
    ensures MdioRegs(regs, p, phyAddr, GmiiCommand(phyAddr, Anar, false))[GmiiData] == Widen(p.anar)
  {
    hide GmiiCommand, PhyField, RegField, MdioRead, MdioRegs, Widen;
    var c := GmiiCommand(phyAddr, Anar, false);
    assert c & GmiiWrite == 0 && MdioRead(p, phyAddr, PhyField(c), RegField(c)) == p.anar by {
      ReadCommandFields(phyAddr);
      AnarAnswers(p, phyAddr);
    }
    ReadCommandData(regs, p, phyAddr, c, p.anar);
  }

  /** The fields of an MDIO read command for ANAR. */
  lemma ReadCommandFields(phyAddr: bv8)
    requires phyAddr < 32
    ensures var c := GmiiCommand(phyAddr, Anar, false);
      c & GmiiWrite == 0 && PhyField(c) == phyAddr && RegField(c) == Anar
  {
    hide GmiiCommand, PhyField, RegField;
    CommandPhy(phyAddr, Anar, false);
    CommandReg(phyAddr, Anar, false);
    CommandWrite(phyAddr, Anar, false);
  }

  /** An MDIO read command puts the PHY's answer into GMII_DATA. */
  lemma ReadCommandData(regs: seq<bv32>, p: Phy, phyAddr: bv8, v: bv32, answer: bv16)
    requires |regs| == RegCount && v & GmiiWrite == 0
    requires MdioRead(p, phyAddr, PhyField(v), RegField(v)) == answer
    ensures MdioRegs(regs, p, phyAddr, v)[GmiiData] == Widen(answer)
  {
    hide MdioRead, PhyField, RegField, Widen;
  }

  /** Storing GMII_ADDR leaves GMII_DATA alone. */
  lemma AddressKeepsData(regs: seq<bv32>, v: bv32)
    requires |regs| == RegCount
    ensures Stored(regs, GmiiAddr, v)[GmiiData] == regs[GmiiData]
  {
  }

  lemma LowHalf(x: bv32)
    ensures Widen((x & 0xFFFF) as bv16) == x & 0xFFFF
  {
  }

  // Reception.

  /** Interface counters (`RxTxStats`), 64 bits wide. */
  datatype Stats = Stats(rxBytes: bv64, txBytes: bv64, rx: bv64, rxBcast: bv64, rxMcast: bv64)

  /** The destination address is an individual one (group bit clear). */
  predicate Unicast(buf: seq<bv8>)
    requires |buf| >= 6
  {
    buf[0] & 1 == 0
  }

  /** The destination address is ff:ff:ff:ff:ff:ff. */
  predicate Broadcast(buf: seq<bv8>)
    requires |buf| >= 6
  {
    forall k :: 0 <= k < 6 ==> buf[k] == 0xFF
  }

  /** A group address other than broadcast. */
  predicate Multicast(buf: seq<bv8>)
    requires |buf| >= 6
  {
    !Unicast(buf) && !Broadcast(buf)
  }

  /** The size of a received frame as counted: its bytes plus the four of
    * the CRC, in 64 bits. */
  function WithCrc(n: nat): bv64
    requires n < 0x1_0000_0000_0000_0000 - 4
  {
    n as bv64 + 4
  }

  /** The counters after a frame of `size` bytes (CRC included) is stored:
    * one more frame and `size` more bytes received; a multicast frame
    * counts as multicast, a broadcast one as broadcast, a unicast one as
    * neither. */
  function Counted(s: Stats, buf: seq<bv8>, size: bv64): (r: Stats)
    requires |buf| >= 6
    ensures r.rx == s.rx + 1 && r.rxBytes == s.rxBytes + size && r.txBytes == s.txBytes
    ensures Multicast(buf) ==> r.rxMcast == s.rxMcast + 1 && r.rxBcast == s.rxBcast
    ensures Broadcast(buf) ==> r.rxBcast == s.rxBcast + 1 && r.rxMcast == s.rxMcast
    ensures Unicast(buf) ==> r.rxBcast == s.rxBcast && r.rxMcast == s.rxMcast
  {
    var s' := s.(rxBytes := s.rxBytes + size, rx := s.rx + 1);
    if Multicast(buf) then s'.(rxMcast := s.rxMcast + 1)
    else if Broadcast(buf) then s'.(rxBcast := s.rxBcast + 1)
    else s'
  }

  /** What a frame offered while reception runs leaves behind: the value
    * `eth_rx` returns, the register file, guest memory and the counters. */
  datatype Reception = Reception(ret: int, regs: seq<bv32>, mem: Memory, stats: Stats)

  /** `eth_rx` with reception started: a frame shorter than 12 bytes is
    * refused with -1 and RI | NIS; with no free descriptor at the current
    * receive descriptor address it is dropped with RU | AIS and its length returned;
    * otherwise it is written to buffer 1, the descriptor handed back
    * filled, the descriptor address moved on, RI | NIS raised, the counters updated
    * and its length plus the four CRC bytes returned. */
  function Received(regs: seq<bv32>, mem: Memory, stats: Stats, buf: seq<bv8>, skip: bv32): (r: Reception)
    requires |regs| == RegCount && |buf| < 0x1_0000_0000_0000_0000 - 4
    ensures |r.regs| == RegCount
  {
    if |buf| < MinFrame then Reception(-1, regs[Status := Raised(regs[Status], RxDone)], mem, stats)
    else
      var d := DescAt(mem, regs[CurRx]);
      if !Owned(d) then Reception(|buf|, regs[Status := Raised(regs[Status], RxUnavailable)], mem, stats)
      else
        var size := WithCrc(|buf|);
        Reception(|buf| + 4,
                  regs[CurRx := NextDesc(regs[CurRx], regs[RcvBase], EndOfRing(d), skip)][Status := regs[Status] | RxDone],
                  Put(Put(mem, Addr(Buffer1(d)), buf), Addr(regs[CurRx]), Encoded(Filled(d, size))),
                  Counted(stats, buf, size))
  }

  /** `Received` on a runt frame. */
  lemma ReceivedRunt(regs: seq<bv32>, mem: Memory, stats: Stats, buf: seq<bv8>, skip: bv32)
    requires |regs| == RegCount && |buf| < MinFrame
    ensures Received(regs, mem, stats, buf, skip) == Reception(-1, regs[Status := Raised(regs[Status], RxDone)], mem, stats)
  {
  }

  /** `Received` when the current receive descriptor is the driver's. */
  lemma ReceivedDropped(regs: seq<bv32>, mem: Memory, stats: Stats, buf: seq<bv8>, skip: bv32)
    requires |regs| == RegCount && MinFrame <= |buf| < 0x1_0000_0000_0000_0000 - 4
    requires !Owned(DescAt(mem, regs[CurRx]))
    ensures Received(regs, mem, stats, buf, skip) == Reception(|buf|, regs[Status := Raised(regs[Status], RxUnavailable)], mem, stats)
  {
  }

  /** `Received` when the current receive descriptor is free. */
  lemma ReceivedDelivered(regs: seq<bv32>, mem: Memory, stats: Stats, buf: seq<bv8>, skip: bv32)
    requires |regs| == RegCount && MinFrame <= |buf| < 0x1_0000_0000_0000_0000 - 4
    requires Owned(DescAt(mem, regs[CurRx]))
    ensures var d := DescAt(mem, regs[CurRx]);
      var size := WithCrc(|buf|);
      var r := Received(regs, mem, stats, buf, skip);
      r.ret == |buf| + 4
      && r.regs == regs[CurRx := NextDesc(regs[CurRx], regs[RcvBase], EndOfRing(d), skip)][Status := regs[Status] | RxDone]
      && r.mem == Put(Put(mem, Addr(Buffer1(d)), buf), Addr(regs[CurRx]), Encoded(Filled(d, size)))
      && r.stats == Counted(stats, buf, size)
  {
    hide DescAt, Put, Addr, Buffer1, Encoded, Filled, NextDesc, EndOfRing, Counted, Owned, WithCrc;
  }

  /** A frame taken by a free descriptor whose buffer and descriptor are
    * backed and apart loads back from buffer 1, and the descriptor reads
    * back handed to the driver, holding one whole frame whose length field
    * is the frame's length with the CRC. */
  lemma ReceivedStoresFrame(regs: seq<bv32>, mem: Memory, stats: Stats, buf: seq<bv8>, skip: bv32)
    requires |regs| == RegCount && MinFrame <= |buf| < 0x1_0000_0000_0000_0000 - 4
    requires var d := DescAt(mem, regs[CurRx]); var b := Addr(Buffer1(d)); var c := Addr(regs[CurRx]);
      Owned(d) && Mapped(mem, b, |buf|) && Mapped(mem, c, DescBytes) && (b + |buf| <= c || c + DescBytes <= b)
    ensures var d := DescAt(mem, regs[CurRx]);
      var r := Received(regs, mem, stats, buf, skip);
      var back := DescAt(r.mem, regs[CurRx]);
      r.ret == |buf| + 4
      && Load(r.mem, Addr(Buffer1(d)), |buf|) == buf
      && back == Filled(d, WithCrc(|buf|))
      && !Owned(back) && FrameLength(back) == (WithCrc(|buf|) & 0x3FFF) as bv32
  {
    hide Put, Load, Encoded, Filled, DescAt, NextDesc, Counted, WithCrc, Mapped;
    var d := DescAt(mem, regs[CurRx]);
    var b := Addr(Buffer1(d));
    var c := Addr(regs[CurRx]);
    var m1 := Put(mem, b, buf);
    var m2 := Put(m1, c, Encoded(Filled(d, WithCrc(|buf|))));
    assert Received(regs, mem, stats, buf, skip).mem == m2;
    PutThenLoad(mem, b, buf);
    PutElsewhere(m1, c, Encoded(Filled(d, WithCrc(|buf|))), b, |buf|);
    PutKeepsMapped(mem, b, buf, c, DescBytes);
    DescRoundTrip(m1, regs[CurRx], Filled(d, WithCrc(|buf|)));
  }

  /** The register file as the device comes up: zero, except the station
    * address `mac` in ADDR_HIGH(0) / ADDR_LOW(0), first byte lowest. */
  function Initial(mac: seq<bv8>): (r: seq<bv32>)
    requires |mac| == 6
    ensures |r| == RegCount
    ensures r[AddrLow0] == LeWord(mac[0], mac[1], mac[2], mac[3])
    ensures r[AddrHigh0] == LeWord(mac[4], mac[5], 0, 0)
    ensures forall k :: 0 <= k < RegCount && k != AddrLow0 && k != AddrHigh0 ==> r[k] == 0
  {
    var high := (mac[5] as bv32 << 8) | mac[4] as bv32;
    var low := (mac[3] as bv32 << 24) | (mac[2] as bv32 << 16) | (mac[1] as bv32 << 8) | mac[0] as bv32;
    seq(RegCount, k requires 0 <= k < RegCount => if k == AddrHigh0 then high else if k == AddrLow0 then low else 0)
  }

  /** The outcome a transmit poll demand is specified by: the walk from the
    * current transmit descriptor with an empty frame buffer. */
  function Polled(regs: seq<bv32>, mem: Memory, sent: seq<seq<bv8>>, skip: bv32, budget: nat): Tx
    requires |regs| == RegCount
  {
    Walk(Tx(regs[CurTx], regs[Status], mem, [], sent), regs[TxBase], skip, AsWritten, budget)
  }

  class Emac {
    /** The PHY's MDIO address (`phy-addr`). */
    const phyAddr: bv8
    const regs: array<bv32>
    /** Bytes between descriptors beyond the 16 of a descriptor. */
    var descSkip: bv32
    var mii: Phy
    /** The network side's link state (`link_down` of the NIC queue). */
    var linkDown: bool
    var stats: Stats
    /** Guest physical memory as the descriptor engine sees it. */
    var mem: Memory
    /** The packets handed to the network, oldest first. */
    var sent: seq<seq<bv8>>
    var irq: bool

    predicate Valid()
      reads this
    {
      regs.Length == RegCount
    }

    /** `dwc_emac_realize`: registers zeroed but for the station address,
      * the PHY reset under the current link state. */
    constructor(mac: seq<bv8>, phyAddr: bv8, linkDown: bool, mem: Memory)
      requires |mac| == 6
      ensures Valid() && fresh(regs)
      ensures regs[..] == Initial(mac)
      ensures this.phyAddr == phyAddr && this.linkDown == linkDown && this.mem == mem
      ensures mii == ResetPhy(!linkDown) && descSkip == 0 && sent == [] && !irq
      ensures stats == Stats(0, 0, 0, 0, 0)
    {
      this.phyAddr := phyAddr;
      var init := Initial(mac);
      regs := new bv32[RegCount](k requires 0 <= k < RegCount => init[k]);
      descSkip := 0;
      mii := ResetPhy(!linkDown);
      this.linkDown := linkDown;
      stats := Stats(0, 0, 0, 0, 0);
      this.mem := mem;
      sent := [];
      irq := false;
      new;
      assert regs[..] == init;
    }

    /** `dwc_emac_set_link`: the network reports a link change. */
    method SetLinkStatus(down: bool)
      modifies this`linkDown, this`mii
      ensures linkDown == down && mii == Linked(old(mii), !down)
    {
      linkDown := down;
      mii := Linked(mii, !down);
    }

    /** `dwc_emac_update_irq`. */
    method UpdateIrq()
      requires Valid()
      modifies this`irq
      ensures irq == IrqOf(regs[..])
    {
      hide Pending;
      irq := Pending(regs[Status], regs[IntrEna]);
    }

    /** `dwc_emac_read`. */
    function Read(addr: nat): (v: bv32)
      requires Valid()
      reads this, regs
      ensures v == ReadOf(regs[..], addr)
    {
      var i := addr / 4;
      if i == Version then VersionId else if i < RegCount then regs[i] else 0
    }

    /** `eth_can_rx`: reception is started. */
    predicate CanRx()
      requires Valid()
      reads this, regs
    {
      regs[Control] & ControlSr != 0
    }

    /** `dwc_emac_read_desc`: the descriptor at the current receive or
      * transmit descriptor address. */
    method ReadDesc(rx: bool) returns (d: Desc)
      requires Valid()
      ensures d == DescAt(mem, regs[if rx then CurRx else CurTx])
    {
      d := DescAt(mem, regs[if rx then CurRx else CurTx]);
    }

    /** `dwc_emac_write_desc`: the current descriptor address moves on (or back to the
      * ring base) and the descriptor is written where it pointed. */
    method WriteDesc(rx: bool, d: Desc)
      requires Valid()
      modifies regs, this`mem
      ensures var reg := if rx then CurRx else CurTx;
        var base := if rx then RcvBase else TxBase;
        regs[..] == old(regs[..])[reg := NextDesc(old(regs[reg]), old(regs[base]), EndOfRing(d), descSkip)]
        && mem == Put(old(mem), Addr(old(regs[reg])), Encoded(d))
    {
      var reg := if rx then CurRx else CurTx;
      var addr := regs[reg];
      regs[reg] := NextDesc(addr, regs[if rx then RcvBase else TxBase], EndOfRing(d), descSkip);
      mem := Put(mem, Addr(addr), Encoded(d));
    }

    /** `dwc_emac_send`: walk the transmit ring from the current descriptor,
      * for at most `budget` descriptors. */
    method Send(budget: nat)
      requires Valid()
      modifies regs, this`mem, this`sent
      ensures var w := Polled(old(regs[..]), old(mem), old(sent), descSkip, budget);
        regs[..] == Transmitted(old(regs[..]), w.status, w.cur) && mem == w.mem && sent == w.sent
    {
      hide Walk, TxStep, Segment, DescAt, Owned, Size1, Size2, TxLast, NextDesc, Put, Load, Transmitted, Addr;
      TransmittedNothing(regs[..]);
      var frame: seq<bv8> := [];
      var fuel := budget;
      ghost var t := Tx(regs[CurTx], regs[Status], mem, frame, sent);
      ghost var goal := Walk(t, regs[TxBase], descSkip, AsWritten, budget);
      while fuel > 0
        invariant regs[..] == Transmitted(old(regs[..]), regs[Status], regs[CurTx])
        invariant t.cur == regs[CurTx] && t.status == regs[Status] && t.mem == mem && t.frame == frame && t.sent == sent
        invariant Walk(t, regs[TxBase], descSkip, AsWritten, fuel) == goal
        decreases fuel
      {
        var d := ReadDesc(false);
        if !Owned(d) || Size2(d) != 0 || |frame| + Size1(d) + Size2(d) >= FrameMax {
          WalkStops(t, regs[TxBase], descSkip, AsWritten, fuel);
          break;
        }
        WalkTakes(t, regs[TxBase], descSkip, AsWritten, fuel);
        ghost var before := regs[..];
        frame := Transmit(frame);
        t := TxStep(t, regs[TxBase], descSkip, AsWritten);
        TransmittedTwice(old(regs[..]), before[Status], before[CurTx], regs[Status], regs[CurTx]);
        TransmittedBase(before, regs[Status], regs[CurTx]);
        fuel := fuel - 1;
      }
      if fuel == 0 {
        WalkSpent(t, regs[TxBase], descSkip, AsWritten);
      }
    }

    /** One pass of the `dwc_emac_send` loop over a descriptor the walk
      * takes: its segment joins the frame, a last segment sends the first
      * `len` bytes of the frame (`len` the segment's size) and raises
      * TI | NIS, and the descriptor goes back to the driver. */
    method Transmit(frame: seq<bv8>) returns (next: seq<bv8>)
      requires Valid() && Serves(Tx(regs[CurTx], regs[Status], mem, frame, sent))
      modifies regs, this`mem, this`sent
      ensures var u := TxStep(old(Tx(regs[CurTx], regs[Status], mem, frame, sent)), old(regs[TxBase]), descSkip, AsWritten);
        regs[CurTx] == u.cur && regs[Status] == u.status && mem == u.mem && next == u.frame && sent == u.sent
      ensures regs[..] == Transmitted(old(regs[..]), regs[Status], regs[CurTx])
    {
      hide TxStep, Serves, Segment, DescAt, Encoded, Owned, Size1, Size2, TxLast, EndOfRing, Buffer1, Released, NextDesc,
        Put, Load, WordsOf, LeBytes, LeWord, Addr;
      ghost var t := Tx(regs[CurTx], regs[Status], mem, frame, sent);
      TxStepIs(t, regs[TxBase], descSkip, AsWritten);
      SegmentIs(t);
      var d := ReadDesc(false);
      ReleasedKeepsEnd(d);
      KeepWord(regs[..], Status);
      var len := Size1(d) + Size2(d);
      next := frame + Load(mem, Addr(Buffer1(d)), len);
      if TxLast(d) {
        sent := sent + [next[..len]];
        next := [];
        Raise(TxDone);
      }
      WriteDesc(false, Released(d));
    }

    /** The GMII_ADDR side effect of `dwc_emac_write`: an MDIO write hands
      * GMII_DATA to the PHY, an MDIO read loads GMII_DATA from it. */
    method Mdio(value: bv32)
      requires Valid()
      modifies regs, this`mii
      ensures mii == MdioPhy(old(mii), phyAddr, old(regs[GmiiData]), value, !linkDown)
      ensures regs[..] == MdioRegs(old(regs[..]), old(mii), phyAddr, value)
    {
      if value & GmiiWrite != 0 {
        mii := MdioWrite(mii, phyAddr, PhyField(value), RegField(value), (regs[GmiiData] & 0xFFFF) as bv16, !linkDown);
      } else {
        regs[GmiiData] := Widen(MdioRead(mii, phyAddr, PhyField(value), RegField(value)));
      }
    }

    /** The register-file part of `dwc_emac_write`. */
    method Program(i: nat, value: bv32)
      requires Valid()
      modifies regs
      ensures regs[..] == Stored(old(regs[..]), i, value)
    {
      hide Stored;
      ghost var before := regs[..];
      if i == GmiiAddr || i == BusMode {
        StoredCases(before, i, value);
        regs[i] := Cleared(value, SelfClear);
        assert regs[..] == before[i := Cleared(value, SelfClear)];
      } else if i == XmtPoll {
        StoredCases(before, i, value);
      } else if i == Status {
        StoredCases(before, i, value);
        Acknowledge(value);
        assert regs[..] == before[Status := Cleared(before[Status], value)];
      } else if i == RcvBase {
        StoredCases(before, i, value);
        regs[RcvBase] := value;
        regs[CurRx] := value;
        assert regs[..] == before[RcvBase := value][CurRx := value];
      } else if i == TxBase {
        StoredCases(before, i, value);
        regs[TxBase] := value;
        regs[CurTx] := value;
        assert regs[..] == before[TxBase := value][CurTx := value];
      } else if i < RegCount {
        StoredCases(before, i, value);
        regs[i] := value;
        assert regs[..] == before[i := value];
      } else {
        StoredCases(before, i, value);
      }
    }

    /** `dwc_emac_write`: a write of `value` at byte offset `addr`; a
      * transmit poll demand walks at most `budget` descriptors. The
      * interrupt line is recomputed afterwards in every case. */
    method Write(addr: nat, value: bv32, budget: nat)
      requires Valid()
      modifies regs, this`mem, this`sent, this`mii, this`descSkip, this`irq
      ensures irq == IrqOf(regs[..])
      ensures addr / 4 == XmtPoll ==>
        var w := Polled(old(regs[..]), old(mem), old(sent), descSkip, budget);
        regs[..] == Transmitted(old(regs[..]), w.status, w.cur) && mem == w.mem && sent == w.sent
      ensures addr / 4 != XmtPoll ==> mem == old(mem) && sent == old(sent)
      ensures addr / 4 != XmtPoll && addr / 4 != GmiiAddr ==> regs[..] == Stored(old(regs[..]), addr / 4, value)
      ensures addr / 4 == GmiiAddr ==>
        regs[..] == Stored(MdioRegs(old(regs[..]), old(mii), phyAddr, value), GmiiAddr, value)
      ensures mii == if addr / 4 == GmiiAddr then MdioPhy(old(mii), phyAddr, old(regs[GmiiData]), value, !linkDown) else old(mii)
      ensures descSkip == if addr / 4 == BusMode then DescSkip(value) else old(descSkip)
    {
      hide Transmitted, Polled, Walk, Stored, MdioRegs, MdioPhy, DescSkip;
      var i := addr / 4;
      if i == XmtPoll {
        Send(budget);
      } else {
        if i == GmiiAddr {
          Mdio(value);
        } else if i == BusMode {
          descSkip := DescSkip(value);
        }
        Program(i, value);
      }
      UpdateIrq();
    }

    /** A DMA_STATUS write: the bits written as one are cleared. */
    method Acknowledge(bits: bv32)
      requires Valid()
      modifies regs
      ensures var w := old(regs[..]); regs[..] == w[Status := Cleared(w[Status], bits)]
    {
      regs[Status] := Cleared(regs[Status], bits);
    }

    /** DMA_STATUS |= bits. */
    method Raise(bits: bv32)
      requires Valid()
      modifies regs
      ensures regs[..] == old(regs[..])[Status := Raised(old(regs[Status]), bits)]
    {
      regs[Status] := Raised(regs[Status], bits);
    }

    /** The delivery part of `eth_rx`: the frame goes to buffer 1 of the
      * descriptor `d` read at the current receive descriptor address, the descriptor
      * is handed back filled, and the counters and status follow. */
    method Deliver(buf: seq<bv8>, d: Desc, size: bv64)
      requires Valid() && |buf| >= 6
      modifies regs, this`mem, this`stats
      ensures mem == Put(Put(old(mem), Addr(Buffer1(d)), buf), Addr(old(regs[CurRx])), Encoded(Filled(d, size)))
      ensures regs[..] == old(regs[..])[CurRx := NextDesc(old(regs[CurRx]), old(regs[RcvBase]), EndOfRing(d), descSkip)]
                                       [Status := Raised(old(regs[Status]), RxDone)]
      ensures stats == Counted(old(stats), buf, size)
    {
      hide Put, Addr, Buffer1, Encoded, Filled, NextDesc, EndOfRing, Counted;
      mem := Put(mem, Addr(Buffer1(d)), buf);
      FilledKeepsEnd(d, size);
      WriteDesc(true, Filled(d, size));
      stats := Counted(stats, buf, size);
      Raise(RxDone);
    }

    /** `eth_rx`: offer a frame from the network. Refused with -1 when
      * reception is stopped (nothing changes) or the frame is shorter than
      * 12 bytes (RI | NIS raised); dropped with RU | AIS and its length when
      * no descriptor is free; otherwise stored, and its length plus the
      * four CRC bytes returned. */
    method Receive(buf: seq<bv8>) returns (ret: int)
      requires Valid() && |buf| < 0x1_0000_0000_0000_0000 - 4
      modifies regs, this`mem, this`stats, this`irq
      ensures !old(CanRx()) ==>
        ret == -1 && regs[..] == old(regs[..]) && mem == old(mem) && stats == old(stats) && irq == old(irq)
      ensures old(CanRx()) ==>
        var r := Received(old(regs[..]), old(mem), old(stats), buf, descSkip);
        ret == r.ret && regs[..] == r.regs && mem == r.mem && stats == r.stats && irq == IrqOf(regs[..])
    {
      hide DescAt, Put, Addr, Buffer1, Encoded, Filled, NextDesc, EndOfRing, Counted, Owned, WithCrc, IrqOf, Received;
      if !CanRx() {
        return -1;
      }
      if |buf| < MinFrame {
        ReceivedRunt(regs[..], mem, stats, buf, descSkip);
        Raise(RxDone);
        ret := -1;
      } else {
        var d := ReadDesc(true);
        if !Owned(d) {
          ReceivedDropped(regs[..], mem, stats, buf, descSkip);
          Raise(RxUnavailable);
          ret := |buf|;
        } else {
          ReceivedDelivered(regs[..], mem, stats, buf, descSkip);
          Deliver(buf, d, WithCrc(|buf|));
          ret := |buf| + 4;
        }
      }
      UpdateIrq();
    }
  }
}
