/**
 * The RTL8201CP Ethernet PHY behind the MAC's MDIO port (`RTL8201CPState`
 * and the `mii_*` / `rtl8201cp_mdio_*` routines of the Ethernet MAC model).
 * Register numbers and bit values are the IEEE 802.3 clause 22 ones, as
 * QEMU's MII header spells them.
 */
module EmacPhy {

  /** The four PHY registers the model keeps. */
  datatype Phy = Phy(bmcr: bv16, bmsr: bv16, anar: bv16, anlpar: bv16)

  // MII register numbers.
  const Bmcr: bv8 := 0x00
  const Bmsr: bv8 := 0x01
  const PhyId1: bv8 := 0x02
  const PhyId2: bv8 := 0x03
  const Anar: bv8 := 0x04
  const Anlpar: bv8 := 0x05
  const Aner: bv8 := 0x06

  // The RTL8201CP identifier words.
  const Id1: bv16 := 0x0000
  const Id2: bv16 := 0x8201

  // BMCR bits.
  const BmcrReset: bv16 := 0x8000
  const BmcrSpeed100: bv16 := 0x2000
  const BmcrAutoEn: bv16 := 0x1000
  const BmcrFullDuplex: bv16 := 0x0100

  // BMSR bits.
  const Bmsr100TxFd: bv16 := 0x4000
  const Bmsr100TxHd: bv16 := 0x2000
  const Bmsr10TFd: bv16 := 0x1000
  const Bmsr10THd: bv16 := 0x0800
  const BmsrMfps: bv16 := 0x0040
  const BmsrAnComp: bv16 := 0x0020
  const BmsrAutoNeg: bv16 := 0x0008
  const BmsrLinkSt: bv16 := 0x0004

  // ANAR / ANLPAR bits.
  const AnarTxFd: bv16 := 0x0100
  const AnarTx: bv16 := 0x0080
  const Anar10Fd: bv16 := 0x0040
  const Anar10: bv16 := 0x0020
  const AnarCsmaCd: bv16 := 0x0001

  /** The BMSR bits that report an established link. */
  const LinkBits: bv16 := BmsrLinkSt | BmsrAnComp

  /** The link partner abilities reported once the link is up. */
  const PartnerAbilities: bv16 := AnarTxFd | Anar10Fd | Anar10 | AnarCsmaCd

  // The values `mii_reset` loads.
  const ResetBmcr: bv16 := BmcrFullDuplex | BmcrAutoEn | BmcrSpeed100
  const ResetBmsr: bv16 := Bmsr100TxFd | Bmsr100TxHd | Bmsr10TFd | Bmsr10THd | BmsrMfps | BmsrAutoNeg
  const ResetAnar: bv16 := AnarTxFd | AnarTx | Anar10Fd | Anar10 | AnarCsmaCd

  /** `mii_set_link`: link up raises the link and autonegotiation-complete
    * status bits and adds the partner's abilities; link down drops those
    * bits and leaves the partner advertising 100BASE-TX only. Control and
    * advertisement registers are untouched. */
  function Linked(p: Phy, up: bool): (r: Phy)
    ensures r.bmcr == p.bmcr && r.anar == p.anar
    ensures r.bmsr & !LinkBits == p.bmsr & !LinkBits
    ensures r.bmsr & LinkBits == if up then LinkBits else 0
    ensures up ==> r.anlpar & PartnerAbilities == PartnerAbilities
    ensures up ==> r.anlpar & !PartnerAbilities == p.anlpar & !PartnerAbilities
    ensures !up ==> r.anlpar == AnarTx
  {
    if up then
      p.(bmsr := p.bmsr | LinkBits, anlpar := p.anlpar | PartnerAbilities)
    else
      p.(bmsr := p.bmsr & !LinkBits, anlpar := AnarTx)
  }

  /** Reporting the same link state twice is the same as once. */
  lemma LinkedIdempotent(p: Phy, up: bool)
    ensures Linked(Linked(p, up), up) == Linked(p, up)
  {
    if up {
      assert (p.bmsr | LinkBits) | LinkBits == p.bmsr | LinkBits;
      assert (p.anlpar | PartnerAbilities) | PartnerAbilities == p.anlpar | PartnerAbilities;
    } else {
      assert (p.bmsr & !LinkBits) & !LinkBits == p.bmsr & !LinkBits;
    }
  }

  /** A link that drops and comes back reports link status and the
    * partner's full ability set, whatever the partner reported before. */
  lemma LinkBounce(p: Phy)
    ensures Linked(Linked(p, false), true).bmsr == Linked(p, true).bmsr
    ensures Linked(Linked(p, false), true).anlpar == AnarTx | PartnerAbilities
  {
    hide Linked;
    var q := Linked(p, false);
    LinkedIs(p, false);
    LinkedIs(q, true);
    LinkedIs(p, true);
    SetAfterClear(p.bmsr, LinkBits);
  }

  /** `Linked` spelled out. */
  lemma LinkedIs(p: Phy, up: bool)
    ensures Linked(p, up) == if up then p.(bmsr := p.bmsr | LinkBits, anlpar := p.anlpar | PartnerAbilities)
                             else p.(bmsr := p.bmsr & !LinkBits, anlpar := AnarTx)
  {
  }

  lemma SetAfterClear(x: bv16, m: bv16)
    ensures (x & !m) | m == x | m
  {
  }

  /** `mii_reset`: the power-on register values, then the current link
    * state applied on top. */
  function ResetPhy(up: bool): (r: Phy)
    ensures r.bmcr == 0x3100 && r.anar == 0x01E1
    ensures r.bmcr & BmcrReset == 0
    ensures r.bmsr == if up then 0x786C else 0x7848
    ensures r.anlpar == if up then 0x01E1 else 0x0080
  {
    Linked(Phy(ResetBmcr, ResetBmsr, ResetAnar, AnarTx), up)
  }

  /** After a reset only the latest link report matters: a later link
    * change gives what a reset under that link state gives. */
  lemma ResetThenLinked(before: bool, after: bool)
    ensures Linked(ResetPhy(before), after) == ResetPhy(after)
  {
  }

  /** `rtl8201cp_mdio_read`: the register `reg` of the PHY at MDIO address
    * `addr`. No PHY answers at any address but `phyAddr` (the bus floats to
    * all ones); the registers the model does not implement (NSR, LBREMR,
    * REC, SNRDR, TEST among them) and invalid numbers read as zero. */
  function MdioRead(p: Phy, phyAddr: bv8, addr: bv8, reg: bv8): (v: bv16)
    ensures addr != phyAddr ==> v == 0xFFFF
    ensures addr == phyAddr && reg == PhyId1 ==> v == Id1
    ensures addr == phyAddr && reg == PhyId2 ==> v == Id2
    ensures addr == phyAddr && !Kept(reg) && reg != PhyId1 && reg != PhyId2 ==> v == 0
  {
    if addr != phyAddr then 0xFFFF
    else if reg == Bmcr then p.bmcr
    else if reg == Bmsr then p.bmsr
    else if reg == PhyId1 then Id1
    else if reg == PhyId2 then Id2
    else if reg == Anar then p.anar
    else if reg == Anlpar then p.anlpar
    else 0
  }

  /** The PHY answers a read of ANAR at its own address with ANAR. */
  lemma AnarAnswers(p: Phy, phyAddr: bv8)
    ensures MdioRead(p, phyAddr, phyAddr, Anar) == p.anar
  {
  }

  /** The registers the PHY model holds state for. */
  predicate Kept(reg: bv8)
  {
    reg == Bmcr || reg == Bmsr || reg == Anar || reg == Anlpar
  }

  /** `rtl8201cp_mdio_write`: a BMCR write with RESET set resets the PHY
    * under the current link state (`up`), any other BMCR write and every
    * ANAR write are stored, and every other write is ignored. */
  function MdioWrite(p: Phy, phyAddr: bv8, addr: bv8, reg: bv8, value: bv16, up: bool): (r: Phy)
    ensures addr != phyAddr || (reg != Bmcr && reg != Anar) ==> r == p
    ensures addr == phyAddr && reg == Bmcr && value & BmcrReset != 0 ==> r == ResetPhy(up)
    ensures addr == phyAddr && reg == Bmcr && value & BmcrReset == 0 ==> r == p.(bmcr := value)
    ensures addr == phyAddr && reg == Anar ==> r == p.(anar := value)
  {
    if addr != phyAddr then p
    else if reg == Bmcr then
      if value & BmcrReset != 0 then ResetPhy(up) else p.(bmcr := value)
    else if reg == Anar then p.(anar := value)
    else p
  }

  /** A stored control or advertisement word reads back as written. */
  lemma WriteThenRead(p: Phy, phyAddr: bv8, reg: bv8, value: bv16, up: bool)
    requires reg == Anar || (reg == Bmcr && value & BmcrReset == 0)
    ensures MdioRead(MdioWrite(p, phyAddr, phyAddr, reg, value, up), phyAddr, phyAddr, reg) == value
  {
  }

  /** The reset bit clears itself: BMCR reads back its power-on value. */
  lemma ResetSelfClears(p: Phy, phyAddr: bv8, value: bv16, up: bool)
    requires value & BmcrReset != 0
    ensures MdioRead(MdioWrite(p, phyAddr, phyAddr, Bmcr, value, up), phyAddr, phyAddr, Bmcr) == ResetBmcr
  {
  }

  /** Status, identifier and partner registers cannot be written: a read
    * after any write to them gives what it gave before. */
  lemma ReadOnlyRegisters(p: Phy, phyAddr: bv8, reg: bv8, value: bv16, up: bool, other: bv8)
    requires reg == Bmsr || reg == PhyId1 || reg == PhyId2 || reg == Anlpar || reg == Aner
    ensures MdioRead(MdioWrite(p, phyAddr, phyAddr, reg, value, up), phyAddr, phyAddr, other)
         == MdioRead(p, phyAddr, phyAddr, other)
  {
  }

  /** A write to a PHY at another address reaches nothing. */
  lemma ForeignWrite(p: Phy, phyAddr: bv8, addr: bv8, reg: bv8, value: bv16, up: bool, other: bv8)
    requires addr != phyAddr
    ensures MdioRead(MdioWrite(p, phyAddr, addr, reg, value, up), phyAddr, phyAddr, other)
         == MdioRead(p, phyAddr, phyAddr, other)
  {
  }
}
