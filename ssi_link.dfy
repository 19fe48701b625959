/**
 * The serial side of the DesignWare SSI controller: the 32-word transmit
 * and receive FIFOs, the transfer counters, and the SPI bus seen as an
 * oracle that records every word sent and answers from a script fixed in
 * advance (an absent device answers 0).  The functions here give the
 * meaning of the controller's loops: draining the transmit FIFO, filling
 * the receive FIFO, and sending an enhanced-mode instruction and address.
 */
module SsiLink {

  /** Both FIFOs hold 32 words. */
  const Capacity: nat := 32

  /** Transfer modes (CTRLR0.TMOD). */
  const TxAndRx: bv32 := 0
  const TxOnly: bv32 := 1
  const RxOnly: bv32 := 2
  const EepromRead: bv32 := 3

  /** The bus: the words sent so far, and the answers still to come. */
  datatype Bus = Bus(sent: seq<bv32>, answers: seq<bv32>)

  /** The answer to the next word sent. */
  function Answer(b: Bus): bv32
  {
    if |b.answers| > 0 then b.answers[0] else 0
  }

  /** Sends `ws` in order; each word consumes one answer. */
  function SendAll(b: Bus, ws: seq<bv32>): Bus
  {
    Bus(b.sent + ws, if |ws| <= |b.answers| then b.answers[|ws|..] else [])
  }

  /** The first `n` answers of a script, zero once it has run out. */
  function Replies(answers: seq<bv32>, n: nat): (r: seq<bv32>)
    ensures |r| == n
    ensures forall i | 0 <= i < n :: r[i] == if i < |answers| then answers[i] else 0
  {
    seq(n, i requires 0 <= i < n => if i < |answers| then answers[i] else 0)
  }

  function Zeros(n: nat): (r: seq<bv32>)
    ensures |r| == n && forall i | 0 <= i < n :: r[i] == 0
  {
    seq(n, _ => 0)
  }

  /** Sending one word and then `ws` is sending both at once. */
  lemma SendTwice(b: Bus, w: bv32, ws: seq<bv32>)
    ensures SendAll(SendAll(b, [w]), ws) == SendAll(b, [w] + ws)
  {
    assert b.sent + [w] + ws == b.sent + ([w] + ws);
  }

  /** Sending `xs` and then `ys` is sending `xs + ys`. */
  lemma SendConcat(b: Bus, xs: seq<bv32>, ys: seq<bv32>)
    ensures SendAll(SendAll(b, xs), ys) == SendAll(b, xs + ys)
  {
    assert b.sent + xs + ys == b.sent + (xs + ys);
    if |xs| + |ys| <= |b.answers| {
      assert b.answers[|xs|..][|ys|..] == b.answers[|xs| + |ys|..];
    }
  }

  lemma SendNothing(b: Bus)
    ensures SendAll(b, []) == b
  {
  }

  /** The answers after one word are the script's tail. */
  lemma RepliesAfter(b: Bus, w: bv32, n: nat)
    ensures [Answer(b)] + Replies(SendAll(b, [w]).answers, n) == Replies(b.answers, n + 1)
  {
  }

  /** The FIFO-and-counter state the transfer loops act on. */
  datatype Link = Link(tx: seq<bv32>, rx: seq<bv32>, txCount: nat, rxCount: nat, bus: Bus)

  /**
   * The transmit step: every queued word goes out in order and counts one;
   * with `echo` (TX_AND_RX mode) each answer is queued for reception and
   * counted too.
   */
  function Flush(l: Link, echo: bool): Link
    decreases |l.tx|
  {
    if l.tx == [] then l else Flush(Shift(l, echo), echo)
  }

  /** One word of the transmit step. */
  function Shift(l: Link, echo: bool): (n: Link)
    requires l.tx != []
    ensures |n.tx| == |l.tx| - 1
  {
    Link(l.tx[1..],
         if echo then l.rx + [Answer(l.bus)] else l.rx,
         l.txCount + 1,
         if echo then l.rxCount + 1 else l.rxCount,
         SendAll(l.bus, [l.tx[0]]))
  }

  /** One unfolding of the transmit step, for callers that keep it hidden. */
  lemma FlushStep(l: Link, echo: bool)
    ensures Flush(l, echo) == if l.tx == [] then l else Flush(Shift(l, echo), echo)
  {
  }

  /** What the transmit step does, all at once. */
  lemma {:induction false} FlushShape(l: Link, echo: bool)
    ensures Flush(l, echo).tx == []
    ensures Flush(l, echo).txCount == l.txCount + |l.tx|
    ensures Flush(l, echo).bus == SendAll(l.bus, l.tx)
    ensures Flush(l, echo).rx == l.rx + (if echo then Replies(l.bus.answers, |l.tx|) else [])
    ensures Flush(l, echo).rxCount == l.rxCount + (if echo then |l.tx| else 0)
    decreases |l.tx|
  {
    hide SendAll, Replies, Answer;
    if l.tx != [] {
      var w := l.tx[0];
      var n := Shift(l, echo);
      assert Flush(l, echo) == Flush(n, echo);
      FlushShape(n, echo);
      SendTwice(l.bus, w, l.tx[1..]);
      assert [w] + l.tx[1..] == l.tx;
      if echo {
        RepliesAfter(l.bus, w, |l.tx| - 1);
        assert l.rx + [Answer(l.bus)] + Replies(n.bus.answers, |l.tx| - 1)
            == l.rx + ([Answer(l.bus)] + Replies(n.bus.answers, |l.tx| - 1));
      }
    } else {
      SendNothing(l.bus);
    }
  }

  /**
   * The receive step: clock in zeros while the RX FIFO has room and fewer
   * than `frames` words have been received.
   */
  function Fill(l: Link, frames: nat): Link
    decreases Capacity - |l.rx|
  {
    if |l.rx| < Capacity && l.rxCount < frames then Fill(Take(l), frames) else l
  }

  /** One word of the receive step: a zero out, its answer in. */
  function Take(l: Link): (n: Link)
    ensures |n.rx| == |l.rx| + 1
  {
    l.(rx := l.rx + [Answer(l.bus)], rxCount := l.rxCount + 1, bus := SendAll(l.bus, [0]))
  }

  /** One unfolding of the receive step, for callers that keep it hidden. */
  lemma FillStep(l: Link, frames: nat)
    ensures Fill(l, frames)
         == if |l.rx| < Capacity && l.rxCount < frames then Fill(Take(l), frames) else l
  {
  }

  /** How many words the receive step takes in. */
  function Room(l: Link, frames: nat): (n: nat)
    ensures |l.rx| <= Capacity && l.rxCount <= frames ==>
      n <= Capacity - |l.rx| && n <= frames - l.rxCount
    ensures n == 0 <==> |l.rx| >= Capacity || l.rxCount >= frames
    ensures n > 0 ==> |l.rx| + n == Capacity || l.rxCount + n == frames
  {
    if |l.rx| >= Capacity || l.rxCount >= frames then 0
    else if Capacity - |l.rx| <= frames - l.rxCount then Capacity - |l.rx|
    else frames - l.rxCount
  }

  /**
   * What the receive step does: it takes in exactly `Room` answers,
   * clocking out as many zeros, and leaves the transmit side alone.
   */
  lemma {:induction false} FillShape(l: Link, frames: nat)
    ensures Fill(l, frames).tx == l.tx && Fill(l, frames).txCount == l.txCount
    ensures Fill(l, frames).rx == l.rx + Replies(l.bus.answers, Room(l, frames))
    ensures Fill(l, frames).rxCount == l.rxCount + Room(l, frames)
    ensures Fill(l, frames).bus == SendAll(l.bus, Zeros(Room(l, frames)))
    decreases Capacity - |l.rx|
  {
    hide SendAll, Replies, Zeros, Answer;
    if |l.rx| < Capacity && l.rxCount < frames {
      var n := Take(l);
      assert Fill(l, frames) == Fill(n, frames);
      FillShape(n, frames);
      var k := Room(l, frames);
      assert Room(n, frames) == k - 1;
      SendTwice(l.bus, 0, Zeros(k - 1));
      assert [0] + Zeros(k - 1) == Zeros(k);
      RepliesAfter(l.bus, 0, k - 1);
      assert l.rx + [Answer(l.bus)] + Replies(n.bus.answers, k - 1)
          == l.rx + ([Answer(l.bus)] + Replies(n.bus.answers, k - 1));
    } else {
      assert Zeros(0) == [];
      SendNothing(l.bus);
    }
  }

  /**
   * The receive step never overfills the FIFO, and it stops only on a full
   * FIFO or once `frames` words have been received.
   */
  lemma FillStops(l: Link, frames: nat)
    requires |l.rx| <= Capacity
    ensures |Fill(l, frames).rx| <= Capacity
    ensures |Fill(l, frames).rx| == Capacity || Fill(l, frames).rxCount >= frames
  {
    FillShape(l, frames);
  }

  /** After the receive step the RX FIFO holds a word unless it was empty
    * and all `frames` words had already been received; its oldest word is
    * the one that was oldest before, or else the next answer on the bus. */
  lemma FillFront(l: Link, frames: nat)
    requires |l.rx| <= Capacity && (l.rx != [] || l.rxCount < frames)
    ensures Fill(l, frames).rx != []
    ensures Fill(l, frames).rx[0] == if l.rx != [] then l.rx[0] else Answer(l.bus)
  {
    FillShape(l, frames);
    if l.rx == [] {
      assert Room(l, frames) > 0;
    }
  }

  /** The words sent on `b` begin with `pre`. */
  predicate Starts(b: Bus, pre: seq<bv32>)
  {
    |pre| <= |b.sent| && b.sent[..|pre|] == pre
  }

  /** Sending more keeps what was sent first. */
  lemma StartsAfter(b: Bus, pre: seq<bv32>, ws: seq<bv32>)
    requires Starts(b, pre)
    ensures Starts(SendAll(b, ws), pre)
  {
    assert (b.sent + ws)[..|pre|] == b.sent[..|pre|];
  }

  /** The transmit step empties the TX FIFO and, without echo, leaves the
    * receive side alone; with echo it keeps the RX FIFO within its
    * capacity exactly when both queues fit together. */
  lemma FlushBound(l: Link, echo: bool)
    ensures |Flush(l, echo).rx| == |l.rx| + (if echo then |l.tx| else 0)
    ensures echo ==> (|Flush(l, echo).rx| <= Capacity <==> |l.rx| + |l.tx| <= Capacity)
    ensures !echo ==> Flush(l, echo).rx == l.rx && Flush(l, echo).rxCount == l.rxCount
  {
    FlushShape(l, echo);
  }

  // SPI_CTRLR0 fields.
  function TransType(spi: bv32): bv32 { spi & 3 }
  function AddrL(spi: bv32): nat { ((spi >> 2) & 0xF) as nat }
  function InstL(spi: bv32): nat { ((spi >> 8) & 3) as nat }
  function WaitCycles(spi: bv32): nat { ((spi >> 11) & 0x1F) as nat }

  /** Words of address: ceil(addr_l * 4 / 32), at most 2. */
  function AddrWords(spi: bv32): (n: nat)
    ensures n <= 2
    ensures n * 32 >= AddrL(spi) * 4 && (n == 0 || (n - 1) * 32 < AddrL(spi) * 4)
  {
    (AddrL(spi) * 4 + 31) / 32
  }

  /** One instruction word when the instruction length is not zero. */
  function InstWords(spi: bv32): nat
  {
    if InstL(spi) != 0 then 1 else 0
  }

  /** The TX level the instruction and address phase waits for. */
  function Needed(spi: bv32): nat
  {
    AddrWords(spi) + InstWords(spi)
  }

  /** Bytes of a single-word address: ceil(addr_l * 4 / 8). */
  function AddrByteCount(spi: bv32): (n: nat)
    ensures n * 8 >= AddrL(spi) * 4 && (n == 0 || (n - 1) * 8 < AddrL(spi) * 4)
    ensures AddrWords(spi) <= 1 ==> n <= 4
  {
    (AddrL(spi) * 4 + 7) / 8
  }

  /** Bytes of an instruction: two for a 16-bit instruction, else one. */
  function InstByteCount(spi: bv32): nat
  {
    if InstL(spi) != 3 then 1 else 2
  }

  /** Byte `i` of a word, counting from the least significant. */
  function ByteOf(w: bv32, i: nat): (b: bv32)
    requires i < 4
    ensures b < 0x100
  {
    if i == 0 then w & 0xFF
    else if i == 1 then (w >> 8) & 0xFF
    else if i == 2 then (w >> 16) & 0xFF
    else (w >> 24) & 0xFF
  }

  /** An instruction is sent least significant byte first. */
  function InstBytes(w: bv32, n: nat): (r: seq<bv32>)
    requires n <= 4
    ensures |r| == n && forall i | 0 <= i < n :: r[i] == ByteOf(w, i)
  {
    seq(n, i requires 0 <= i < n => ByteOf(w, i))
  }

  /** An address is sent most significant byte first. */
  function AddrBytes(w: bv32, n: nat): (r: seq<bv32>)
    requires n <= 4
    ensures |r| == n && forall k | 0 <= k < n :: r[k] == ByteOf(w, n - 1 - k)
  {
    seq(n, k requires 0 <= k < n => ByteOf(w, n - 1 - k))
  }

  /** The low `n` bytes of a word. */
  function Low(w: bv32, n: nat): bv32
    requires n <= 4
  {
    if n == 0 then 0
    else if n == 1 then w & 0xFF
    else if n == 2 then w & 0xFFFF
    else if n == 3 then w & 0xFF_FFFF
    else w
  }

  /** Reassembles bytes received least significant first. */
  function LsbFirst(bs: seq<bv32>): bv32
  {
    if bs == [] then 0 else (bs[0] & 0xFF) | (LsbFirst(bs[1..]) << 8)
  }

  /** Reassembles bytes received most significant first. */
  function MsbFirst(bs: seq<bv32>): bv32
  {
    if bs == [] then 0 else (MsbFirst(bs[..|bs| - 1]) << 8) | (bs[|bs| - 1] & 0xFF)
  }

  /** A receiver that reassembles the instruction bytes gets back the
    * instruction's low bytes. */
  lemma InstRoundTrip(w: bv32, n: nat)
    requires n <= 4
    ensures LsbFirst(InstBytes(w, n)) == Low(w, n)
  {
    hide *;
    if n == 0 {
      assert InstBytes(w, 0) == [];
      Join0(w);
    } else if n == 1 {
      Inst1(w);
    } else if n == 2 {
      Inst2(w);
    } else if n == 3 {
      Inst3(w);
    } else {
      Inst4(w);
    }
  }

  /** A receiver that reassembles the address bytes gets back the
    * address's low bytes. */
  lemma AddrRoundTrip(w: bv32, n: nat)
    requires n <= 4
    ensures MsbFirst(AddrBytes(w, n)) == Low(w, n)
  {
    hide *;
    if n == 0 {
      assert AddrBytes(w, 0) == [];
      Join0(w);
    } else if n == 1 {
      Addr1(w);
    } else if n == 2 {
      Addr2(w);
    } else if n == 3 {
      Addr3(w);
    } else {
      Addr4(w);
    }
  }

  lemma Inst1(w: bv32)
    ensures LsbFirst(InstBytes(w, 1)) == Low(w, 1)
  {
    assert InstBytes(w, 1) == [ByteOf(w, 0)];
    Lsb1(ByteOf(w, 0));
    Join1(w);
  }

  lemma Inst2(w: bv32)
    ensures LsbFirst(InstBytes(w, 2)) == Low(w, 2)
  {
    assert InstBytes(w, 2) == [ByteOf(w, 0), ByteOf(w, 1)];
    Lsb2(ByteOf(w, 0), ByteOf(w, 1));
    Join2(w);
  }

  lemma Inst3(w: bv32)
    ensures LsbFirst(InstBytes(w, 3)) == Low(w, 3)
  {
    assert InstBytes(w, 3) == [ByteOf(w, 0), ByteOf(w, 1), ByteOf(w, 2)];
    Lsb3(ByteOf(w, 0), ByteOf(w, 1), ByteOf(w, 2));
    Join3(w);
  }

  lemma Inst4(w: bv32)
    ensures LsbFirst(InstBytes(w, 4)) == Low(w, 4)
  {
    assert InstBytes(w, 4) == [ByteOf(w, 0), ByteOf(w, 1), ByteOf(w, 2), ByteOf(w, 3)];
    Lsb4(ByteOf(w, 0), ByteOf(w, 1), ByteOf(w, 2), ByteOf(w, 3));
    Join4(w);
  }

  lemma Addr1(w: bv32)
    ensures MsbFirst(AddrBytes(w, 1)) == Low(w, 1)
  {
    assert AddrBytes(w, 1) == [ByteOf(w, 0)];
    Msb1(ByteOf(w, 0));
    Join1(w);
  }

  lemma Addr2(w: bv32)
    ensures MsbFirst(AddrBytes(w, 2)) == Low(w, 2)
  {
    assert AddrBytes(w, 2) == [ByteOf(w, 1), ByteOf(w, 0)];
    Msb2(ByteOf(w, 1), ByteOf(w, 0));
    Join2(w);
  }

  lemma Addr3(w: bv32)
    ensures MsbFirst(AddrBytes(w, 3)) == Low(w, 3)
  {
    assert AddrBytes(w, 3) == [ByteOf(w, 2), ByteOf(w, 1), ByteOf(w, 0)];
    Msb3(ByteOf(w, 2), ByteOf(w, 1), ByteOf(w, 0));
    Join3(w);
  }

  lemma Addr4(w: bv32)
    ensures MsbFirst(AddrBytes(w, 4)) == Low(w, 4)
  {
    assert AddrBytes(w, 4) == [ByteOf(w, 3), ByteOf(w, 2), ByteOf(w, 1), ByteOf(w, 0)];
    Msb4(ByteOf(w, 3), ByteOf(w, 2), ByteOf(w, 1), ByteOf(w, 0));
    Join4(w);
  }

  // The byte-level steps of the two round trips, one length at a time.

  lemma Join0(w: bv32)
    ensures LsbFirst([]) == MsbFirst([]) == Low(w, 0) == 0
  {
  }

  lemma Join1(w: bv32)
    ensures ByteOf(w, 0) & 0xFF == Low(w, 1)
  {
  }

  lemma Join2(w: bv32)
    ensures (ByteOf(w, 0) & 0xFF) | ((ByteOf(w, 1) & 0xFF) << 8) == Low(w, 2)
  {
  }

  lemma Join3(w: bv32)
    ensures (ByteOf(w, 0) & 0xFF) | ((ByteOf(w, 1) & 0xFF) << 8) | ((ByteOf(w, 2) & 0xFF) << 16)
         == Low(w, 3)
  {
  }

  lemma Join4(w: bv32)
    ensures (ByteOf(w, 0) & 0xFF) | ((ByteOf(w, 1) & 0xFF) << 8) | ((ByteOf(w, 2) & 0xFF) << 16)
            | ((ByteOf(w, 3) & 0xFF) << 24) == Low(w, 4)
  {
  }

  lemma Lsb1(a: bv32)
    ensures LsbFirst([a]) == a & 0xFF
  {
    assert [a][1..] == [];
  }

  lemma Lsb2(a: bv32, b: bv32)
    ensures LsbFirst([a, b]) == (a & 0xFF) | ((b & 0xFF) << 8)
  {
    assert [a, b][1..] == [b];
    Lsb1(b);
  }

  lemma Lsb3(a: bv32, b: bv32, c: bv32)
    ensures LsbFirst([a, b, c]) == (a & 0xFF) | ((b & 0xFF) << 8) | ((c & 0xFF) << 16)
  {
    assert [a, b, c][1..] == [b, c];
    Lsb2(b, c);
  }

  lemma Lsb4(a: bv32, b: bv32, c: bv32, d: bv32)
    ensures LsbFirst([a, b, c, d])
         == (a & 0xFF) | ((b & 0xFF) << 8) | ((c & 0xFF) << 16) | ((d & 0xFF) << 24)
  {
    assert [a, b, c, d][1..] == [b, c, d];
    Lsb3(b, c, d);
  }

  lemma Msb1(a: bv32)
    ensures MsbFirst([a]) == a & 0xFF
  {
    assert [a][..0] == [];
  }

  lemma Msb2(b: bv32, a: bv32)
    ensures MsbFirst([b, a]) == (a & 0xFF) | ((b & 0xFF) << 8)
  {
    assert [b, a][..1] == [b];
    Msb1(b);
  }

  lemma Msb3(c: bv32, b: bv32, a: bv32)
    ensures MsbFirst([c, b, a]) == (a & 0xFF) | ((b & 0xFF) << 8) | ((c & 0xFF) << 16)
  {
    assert [c, b, a][..2] == [c, b];
    Msb2(c, b);
  }

  lemma Msb4(d: bv32, c: bv32, b: bv32, a: bv32)
    ensures MsbFirst([d, c, b, a])
         == (a & 0xFF) | ((b & 0xFF) << 8) | ((c & 0xFF) << 16) | ((d & 0xFF) << 24)
  {
    assert [d, c, b, a][..3] == [d, c, b];
    Msb3(d, c, b);
  }

  /**
   * The TX words the instruction and address phase pops as written: in
   * standard framing the single-word address path pops a word even when
   * the address length is zero.
   */
  function ConsumedAsWritten(spi: bv32): (n: nat)
    ensures n == Consumed(spi) + (if TransType(spi) == 0 && AddrWords(spi) == 0 then 1 else 0)
  {
    if TransType(spi) == 0 then InstWords(spi) + (if AddrWords(spi) > 1 then AddrWords(spi) else 1)
    else if TransType(spi) == 1 then InstWords(spi) + AddrWords(spi)
    else if TransType(spi) == 2 then 2
    else 0
  }

  /**
   * With a zero address length in standard framing (an instruction-only
   * command such as a write enable), the phase waits for one word but pops
   * two: with only the instruction queued the second pop finds the FIFO
   * empty, and otherwise the next data word is consumed while none of its
   * bytes is sent.
   */
  lemma AddressWordDropped()
    ensures var spi: bv32 := 0x100;
            TransType(spi) == 0 && AddrL(spi) == 0 && InstL(spi) == 1 &&
            Needed(spi) == 1 && ConsumedAsWritten(spi) == 2 && AddrByteCount(spi) == 0
  {
  }

  /**
   * The TX words the instruction and address phase pops, the address word
   * of standard framing only when there is an address.  For the standard
   * and mixed framings this is exactly the level the phase waits for, so
   * the phase never pops from an empty FIFO.
   */
  function Consumed(spi: bv32): (n: nat)
    ensures TransType(spi) <= 1 ==> n == Needed(spi)
    ensures TransType(spi) == 3 ==> n == 0
  {
    if TransType(spi) == 0 || TransType(spi) == 1 then InstWords(spi) + AddrWords(spi)
    else if TransType(spi) == 2 then 2
    else 0
  }

  /** The instruction bytes, sent when there is an instruction word. */
  function InstPart(spi: bv32, tx: seq<bv32>): seq<bv32>
    requires InstWords(spi) <= |tx|
  {
    if InstWords(spi) == 1 then InstBytes(tx[0], InstByteCount(spi)) else []
  }

  /** What the instruction and address phase puts on the bus, given the TX
    * FIFO's words oldest first. */
  function FrameWords(spi: bv32, tx: seq<bv32>): seq<bv32>
    requires Consumed(spi) <= |tx|
  {
    var i := InstWords(spi);
    if TransType(spi) == 0 then
      InstPart(spi, tx) +
      (if AddrWords(spi) == 1 then AddrBytes(tx[i], AddrByteCount(spi))
       else tx[i..i + AddrWords(spi)])
    else if TransType(spi) == 1 then
      InstPart(spi, tx) + tx[i..i + AddrWords(spi)]
    else if TransType(spi) == 2 then
      [((tx[0] & 0xFF) << 24) | (tx[1] & 0xFF_FFFF)]
    else []
  }

  /** The TX words the address of the standard and mixed framings pops,
    * as written. */
  function AddrPops(spi: bv32): nat
  {
    if TransType(spi) == 0 && AddrWords(spi) <= 1 then 1 else AddrWords(spi)
  }

  /** What the address of the standard and mixed framings puts on the bus,
    * given the TX words left after the instruction. */
  function AddrPart(spi: bv32, tx: seq<bv32>): seq<bv32>
    requires AddrPops(spi) <= |tx|
  {
    if TransType(spi) == 0 && AddrWords(spi) <= 1 then AddrBytes(tx[0], AddrByteCount(spi))
    else tx[..AddrWords(spi)]
  }

  /** In the standard and mixed framings the phase is the instruction part
    * followed by the address part, and pops the instruction word and the
    * address's words. */
  lemma FrameSplits(spi: bv32, tx: seq<bv32>)
    requires TransType(spi) <= 1 && ConsumedAsWritten(spi) <= |tx|
    ensures InstWords(spi) + AddrPops(spi) == ConsumedAsWritten(spi)
    ensures FrameWords(spi, tx) == InstPart(spi, tx) + AddrPart(spi, tx[InstWords(spi)..])
  {
    var i := InstWords(spi);
    if TransType(spi) == 0 && AddrWords(spi) == 0 {
      assert AddrByteCount(spi) == 0;
      assert AddrPart(spi, tx[i..]) == [] == tx[i..i];
    } else if TransType(spi) == 0 && AddrWords(spi) == 1 {
      assert tx[i..][0] == tx[i];
    } else {
      assert tx[i..][..AddrWords(spi)] == tx[i..i + AddrWords(spi)];
    }
  }

  /** The instruction and address phase on the link, as the controller
    * model runs it: the words of `ConsumedAsWritten` leave the TX FIFO. */
  function Framed(l: Link, spi: bv32): (r: Link)
    requires ConsumedAsWritten(spi) <= |l.tx|
    ensures r.tx == l.tx[ConsumedAsWritten(spi)..]
  {
    l.(tx := l.tx[ConsumedAsWritten(spi)..], bus := SendAll(l.bus, FrameWords(spi, l.tx)))
  }

  /** The phase as evidently intended: only the instruction and address
    * words leave the TX FIFO. */
  function FramedIntended(l: Link, spi: bv32): (r: Link)
    requires Consumed(spi) <= |l.tx|
    ensures r.tx == l.tx[Consumed(spi)..]
  {
    l.(tx := l.tx[Consumed(spi)..], bus := SendAll(l.bus, FrameWords(spi, l.tx)))
  }

  /**
   * Intended, the phase in standard or mixed framing never pops from an
   * empty FIFO once the level it waits for is reached, and the data words
   * behind the instruction and address stay queued in order.
   */
  lemma IntendedKeepsData(l: Link, spi: bv32)
    requires TransType(spi) <= 1 && Needed(spi) <= |l.tx|
    ensures Consumed(spi) <= |l.tx|
    ensures FramedIntended(l, spi).tx == l.tx[Needed(spi)..]
    ensures FramedIntended(l, spi).bus == SendAll(l.bus, FrameWords(spi, l.tx))
  {
  }

  /**
   * As written, a standard-framing command without an address puts the
   * same bytes on the bus but drops one more TX word, the first data word,
   * of which nothing is sent; with any address length both agree.
   */
  lemma AsWrittenDropsDataWord(l: Link, spi: bv32)
    requires ConsumedAsWritten(spi) <= |l.tx|
    ensures Framed(l, spi).bus == FramedIntended(l, spi).bus
    ensures TransType(spi) == 0 && AddrWords(spi) == 0 ==>
      AddrByteCount(spi) == 0 && Framed(l, spi).tx == FramedIntended(l, spi).tx[1..]
      && FramedIntended(l, spi).tx[0] == l.tx[InstWords(spi)]
    ensures !(TransType(spi) == 0 && AddrWords(spi) == 0) ==> Framed(l, spi) == FramedIntended(l, spi)
  {
  }

  /**
   * In standard framing with a single-word address, the bytes that follow
   * the instruction reassemble, most significant first, to the address
   * word's low ceil(addr_l * 4 / 8) bytes; the instruction's bytes,
   * least significant first, to its low one or two bytes.
   */
  lemma StandardFrame(spi: bv32, tx: seq<bv32>)
    requires TransType(spi) == 0 && AddrWords(spi) == 1 && Consumed(spi) <= |tx|
    ensures var f := FrameWords(spi, tx);
            var k := |InstPart(spi, tx)|;
            k <= |f| &&
            MsbFirst(f[k..]) == Low(tx[InstWords(spi)], AddrByteCount(spi)) &&
            (InstWords(spi) == 1 ==> LsbFirst(f[..k]) == Low(tx[0], InstByteCount(spi)))
  {
    var f := FrameWords(spi, tx);
    var k := |InstPart(spi, tx)|;
    var i := InstWords(spi);
    assert f[k..] == AddrBytes(tx[i], AddrByteCount(spi));
    AddrRoundTrip(tx[i], AddrByteCount(spi));
    if i == 1 {
      assert f[..k] == InstBytes(tx[0], InstByteCount(spi));
      InstRoundTrip(tx[0], InstByteCount(spi));
    }
  }

  /** In the other framings the address words go out unchanged, in FIFO
    * order, after the instruction bytes. */
  lemma WordFrame(spi: bv32, tx: seq<bv32>)
    requires (TransType(spi) == 1 || AddrWords(spi) != 1) && TransType(spi) <= 1
    requires Consumed(spi) <= |tx|
    ensures var f := FrameWords(spi, tx);
            var k := |InstPart(spi, tx)|;
            k <= |f| && f[k..] == tx[InstWords(spi)..Consumed(spi)]
  {
  }
}
