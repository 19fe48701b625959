/**
 * The Ethernet MAC's DMA descriptors in guest memory: their bit layout, the
 * write-back that hands a descriptor back to the driver and moves the
 * current-descriptor address, and the transmit walk over the ring that a
 * transmit poll demand starts (`dwc_emac_send`), as a specification.
 */
module EmacRing {
  import opened GuestMemory

  /** One 16-byte descriptor as four little-endian words. */
  datatype Desc = Desc(w0: bv32, w1: bv32, w2: bv32, w3: bv32)

  const DescBytes: nat := 16

  /** The transmit frame buffer holds fewer than this many bytes. */
  const FrameMax: nat := 8192

  // Word 0, both directions.
  const OwnBit: bv32 := 0x8000_0000
  // Word 0, receive.
  const RxLastBit: bv32 := 0x0000_0100
  const RxFirstBit: bv32 := 0x0000_0200
  const FrameLengthMask: bv32 := 0x3FFF_0000
  // Word 1, transmit.
  const TxFirstBit: bv32 := 0x2000_0000
  const TxLastBit: bv32 := 0x4000_0000
  // Word 1, both directions: `ter` for transmit, `per` for receive.
  const EndOfRingBit: bv32 := 0x0200_0000

  /** `x` with the bits of `m` set. */
  function Raised(x: bv32, m: bv32): bv32
  {
    x | m
  }

  /** `x` with the bits of `m` cleared. */
  function Cleared(x: bv32, m: bv32): bv32
  {
    x & !m
  }

  /** A 32-bit bus address as a guest memory address. */
  function Addr(w: bv32): int
  {
    w as int
  }

  /** The descriptor at `addr`, unbacked bytes reading as zero. */
  function DescAt(m: Memory, addr: bv32): (d: Desc)
  {
    DescFrom(m, Addr(addr))
  }

  function DescFrom(m: Memory, a: int): (d: Desc)
  {
    Desc(WordAt(m, a), WordAt(m, a + 4), WordAt(m, a + 8), WordAt(m, a + 12))
  }

  /** The bytes of a descriptor as it is written back. */
  function Encoded(d: Desc): (b: seq<bv8>)
    ensures |b| == DescBytes
  {
    LeBytes(d.w0) + LeBytes(d.w1) + LeBytes(d.w2) + LeBytes(d.w3)
  }

  /** A descriptor written back into backed memory reads back unchanged. */
  lemma DescRoundTrip(m: Memory, addr: bv32, d: Desc)
    requires Mapped(m, Addr(addr), DescBytes)
    ensures DescAt(Put(m, Addr(addr), Encoded(d)), addr) == d
  {
    hide LeWord, LeBytes, Put, WordAt, ByteAt, Encoded, Mapped, DescFrom;
    var a := Addr(addr);
    WordBack(m, a, d, 0, d.w0);
    WordBack(m, a, d, 1, d.w1);
    WordBack(m, a, d, 2, d.w2);
    WordBack(m, a, d, 3, d.w3);
    DescOfWords(Put(m, a, Encoded(d)), a, d);
  }

  /** Word `k` of a written-back descriptor reads back unchanged. */
  lemma WordBack(m: Memory, a: int, d: Desc, k: nat, w: bv32)
    requires Mapped(m, a, DescBytes) && k < 4 && w == [d.w0, d.w1, d.w2, d.w3][k]
    ensures WordAt(Put(m, a, Encoded(d)), a + 4 * k) == w
  {
    hide LeWord, LeBytes, Put, WordAt, ByteAt, Encoded;
    var e := Encoded(d);
    assert e[4 * k..4 * k + 4] == LeBytes(w) by {
      EncodedWords(d);
      if k == 0 {
      } else if k == 1 {
      } else if k == 2 {
      } else {
      }
    }
    PutThenWord(m, a, e, k, w, a + 4 * k);
  }

  /** The encoding puts the four words one after another. */
  lemma EncodedWords(d: Desc)
    ensures var e := Encoded(d);
      e[0..4] == LeBytes(d.w0) && e[4..8] == LeBytes(d.w1) && e[8..12] == LeBytes(d.w2) && e[12..16] == LeBytes(d.w3)
  {
    hide LeBytes;
    var e := Encoded(d);
    assert e[0..4] == LeBytes(d.w0);
    assert e[4..8] == LeBytes(d.w1);
    assert e[8..12] == LeBytes(d.w2);
    assert e[12..16] == LeBytes(d.w3);
  }

  lemma DescOfWords(m: Memory, a: int, d: Desc)
    requires WordAt(m, a) == d.w0 && WordAt(m, a + 4) == d.w1 && WordAt(m, a + 8) == d.w2 && WordAt(m, a + 12) == d.w3
    ensures DescFrom(m, a) == d
  {
    hide WordAt;
  }

  /** The controller, not the driver, owns the descriptor. */
  predicate Owned(d: Desc)
  {
    d.w0 & OwnBit != 0
  }

  /** Transmit buffer 1 size (`tbs1`, 11 bits). */
  function Size1(d: Desc): (n: nat)
    ensures n < 2048
  {
    (d.w1 & 0x7FF) as nat
  }

  /** Transmit buffer 2 size (`tbs2`, 11 bits). */
  function Size2(d: Desc): (n: nat)
    ensures n < 2048
  {
    ((d.w1 >> 11) & 0x7FF) as nat
  }

  /** The descriptor holds the last segment of a transmit frame (`ls`). */
  predicate TxLast(d: Desc)
  {
    d.w1 & TxLastBit != 0
  }

  /** The descriptor closes the ring (`ter` / `per`). */
  predicate EndOfRing(d: Desc)
  {
    d.w1 & EndOfRingBit != 0
  }

  /** Buffer 1 address (`b1ap`). */
  function Buffer1(d: Desc): bv32
  {
    d.w2
  }

  /** The received frame length field (`fl`, 14 bits). */
  function FrameLength(d: Desc): (n: bv32)
    ensures n < 0x4000
  {
    (d.w0 >> 16) & 0x3FFF
  }

  /** Word 0 of a filled receive descriptor: OWN cleared, first and last
    * segment set, the low 14 bits of `n` in the length field. */
  function FilledWord(w: bv32, n: bv32): (r: bv32)
    ensures r & OwnBit == 0
    ensures r & RxFirstBit != 0 && r & RxLastBit != 0
    ensures (r >> 16) & 0x3FFF == n & 0x3FFF
  {
    FilledWordFields(w, n);
    (((w & !FrameLengthMask) | ((n & 0x3FFF) << 16)) & !OwnBit) | RxLastBit | RxFirstBit
  }

  lemma FilledWordFields(w: bv32, n: bv32)
    ensures var r := (((w & !FrameLengthMask) | ((n & 0x3FFF) << 16)) & !OwnBit) | RxLastBit | RxFirstBit;
      r & OwnBit == 0 && r & RxFirstBit != 0 && r & RxLastBit != 0 && (r >> 16) & 0x3FFF == n & 0x3FFF
  {
  }

  /** A transmit descriptor handed back: only OWN is cleared. */
  function Released(d: Desc): (r: Desc)
    ensures !Owned(r)
    ensures r.w0 & !OwnBit == d.w0 & !OwnBit
    ensures r.w1 == d.w1 && r.w2 == d.w2 && r.w3 == d.w3
  {
    d.(w0 := d.w0 & !OwnBit)
  }

  /** Handing a descriptor back keeps its place in the ring. */
  lemma ReleasedKeepsEnd(d: Desc)
    ensures EndOfRing(Released(d)) == EndOfRing(d)
  {
  }

  /** A receive descriptor handed back holding a whole frame of `size`
    * bytes (a 64-bit byte count): OWN cleared, first and last segment set,
    * the length stored truncated to its 14 bits, every other bit kept. */
  function Filled(d: Desc, size: bv64): (r: Desc)
    ensures !Owned(r)
    ensures r.w0 & RxFirstBit != 0 && r.w0 & RxLastBit != 0
    ensures FrameLength(r) == (size & 0x3FFF) as bv32
    ensures r.w1 == d.w1 && r.w2 == d.w2 && r.w3 == d.w3
  {
    d.(w0 := FilledWord(d.w0, (size & 0x3FFF) as bv32))
  }

  /** Filling a descriptor keeps its place in the ring. */
  lemma FilledKeepsEnd(d: Desc, size: bv64)
    ensures EndOfRing(Filled(d, size)) == EndOfRing(d)
  {
  }

  /** `dwc_emac_write_desc`'s descriptor address update: back to the ring base after a
    * descriptor that closes the ring, otherwise past the descriptor and the
    * programmed gap, wrapping at 32 bits. */
  function NextDesc(cur: bv32, base: bv32, end: bool, skip: bv32): (r: bv32)
    ensures end ==> r == base
    ensures !end ==> r == cur + DescBytes as bv32 + skip
  {
    if end then base else cur + DescBytes as bv32 + skip
  }

  /** The words of the descriptor gap a BUS_MODE word programs, as the
    * model computes it: descriptor skip length (bits 2-6) times the burst
    * length (bits 8-13), divided by eight. */
  function DescSkip(v: bv32): (r: bv32)
    ensures r <= 244
  {
    ((v >> 2) & 0x1F) * ((v >> 8) & 0x3F) / 8
  }

  // Transmit.

  /** What the transmit walk works on: the current transmit descriptor,
    * DMA_STATUS, guest memory, the frame assembled so far and the packets
    * handed to the network. */
  datatype Tx = Tx(cur: bv32, status: bv32, mem: Memory, frame: seq<bv8>, sent: seq<seq<bv8>>)

  /** DMA_STATUS bits a completed transmit frame raises (TI | NIS). */
  const TxDone: bv32 := 0x0001_0001

  /** The walk takes the current descriptor: the controller owns it, it
    * uses buffer 1 only, and its segment fits behind the frame so far. */
  predicate Serves(t: Tx)
  {
    var d := DescAt(t.mem, t.cur);
    Owned(d) && Size2(d) == 0 && |t.frame| + Size1(d) + Size2(d) < FrameMax
  }

  /** The bytes of the current descriptor's segment. */
  function Segment(t: Tx): (b: seq<bv8>)
    ensures |b| == Size1(DescAt(t.mem, t.cur))
  {
    var d := DescAt(t.mem, t.cur);
    Load(t.mem, Addr(Buffer1(d)), Size1(d))
  }

  /** A descriptor the walk takes has no buffer 2, so its segment is the
    * `size1 + size2` bytes the controller reads. */
  lemma SegmentIs(t: Tx)
    requires Serves(t)
    ensures var d := DescAt(t.mem, t.cur);
      Segment(t) == Load(t.mem, Addr(Buffer1(d)), Size1(d) + Size2(d))
  {
  }

  /** All the packets' bytes, in the order sent. */
  function Flatten(ps: seq<seq<bv8>>): (b: seq<bv8>)
  {
    if ps == [] then [] else Flatten(ps[..|ps| - 1]) + ps[|ps| - 1]
  }

  lemma FlattenSnoc(ps: seq<seq<bv8>>, p: seq<bv8>)
    ensures Flatten(ps + [p]) == Flatten(ps) + p
  {
    assert (ps + [p])[..|ps|] == ps;
  }

  /** Which packet a closing segment hands to the network: `AsWritten`
    * is what `dwc_emac_send` passes (the first `len` bytes of the frame,
    * `len` being the last segment's size), `WholeFrame` the whole
    * assembled frame it evidently means to send. */
  datatype Sending = AsWritten | WholeFrame

  /** The packet sent when `segment` closes the frame assembled so far. */
  function Packet(frame: seq<bv8>, segment: seq<bv8>, mode: Sending): (p: seq<bv8>)
    ensures mode == WholeFrame ==> p == frame + segment
    ensures mode == AsWritten ==> p == SentAsWritten(frame, segment)
  {
    if mode == WholeFrame then frame + segment else SentAsWritten(frame, segment)
  }

  /** One pass of the transmit loop on a descriptor it takes: the segment
    * is appended to the frame; on the last segment a packet is sent and
    * TI | NIS raised; the descriptor is handed back and the descriptor address moves
    * on. */
  function TxStep(t: Tx, base: bv32, skip: bv32, mode: Sending): (u: Tx)
    requires Serves(t)
    ensures |u.frame| < FrameMax
    ensures TxLast(DescAt(t.mem, t.cur)) ==>
      u.frame == [] && u.sent == t.sent + [Packet(t.frame, Segment(t), mode)]
    ensures !TxLast(DescAt(t.mem, t.cur)) ==> u.frame == t.frame + Segment(t) && u.sent == t.sent
  {
    var d := DescAt(t.mem, t.cur);
    var frame := t.frame + Segment(t);
    var mem := Put(t.mem, Addr(t.cur), Encoded(Released(d)));
    var cur := NextDesc(t.cur, base, EndOfRing(d), skip);
    if TxLast(d) then
      Tx(cur, Raised(t.status, TxDone), mem, [], t.sent + [Packet(t.frame, Segment(t), mode)])
    else
      Tx(cur, t.status, mem, frame, t.sent)
  }

  /** `TxStep` field by field. */
  lemma TxStepIs(t: Tx, base: bv32, skip: bv32, mode: Sending)
    requires Serves(t)
    ensures var d := DescAt(t.mem, t.cur);
      var u := TxStep(t, base, skip, mode);
      u.cur == NextDesc(t.cur, base, EndOfRing(d), skip)
      && u.status == (if TxLast(d) then Raised(t.status, TxDone) else t.status)
      && u.mem == Put(t.mem, Addr(t.cur), Encoded(Released(d)))
      && u.frame == (if TxLast(d) then [] else t.frame + Segment(t))
      && u.sent == (if TxLast(d) then t.sent + [Packet(t.frame, Segment(t), mode)] else t.sent)
  {
    hide Serves, DescAt, Segment, Put, Encoded, Released, NextDesc, EndOfRing, TxLast, Packet;
  }

  /** A pass loses and reorders no byte: the bytes sent plus the bytes
    * pending grow by exactly the segment. */
  lemma StepLosesNothing(t: Tx, base: bv32, skip: bv32)
    requires Serves(t)
    ensures var u := TxStep(t, base, skip, WholeFrame);
      Flatten(u.sent) + u.frame == Flatten(t.sent) + t.frame + Segment(t)
  {
    hide TxStep, Serves, DescAt, Segment, TxLast;
    var u := TxStep(t, base, skip, WholeFrame);
    var frame := t.frame + Segment(t);
    if TxLast(DescAt(t.mem, t.cur)) {
      FlattenSnoc(t.sent, frame);
      assert u.frame == [];
      assert Flatten(u.sent) + u.frame == Flatten(t.sent) + frame;
    } else {
      assert Flatten(u.sent) + u.frame == Flatten(t.sent) + frame;
    }
  }

  /** A pass raises TI | NIS exactly when it closes a frame, and changes no
    * other DMA_STATUS bit. */
  lemma StepStatus(t: Tx, base: bv32, skip: bv32, mode: Sending)
    requires Serves(t)
    ensures var u := TxStep(t, base, skip, mode);
      u.status == if TxLast(DescAt(t.mem, t.cur)) then Raised(t.status, TxDone) else t.status
  {
    hide Serves, DescAt, Segment, Put, Encoded, Released, NextDesc, EndOfRing, TxLast, Packet;
  }

  /** `dwc_emac_send`'s loop, for at most `fuel` descriptors: it stops at
    * the first descriptor it does not take. */
  function Walk(t: Tx, base: bv32, skip: bv32, mode: Sending, fuel: nat): (u: Tx)
    decreases fuel
  {
    if fuel == 0 || !Serves(t) then t else Walk(TxStep(t, base, skip, mode), base, skip, mode, fuel - 1)
  }

  /** A walk only ever adds packets: those sent before stay in front. */
  lemma {:induction false} WalkAppends(t: Tx, base: bv32, skip: bv32, mode: Sending, fuel: nat)
    ensures var u := Walk(t, base, skip, mode, fuel); |t.sent| <= |u.sent| && u.sent[..|t.sent|] == t.sent
    decreases fuel
  {
    hide TxStep, Serves, DescAt, Segment, Flatten, TxLast;
    if fuel > 0 && Serves(t) {
      var v := TxStep(t, base, skip, mode);
      WalkAppends(v, base, skip, mode, fuel - 1);
      var u := Walk(v, base, skip, mode, fuel - 1);
      assert u.sent[..|v.sent|][..|t.sent|] == u.sent[..|t.sent|];
    }
  }

  /** A walk raises no DMA_STATUS bit but TI | NIS and clears none. */
  lemma {:induction false} WalkRaisesOnlyTxDone(t: Tx, base: bv32, skip: bv32, mode: Sending, fuel: nat)
    ensures RaisesOnlyTxDone(t.status, Walk(t, base, skip, mode, fuel).status)
    decreases fuel
  {
    hide TxStep, Serves, DescAt, Segment, Flatten, TxLast, RaisesOnlyTxDone;
    if fuel > 0 && Serves(t) {
      var v := TxStep(t, base, skip, mode);
      WalkRaisesOnlyTxDone(v, base, skip, mode, fuel - 1);
      StepRaisesOnlyTxDone(t, base, skip, mode);
      WalkTakes(t, base, skip, mode, fuel);
      RaisedTwice(t.status, v.status, Walk(v, base, skip, mode, fuel - 1).status);
    } else {
      RaisedNothing(t.status);
    }
  }

  /** `y` is `x` with TI | NIS perhaps raised and no other bit changed. */
  predicate RaisesOnlyTxDone(x: bv32, y: bv32)
  {
    y == x || y == Raised(x, TxDone)
  }

  lemma RaisedNothing(x: bv32)
    ensures RaisesOnlyTxDone(x, x)
  {
  }

  lemma StepRaisesOnlyTxDone(t: Tx, base: bv32, skip: bv32, mode: Sending)
    requires Serves(t)
    ensures RaisesOnlyTxDone(t.status, TxStep(t, base, skip, mode).status)
  {
    StepStatus(t, base, skip, mode);
  }

  /** Raising TI | NIS twice raises it once. */
  lemma RaisedTwice(x: bv32, y: bv32, z: bv32)
    requires RaisesOnlyTxDone(x, y) && RaisesOnlyTxDone(y, z)
    ensures RaisesOnlyTxDone(x, z)
  {
    OrTwice(x, TxDone);
  }

  lemma OrTwice(x: bv32, b: bv32)
    ensures (x | b) | b == x | b
  {
  }

  /** Sending whole frames, a walk sends every byte it fetches, in order: what was sent before
    * plus the frame it started from is a prefix of what it has sent plus
    * the frame it leaves pending. */
  lemma {:induction false} WalkLosesNothing(t: Tx, base: bv32, skip: bv32, fuel: nat)
    ensures var u := Walk(t, base, skip, WholeFrame, fuel); Flatten(t.sent) + t.frame <= Flatten(u.sent) + u.frame
    decreases fuel
  {
    hide TxStep, Serves, DescAt, Segment, Flatten, TxLast;
    if fuel > 0 && Serves(t) {
      var v := TxStep(t, base, skip, WholeFrame);
      WalkLosesNothing(v, base, skip, fuel - 1);
      StepLosesNothing(t, base, skip);
      assert Flatten(t.sent) + t.frame <= Flatten(v.sent) + v.frame;
    }
  }

  /** A descriptor the walk takes is written back with OWN cleared, so the
    * driver sees it returned. */
  lemma StepReleases(t: Tx, base: bv32, skip: bv32, mode: Sending)
    requires Serves(t) && Mapped(t.mem, Addr(t.cur), DescBytes)
    ensures var u := TxStep(t, base, skip, mode);
      DescAt(u.mem, t.cur) == Released(DescAt(t.mem, t.cur)) && !Owned(DescAt(u.mem, t.cur))
  {
    DescRoundTrip(t.mem, t.cur, Released(DescAt(t.mem, t.cur)));
  }

  /** A walk with fuel left over a descriptor it takes is that step
    * followed by the rest of the walk. */
  lemma WalkTakes(t: Tx, base: bv32, skip: bv32, mode: Sending, fuel: nat)
    requires fuel > 0 && Serves(t)
    ensures Walk(t, base, skip, mode, fuel) == Walk(TxStep(t, base, skip, mode), base, skip, mode, fuel - 1)
  {
  }

  /** A walk with no budget left changes nothing. */
  lemma WalkSpent(t: Tx, base: bv32, skip: bv32, mode: Sending)
    ensures Walk(t, base, skip, mode, 0) == t
  {
  }

  /** The walk stops, changing nothing, at a descriptor the driver owns,
    * one that uses buffer 2, or one whose segment would overflow the
    * 8192-byte frame buffer. */
  lemma WalkStops(t: Tx, base: bv32, skip: bv32, mode: Sending, fuel: nat)
    requires var d := DescAt(t.mem, t.cur);
      !Owned(d) || Size2(d) != 0 || |t.frame| + Size1(d) >= FrameMax
    ensures Walk(t, base, skip, mode, fuel) == t
  {
  }

  /** The packet `qemu_send_packet(frame, len)` hands over as written: the
    * first `len` bytes of the assembled frame, where `len` is the size of
    * the last segment only. */
  function SentAsWritten(frame: seq<bv8>, segment: seq<bv8>): (p: seq<bv8>)
    ensures |p| == |segment|
    ensures p <= frame + segment
  {
    (frame + segment)[..|segment|]
  }

  /** A frame of a 100-byte and a 50-byte segment goes out as written as
    * only its first 50 bytes; the whole 150-byte frame was meant. */
  lemma SentAsWrittenTruncates(first: seq<bv8>, last: seq<bv8>)
    requires |first| == 100 && |last| == 50
    ensures |SentAsWritten(first, last)| == 50
    ensures SentAsWritten(first, last) == first[..50]
    ensures SentAsWritten(first, last) != first + last
  {
    assert (first + last)[..50] == first[..50];
  }

  /** Sending whole frames, every packet is exactly the concatenation of
    * its segments: a frame begun on an empty buffer and closed by a last
    * segment goes out whole. */
  lemma FrameSentWhole(t: Tx, base: bv32, skip: bv32)
    requires Serves(t) && TxLast(DescAt(t.mem, t.cur))
    ensures var u := TxStep(t, base, skip, WholeFrame);
      u.sent[|u.sent| - 1] == t.frame + Segment(t)
      && |u.sent[|u.sent| - 1]| == |t.frame| + Size1(DescAt(t.mem, t.cur))
  {
  }

  /** As written, a frame of more than one segment goes out cut to the
    * size of its last segment: the packet is the frame's first
    * `size1` bytes, and not the frame. */
  lemma StepTruncates(t: Tx, base: bv32, skip: bv32)
    requires Serves(t) && TxLast(DescAt(t.mem, t.cur)) && |t.frame| > 0
    ensures var u := TxStep(t, base, skip, AsWritten);
      var p := u.sent[|u.sent| - 1];
      |p| == Size1(DescAt(t.mem, t.cur))
      && p == (t.frame + Segment(t))[..Size1(DescAt(t.mem, t.cur))]
      && p != t.frame + Segment(t)
  {
  }

  /** A frame of one segment goes out the same either way: the two
    * readings of the send differ only on frames of several segments. */
  lemma SingleSegmentAgrees(t: Tx, base: bv32, skip: bv32)
    requires Serves(t) && t.frame == []
    ensures TxStep(t, base, skip, AsWritten) == TxStep(t, base, skip, WholeFrame)
  {
    hide Serves, DescAt, Segment, Put, Encoded, Released, NextDesc, EndOfRing, TxLast, Load, SentAsWritten;
    var seg := Segment(t);
    EmptyFrameSent(seg);
    assert Packet(t.frame, seg, AsWritten) == Packet(t.frame, seg, WholeFrame);
  }

  /** A segment closing an empty frame goes out whole even as written. */
  lemma EmptyFrameSent(seg: seq<bv8>)
    ensures SentAsWritten([], seg) == seg
  {
    assert [] + seg == seg;
  }
}
