/**
 * The data paths of the SD host as functions of their inputs: the FIFO
 * exchange with the card (`_dwc_sdhc_transfer`), the internal-DMA burst
 * loop (`_dwc_sdhc_idma_transfer`) and the descriptor walk
 * (`_dwc_sdhc_idma_process`).  The controller's methods are proved to
 * compute exactly these; the lemmas here say what they compute.
 *
 * The card is an oracle: `cardData` holds the bytes it has ready for the
 * host (it reports data ready while any remain, and reads past the end give
 * zero bytes), `cardSink` collects every byte the host sends it.
 */
module SdhcData {
  import opened SdhcLayout
  import GuestMemory

  /** BYTCNT is a 32-bit register. */
  const Word: nat := 0x1_0000_0000

  /** `n` bytes from the card stream, zero once it runs dry. */
  function Take(data: seq<bv8>, n: nat): (r: seq<bv8>)
    ensures |r| == n
  {
    if n <= |data| then data[..n] else data + Zeros(n - |data|)
  }

  /** What is taken is the stream's own bytes, then zeros. */
  lemma TakeElements(data: seq<bv8>, n: nat)
    ensures forall j :: 0 <= j < n && j < |data| ==> Take(data, n)[j] == data[j]
    ensures forall j :: |data| <= j < n ==> Take(data, n)[j] == 0
  {
  }

  /** `k` zero bytes. */
  function Zeros(k: nat): (r: seq<bv8>)
    ensures |r| == k && forall j :: 0 <= j < k ==> r[j] == 0
  {
    if k == 0 then [] else Zeros(k - 1) + [0]
  }

  /** The stream after `n` bytes were taken. */
  function Drop(data: seq<bv8>, n: nat): (r: seq<bv8>)
    ensures |r| == if n <= |data| then |data| - n else 0
  {
    if n <= |data| then data[n..] else []
  }

  /** Taking nothing leaves the stream as it was. */
  lemma DropNone(data: seq<bv8>)
    ensures Drop(data, 0) == data
  {
  }

  /** Dropping twice is dropping the sum. */
  lemma DropDrop(data: seq<bv8>, a: nat, b: nat)
    ensures Drop(Drop(data, a), b) == Drop(data, a + b)
  {
  }

  lemma TakeSplit(data: seq<bv8>, a: nat, b: nat)
    ensures Take(data, a + b) == Take(data, a) + Take(Drop(data, a), b)
  {
    var l := Take(data, a + b);
    var r := Take(data, a) + Take(Drop(data, a), b);
    TakeElements(data, a + b);
    TakeElements(data, a);
    TakeElements(Drop(data, a), b);
    forall j | 0 <= j < a + b ensures l[j] == r[j] {
      if j >= a {
        assert r[j] == Take(Drop(data, a), b)[j - a];
      }
    }
  }

  /** A 32-bit `bytcnt -= 4`: below four it wraps to the top. */
  function Less4(b: nat): (r: nat)
    requires b < Word
    ensures r < Word
    ensures r % 4 == b % 4
  {
    if b >= 4 then b - 4 else b + Word - 4
  }

  /** `n` successive `bytcnt -= 4`. */
  function LessWords(b: nat, n: nat): (r: nat)
    requires b < Word
    ensures r < Word
    decreases n
  {
    if n == 0 then b else LessWords(Less4(b), n - 1)
  }

  /** No `bytcnt -= 4` leaves the count alone. */
  lemma LessWordsNone(b: nat)
    requires b < Word
    ensures LessWords(b, 0) == b
  {
  }

  /** The first of `n` successive `bytcnt -= 4`. */
  lemma LessWordsOnce(b: nat, n: nat)
    requires b < Word && n > 0
    ensures LessWords(b, n) == LessWords(Less4(b), n - 1)
  {
  }

  /** The little-endian word a FIFO read of the card assembles. */
  function CardWord(data: seq<bv8>): bv32
  {
    var b := Take(data, 4);
    GuestMemory.LeWord(b[0], b[1], b[2], b[3])
  }

  /** The first `n` words the card stream yields. */
  function CardWords(data: seq<bv8>, n: nat): (r: seq<bv32>)
    ensures |r| == n
    decreases n
  {
    if n == 0 then [] else [CardWord(data)] + CardWords(Drop(data, 4), n - 1)
  }

  /** The FIFO, the byte count and the card, as the card exchange sees them. */
  datatype Port = Port(queue: seq<bv32>, bytcnt: nat, cardData: seq<bv8>, cardSink: seq<bv8>)
  {
    predicate Valid() { |queue| <= FifoDepth && bytcnt < Word }
  }

  /** Reading the card: words enter the FIFO while it has room, bytes remain
    * to be counted and the card has data ready. */
  function Fill(p: Port): (r: Port)
    requires p.Valid()
    ensures r.Valid()
    decreases FifoDepth - |p.queue|
  {
    if |p.queue| < FifoDepth && p.bytcnt > 0 && |p.cardData| > 0 then
      Fill(Port(p.queue + [CardWord(p.cardData)], Less4(p.bytcnt), Drop(p.cardData, 4), p.cardSink))
    else p
  }

  /** Writing the card: the oldest word leaves the FIFO, least significant
    * byte first, while words and counted bytes remain. */
  function Drain(p: Port): (r: Port)
    requires p.Valid()
    ensures r.Valid()
    decreases |p.queue|
  {
    if |p.queue| > 0 && p.bytcnt > 0 then
      Drain(Port(p.queue[1..], Less4(p.bytcnt), p.cardData, p.cardSink + GuestMemory.LeBytes(p.queue[0])))
    else p
  }

  /** `_dwc_sdhc_transfer` on the port: nothing unless data is expected;
    * CMD bit 10 picks the direction. */
  function Exchange(p: Port, cmd: bv32): (r: Port)
    requires p.Valid()
    ensures r.Valid()
  {
    if cmd & DataExpected == 0 then p
    else if cmd & ReadOrWrite != 0 then Drain(p)
    else Fill(p)
  }

  /** `_dwc_sdhc_update` on the port and RINTSTS: the exchange with the
    * card, data-transfer-over once a data command's count is spent, then
    * the level update: with CTRL's FIFO reset bit the FIFO empties and TXDR
    * is raised, otherwise the data requests follow the watermarks. */
  function AfterUpdate(p: Port, rintsts: bv32, cmd: bv32, ctrl: bv32, fifoth: bv32): (r: (Port, bv32))
    requires p.Valid()
    ensures r.0.Valid()
    ensures r.0.bytcnt == Exchange(p, cmd).bytcnt && r.0.cardData == Exchange(p, cmd).cardData
      && r.0.cardSink == Exchange(p, cmd).cardSink
    ensures r.0.queue == if ctrl & FifoReset != 0 then [] else Exchange(p, cmd).queue
    ensures r.1 & DataTransferOver != 0 <==>
      rintsts & DataTransferOver != 0 || (cmd & DataExpected != 0 && r.0.bytcnt == 0)
    ensures ctrl & FifoReset != 0 ==> r.1 & TxDataRequest != 0
  {
    var t := Exchanged(p, rintsts, cmd);
    Leveled(t.0, t.1, cmd, ctrl, fifoth)
  }

  /** Without a data command the card exchange moves nothing. */
  lemma NoExchange(p: Port, cmd: bv32)
    requires p.Valid() && cmd & DataExpected == 0
    ensures Exchange(p, cmd) == p
  {
  }

  /** The transfer half of `_dwc_sdhc_update`: the exchange, and
    * data-transfer-over once a data command's count is spent. */
  function Exchanged(p: Port, rintsts: bv32, cmd: bv32): (r: (Port, bv32))
    requires p.Valid()
    ensures r.0 == Exchange(p, cmd)
    ensures r.1 == if cmd & DataExpected != 0 && r.0.bytcnt == 0 then rintsts | DataTransferOver else rintsts
  {
    var q := Exchange(p, cmd);
    (q, rintsts | B(cmd & DataExpected != 0 && q.bytcnt == 0, DataTransferOver))
  }

  /** The level half of `_dwc_sdhc_update`: with CTRL's FIFO reset bit the
    * FIFO empties and TXDR is raised, otherwise the data requests follow
    * the watermarks. */
  function Leveled(q: Port, rintsts: bv32, cmd: bv32, ctrl: bv32, fifoth: bv32): (r: (Port, bv32))
    requires q.Valid()
    ensures r.0.Valid() && r.0.bytcnt == q.bytcnt && r.0.cardData == q.cardData && r.0.cardSink == q.cardSink
  {
    if ctrl & FifoReset != 0 then (q.(queue := []), rintsts | TxDataRequest)
    else (q, Requests(rintsts, |q.queue|, fifoth, cmd & ReadOrWrite != 0))
  }

  /** What reading the card does: the FIFO gains the card's next words in
    * order, each costs four counted bytes and four card bytes, the card
    * receives nothing, and it stops only when the FIFO is full, the count is
    * spent or the card has nothing ready. */
  lemma {:induction false} FillShape(p: Port)
    requires p.Valid()
    ensures var r := Fill(p); var n := |r.queue| - |p.queue|;
      |p.queue| <= |r.queue| <= FifoDepth
      && r.queue == p.queue + CardWords(p.cardData, n)
      && r.cardData == Drop(p.cardData, 4 * n)
      && r.bytcnt == LessWords(p.bytcnt, n)
      && r.cardSink == p.cardSink
      && (|r.queue| == FifoDepth || r.bytcnt == 0 || r.cardData == [])
    decreases FifoDepth - |p.queue|
  {
    hide Fill, CardWords, LessWords, Drop;
    if |p.queue| < FifoDepth && p.bytcnt > 0 && |p.cardData| > 0 {
      var w := CardWord(p.cardData);
      var p1 := Port(p.queue + [w], Less4(p.bytcnt), Drop(p.cardData, 4), p.cardSink);
      FillOnce(p);
      FillShape(p1);
      var r := Fill(p);
      var n := |r.queue| - |p.queue|;
      DropDrop(p.cardData, 4, 4 * (n - 1));
      assert 4 + 4 * (n - 1) == 4 * n;
      LessWordsOnce(p.bytcnt, n);
      CardWordsOnce(p.cardData, n);
      assert p1.queue + CardWords(p1.cardData, n - 1) == p.queue + ([w] + CardWords(p1.cardData, n - 1));
    } else {
      FillStops(p);
      CardWordsNone(p.cardData);
      LessWordsNone(p.bytcnt);
      DropNone(p.cardData);
    }
  }

  /** One word of the card read. */
  lemma FillOnce(p: Port)
    requires p.Valid() && |p.queue| < FifoDepth && p.bytcnt > 0 && |p.cardData| > 0
    ensures Fill(p) == Fill(Port(p.queue + [CardWord(p.cardData)], Less4(p.bytcnt), Drop(p.cardData, 4), p.cardSink))
  {
  }

  /** With the FIFO full, the count spent or the card idle, the card read
    * does nothing. */
  lemma FillStops(p: Port)
    requires p.Valid() && !(|p.queue| < FifoDepth && p.bytcnt > 0 && |p.cardData| > 0)
    ensures Fill(p) == p
  {
  }

  /** No words from the card is the empty sequence. */
  lemma CardWordsNone(data: seq<bv8>)
    ensures CardWords(data, 0) == []
  {
  }

  /** The card's first word, then the words after its four bytes. */
  lemma CardWordsOnce(data: seq<bv8>, n: nat)
    requires n > 0
    ensures CardWords(data, n) == [CardWord(data)] + CardWords(Drop(data, 4), n - 1)
  {
  }

  /** What writing the card does: the words that leave are the oldest ones,
    * the card receives exactly their bytes in FIFO order, each costs four
    * counted bytes, and it stops only when the FIFO is empty or the count
    * is spent. */
  lemma {:induction false} DrainShape(p: Port)
    requires p.Valid()
    ensures var r := Drain(p); var k := |p.queue| - |r.queue|;
      |r.queue| <= |p.queue|
      && r.queue == p.queue[k..]
      && r.cardSink == p.cardSink + GuestMemory.BytesOf(p.queue[..k])
      && r.bytcnt == LessWords(p.bytcnt, k)
      && r.cardData == p.cardData
      && (r.queue == [] || r.bytcnt == 0)
    decreases |p.queue|
  {
    hide Drain, GuestMemory.BytesOf, LessWords;
    if |p.queue| > 0 && p.bytcnt > 0 {
      var w := p.queue[0];
      var p1 := Port(p.queue[1..], Less4(p.bytcnt), p.cardData, p.cardSink + GuestMemory.LeBytes(w));
      DrainOnce(p);
      DrainShape(p1);
      var r := Drain(p);
      var k := |p.queue| - |r.queue|;
      var rest := p.queue[1..][..k - 1];
      LessWordsOnce(p.bytcnt, k);
      assert p.queue[1..][k - 1..] == p.queue[k..];
      assert p.queue[..k] == [w] + rest;
      GuestMemory.BytesOfCons(w, rest);
      assert p1.cardSink + GuestMemory.BytesOf(rest) == p.cardSink + (GuestMemory.LeBytes(w) + GuestMemory.BytesOf(rest));
    } else {
      DrainStops(p);
      assert p.queue[..0] == [];
      GuestMemory.BytesOfNil();
      LessWordsNone(p.bytcnt);
    }
  }

  /** One word of the card write. */
  lemma DrainOnce(p: Port)
    requires p.Valid() && |p.queue| > 0 && p.bytcnt > 0
    ensures Drain(p) == Drain(Port(p.queue[1..], Less4(p.bytcnt), p.cardData, p.cardSink + GuestMemory.LeBytes(p.queue[0])))
  {
  }

  /** With the FIFO empty or the count spent, the card write does nothing. */
  lemma DrainStops(p: Port)
    requires p.Valid() && !(|p.queue| > 0 && p.bytcnt > 0)
    ensures Drain(p) == p
  {
  }

  /** A byte count that is not a multiple of four keeps its remainder under
    * every `bytcnt -= 4`, so it never reaches zero. */
  lemma {:induction false} LessWordsKeepsRemainder(b: nat, n: nat)
    requires b < Word
    ensures LessWords(b, n) % 4 == b % 4
    decreases n
  {
    if n > 0 {
      LessWordsKeepsRemainder(Less4(b), n - 1);
    }
  }

  /** Hence an exchange with such a count never finishes the transfer: the
    * count after it is still not zero, and data-transfer-over is not raised. */
  lemma MisalignedCountNeverEnds(p: Port, cmd: bv32)
    requires p.Valid() && p.bytcnt % 4 != 0
    ensures Exchange(p, cmd).bytcnt != 0
  {
    if cmd & DataExpected != 0 {
      if cmd & ReadOrWrite != 0 {
        DrainShape(p);
        LessWordsKeepsRemainder(p.bytcnt, |p.queue| - |Drain(p).queue|);
      } else {
        FillShape(p);
        LessWordsKeepsRemainder(p.bytcnt, |Fill(p).queue| - |p.queue|);
      }
    }
  }

  /** One burst: what is left of the buffer, of the count, and at most 16. */
  function Burst(room: nat, left: nat): (n: nat)
    requires room > 0 && left > 0
    ensures 0 < n <= BurstSize && n <= room && n <= left
    ensures n == BurstSize || n == room || n == left
  {
    var n := if room > left then left else room;
    if n > BurstSize then BurstSize else n
  }

  /** The bytes of a run; only ever used where the run is mapped. */
  function Bytes(m: GuestMemory.Memory, a: int, n: nat): (r: seq<bv8>)
    ensures |r| == n
  {
    seq(n, j requires 0 <= j < n => if a + j in m then m[a + j] else 0)
  }

  /** A read of a mapped run returns its bytes. */
  lemma ReadIsBytes(m: GuestMemory.Memory, a: int, n: nat)
    requires GuestMemory.Mapped(m, a, n)
    ensures GuestMemory.ReadBytes(m, a, n) == GuestMemory.Some(Bytes(m, a, n))
  {
    var r := GuestMemory.ReadBytes(m, a, n).value;
    forall j | 0 <= j < n ensures r[j] == Bytes(m, a, n)[j] {
      assert a <= a + j < a + n;
    }
    assert r == Bytes(m, a, n);
  }

  /** Two adjacent runs read as one. */
  lemma BytesJoin(m: GuestMemory.Memory, a: int, x: nat, y: nat)
    ensures Bytes(m, a, x + y) == Bytes(m, a, x) + Bytes(m, a + x, y)
  {
    var l := Bytes(m, a, x + y);
    var r := Bytes(m, a, x) + Bytes(m, a + x, y);
    forall j | 0 <= j < x + y ensures l[j] == r[j] {
      if j >= x {
        assert r[j] == Bytes(m, a + x, y)[j - x];
      }
    }
  }

  /** Two adjacent runs are mapped exactly when both are. */
  lemma MappedJoin(m: GuestMemory.Memory, a: int, x: nat, y: nat)
    ensures GuestMemory.Mapped(m, a, x + y) <==> GuestMemory.Mapped(m, a, x) && GuestMemory.Mapped(m, a + x, y)
  {
    if GuestMemory.Mapped(m, a, x) && GuestMemory.Mapped(m, a + x, y) {
      forall j | a <= j < a + x + y ensures j in m {
        if j >= a + x {
          assert a + x <= j < a + x + y;
        }
      }
    }
  }

  /** What a memory-to-card burst loop leaves: everything the card has
    * been sent, the count left, and whether a memory read failed. */
  datatype Sent = Sent(sink: seq<bv8>, bytcnt: nat, failed: bool)

  /** Memory to card, from `addr` with `room` bytes of buffer left, onto
    * what the card has already been sent: each burst is read from memory
    * and sent; a failed read stops the loop. */
  function ToCard(m: GuestMemory.Memory, addr: int, room: nat, bytcnt: nat, sink: seq<bv8>): (r: Sent)
    ensures |sink| <= |r.sink| <= |sink| + room
    ensures r.bytcnt + (|r.sink| - |sink|) == bytcnt
    ensures r.failed ==> |r.sink| - |sink| < room && r.bytcnt > 0
    ensures !r.failed ==> |r.sink| - |sink| == room || r.bytcnt == 0
    decreases room
  {
    if room > 0 && bytcnt > 0 then
      var n := Burst(room, bytcnt);
      match GuestMemory.ReadBytes(m, addr, n)
      case None => Sent(sink, bytcnt, true)
      case Some(chunk) => ToCard(m, addr + n, room - n, bytcnt - n, sink + chunk)
    else Sent(sink, bytcnt, false)
  }

  /** Every byte sent comes from a mapped address. */
  lemma {:induction false} ToCardMapped(m: GuestMemory.Memory, addr: int, room: nat, bytcnt: nat, sink: seq<bv8>)
    ensures GuestMemory.Mapped(m, addr, |ToCard(m, addr, room, bytcnt, sink).sink| - |sink|)
    decreases room
  {
    if room > 0 && bytcnt > 0 {
      var n := Burst(room, bytcnt);
      if GuestMemory.Mapped(m, addr, n) {
        var chunk := GuestMemory.ReadBytes(m, addr, n).value;
        var r := ToCard(m, addr + n, room - n, bytcnt - n, sink + chunk);
        assert ToCard(m, addr, room, bytcnt, sink) == r;
        ToCardMapped(m, addr + n, room - n, bytcnt - n, sink + chunk);
        MappedJoin(m, addr, n, |r.sink| - |sink + chunk|);
      }
    }
  }

  /** The first burst to the card, when its bytes are mapped. */
  lemma ToCardOnce(m: GuestMemory.Memory, addr: int, room: nat, bytcnt: nat, sink: seq<bv8>)
    requires room > 0 && bytcnt > 0
    requires GuestMemory.Mapped(m, addr, Burst(room, bytcnt))
    ensures var n := Burst(room, bytcnt);
      ToCard(m, addr, room, bytcnt, sink) == ToCard(m, addr + n, room - n, bytcnt - n, sink + Bytes(m, addr, n))
  {
    ReadIsBytes(m, addr, Burst(room, bytcnt));
  }

  /** With no room, no count or an unmapped first burst, nothing is sent. */
  lemma ToCardHalts(m: GuestMemory.Memory, addr: int, room: nat, bytcnt: nat, sink: seq<bv8>)
    requires !(room > 0 && bytcnt > 0 && GuestMemory.Mapped(m, addr, Burst(room, bytcnt)))
    ensures ToCard(m, addr, room, bytcnt, sink).sink == sink
  {
  }

  /** An unmapped first burst stops the loop with nothing sent. */
  lemma ToCardStops(m: GuestMemory.Memory, addr: int, room: nat, bytcnt: nat, sink: seq<bv8>)
    requires room > 0 && bytcnt > 0 && !GuestMemory.Mapped(m, addr, Burst(room, bytcnt))
    ensures ToCard(m, addr, room, bytcnt, sink) == Sent(sink, bytcnt, true)
  {
  }

  /** One round of the memory-to-card loop, `done` bytes into the buffer. */
  lemma ToCardAdvance(m: GuestMemory.Memory, addr: int, size: nat, done: nat, left: nat, out: seq<bv8>)
    requires done < size && left > 0
    requires GuestMemory.Mapped(m, addr + done, Burst(size - done, left))
    ensures var n := Burst(size - done, left);
      ToCard(m, addr + (done + n), size - (done + n), left - n, out + Bytes(m, addr + done, n))
        == ToCard(m, addr + done, size - done, left, out)
  {
    hide ToCard, GuestMemory.ReadBytes, GuestMemory.Mapped, Bytes;
    ToCardOnce(m, addr + done, size - done, left, out);
    assert (addr + done) + Burst(size - done, left) == addr + (done + Burst(size - done, left));
  }

  /** With no room or no count left the loop ends having sent nothing. */
  lemma ToCardEnd(m: GuestMemory.Memory, addr: int, room: nat, bytcnt: nat, sink: seq<bv8>)
    requires room == 0 || bytcnt == 0
    ensures ToCard(m, addr, room, bytcnt, sink) == Sent(sink, bytcnt, false)
  {
  }

  /** The memory-to-card burst loop: each burst is read from memory at
    * the next address and sent; a failed read stops the loop. */
  method Send(m: GuestMemory.Memory, addr: int, size: nat, bytcnt: nat, sink: seq<bv8>) returns (r: Sent)
    ensures r == ToCard(m, addr, size, bytcnt, sink)
  {
    hide *;
    ghost var goal := ToCard(m, addr, size, bytcnt, sink);
    var done, left, out := 0, bytcnt, sink;
    assert addr + 0 == addr;
    while done < size && left > 0
      invariant done <= size
      invariant ToCard(m, addr + done, size - done, left, out) == goal
      decreases size - done
    {
      var n := Burst(size - done, left);
      var chunk := GuestMemory.ReadBytes(m, addr + done, n);
      if chunk.None? {
        ToCardStops(m, addr + done, size - done, left, out);
        return Sent(out, left, true);
      }
      ReadIsBytes(m, addr + done, n);
      ToCardAdvance(m, addr, size, done, left, out);
      out := out + chunk.value;
      done := done + n;
      left := left - n;
    }
    ToCardEnd(m, addr + done, size - done, left, out);
    return Sent(out, left, false);
  }

  /** The card receives exactly the bytes of memory from the buffer's
    * start, after what it had. */
  lemma {:induction false} ToCardSends(m: GuestMemory.Memory, addr: int, room: nat, bytcnt: nat, sink: seq<bv8>)
    ensures var r := ToCard(m, addr, room, bytcnt, sink);
      r.sink == sink + Bytes(m, addr, |r.sink| - |sink|)
    decreases room
  {
    hide ToCard, GuestMemory.ReadBytes, GuestMemory.Mapped, Bytes;
    if room > 0 && bytcnt > 0 && GuestMemory.Mapped(m, addr, Burst(room, bytcnt)) {
      var n := Burst(room, bytcnt);
      ToCardOnce(m, addr, room, bytcnt, sink);
      var chunk := Bytes(m, addr, n);
      var r := ToCard(m, addr + n, room - n, bytcnt - n, sink + chunk);
      var k := |r.sink| - |sink + chunk|;
      ToCardSends(m, addr + n, room - n, bytcnt - n, sink + chunk);
      BytesJoin(m, addr, n, k);
      assert |r.sink| - |sink| == n + k;
      assert (sink + chunk) + Bytes(m, addr + n, k) == sink + (chunk + Bytes(m, addr + n, k));
    } else {
      ToCardHalts(m, addr, room, bytcnt, sink);
      assert sink + Bytes(m, addr, 0) == sink;
    }
  }

  /** A failure means the buffer, cut to the count, is not all mapped. */
  lemma {:induction false} ToCardFailure(m: GuestMemory.Memory, addr: int, room: nat, bytcnt: nat, sink: seq<bv8>)
    ensures ToCard(m, addr, room, bytcnt, sink).failed ==> !GuestMemory.Mapped(m, addr, if room < bytcnt then room else bytcnt)
    decreases room
  {
    var whole := if room < bytcnt then room else bytcnt;
    if room > 0 && bytcnt > 0 {
      var n := Burst(room, bytcnt);
      MappedJoin(m, addr, n, whole - n);
      if GuestMemory.Mapped(m, addr, n) {
        ToCardFailure(m, addr + n, room - n, bytcnt - n, sink + GuestMemory.ReadBytes(m, addr, n).value);
      }
    }
  }

  /** The loop fails exactly when the buffer, cut to the count, is not all
    * mapped. */
  lemma ToCardFails(m: GuestMemory.Memory, addr: int, room: nat, bytcnt: nat, sink: seq<bv8>)
    ensures ToCard(m, addr, room, bytcnt, sink).failed <==> !GuestMemory.Mapped(m, addr, if room < bytcnt then room else bytcnt)
  {
    ToCardFailure(m, addr, room, bytcnt, sink);
    ToCardMapped(m, addr, room, bytcnt, sink);
  }

  /** How a card-to-memory burst loop ends, counted on the address space
    * it starts from (a successful write maps and unmaps nothing): the bytes
    * stored, and whether it stopped on a burst whose bytes are not all
    * mapped.  `avail` is how many bytes the card still has ready. */
  datatype Landed = Landed(moved: nat, failed: bool)

  function Landing(m: GuestMemory.Memory, addr: int, room: nat, bytcnt: nat, avail: nat): (r: Landed)
    ensures r.moved <= room && r.moved <= bytcnt
    ensures r.failed ==> r.moved < room && r.moved < bytcnt && r.moved < avail
    ensures !r.failed ==> r.moved == room || r.moved == bytcnt || r.moved >= avail
    decreases room
  {
    if room > 0 && bytcnt > 0 && avail > 0 then
      var n := Burst(room, bytcnt);
      if GuestMemory.Mapped(m, addr, n) then
        var rest := Landing(m, addr + n, room - n, bytcnt - n, if n <= avail then avail - n else 0);
        Landed(n + rest.moved, rest.failed)
      else Landed(0, true)
    else Landed(0, false)
  }

  /** The smaller of the buffer room and the count left. */
  function Least(room: nat, left: nat): (n: nat)
    ensures n <= room && n <= left && (n == room || n == left)
  {
    if room < left then room else left
  }

  /** Every byte the loop stores is mapped. */
  lemma {:induction false} LandingMapped(m: GuestMemory.Memory, addr: int, room: nat, bytcnt: nat, avail: nat)
    ensures GuestMemory.Mapped(m, addr, Landing(m, addr, room, bytcnt, avail).moved)
    decreases room
  {
    hide Landing, GuestMemory.Mapped;
    if room > 0 && bytcnt > 0 && avail > 0 && GuestMemory.Mapped(m, addr, Burst(room, bytcnt)) {
      var n := Burst(room, bytcnt);
      var rest := Landing(m, addr + n, room - n, bytcnt - n, if n <= avail then avail - n else 0);
      LandingOnce(m, addr, room, bytcnt, avail);
      LandingMapped(m, addr + n, room - n, bytcnt - n, if n <= avail then avail - n else 0);
      MappedJoin(m, addr, n, rest.moved);
    } else if room > 0 && bytcnt > 0 && avail > 0 {
      LandingStops(m, addr, room, bytcnt, avail);
      GuestMemory.MappedNothing(m, addr);
    } else {
      LandingIdle(m, addr, room, bytcnt, avail);
      GuestMemory.MappedNothing(m, addr);
    }
  }

  /** A write failure is a burst whose bytes are not all mapped: the burst
    * right after the bytes stored. */
  lemma {:induction false} LandingFailure(m: GuestMemory.Memory, addr: int, room: nat, bytcnt: nat, avail: nat)
    ensures var r := Landing(m, addr, room, bytcnt, avail);
      r.failed ==> !GuestMemory.Mapped(m, addr + r.moved, Burst(room - r.moved, bytcnt - r.moved))
    decreases room
  {
    hide Landing, GuestMemory.Mapped;
    if room > 0 && bytcnt > 0 && avail > 0 {
      var n := Burst(room, bytcnt);
      if GuestMemory.Mapped(m, addr, n) {
        var rest := Landing(m, addr + n, room - n, bytcnt - n, if n <= avail then avail - n else 0);
        LandingOnce(m, addr, room, bytcnt, avail);
        LandingFailure(m, addr + n, room - n, bytcnt - n, if n <= avail then avail - n else 0);
        assert addr + n + rest.moved == addr + (n + rest.moved);
        assert room - n - rest.moved == room - (n + rest.moved) && bytcnt - n - rest.moved == bytcnt - (n + rest.moved);
      } else {
        LandingStops(m, addr, room, bytcnt, avail);
        assert addr + 0 == addr && room - 0 == room && bytcnt - 0 == bytcnt;
      }
    }
  }

  /** A write failure cannot happen when the buffer, cut to the count, is
    * all mapped. */
  lemma {:induction false} LandingSucceeds(m: GuestMemory.Memory, addr: int, room: nat, bytcnt: nat, avail: nat)
    requires GuestMemory.Mapped(m, addr, Least(room, bytcnt))
    ensures !Landing(m, addr, room, bytcnt, avail).failed
    decreases room
  {
    hide Landing, GuestMemory.Mapped;
    if room > 0 && bytcnt > 0 && avail > 0 {
      var n := Burst(room, bytcnt);
      MappedJoin(m, addr, n, Least(room, bytcnt) - n);
      LandingOnce(m, addr, room, bytcnt, avail);
      LandingSucceeds(m, addr + n, room - n, bytcnt - n, if n <= avail then avail - n else 0);
    }
  }

  /** What a card-to-memory burst loop produces: the memory, the card bytes
    * still ready, the count left, the bytes stored, and whether a memory
    * write failed. */
  datatype Stored = Stored(mem: GuestMemory.Memory, cardData: seq<bv8>, bytcnt: nat, moved: nat, failed: bool)

  /** Card to memory, as a whole: the first `moved` bytes of the card's
    * stream land at `addr`; the card gives up those bytes and, when a write
    * failed, the bytes of the failing burst as well. */
  function ToMemory(m: GuestMemory.Memory, addr: int, room: nat, bytcnt: nat, data: seq<bv8>): (r: Stored)
    ensures r.moved <= room && r.bytcnt + r.moved == bytcnt
    ensures r.failed ==> r.moved < room && r.bytcnt > 0
    ensures !r.failed ==> r.moved == room || r.bytcnt == 0 || r.moved >= |data|
  {
    var l := Landing(m, addr, room, bytcnt, |data|);
    var taken := if l.failed then l.moved + Burst(room - l.moved, bytcnt - l.moved) else l.moved;
    Stored(GuestMemory.Store(m, addr, Take(data, l.moved)), Drop(data, taken), bytcnt - l.moved, l.moved, l.failed)
  }

  /** Card to memory maps and unmaps nothing. */
  lemma ToMemoryKeys(m: GuestMemory.Memory, addr: int, room: nat, bytcnt: nat, data: seq<bv8>)
    ensures ToMemory(m, addr, room, bytcnt, data).mem.Keys == m.Keys
  {
    LandingMapped(m, addr, room, bytcnt, |data|);
    GuestMemory.StoreKeys(m, addr, Take(data, Landing(m, addr, room, bytcnt, |data|).moved));
  }

  /** Whether each burst lands depends only on which addresses are mapped. */
  lemma {:induction false} LandingKeys(m: GuestMemory.Memory, m1: GuestMemory.Memory, addr: int, room: nat, bytcnt: nat, avail: nat)
    requires m1.Keys == m.Keys
    ensures Landing(m1, addr, room, bytcnt, avail) == Landing(m, addr, room, bytcnt, avail)
    decreases room
  {
    if room > 0 && bytcnt > 0 && avail > 0 {
      var n := Burst(room, bytcnt);
      MappedKeys(m, m1, addr, n);
      LandingKeys(m, m1, addr + n, room - n, bytcnt - n, if n <= avail then avail - n else 0);
    }
  }

  /** The first burst of the loop, when its bytes are mapped. */
  lemma LandingOnce(m: GuestMemory.Memory, addr: int, room: nat, bytcnt: nat, avail: nat)
    requires room > 0 && bytcnt > 0 && avail > 0
    requires GuestMemory.Mapped(m, addr, Burst(room, bytcnt))
    ensures var n := Burst(room, bytcnt);
      var rest := Landing(m, addr + n, room - n, bytcnt - n, if n <= avail then avail - n else 0);
      Landing(m, addr, room, bytcnt, avail) == Landed(n + rest.moved, rest.failed)
  {
  }

  /** With no room, no count or no card data, the loop does nothing. */
  lemma LandingIdle(m: GuestMemory.Memory, addr: int, room: nat, bytcnt: nat, avail: nat)
    requires room == 0 || bytcnt == 0 || avail == 0
    ensures Landing(m, addr, room, bytcnt, avail) == Landed(0, false)
  {
  }

  /** The first burst of the loop, when its bytes are not all mapped. */
  lemma LandingStops(m: GuestMemory.Memory, addr: int, room: nat, bytcnt: nat, avail: nat)
    requires room > 0 && bytcnt > 0 && avail > 0
    requires !GuestMemory.Mapped(m, addr, Burst(room, bytcnt))
    ensures Landing(m, addr, room, bytcnt, avail) == Landed(0, true)
  {
  }

  /** Card to memory is one burst and then the rest: after a mapped burst
    * is stored, the rest of the loop runs on from the next address. */
  lemma ToMemoryStep(m: GuestMemory.Memory, addr: int, room: nat, bytcnt: nat, data: seq<bv8>)
    requires room > 0 && bytcnt > 0 && |data| > 0
    requires GuestMemory.Mapped(m, addr, Burst(room, bytcnt))
    ensures var n := Burst(room, bytcnt);
      var t := ToMemory(m, addr, room, bytcnt, data);
      var rest := ToMemory(GuestMemory.Store(m, addr, Take(data, n)), addr + n, room - n, bytcnt - n, Drop(data, n));
      t.mem == rest.mem && t.cardData == rest.cardData && t.bytcnt == rest.bytcnt
      && t.moved == n + rest.moved && t.failed == rest.failed
  {
    hide *;
    var n := Burst(room, bytcnt);
    var m1 := GuestMemory.Store(m, addr, Take(data, n));
    var rest := Drop(data, n);
    var l := Landing(m1, addr + n, room - n, bytcnt - n, |rest|);
    LandingAfterStore(m, addr, room, bytcnt, data);
    var skip := if l.failed then Burst(room - n - l.moved, bytcnt - n - l.moved) else 0;
    ToMemoryUnfold(m1, addr + n, room - n, bytcnt - n, rest);
    ToMemoryUnfold(m, addr, room, bytcnt, data);
    StoreJoin(m, addr, Take(data, n), Take(rest, l.moved));
    TakeSplit(data, n, l.moved);
    DropDrop(data, n, l.moved + skip);
  }

  /** The first burst of the loop, seen from the memory it leaves. */
  lemma LandingAfterStore(m: GuestMemory.Memory, addr: int, room: nat, bytcnt: nat, data: seq<bv8>)
    requires room > 0 && bytcnt > 0 && |data| > 0
    requires GuestMemory.Mapped(m, addr, Burst(room, bytcnt))
    ensures var n := Burst(room, bytcnt);
      var l := Landing(GuestMemory.Store(m, addr, Take(data, n)), addr + n, room - n, bytcnt - n, |Drop(data, n)|);
      Landing(m, addr, room, bytcnt, |data|) == Landed(n + l.moved, l.failed)
  {
    hide Landing, GuestMemory.Store, GuestMemory.Mapped, Take, Drop, Burst;
    var n := Burst(room, bytcnt);
    var m1 := GuestMemory.Store(m, addr, Take(data, n));
    GuestMemory.StoreKeys(m, addr, Take(data, n));
    LandingKeys(m, m1, addr + n, room - n, bytcnt - n, |Drop(data, n)|);
    assert |Drop(data, n)| == if n <= |data| then |data| - n else 0;
    LandingOnce(m, addr, room, bytcnt, |data|);
  }

  /** The closed form spelled out. */
  lemma ToMemoryUnfold(m: GuestMemory.Memory, addr: int, room: nat, bytcnt: nat, data: seq<bv8>)
    ensures var l := Landing(m, addr, room, bytcnt, |data|);
      var skip := if l.failed then Burst(room - l.moved, bytcnt - l.moved) else 0;
      ToMemory(m, addr, room, bytcnt, data)
        == Stored(GuestMemory.Store(m, addr, Take(data, l.moved)), Drop(data, l.moved + skip), bytcnt - l.moved, l.moved, l.failed)
  {
    hide Landing, GuestMemory.Store, GuestMemory.Mapped, Take, Drop, Burst;
  }

  /** A loop result with `done` more bytes counted as stored. */
  function Resumed(done: nat, t: Stored): (r: Stored)
    ensures r.moved == done + t.moved
  {
    t.(moved := done + t.moved)
  }

  /** The card-to-memory loop from `done` bytes on, burst by burst, as the
    * source runs it: a failed write stops it after the card bytes of that
    * burst were taken. */
  function Bursts(mem: GuestMemory.Memory, addr: int, data: seq<bv8>, size: nat, bytcnt: nat, done: nat): (r: Stored)
    requires done <= size && done <= bytcnt
    decreases size - done
  {
    if done < size && done < bytcnt && done < |data| then
      var n := Burst(size - done, bytcnt - done);
      var written := GuestMemory.WriteBytes(mem, addr + done, Take(Drop(data, done), n));
      if written.None? then Stored(mem, Drop(data, done + n), bytcnt - done, done, true)
      else Bursts(written.value, addr, data, size, bytcnt, done + n)
    else Stored(mem, Drop(data, done), bytcnt - done, done, false)
  }

  /** The loop's last round: nothing is left to move. */
  lemma BurstsEnd(mem: GuestMemory.Memory, addr: int, data: seq<bv8>, size: nat, bytcnt: nat, done: nat)
    requires done <= size && done <= bytcnt && !(done < size && done < bytcnt && done < |data|)
    ensures Bursts(mem, addr, data, size, bytcnt, done)
      == Resumed(done, ToMemory(mem, addr + done, size - done, bytcnt - done, Drop(data, done)))
  {
    assert Take(Drop(data, done), 0) == [];
    DropDrop(data, done, 0);
  }

  /** The loop's round on an unmapped burst: it stops. */
  lemma BurstsFail(mem: GuestMemory.Memory, addr: int, data: seq<bv8>, size: nat, bytcnt: nat, done: nat)
    requires done < size && done < bytcnt && done < |data|
    requires !GuestMemory.Mapped(mem, addr + done, Burst(size - done, bytcnt - done))
    ensures Bursts(mem, addr, data, size, bytcnt, done)
      == Resumed(done, ToMemory(mem, addr + done, size - done, bytcnt - done, Drop(data, done)))
  {
    hide ToMemory, Landing, GuestMemory.Store, GuestMemory.Mapped, Drop, Burst;
    var rest := Drop(data, done);
    LandingStops(mem, addr + done, size - done, bytcnt - done, |rest|);
    ToMemoryUnfold(mem, addr + done, size - done, bytcnt - done, rest);
    assert Take(rest, 0) == [];
    GuestMemory.StoreNothing(mem, addr + done);
    DropDrop(data, done, Burst(size - done, bytcnt - done));
  }

  /** The loop's round on a mapped burst: it goes on one burst further. */
  lemma BurstsGoOn(mem: GuestMemory.Memory, addr: int, data: seq<bv8>, size: nat, bytcnt: nat, done: nat)
    requires done < size && done < bytcnt && done < |data|
    requires GuestMemory.Mapped(mem, addr + done, Burst(size - done, bytcnt - done))
    ensures var n := Burst(size - done, bytcnt - done);
      var next := GuestMemory.Store(mem, addr + done, Take(Drop(data, done), n));
      Resumed(done, ToMemory(mem, addr + done, size - done, bytcnt - done, Drop(data, done)))
        == Resumed(done + n, ToMemory(next, addr + (done + n), size - (done + n), bytcnt - (done + n), Drop(data, done + n)))
  {
    hide ToMemory, Landing, GuestMemory.Store, GuestMemory.Mapped, Take, Drop, Burst;
    var n := Burst(size - done, bytcnt - done);
    ToMemoryStep(mem, addr + done, size - done, bytcnt - done, Drop(data, done));
    DropDrop(data, done, n);
    assert addr + done + n == addr + (done + n);
    assert size - done - n == size - (done + n) && bytcnt - done - n == bytcnt - (done + n);
  }

  /** The loop's round on a mapped burst stores it and goes on. */
  lemma BurstsStore(mem: GuestMemory.Memory, addr: int, data: seq<bv8>, size: nat, bytcnt: nat, done: nat)
    requires done < size && done < bytcnt && done < |data|
    requires GuestMemory.Mapped(mem, addr + done, Burst(size - done, bytcnt - done))
    ensures var n := Burst(size - done, bytcnt - done);
      Bursts(mem, addr, data, size, bytcnt, done)
        == Bursts(GuestMemory.Store(mem, addr + done, Take(Drop(data, done), n)), addr, data, size, bytcnt, done + n)
  {
    hide ToMemory, Landing, GuestMemory.Store, GuestMemory.Mapped, Take, Drop, Burst;
  }

  /** One round of the burst loop as the loop body takes it. */
  lemma BurstsRound(mem: GuestMemory.Memory, addr: int, data: seq<bv8>, size: nat, bytcnt: nat, done: nat)
    requires done < size && done < bytcnt && done < |data|
    ensures var n := Burst(size - done, bytcnt - done);
      var written := GuestMemory.WriteBytes(mem, addr + done, Take(Drop(data, done), n));
      Bursts(mem, addr, data, size, bytcnt, done)
        == if written.None? then Stored(mem, Drop(data, done + n), bytcnt - done, done, true)
           else Bursts(written.value, addr, data, size, bytcnt, done + n)
  {
  }

  /** The burst loop's exit: nothing more moves. */
  lemma BurstsLast(mem: GuestMemory.Memory, addr: int, data: seq<bv8>, size: nat, bytcnt: nat, done: nat)
    requires done <= size && done <= bytcnt && !(done < size && done < bytcnt && done < |data|)
    ensures Bursts(mem, addr, data, size, bytcnt, done) == Stored(mem, Drop(data, done), bytcnt - done, done, false)
  {
  }

  /** The burst loop and the closed form agree: from `done` on, the loop
    * does what the closed form does on the rest of the buffer, the count
    * and the card's stream. */
  lemma {:induction false} BurstsAreToMemory(mem: GuestMemory.Memory, addr: int, data: seq<bv8>, size: nat, bytcnt: nat, done: nat)
    requires done <= size && done <= bytcnt
    ensures Bursts(mem, addr, data, size, bytcnt, done)
      == Resumed(done, ToMemory(mem, addr + done, size - done, bytcnt - done, Drop(data, done)))
    decreases size - done
  {
    hide *;
    if !(done < size && done < bytcnt && done < |data|) {
      BurstsEnd(mem, addr, data, size, bytcnt, done);
    } else if GuestMemory.Mapped(mem, addr + done, Burst(size - done, bytcnt - done)) {
      var n := Burst(size - done, bytcnt - done);
      BurstsGoOn(mem, addr, data, size, bytcnt, done);
      BurstsStore(mem, addr, data, size, bytcnt, done);
      BurstsAreToMemory(GuestMemory.Store(mem, addr + done, Take(Drop(data, done), n)), addr, data, size, bytcnt, done + n);
    } else {
      BurstsFail(mem, addr, data, size, bytcnt, done);
    }
  }

  /** The burst loop from its start computes the closed form. */
  lemma BurstsFromStart(m: GuestMemory.Memory, addr: int, size: nat, bytcnt: nat, data: seq<bv8>)
    ensures Bursts(m, addr, data, size, bytcnt, 0) == ToMemory(m, addr, size, bytcnt, data)
  {
    hide Bursts, ToMemory;
    BurstsAreToMemory(m, addr, data, size, bytcnt, 0);
    assert Drop(data, 0) == data;
    assert addr + 0 == addr;
  }

  /** The card-to-memory burst loop: each burst is taken from the card and
    * written at the next address; a failed write stops the loop after the
    * card bytes were taken. */
  method Receive(m: GuestMemory.Memory, addr: int, size: nat, bytcnt: nat, data: seq<bv8>) returns (r: Stored)
    ensures r == ToMemory(m, addr, size, bytcnt, data)
  {
    hide *;
    BurstsFromStart(m, addr, size, bytcnt, data);
    ghost var goal := Bursts(m, addr, data, size, bytcnt, 0);
    var mem, done := m, 0;
    while done < size && done < bytcnt && done < |data|
      invariant done <= size && done <= bytcnt
      invariant Bursts(mem, addr, data, size, bytcnt, done) == goal
      decreases size - done
    {
      BurstsRound(mem, addr, data, size, bytcnt, done);
      var n := Burst(size - done, bytcnt - done);
      var written := GuestMemory.WriteBytes(mem, addr + done, Take(Drop(data, done), n));
      if written.None? {
        return Stored(mem, Drop(data, done + n), bytcnt - done, done, true);
      }
      mem := written.value;
      done := done + n;
    }
    BurstsLast(mem, addr, data, size, bytcnt, done);
    return Stored(mem, Drop(data, done), bytcnt - done, done, false);
  }

  /** Storing two adjacent runs is storing their concatenation. */
  lemma {:induction false} StoreJoin(m: GuestMemory.Memory, a: int, x: seq<bv8>, y: seq<bv8>)
    ensures GuestMemory.Store(GuestMemory.Store(m, a, x), a + |x|, y) == GuestMemory.Store(m, a, x + y)
    decreases |x|
  {
    if |x| > 0 {
      StoreJoin(m[a := x[0]], a + 1, x[1..], y);
      assert (x + y)[1..] == x[1..] + y;
    } else {
      assert x + y == y;
    }
  }

  /** Whether a run is mapped depends only on the set of mapped addresses. */
  lemma MappedKeys(m: GuestMemory.Memory, m1: GuestMemory.Memory, a: int, n: nat)
    requires m1.Keys == m.Keys
    ensures GuestMemory.Mapped(m1, a, n) <==> GuestMemory.Mapped(m, a, n)
  {
    assert forall j :: j in m1 <==> j in m.Keys;
  }

  /** What the descriptor walk works on: guest memory, the card, BYTCNT,
    * the IDSTS state machine and the current descriptor address. */
  datatype Dma = Dma(mem: GuestMemory.Memory, cardData: seq<bv8>, cardSink: seq<bv8>,
                     bytcnt: nat, fsm: nat, dscaddr: bv32)

  /** How a walk step ends: go on to the next descriptor, stop without
    * completing, or complete the list; `quiet` is the last descriptor's
    * DIC bit. */
  datatype Ending = Continue | Halted | Finished(quiet: bool) | Exhausted

  /** `_dwc_sdhc_idma_transfer` on one buffer: the new state and whether it
    * failed (returned a negative value).  CMD bit 10 gives `toCard`. */
  function Move(s: Dma, toCard: bool, addr: bv32, size: nat): (r: (Dma, bool))
    ensures r.0.dscaddr == s.dscaddr && r.0.bytcnt <= s.bytcnt
    ensures r.0.fsm == if toCard then FsmDmaWrite else FsmDmaRead
    ensures toCard ==> (r.0.mem == s.mem && r.0.cardData == s.cardData
      && |s.cardSink| <= |r.0.cardSink| && |r.0.cardSink| - |s.cardSink| == s.bytcnt - r.0.bytcnt)
    ensures !toCard ==> r.0.cardSink == s.cardSink
    ensures r.0.mem.Keys == s.mem.Keys
  {
    if toCard then
      var t := ToCard(s.mem, addr as int, size, s.bytcnt, s.cardSink);
      (s.(cardSink := t.sink, bytcnt := t.bytcnt, fsm := FsmDmaWrite), t.failed)
    else
      var t := ToMemory(s.mem, addr as int, size, s.bytcnt, s.cardData);
      ToMemoryKeys(s.mem, addr as int, size, s.bytcnt, s.cardData);
      (s.(mem := t.mem, cardData := t.cardData, bytcnt := t.bytcnt, fsm := FsmDmaRead), t.failed)
  }

  /** The buffers of an owned descriptor: buffer 1, then in dual-buffer
    * mode buffer 2 when its size is not zero; a failure stops the pair. */
  function Buffers(s: Dma, toCard: bool, d: Descriptor): (r: (Dma, bool))
    ensures r.0.dscaddr == s.dscaddr && r.0.bytcnt <= s.bytcnt
    ensures toCard ==> (r.0.mem == s.mem && r.0.cardData == s.cardData
      && |s.cardSink| <= |r.0.cardSink| && |r.0.cardSink| - |s.cardSink| == s.bytcnt - r.0.bytcnt)
    ensures !toCard ==> r.0.cardSink == s.cardSink
    ensures r.0.mem.Keys == s.mem.Keys
    ensures r.0.fsm == if toCard then FsmDmaWrite else FsmDmaRead
  {
    var (s1, failed1) := Move(s, toCard, d.des2, d.Size1());
    if failed1 || d.Chained() || d.Size2() == 0 then (s1, failed1)
    else Move(s1, toCard, d.des3, d.Size2())
  }

  /** One pass of `_dwc_sdhc_idma_process`'s loop: read and check the
    * descriptor at DSCADDR, move its buffers, then finish or go on to the
    * next descriptor. */
  function Step(s: Dma, toCard: bool, base: bv32, skip: bv32): (r: (Dma, Ending))
    requires skip < 32
    ensures r.1 != Exhausted
    ensures r.1.Continue? || r.1.Finished? ==> r.0.fsm == if toCard then FsmDmaWrite else FsmDmaRead
  {
    match GuestMemory.ReadWords(s.mem, s.dscaddr as int, 4)
    case None => (s.(fsm := FsmDescRead), Halted)
    case Some(ws) => Checked(s, toCard, DescriptorOf(ws), base, skip)
  }

  /** The rest of a step once the descriptor is read: one not owned by
    * the controller suspends the walk, one with an empty buffer 1 stops it,
    * any other is served. */
  function Checked(s: Dma, toCard: bool, d: Descriptor, base: bv32, skip: bv32): (r: (Dma, Ending))
    requires skip < 32
    ensures r.1 != Exhausted
    ensures r.1.Continue? || r.1.Finished? ==> r.0.fsm == if toCard then FsmDmaWrite else FsmDmaRead
  {
    if !d.Owned() then (s.(fsm := FsmSuspend), Halted)
    else if d.Size1() == 0 then (s.(fsm := FsmDescCheck), Halted)
    else Served(s, toCard, d, base, skip)
  }

  /** The rest of a step once the descriptor is owned and buffer 1 is not
    * empty: move the buffers, then finish after the last descriptor or go
    * on to the next one. */
  function Served(s: Dma, toCard: bool, d: Descriptor, base: bv32, skip: bv32): (r: (Dma, Ending))
    requires skip < 32
    ensures r.1 != Exhausted
    ensures r.1.Continue? || r.1.Finished? ==> r.0.fsm == if toCard then FsmDmaWrite else FsmDmaRead
  {
    var (s1, failed) := Buffers(s, toCard, d);
    if failed then (s1, Halted)
    else match NextAsWritten(d, s.dscaddr, base, skip)
      case None => (s1, Finished(d.NoCompletionIrq()))
      case Some(next) => (s1.(dscaddr := next), Continue)
  }

  /** The four cases of `Step`, one at a time. */
  lemma StepUnread(s: Dma, toCard: bool, base: bv32, skip: bv32)
    requires skip < 32 && GuestMemory.ReadWords(s.mem, s.dscaddr as int, 4).None?
    ensures Step(s, toCard, base, skip) == (s.(fsm := FsmDescRead), Halted)
  {
  }

  lemma StepRead(s: Dma, toCard: bool, base: bv32, skip: bv32, ws: seq<bv32>)
    requires skip < 32 && GuestMemory.ReadWords(s.mem, s.dscaddr as int, 4) == GuestMemory.Some(ws)
    requires |ws| == 4
    ensures Step(s, toCard, base, skip) == Checked(s, toCard, DescriptorOf(ws), base, skip)
  {
  }

  /** Checking a descriptor does not depend on the state machine field it
    * starts from. */
  lemma CheckedFromAnyFsm(s: Dma, toCard: bool, d: Descriptor, base: bv32, skip: bv32, f: nat)
    requires skip < 32
    ensures Checked(s.(fsm := f), toCard, d, base, skip) == Checked(s, toCard, d, base, skip)
  {
    ServedFromAnyFsm(s, toCard, d, base, skip, f);
  }

  /** Serving a descriptor does not depend on the state machine field it
    * starts from: the first buffer move sets it. */
  lemma ServedFromAnyFsm(s: Dma, toCard: bool, d: Descriptor, base: bv32, skip: bv32, f: nat)
    requires skip < 32
    ensures Served(s.(fsm := f), toCard, d, base, skip) == Served(s, toCard, d, base, skip)
  {
    assert Buffers(s.(fsm := f), toCard, d) == Buffers(s, toCard, d);
  }

  /** A walk with no fuel left stops where it is. */
  lemma WalkDry(s: Dma, toCard: bool, base: bv32, skip: bv32)
    requires skip < 32
    ensures Walk(0, s, toCard, base, skip) == (s, Exhausted)
  {
  }

  /** The first step of a walk with fuel left. */
  lemma WalkOnce(fuel: nat, s: Dma, toCard: bool, base: bv32, skip: bv32)
    requires skip < 32 && fuel > 0
    ensures var r := Step(s, toCard, base, skip);
      Walk(fuel, s, toCard, base, skip) == if r.1.Continue? then Walk(fuel - 1, r.0, toCard, base, skip) else r
  {
  }

  /** The walk from DSCADDR, at most `fuel` descriptors long. */
  function Walk(fuel: nat, s: Dma, toCard: bool, base: bv32, skip: bv32): (r: (Dma, Ending))
    requires skip < 32
    ensures r.1 != Continue
    ensures r.1.Finished? ==> r.0.fsm == if toCard then FsmDmaWrite else FsmDmaRead
    decreases fuel
  {
    if fuel == 0 then (s, Exhausted)
    else
      var r := Step(s, toCard, base, skip);
      if r.1.Continue? then Walk(fuel - 1, r.0, toCard, base, skip) else r
  }

  /** What one step accounts for: BYTCNT never grows, memory keeps its
    * mapping, and towards the card exactly the bytes BYTCNT lost were sent
    * while memory and the card's data are untouched; towards memory
    * nothing is sent. */
  predicate Accounted(s: Dma, t: Dma, toCard: bool)
  {
    t.bytcnt <= s.bytcnt && t.mem.Keys == s.mem.Keys
    && (toCard ==>
          t.mem == s.mem && t.cardData == s.cardData
          && |s.cardSink| <= |t.cardSink| && |t.cardSink| - |s.cardSink| == s.bytcnt - t.bytcnt)
    && (!toCard ==> t.cardSink == s.cardSink)
  }

  lemma StepAccounted(s: Dma, toCard: bool, base: bv32, skip: bv32)
    requires skip < 32
    ensures Accounted(s, Step(s, toCard, base, skip).0, toCard)
  {
    match GuestMemory.ReadWords(s.mem, s.dscaddr as int, 4)
    case None =>
    case Some(ws) =>
      var d := DescriptorOf(ws);
      if d.Owned() && d.Size1() != 0 {
        var (s1, failed) := Buffers(s, toCard, d);
        assert Accounted(s, s1, toCard);
      }
  }

  /** A whole walk accounts for its bytes as each step does. */
  lemma {:induction false} WalkAccounted(fuel: nat, s: Dma, toCard: bool, base: bv32, skip: bv32)
    requires skip < 32
    ensures Accounted(s, Walk(fuel, s, toCard, base, skip).0, toCard)
    decreases fuel
  {
    if fuel > 0 {
      var r := Step(s, toCard, base, skip);
      StepAccounted(s, toCard, base, skip);
      if r.1.Continue? {
        WalkAccounted(fuel - 1, r.0, toCard, base, skip);
      }
    }
  }
}
