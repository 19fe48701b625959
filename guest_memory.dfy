/**
 * Bus address spaces as the device models see them: the guest memory behind
 * the AHB masters of the DMA controller, the SD host's internal DMA and the
 * Ethernet MAC's descriptor engine.  An address space is a partial map from
 * byte addresses to bytes; an access that touches an unmapped byte fails as a
 * whole (the bus reports an error and nothing is transferred).  Multi-byte
 * words are little-endian.
 */
module GuestMemory {

  datatype Option<T> = None | Some(value: T)

  type Memory = map<int, bv8>

  /** Every byte of [addr, addr + n) is backed by the address space. */
  predicate Mapped(m: Memory, addr: int, n: nat)
  {
    forall j :: addr <= j < addr + n ==> j in m
  }

  /** An empty run is always mapped. */
  lemma MappedNothing(m: Memory, addr: int)
    ensures Mapped(m, addr, 0)
  {
  }

  /** A read of `n` bytes at `addr`: the bytes, or a bus error. */
  function ReadBytes(m: Memory, addr: int, n: nat): (r: Option<seq<bv8>>)
    ensures r.Some? <==> Mapped(m, addr, n)
    ensures r.Some? ==> |r.value| == n && forall j :: 0 <= j < n ==> r.value[j] == m[addr + j]
  {
    if Mapped(m, addr, n) then Some(seq(n, j requires 0 <= j < n => m[addr + j])) else None
  }

  /** `data` stored byte by byte from `addr` upwards. */
  function Store(m: Memory, addr: int, data: seq<bv8>): Memory
    decreases |data|
  {
    if |data| == 0 then m else Store(m[addr := data[0]], addr + 1, data[1..])
  }

  /** Storing no bytes changes nothing. */
  lemma StoreNothing(m: Memory, addr: int)
    ensures Store(m, addr, []) == m
  {
  }

  /** A write of `data` at `addr`: the new address space, or a bus error
    * that leaves the old one untouched. */
  function WriteBytes(m: Memory, addr: int, data: seq<bv8>): (r: Option<Memory>)
    ensures r.Some? <==> Mapped(m, addr, |data|)
  {
    if Mapped(m, addr, |data|) then Some(Store(m, addr, data)) else None
  }

  /** Storing into mapped bytes keeps the set of mapped addresses, puts
    * `data` at `addr` and leaves every other byte alone. */
  lemma {:induction false} StoreStores(m: Memory, addr: int, data: seq<bv8>)
    requires Mapped(m, addr, |data|)
    ensures var m' := Store(m, addr, data);
      m'.Keys == m.Keys
      && (forall j :: 0 <= j < |data| ==> m'[addr + j] == data[j])
      && (forall a :: a in m && !(addr <= a < addr + |data|) ==> m'[a] == m[a])
    decreases |data|
  {
    if |data| > 0 {
      var m1 := m[addr := data[0]];
      StoreStores(m1, addr + 1, data[1..]);
      var m' := Store(m, addr, data);
      assert m' == Store(m1, addr + 1, data[1..]);
      forall j | 0 <= j < |data| ensures m'[addr + j] == data[j] {
        if j > 0 {
          assert data[1..][j - 1] == data[j];
          assert m'[(addr + 1) + (j - 1)] == data[j];
        }
      }
    }
  }

  /** Storing bytes keeps every mapped run mapped. */
  lemma {:induction false} StoreKeepsMapped(m: Memory, addr: int, data: seq<bv8>, a: int, k: nat)
    requires Mapped(m, a, k)
    ensures Mapped(Store(m, addr, data), a, k)
    decreases |data|
  {
    if |data| > 0 {
      var m1 := m[addr := data[0]];
      assert Mapped(m1, a, k) by {
        forall j | a <= j < a + k ensures j in m1 {
          assert j in m;
        }
      }
      StoreKeepsMapped(m1, addr + 1, data[1..], a, k);
    }
  }

  /** Storing into mapped bytes maps and unmaps nothing. */
  lemma StoreKeys(m: Memory, addr: int, data: seq<bv8>)
    requires Mapped(m, addr, |data|)
    ensures Store(m, addr, data).Keys == m.Keys
  {
    StoreStores(m, addr, data);
  }

  /** What a successful write does to the address space. */
  lemma WriteBytesStores(m: Memory, addr: int, data: seq<bv8>)
    requires Mapped(m, addr, |data|)
    ensures var m' := WriteBytes(m, addr, data).value;
      m'.Keys == m.Keys
      && (forall j :: 0 <= j < |data| ==> m'[addr + j] == data[j])
      && (forall a :: a in m && !(addr <= a < addr + |data|) ==> m'[a] == m[a])
  {
    StoreStores(m, addr, data);
  }

  /** Reading back what was just written returns it. */
  lemma WriteThenRead(m: Memory, addr: int, data: seq<bv8>)
    requires Mapped(m, addr, |data|)
    ensures WriteBytes(m, addr, data).Some?
    ensures ReadBytes(WriteBytes(m, addr, data).value, addr, |data|) == Some(data)
  {
    var m' := WriteBytes(m, addr, data).value;
    WriteBytesStores(m, addr, data);
    var r := ReadBytes(m', addr, |data|);
    assert Mapped(m', addr, |data|);
    assert |r.value| == |data|;
    forall j | 0 <= j < |data| ensures r.value[j] == data[j] {
      assert r.value[j] == m'[addr + j];
    }
    assert r.value == data;
  }

  /** The little-endian 32-bit word made of four bytes. */
  function LeWord(b0: bv8, b1: bv8, b2: bv8, b3: bv8): bv32
  {
    (b3 as bv32 << 24) | (b2 as bv32 << 16) | (b1 as bv32 << 8) | b0 as bv32
  }

  /** The four bytes of a word, least significant first. */
  function LeBytes(w: bv32): (r: seq<bv8>)
    ensures |r| == 4
    ensures LeWord(r[0], r[1], r[2], r[3]) == w
  {
    [(w & 0xFF) as bv8, ((w >> 8) & 0xFF) as bv8, ((w >> 16) & 0xFF) as bv8, ((w >> 24) & 0xFF) as bv8]
  }

  lemma LeBytesOfWord(b0: bv8, b1: bv8, b2: bv8, b3: bv8)
    ensures LeBytes(LeWord(b0, b1, b2, b3)) == [b0, b1, b2, b3]
  {
  }

  /** `n` little-endian words decoded from `4 * n` bytes. */
  function WordsOf(b: seq<bv8>, n: nat): (r: seq<bv32>)
    requires |b| == 4 * n
    ensures |r| == n
    ensures forall k :: 0 <= k < n ==> r[k] == LeWord(b[4 * k], b[4 * k + 1], b[4 * k + 2], b[4 * k + 3])
  {
    seq(n, k requires 0 <= k < n => LeWord(b[4 * k], b[4 * k + 1], b[4 * k + 2], b[4 * k + 3]))
  }

  /** The bytes of a sequence of words, each little-endian. */
  function BytesOf(ws: seq<bv32>): (r: seq<bv8>)
    ensures |r| == 4 * |ws|
  {
    if |ws| == 0 then [] else LeBytes(ws[0]) + BytesOf(ws[1..])
  }

  /** No words have no bytes. */
  lemma BytesOfNil()
    ensures BytesOf([]) == []
  {
  }

  /** The bytes of a word, then those of the words after it. */
  lemma BytesOfCons(w: bv32, ws: seq<bv32>)
    ensures BytesOf([w] + ws) == LeBytes(w) + BytesOf(ws)
  {
    assert ([w] + ws)[1..] == ws;
  }

  lemma {:induction false} BytesOfAt(ws: seq<bv32>, k: nat)
    requires k < |ws|
    ensures BytesOf(ws)[4 * k .. 4 * k + 4] == LeBytes(ws[k])
  {
    if k > 0 {
      BytesOfAt(ws[1..], k - 1);
      assert BytesOf(ws) == LeBytes(ws[0]) + BytesOf(ws[1..]);
      assert BytesOf(ws)[4 * k .. 4 * k + 4] == BytesOf(ws[1..])[4 * (k - 1) .. 4 * (k - 1) + 4];
    }
  }

  /** Decoding the encoding of words gives the words back. */
  lemma WordsOfBytesOf(ws: seq<bv32>)
    ensures WordsOf(BytesOf(ws), |ws|) == ws
  {
    var b := BytesOf(ws);
    forall k | 0 <= k < |ws| ensures WordsOf(b, |ws|)[k] == ws[k] {
      BytesOfAt(ws, k);
      assert b[4 * k .. 4 * k + 4] == LeBytes(ws[k]);
      assert b[4 * k] == LeBytes(ws[k])[0];
      assert b[4 * k + 1] == LeBytes(ws[k])[1];
      assert b[4 * k + 2] == LeBytes(ws[k])[2];
      assert b[4 * k + 3] == LeBytes(ws[k])[3];
    }
  }

  /** A read of `n` little-endian words at `addr`. */
  function ReadWords(m: Memory, addr: int, n: nat): (r: Option<seq<bv32>>)
    ensures r.Some? <==> Mapped(m, addr, 4 * n)
    ensures r.Some? ==> |r.value| == n
  {
    match ReadBytes(m, addr, 4 * n)
    case None => None
    case Some(b) => Some(WordsOf(b, n))
  }

  /** A write of little-endian words at `addr`. */
  function WriteWords(m: Memory, addr: int, ws: seq<bv32>): (r: Option<Memory>)
    ensures r.Some? <==> Mapped(m, addr, 4 * |ws|)
  {
    WriteBytes(m, addr, BytesOf(ws))
  }

  /** Words written to memory read back unchanged. */
  lemma WriteWordsThenRead(m: Memory, addr: int, ws: seq<bv32>)
    requires Mapped(m, addr, 4 * |ws|)
    ensures WriteWords(m, addr, ws).Some?
    ensures ReadWords(WriteWords(m, addr, ws).value, addr, |ws|) == Some(ws)
  {
    WriteThenRead(m, addr, BytesOf(ws));
    WordsOfBytesOf(ws);
  }

  /** The byte at `a` as a CPU-side read sees it: zero where nothing
    * backs it. */
  function ByteAt(m: Memory, a: int): bv8
  {
    if a in m then m[a] else 0
  }

  /** The little-endian word at `a`, unbacked bytes reading as zero. */
  function WordAt(m: Memory, a: int): bv32
  {
    LeWord(ByteAt(m, a), ByteAt(m, a + 1), ByteAt(m, a + 2), ByteAt(m, a + 3))
  }

  /** A CPU-side physical read of `n` bytes at `addr`, which never fails:
    * a byte no region backs reads as zero. */
  function Load(m: Memory, addr: int, n: nat): (r: seq<bv8>)
    ensures |r| == n
    ensures forall j :: 0 <= j < n && addr + j !in m ==> r[j] == 0
  {
    seq(n, j requires 0 <= j < n => if addr + j in m then m[addr + j] else 0)
  }

  /** Where every byte is backed, the lenient read is the checked one. */
  lemma LoadIsRead(m: Memory, addr: int, n: nat)
    requires Mapped(m, addr, n)
    ensures ReadBytes(m, addr, n) == Some(Load(m, addr, n))
  {
    var r := ReadBytes(m, addr, n).value;
    var l := Load(m, addr, n);
    forall j | 0 <= j < n ensures r[j] == l[j] {
      assert addr + j in m;
    }
    assert r == l;
  }

  /** A CPU-side physical write of `data` at `addr`, which never fails:
    * bytes no region backs are dropped, every other byte is kept. */
  function Put(m: Memory, addr: int, data: seq<bv8>): (r: Memory)
    ensures r.Keys == m.Keys
    ensures forall a :: a in m && !(addr <= a < addr + |data|) ==> r[a] == m[a]
  {
    map a | a in m :: if addr <= a < addr + |data| then data[a - addr] else m[a]
  }

  /** Where every byte is backed, the lenient write is the checked one. */
  lemma PutIsWrite(m: Memory, addr: int, data: seq<bv8>)
    requires Mapped(m, addr, |data|)
    ensures WriteBytes(m, addr, data) == Some(Put(m, addr, data))
  {
    StoreStores(m, addr, data);
    var s := Store(m, addr, data);
    var p := Put(m, addr, data);
    forall a | a in m ensures s[a] == p[a] {
      if addr <= a < addr + |data| {
        assert s[addr + (a - addr)] == data[a - addr];
      }
    }
    assert s == p;
  }

  /** Bytes put into backed memory load back unchanged. */
  lemma PutThenLoad(m: Memory, addr: int, data: seq<bv8>)
    requires Mapped(m, addr, |data|)
    ensures Load(Put(m, addr, data), addr, |data|) == data
  {
    var r := Load(Put(m, addr, data), addr, |data|);
    forall j | 0 <= j < |data| ensures r[j] == data[j] {
      assert addr + j in m;
    }
  }

  /** A word put into backed memory reads back unchanged. */
  lemma PutThenWord(m: Memory, addr: int, data: seq<bv8>, k: nat, w: bv32, at: int)
    requires Mapped(m, addr, |data|) && 4 * k + 4 <= |data| && at == addr + 4 * k
    requires data[4 * k..4 * k + 4] == LeBytes(w)
    ensures WordAt(Put(m, addr, data), at) == w
  {
    var p := Put(m, addr, data);
    var b := LeBytes(w);
    forall i | 0 <= i < 4 ensures ByteAt(p, addr + 4 * k + i) == b[i] {
      assert addr + 4 * k + i in m;
      assert data[4 * k + i] == data[4 * k..4 * k + 4][i];
    }
  }

  /** A put keeps every backed run backed. */
  lemma PutKeepsMapped(m: Memory, addr: int, data: seq<bv8>, a: int, n: nat)
    requires Mapped(m, a, n)
    ensures Mapped(Put(m, addr, data), a, n)
  {
  }

  /** A put leaves a load of bytes outside it as it was. */
  lemma PutElsewhere(m: Memory, addr: int, data: seq<bv8>, a: int, n: nat)
    requires a + n <= addr || addr + |data| <= a
    ensures Load(Put(m, addr, data), a, n) == Load(m, a, n)
  {
  }
}
