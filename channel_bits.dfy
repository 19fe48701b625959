/**
 * The eight-channel bit words of the DMA controller (channel enable and the
 * raw and mask words of each interrupt kind).  The controller only ever
 * stores the low eight bits of these registers, so the model keeps them as
 * eight flags, one per channel, and converts at the register interface.
 */
module ChannelBits {

  const Channels: nat := 8

  /** The bit of channel `c` in a channel word. */
  function Bit(c: nat): (b: bv32)
    requires c < Channels
    ensures b != 0 && b <= 0x80
  {
    [0x01, 0x02, 0x04, 0x08, 0x10, 0x20, 0x40, 0x80][c]
  }

  /** Distinct channels own distinct bits. */
  lemma BitsDisjoint(i: nat, j: nat)
    requires i < Channels && j < Channels && i != j
    ensures Bit(i) & Bit(j) == 0
  {
  }

  function Flag(b: bool, bit: bv32): bv32
  {
    if b then bit else 0
  }

  /** The register word of eight channel flags. */
  function Pack(f: seq<bool>): (v: bv32)
    requires |f| == Channels
    ensures v <= 0xFF
  {
    Flag(f[0], 0x01) | Flag(f[1], 0x02) | Flag(f[2], 0x04) | Flag(f[3], 0x08)
    | Flag(f[4], 0x10) | Flag(f[5], 0x20) | Flag(f[6], 0x40) | Flag(f[7], 0x80)
  }

  /** The channel flags of a register word: its low eight bits. */
  function Unpack(v: bv32): (f: seq<bool>)
    ensures |f| == Channels
    ensures forall c :: 0 <= c < Channels ==> f[c] == (v & Bit(c) != 0)
  {
    seq(Channels, c requires 0 <= c < Channels => v & Bit(c) != 0)
  }

  /** Channel `c`'s bit of a packed word is its flag. */
  lemma PackBit(f: seq<bool>, c: nat)
    requires |f| == Channels && c < Channels
    ensures Pack(f) & Bit(c) != 0 <==> f[c]
  {
    if c == 0 {} else if c == 1 {} else if c == 2 {} else if c == 3 {}
    else if c == 4 {} else if c == 5 {} else if c == 6 {} else {}
  }

  /** Packing keeps every flag. */
  lemma UnpackPack(f: seq<bool>)
    requires |f| == Channels
    ensures Unpack(Pack(f)) == f
  {
    forall c | 0 <= c < Channels ensures Unpack(Pack(f))[c] == f[c] {
      PackBit(f, c);
    }
  }

  /** Unpacking then packing a word keeps its low eight bits. */
  lemma PackUnpack(v: bv32)
    ensures Pack(Unpack(v)) == v & 0xFF
  {
    var f := Unpack(v);
    assert Pack(f) == Flag(v & 1 != 0, 1) | Flag(v & 2 != 0, 2) | Flag(v & 4 != 0, 4) | Flag(v & 8 != 0, 8)
      | Flag(v & 0x10 != 0, 0x10) | Flag(v & 0x20 != 0, 0x20) | Flag(v & 0x40 != 0, 0x40) | Flag(v & 0x80 != 0, 0x80);
    LowByteOfFlags(v);
  }

  lemma LowByteOfFlags(v: bv32)
    ensures Flag(v & 1 != 0, 1) | Flag(v & 2 != 0, 2) | Flag(v & 4 != 0, 4) | Flag(v & 8 != 0, 8)
      | Flag(v & 0x10 != 0, 0x10) | Flag(v & 0x20 != 0, 0x20) | Flag(v & 0x40 != 0, 0x40) | Flag(v & 0x80 != 0, 0x80)
      == v & 0xFF
  {
  }

  /** Channels whose flags are set in both words. */
  function Both(a: seq<bool>, b: seq<bool>): (r: seq<bool>)
    requires |a| == Channels && |b| == Channels
    ensures |r| == Channels && forall c :: 0 <= c < Channels ==> r[c] == (a[c] && b[c])
  {
    seq(Channels, c requires 0 <= c < Channels => a[c] && b[c])
  }

  lemma AndBit(x: bv32, y: bv32, c: nat)
    requires c < Channels
    ensures (x & y & Bit(c) != 0) == (x & Bit(c) != 0 && y & Bit(c) != 0)
  {
    if c == 0 {} else if c == 1 {} else if c == 2 {} else if c == 3 {}
    else if c == 4 {} else if c == 5 {} else if c == 6 {} else {}
  }

  lemma AndLow(x: bv32, y: bv32)
    requires x <= 0xFF
    ensures x & y <= 0xFF
  {
  }

  /** Some channel's flag is set. */
  predicate Any(f: seq<bool>)
    requires |f| == Channels
  {
    f[0] || f[1] || f[2] || f[3] || f[4] || f[5] || f[6] || f[7]
  }

  lemma AnyIff(f: seq<bool>)
    requires |f| == Channels
    ensures Any(f) <==> exists c :: 0 <= c < Channels && f[c]
  {
    if Any(f) {
      if f[0] { assert f[0]; } else if f[1] { assert f[1]; } else if f[2] { assert f[2]; }
      else if f[3] { assert f[3]; } else if f[4] { assert f[4]; } else if f[5] { assert f[5]; }
      else if f[6] { assert f[6]; } else { assert f[7]; }
    }
  }

  lemma PackBoth(a: seq<bool>, b: seq<bool>)
    requires |a| == Channels && |b| == Channels
    ensures Pack(a) & Pack(b) == Pack(Both(a, b))
  {
    var m := Pack(a) & Pack(b);
    AndLow(Pack(a), Pack(b));
    forall c | 0 <= c < Channels ensures Unpack(m)[c] == Both(a, b)[c] {
      BothBit(a, b, c);
    }
    WordOfFlags(m, Both(a, b));
  }

  lemma BothBit(a: seq<bool>, b: seq<bool>, c: nat)
    requires |a| == Channels && |b| == Channels && c < Channels
    ensures Unpack(Pack(a) & Pack(b))[c] == Both(a, b)[c]
  {
    AndBit(Pack(a), Pack(b), c);
    PackBit(a, c);
    PackBit(b, c);
  }

  /** A packed word is non-zero exactly when some flag is set. */
  lemma PackNonZero(f: seq<bool>)
    requires |f| == Channels
    ensures Pack(f) != 0 <==> Any(f)
  {
    AnyIff(f);
    if Any(f) {
      var c :| 0 <= c < Channels && f[c];
      PackBit(f, c);
    }
  }

  /** The interrupt status of one kind, `raw & mask` in the register, is
    * non-zero exactly when some channel has both its raw and mask flag. */
  lemma OverlapIff(raw: seq<bool>, mask: seq<bool>)
    requires |raw| == Channels && |mask| == Channels
    ensures Pack(raw) & Pack(mask) != 0 <==> Any(Both(raw, mask))
  {
    PackBoth(raw, mask);
    PackNonZero(Both(raw, mask));
  }

  // ---------------------------------------------------------------------------
  // Byte-enable and clear writes

  /** Byte-enable update: bits under `e` come from `v`, the rest from `orig`. */
  function MaskedValue(orig: bv32, e: bv32, v: bv32): bv32
  {
    (!e & orig) | (e & v)
  }

  /** The write-enable byte of a MaskX or ChEnReg write: bits 15:8. */
  function WriteEnable(v: bv32): (e: bv32)
    ensures e <= 0xFF
  {
    (v >> 8) & 0xFF
  }

  /** A byte-enable write on flags: channel `c` takes bit `c` of `v` when
    * bit `c + 8` of `v` is set and keeps its flag otherwise. */
  function MaskedFlags(f: seq<bool>, v: bv32): (r: seq<bool>)
    requires |f| == Channels
    ensures |r| == Channels
    ensures forall c :: 0 <= c < Channels ==>
      r[c] == if WriteEnable(v) & Bit(c) != 0 then v & Bit(c) != 0 else f[c]
  {
    seq(Channels, c requires 0 <= c < Channels =>
      if WriteEnable(v) & Bit(c) != 0 then v & Bit(c) != 0 else f[c])
  }

  lemma MaskedValueBit(orig: bv32, e: bv32, v: bv32, c: nat)
    requires c < Channels
    ensures (MaskedValue(orig, e, v) & Bit(c) != 0)
      == if e & Bit(c) != 0 then v & Bit(c) != 0 else orig & Bit(c) != 0
  {
    if c == 0 {} else if c == 1 {} else if c == 2 {} else if c == 3 {}
    else if c == 4 {} else if c == 5 {} else if c == 6 {} else {}
  }

  lemma MaskedValueLow(orig: bv32, e: bv32, v: bv32)
    requires orig <= 0xFF && e <= 0xFF
    ensures MaskedValue(orig, e, v) <= 0xFF
  {
  }

  /** The flag update is the register's byte-enable update: packing the
    * new flags gives `(~e & old) | (e & v)` with `e` the write-enable byte. */
  lemma MaskedFlagsWord(f: seq<bool>, v: bv32)
    requires |f| == Channels
    ensures Pack(MaskedFlags(f, v)) == MaskedValue(Pack(f), WriteEnable(v), v)
  {
    var m := MaskedValue(Pack(f), WriteEnable(v), v);
    MaskedValueLow(Pack(f), WriteEnable(v), v);
    forall c | 0 <= c < Channels ensures Unpack(m)[c] == MaskedFlags(f, v)[c] {
      MaskedFlagBit(f, v, c);
    }
    WordOfFlags(m, MaskedFlags(f, v));
  }

  lemma MaskedFlagBit(f: seq<bool>, v: bv32, c: nat)
    requires |f| == Channels && c < Channels
    ensures Unpack(MaskedValue(Pack(f), WriteEnable(v), v))[c] == MaskedFlags(f, v)[c]
  {
    MaskedValueBit(Pack(f), WriteEnable(v), v, c);
    PackBit(f, c);
  }

  /** A word of eight bits is the packing of its flags. */
  lemma WordOfFlags(m: bv32, f: seq<bool>)
    requires m <= 0xFF && |f| == Channels
    requires forall c :: 0 <= c < Channels ==> Unpack(m)[c] == f[c]
    ensures Pack(f) == m
  {
    assert Unpack(m) == f;
    PackUnpack(m);
    LowByte(m);
  }

  lemma LowByte(m: bv32)
    requires m <= 0xFF
    ensures m & 0xFF == m
  {
  }

  lemma ClearedLow(orig: bv32, v: bv32)
    requires orig <= 0xFF
    ensures orig & !(v & 0xFF) <= 0xFF
  {
  }

  /** Write-one-to-clear on flags: channel `c`'s flag is cleared when bit
    * `c` of `v` is set. */
  function ClearedFlags(f: seq<bool>, v: bv32): (r: seq<bool>)
    requires |f| == Channels
    ensures |r| == Channels
    ensures forall c :: 0 <= c < Channels ==> r[c] == (f[c] && v & Bit(c) == 0)
  {
    seq(Channels, c requires 0 <= c < Channels => f[c] && v & Bit(c) == 0)
  }

  lemma ClearBit(orig: bv32, v: bv32, c: nat)
    requires c < Channels
    ensures (orig & !(v & 0xFF) & Bit(c) != 0) == (orig & Bit(c) != 0 && v & Bit(c) == 0)
  {
    if c == 0 {} else if c == 1 {} else if c == 2 {} else if c == 3 {}
    else if c == 4 {} else if c == 5 {} else if c == 6 {} else {}
  }

  /** The flag update is the register's `raw &= ~(v & 0xFF)`. */
  lemma ClearedFlagsWord(f: seq<bool>, v: bv32)
    requires |f| == Channels
    ensures Pack(ClearedFlags(f, v)) == Pack(f) & !(v & 0xFF)
  {
    var m := Pack(f) & !(v & 0xFF);
    ClearedLow(Pack(f), v);
    forall c | 0 <= c < Channels ensures Unpack(m)[c] == ClearedFlags(f, v)[c] {
      ClearedFlagBit(f, v, c);
    }
    WordOfFlags(m, ClearedFlags(f, v));
  }

  lemma ClearedFlagBit(f: seq<bool>, v: bv32, c: nat)
    requires |f| == Channels && c < Channels
    ensures Unpack(Pack(f) & !(v & 0xFF))[c] == ClearedFlags(f, v)[c]
  {
    ClearBit(Pack(f), v, c);
    PackBit(f, c);
  }
}
