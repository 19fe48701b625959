/**
 * The circular FIFOs of the UART (16 entries) and the SD host (128 words)
 * keep a start index and a count over a fixed buffer.  `Window` is the
 * queue such a triple holds, oldest entry first.
 */
module RingWindow {

  /** The `count` entries starting at `pos`, wrapping at the buffer's end. */
  function Window<T>(buf: seq<T>, pos: nat, count: nat): (q: seq<T>)
    requires pos < |buf| && count <= |buf|
    ensures |q| == count
  {
    seq(count, k requires 0 <= k < count => buf[(pos + k) % |buf|])
  }

  /** The slot a push writes: just past the newest entry. */
  function Tail(cap: nat, pos: nat, count: nat): (s: nat)
    requires pos < cap && count < cap
    ensures s < cap
    ensures s == (pos + count) % cap
  {
    LapMod(cap, pos + count);
    if pos + count >= cap then pos + count - cap else pos + count
  }

  /** The start index after a pop. */
  function Next(cap: nat, pos: nat): (n: nat)
    requires pos < cap
    ensures n < cap
    ensures n == (pos + 1) % cap
  {
    LapMod(cap, pos + 1);
    if pos + 1 == cap then 0 else pos + 1
  }

  /** Below two laps, wrapping subtracts at most one lap. */
  lemma LapMod(cap: nat, a: nat)
    requires 0 < cap && a < 2 * cap
    ensures a % cap == if a >= cap then a - cap else a
  {
    if a >= cap {
      assert a == cap * 1 + (a - cap);
    } else {
      assert a == cap * 0 + a;
    }
  }

  /** Writing the tail slot and counting it appends to the queue. */
  lemma Push<T>(buf: seq<T>, pos: nat, count: nat, x: T)
    requires pos < |buf| && count < |buf|
    ensures Window(buf[Tail(|buf|, pos, count) := x], pos, count + 1) == Window(buf, pos, count) + [x]
  {
    var cap := |buf|;
    var t := Tail(cap, pos, count);
    var b := buf[t := x];
    forall k | 0 <= k < count
      ensures Window(b, pos, count + 1)[k] == Window(buf, pos, count)[k]
    {
      SlotsDiffer(cap, pos, k, count);
    }
  }

  /** Within one lap, distinct offsets from the start name distinct slots. */
  lemma SlotsDiffer(cap: nat, pos: nat, j: nat, k: nat)
    requires pos < cap && j < k < cap
    ensures (pos + j) % cap != (pos + k) % cap
  {
    if pos + k < cap {
    } else if pos + j < cap {
      assert (pos + k) % cap == pos + k - cap;
    } else {
      assert (pos + j) % cap == pos + j - cap;
      assert (pos + k) % cap == pos + k - cap;
    }
  }

  /** Advancing the start and dropping one from the count removes the
    * oldest entry, which sits at the start. */
  lemma Pop<T>(buf: seq<T>, pos: nat, count: nat)
    requires pos < |buf| && 0 < count <= |buf|
    ensures Window(buf, pos, count)[0] == buf[pos]
    ensures Window(buf, Next(|buf|, pos), count - 1) == Window(buf, pos, count)[1..]
  {
    var cap := |buf|;
    var w := Window(buf, pos, count);
    var v := Window(buf, Next(cap, pos), count - 1);
    assert w[0] == buf[pos] by {
      assert pos % cap == pos;
    }
    forall k | 0 <= k < count - 1
      ensures v[k] == w[k + 1]
    {
      WrapShift(cap, pos, k);
      assert v[k] == buf[(Next(cap, pos) + k) % cap];
      assert w[k + 1] == buf[(pos + (k + 1)) % cap];
    }
    assert v == w[1..];
  }

  /** One step past the start, wrapped, is the next slot of the lap. */
  lemma WrapShift(cap: nat, pos: nat, k: nat)
    requires pos < cap && k + 1 < cap
    ensures (Next(cap, pos) + k) % cap == (pos + k + 1) % cap
  {
    if pos + 1 == cap {
      assert (pos + k + 1) % cap == k;
    }
  }
}
