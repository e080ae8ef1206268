/**
 * cdev_xvc.c: a long JTAG shift done 32 bits at a time through four registers.
 * Buffers and registers are bit sequences, least significant bit of byte 0 first; a copy of n
 * bytes at byte offset o is a copy of 8n bits at bit offset 8o.
 */
module Xvc {
  import opened Words
  import opened Errno

  const COMPLETION_LOOP_MAX := 100

  type Bits = seq<bool>

  /** One TCK cycle of the chain behind the bar: TMS and TDI in, TDO out. */
  type Tap<!S> = (S, bool, bool) -> (S, bool)

  /** Shifting bits one after another: the reference. */
  function Shift<S>(tap: Tap<S>, s: S, tms: Bits, tdi: Bits): (r: (S, Bits))
    requires |tms| == |tdi|
    ensures |r.1| == |tms|
    decreases |tms|
  {
    if tms == [] then (s, [])
    else
      var n := |tms| - 1;
      var (s1, out) := Shift(tap, s, tms[..n], tdi[..n]);
      var (s2, b) := tap(s1, tms[n], tdi[n]);
      (s2, out + [b])
  }

  /** Two shifts in a row are one longer shift. */
  lemma {:induction false} ShiftConcat<S>(tap: Tap<S>, s: S, a: Bits, b: Bits, c: Bits, d: Bits)
    requires |a| == |b| && |c| == |d|
    ensures var (s1, o1) := Shift(tap, s, a, b);
      var (s2, o2) := Shift(tap, s1, c, d);
      Shift(tap, s, a + c, b + d) == (s2, o1 + o2)
    decreases |c|
  {
    if c == [] {
      assert a + c == a && b + d == b;
      assert Shift(tap, s, a, b).1 + [] == Shift(tap, s, a, b).1;
    } else {
      var n := |c| - 1;
      ShiftConcat(tap, s, a, b, c[..n], d[..n]);
      assert (a + c)[..|a + c| - 1] == a + c[..n] && (b + d)[..|a + c| - 1] == b + d[..n];
      var (s1, o1) := Shift(tap, s, a, b);
      var (s2, o2) := Shift(tap, s1, c[..n], d[..n]);
      var (s3, bit) := tap(s2, c[n], d[n]);
      assert Shift(tap, s1, c, d) == (s3, o2 + [bit]);
      assert Shift(tap, s, a + c, b + d) == (s3, (o1 + o2) + [bit]);
      assert (o1 + o2) + [bit] == o1 + (o2 + [bit]);
    }
  }

  /** The debug bridge.  busyPolls(c) is how often the control register reads busy in shift c. */
  class XvcBar<S> {
    const tap: Tap<S>
    const busyPolls: nat -> nat
    const junk: (nat, nat) -> bool       // what TDO shows above the shifted bits
    var state: S
    var length: nat
    var tms: Bits
    var tdi: Bits
    var tdo: Bits
    var lengths: seq<nat>                // the length register at each shift so far

    constructor (tap: Tap<S>, busyPolls: nat -> nat, junk: (nat, nat) -> bool, s: S)
      ensures Valid() && this.tap == tap && this.busyPolls == busyPolls && this.junk == junk
      ensures state == s && lengths == []
    {
      this.tap, this.busyPolls, this.junk := tap, busyPolls, junk;
      state, length, lengths := s, 0, [];
      tms, tdi, tdo := seq(32, i => false), seq(32, i => false), seq(32, i => false);
    }

    ghost predicate Valid()
      reads this
    {
      |tms| == |tdi| == |tdo| == 32 && length <= 32
    }

    /** Setting bit 0 of the control register: shift `length` bits of TMS and TDI. */
    method StartShift()
      requires Valid()
      modifies `state, `tdo, `lengths
      ensures Valid() && lengths == old(lengths) + [length]
      ensures var (s, out) := Shift(tap, old(state), tms[..length], tdi[..length]);
        state == s && tdo[..length] == out
    {
      var r := Shift(tap, state, tms[..length], tdi[..length]);
      state := r.0;
      var c := |lengths|;
      var out, n := r.1, length;
      tdo := seq(32, i requires 0 <= i < 32 => if 0 <= i < n && i < |out| then out[i] else junk(c, i));
      lengths := lengths + [length];
    }

    /** xvc_shift_bits */
    method ShiftBits(tmsBits: Bits, tdiBits: Bits) returns (rv: int, tdoBits: Bits)
      requires Valid() && |tmsBits| == |tdiBits| == 32
      modifies `state, `tms, `tdi, `tdo, `lengths
      ensures Valid() && lengths == old(lengths) + [length] && |tdoBits| == 32
      ensures rv == if busyPolls(|old(lengths)|) < COMPLETION_LOOP_MAX then 0 else ETIMEDOUT
      ensures var (s, out) := Shift(tap, old(state), tmsBits[..length], tdiBits[..length]);
        state == s && (rv == 0 ==> tdoBits[..length] == out)
    {
      var busy := busyPolls(|lengths|);
      tms := tmsBits;
      tdi := tdiBits;
      StartShift();
      var count := COMPLETION_LOOP_MAX;
      var polls := 0;
      while count > 0
        invariant 0 <= count <= COMPLETION_LOOP_MAX && polls == COMPLETION_LOOP_MAX - count <= busy
      {
        if polls >= busy {
          break;
        }
        polls := polls + 1;
        count := count - 1;
      }
      tdoBits := tdo;
      rv := if count == 0 then ETIMEDOUT else 0;
    }
  }

  /** A store of 32 bits of which the low ones are copied from a buffer. */
  function Pad(bits: Bits): (r: Bits)
    requires |bits| <= 32
    ensures |r| == 32 && r[..|bits|] == bits
  {
    bits + seq(32 - |bits|, i => false)
  }

  /** memcpy into a buffer. */
  method CopyBits(buf: array<bool>, at: nat, src: Bits, n: nat)
    requires n <= |src| && at + n <= buf.Length
    modifies buf
    ensures buf[..at] == old(buf[..at]) && buf[at + n..] == old(buf[at + n..])
    ensures buf[at..at + n] == src[..n]
  {
    for i := 0 to n
      invariant forall j | 0 <= j < buf.Length && !(at <= j < at + i) :: buf[j] == old(buf[j])
      invariant forall j | at <= j < at + i :: buf[j] == src[j - at]
    {
      buf[at + i] := src[i];
    }
  }

  /** What the length register must hold in shift c of a request of `total` bits. */
  function ChunkLen(total: nat, c: nat): nat
    requires 32 * c < total
  {
    Min(32, total - 32 * c)
  }

  /** The first `bits` bits of the request have been shifted, and `out` begins with what came back. */
  ghost predicate Shifted<S>(tap: Tap<S>, s0: S, s: S, tms: Bits, tdi: Bits, bits: nat, out: Bits)
    requires bits <= |tms| && bits <= |tdi|
  {
    bits <= |out| && Shift(tap, s0, tms[..bits], tdi[..bits]) == (s, out[..bits])
  }

  lemma {:induction false} ShiftedMore<S>(tap: Tap<S>, s0: S, s1: S, s2: S, tms: Bits, tdi: Bits, bits: nat, n: nat,
                       out: Bits, more: Bits, out': Bits)
    requires bits + n <= |tms| && bits + n <= |tdi|
    requires Shifted(tap, s0, s1, tms, tdi, bits, out)
    requires Shift(tap, s1, tms[bits..bits + n], tdi[bits..bits + n]) == (s2, more)
    requires bits + n <= |out'| && out'[..bits] == out[..bits] && out'[bits..bits + n] == more
    ensures Shifted(tap, s0, s2, tms, tdi, bits + n, out')
  {
    ShiftConcat(tap, s0, tms[..bits], tdi[..bits], tms[bits..bits + n], tdi[bits..bits + n]);
    assert tms[..bits] + tms[bits..bits + n] == tms[..bits + n];
    assert tdi[..bits] + tdi[bits..bits + n] == tdi[..bits + n];
    assert out'[..bits + n] == out'[..bits] + out'[bits..bits + n];
  }

  /** One round of the loop of xvc_ioctl, at bit offset `bits` with `left` bits to go. */
  method ShiftChunk<S>(bar: XvcBar<S>, total: nat, tmsBuf: Bits, tdiBuf: Bits, tdoBuf: array<bool>,
                       bits: nat, left: nat, ghost s0: S, ghost to: nat)
    returns (rv: int)
    requires bar.Valid() && left > 0 && total == bits + left && bits % 32 == 0 && to == bits + Min(32, left)
    requires |tmsBuf| == |tdiBuf| == tdoBuf.Length == 8 * ((total + 7) / 8)
    requires left >= 32 ==> bar.length == 32
    requires Shifted(bar.tap, s0, bar.state, tmsBuf, tdiBuf, bits, tdoBuf[..])
    modifies bar, tdoBuf
    ensures bar.Valid() && bar.lengths == old(bar.lengths) + [Min(32, left)] && bar.length == Min(32, left)
    ensures rv == if bar.busyPolls(|old(bar.lengths)|) < COMPLETION_LOOP_MAX then 0 else ETIMEDOUT
    ensures rv == 0 ==>
      Shifted(bar.tap, s0, bar.state, tmsBuf, tdiBuf, to, tdoBuf[..])
  {
    var bytes := bits / 8;
    var shiftBytes := 4;
    if left < 32 {
      bar.length := left;
      shiftBytes := (left + 7) / 8;
    }
    var n := bar.length;
    ChunkFits(bits, left);
    var tmsStore := Pad(tmsBuf[8 * bytes..8 * bytes + 8 * shiftBytes]);
    var tdiStore := Pad(tdiBuf[8 * bytes..8 * bytes + 8 * shiftBytes]);
    PadPrefix(tmsBuf, bits, 8 * shiftBytes, n);
    PadPrefix(tdiBuf, bits, 8 * shiftBytes, n);
    ghost var s1, out := bar.state, tdoBuf[..];
    var tdoStore;
    rv, tdoStore := bar.ShiftBits(tmsStore, tdiStore);
    if rv < 0 {
      return;
    }
    CopyBits(tdoBuf, 8 * bytes, tdoStore, 8 * shiftBytes);
    CopyPrefix(out, tdoBuf[..], bits, tdoStore, 8 * shiftBytes, n);
    ShiftedMore(bar.tap, s0, s1, bar.state, tmsBuf, tdiBuf, bits, n, out, tdoStore[..n], tdoBuf[..]);
  }

  /** The bytes of a chunk hold its bits and lie inside the buffers. */
  lemma {:induction false} ChunkFits(bits: nat, left: nat)
    requires bits % 32 == 0 && left > 0
    ensures var bytes := if left < 32 then (left + 7) / 8 else 4;
      && 8 * (bits / 8) == bits
      && Min(32, left) <= 8 * bytes <= 32
      && bits + 8 * bytes <= 8 * ((bits + left + 7) / 8)
  {
    var w := bits / 32;
    assert bits == 32 * w && bits / 8 == 4 * w;
    assert (bits + left + 7) / 8 == 4 * w + (left + 7) / 8;
  }

  lemma {:induction false} PadPrefix(buf: Bits, at: nat, len: nat, n: nat)
    requires n <= len <= 32 && at + len <= |buf|
    ensures Pad(buf[at..at + len])[..n] == buf[at..at + n]
  {
  }

  lemma {:induction false} CopyPrefix(before: Bits, after: Bits, at: nat, src: Bits, len: nat, n: nat)
    requires n <= len <= |src| && at + len <= |before| == |after|
    requires after[..at] == before[..at] && after[at..at + len] == src[..len]
    ensures after[at..at + n] == src[..n]
  {
    assert after[at..at + n] == after[at..at + len][..n];
  }

  /** The length register at every shift of a request, in order. */
  ghost predicate LengthsFrom(log: seq<nat>, from: nat, total: nat, chunks: nat) {
    && |log| == from + chunks
    && forall c | 0 <= c < chunks :: 32 * c < total && log[from + c] == ChunkLen(total, c)
  }

  /**
   * xvc_ioctl from the opcode check on.  If no shift times out, the chain has seen one long shift
   * of exactly the caller's first `total` TMS and TDI bits, and TDO comes back in place.
   */
  method XvcIoctl<S>(bar: XvcBar<S>, opcode: nat, total: nat, tmsBuf: Bits, tdiBuf: Bits)
    returns (rv: int, userTdo: Bits)
    requires bar.Valid() && total <= TWO32 - 32
    requires |tmsBuf| == |tdiBuf| == 8 * ((total + 7) / 8)
    modifies bar
    ensures opcode != 1 && opcode != 2 <==> rv == EINVAL
    ensures rv == EINVAL ==> bar.state == old(bar.state) && bar.lengths == old(bar.lengths)
    ensures rv == 0 || rv == EINVAL || rv == ETIMEDOUT
    ensures rv == ETIMEDOUT ==>
      |bar.lengths| > |old(bar.lengths)| && bar.busyPolls(|bar.lengths| - 1) >= COMPLETION_LOOP_MAX
    ensures rv == 0 ==>
      && LengthsFrom(bar.lengths, |old(bar.lengths)|, total, (total + 31) / 32)
      && (forall c | |old(bar.lengths)| <= c < |bar.lengths| :: bar.busyPolls(c) < COMPLETION_LOOP_MAX)
      && |userTdo| == |tdiBuf|
      && var (s, out) := Shift(bar.tap, old(bar.state), tmsBuf[..total], tdiBuf[..total]);
         bar.state == s && (if opcode == 2 then userTdo == tdiBuf else userTdo[..total] == out)
  {
    userTdo := [];
    if opcode != 1 && opcode != 2 {
      return EINVAL, userTdo;
    }
    var totalBytes := (total + 7) / 8;
    var tdoBuf := new bool[8 * totalBytes];
    rv := ShiftAll(bar, total, tmsBuf, tdiBuf, tdoBuf);
    if rv < 0 {
      return;
    }
    userTdo := if opcode == 2 then tdiBuf else tdoBuf[..];
  }

  /** The loop of xvc_ioctl, under the lock. */
  method ShiftAll<S>(bar: XvcBar<S>, total: nat, tmsBuf: Bits, tdiBuf: Bits, tdoBuf: array<bool>)
    returns (rv: int)
    requires bar.Valid() && total <= TWO32 - 32
    requires |tmsBuf| == |tdiBuf| == tdoBuf.Length == 8 * ((total + 7) / 8)
    modifies bar, tdoBuf
    ensures bar.Valid() && (rv == 0 || rv == ETIMEDOUT)
    ensures rv == ETIMEDOUT ==>
      |bar.lengths| > |old(bar.lengths)| && bar.busyPolls(|bar.lengths| - 1) >= COMPLETION_LOOP_MAX
    ensures rv == 0 ==>
      && LengthsFrom(bar.lengths, |old(bar.lengths)|, total, (total + 31) / 32)
      && (forall c | |old(bar.lengths)| <= c < |bar.lengths| :: bar.busyPolls(c) < COMPLETION_LOOP_MAX)
      && Shifted(bar.tap, old(bar.state), bar.state, tmsBuf, tdiBuf, total, tdoBuf[..])
  {
    ghost var s0 := bar.state;
    ghost var from := |bar.lengths|;
    rv := 0;
    if total >= 32 {
      bar.length := 32;
    }
    var bits, left: U32 := 0, total;
    ghost var chunks, at := 0, 0;
    assert tmsBuf[..0] == [] && tdiBuf[..0] == [];
    while bits < total
      invariant bits == 32 * chunks && bits < total + 32 && (bits <= total ==> left == total - bits)
      invariant bar.Valid() && rv == 0
      invariant bits < total && left >= 32 ==> bar.length == 32
      invariant LengthsFrom(bar.lengths, from, total, chunks)
      invariant forall c | from <= c < |bar.lengths| :: bar.busyPolls(c) < COMPLETION_LOOP_MAX
      invariant at == Min(bits, total) && Shifted(bar.tap, s0, bar.state, tmsBuf, tdiBuf, at, tdoBuf[..])
      decreases total + 32 - bits
    {
      at := bits + Min(32, left);
      rv := ShiftChunk(bar, total, tmsBuf, tdiBuf, tdoBuf, bits, left, s0, at);
      if rv < 0 {
        return;
      }
      bits := bits + 32;
      left := Sub32(left, 32);
      chunks := chunks + 1;
    }
    assert chunks == (total + 31) / 32;
  }
}
