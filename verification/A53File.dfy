/**
 * tools/pcie_a53_rw: a file sent to the A53 in chunks through a mapped window.
 *
 * The header of each chunk is put together by 32-bit stores that overlap; the interrupt register
 * hands it over.
 */
module A53File {
  import opened Words

  const MAP_SIZE := 0x100000
  const UDATALEN := 0xF600
  const REG_INT := 0x30300
  const REG_KIND := 0x30304
  const FILE_FLAG: U32 := 0x5B5BB5B5
  const CMD_FILE := 4
  const POLL_MAX := 100000

  /** Byte k of a little-endian word. */
  function LeByte(v: nat, k: nat): Byte {
    (match k
     case 0 => v
     case 1 => v / 256
     case 2 => v / 256 / 256
     case _ => v / 256 / 256 / 256) % 256
  }

  function Le16(m: seq<Byte>, a: nat): nat
    requires a + 2 <= |m|
  {
    (m[a] as int) + 0x100 * (m[a + 1] as int)
  }

  function Le32(m: seq<Byte>, a: nat): nat
    requires a + 4 <= |m|
  {
    Le16(m, a) + 0x10000 * Le16(m, a + 2)
  }

  function ByteSum(bs: seq<Byte>): nat {
    if bs == [] then 0 else ByteSum(bs[..|bs| - 1]) + bs[|bs| - 1]
  }

  /** What the A53 finds in the window when it is interrupted. */
  datatype Msg = Msg(
    kind: nat, flag: nat, total: nat, offset: nat, len: nat, sync: Byte, checksum: Byte, data: seq<Byte>)

  function Received(m: seq<Byte>): Msg
    requires |m| == MAP_SIZE
  {
    var len := Le16(m, 108);
    Msg(Le32(m, REG_KIND), Le32(m, 0), Le32(m, 100), Le32(m, 104), len, m[110], m[111], m[120..120 + len])
  }

  /** Chunk k of a file: full chunks first, then a last one, possibly empty, that asks for a sync. */
  function Chunk(file: seq<Byte>, k: nat): (d: seq<Byte>)
    requires k <= |file| / UDATALEN
    ensures |d| <= UDATALEN
  {
    if k < |file| / UDATALEN then file[k * UDATALEN..(k + 1) * UDATALEN] else file[k * UDATALEN..]
  }

  function ChunkMsg(file: seq<Byte>, k: nat): Msg
    requires k <= |file| / UDATALEN
  {
    var d := Chunk(file, k);
    Msg(CMD_FILE, FILE_FLAG, |file|, k * UDATALEN, |d|, if k == |file| / UDATALEN then 1 else 0,
        ByteSum(d) % 256, d)
  }

  function FileMsgs(file: seq<Byte>, n: nat): (ms: seq<Msg>)
    requires n <= |file| / UDATALEN + 1
    ensures |ms| == n
  {
    seq(n, k requires 0 <= k < n => ChunkMsg(file, k))
  }

  /** The A53's side: append each chunk at its offset, refusing gaps and bad checksums. */
  function Assemble(ms: seq<Msg>): (r: (bool, seq<Byte>))
  {
    if ms == [] then (true, [])
    else
      var (ok, f) := Assemble(ms[..|ms| - 1]);
      var m := ms[|ms| - 1];
      (ok && m.offset == |f| && m.len == |m.data| && m.checksum == ByteSum(m.data) % 256, f + m.data)
  }

  lemma {:induction false} AssemblePrefix(file: seq<Byte>, n: nat)
    requires n <= |file| / UDATALEN
    ensures Assemble(FileMsgs(file, n)) == (true, file[..n * UDATALEN])
  {
    if n > 0 {
      var m := n - 1;
      AssemblePrefix(file, m);
      AssembleOneMore(file, m, n);
      assert file[..m * UDATALEN] + file[m * UDATALEN..n * UDATALEN] == file[..n * UDATALEN];
    }
  }

  /** Received in order, the messages of a file are accepted and give back the file. */
  lemma {:induction false} FileArrives(file: seq<Byte>)
    ensures Assemble(FileMsgs(file, |file| / UDATALEN + 1)) == (true, file)
    ensures var ms := FileMsgs(file, |file| / UDATALEN + 1);
      forall k | 0 <= k < |ms| :: ms[k].sync == if k == |ms| - 1 then 1 else 0
  {
    var n := |file| / UDATALEN;
    AssemblePrefix(file, n);
    AssembleOneMore(file, n, n + 1);
    assert file[..n * UDATALEN] + file[n * UDATALEN..] == file;
  }

  /** Accepting the next message appends its chunk. */
  lemma {:induction false} AssembleOneMore(file: seq<Byte>, n: nat, n': nat)
    requires n' == n + 1 && n <= |file| / UDATALEN && Assemble(FileMsgs(file, n)) == (true, file[..n * UDATALEN])
    ensures Assemble(FileMsgs(file, n')) == (true, file[..n * UDATALEN] + Chunk(file, n))
  {
    var ms := FileMsgs(file, n');
    assert ms[..|ms| - 1] == FileMsgs(file, n);
    assert ms[n] == ChunkMsg(file, n);
  }

  /** Where bytes a.. of the window were replaced. */
  ghost predicate Stored(m: seq<Byte>, m': seq<Byte>, a: nat, bs: seq<Byte>) {
    && |m| == |m'| && a + |bs| <= |m|
    && (forall j | 0 <= j < |m| && !(a <= j < a + |bs|) :: m'[j] == m[j])
    && (forall j | a <= j < a + |bs| :: m'[j] == bs[j - a])
  }

  function Word(v: nat): seq<Byte> {
    [LeByte(v, 0), LeByte(v, 1), LeByte(v, 2), LeByte(v, 3)]
  }

  lemma {:induction false} WordRoundTrip(v: U32)
    ensures Le32(Word(v), 0) == v && (v < TWO16 ==> Le16(Word(v), 0) == v)
  {
  }

  lemma {:induction false} StoredWord(m: seq<Byte>, m': seq<Byte>, a: nat, v: U32)
    requires Stored(m, m', a, Word(v))
    ensures Le32(m', a) == v && (v < TWO16 ==> Le16(m', a) == v)
  {
    WordRoundTrip(v);
    var w := Word(v);
    assert m'[a] == w[0] && m'[a + 1] == w[1] && m'[a + 2] == w[2] && m'[a + 3] == w[3];
  }

  /** The same bytes in both. */
  ghost predicate Same(m: seq<Byte>, m': seq<Byte>, lo: nat, hi: nat) {
    hi <= |m| && hi <= |m'| && forall j | lo <= j < hi :: m'[j] == m[j]
  }

  lemma {:induction false} SameWord(m: seq<Byte>, m': seq<Byte>, a: nat)
    requires a + 4 <= |m| && Same(m, m', a, a + 4)
    ensures Le32(m', a) == Le32(m, a) && Le16(m', a) == Le16(m, a)
  {
  }

  /** The stores of a header, in the order of the source: each overlaps the next. */
  ghost predicate HeaderStores(m0: seq<Byte>, m1: seq<Byte>, m2: seq<Byte>, m3: seq<Byte>, m4: seq<Byte>, m5: seq<Byte>,
                               m6: seq<Byte>, m7: seq<Byte>, offset: U32, sync: Byte, checksum: Byte, data: seq<Byte>)
  {
    && |m0| == MAP_SIZE && |data| <= UDATALEN
    && Stored(m0, m1, 104, Word(offset)) && Stored(m1, m2, 108, Word(|data|))
    && Stored(m2, m3, 110, Word(sync)) && Stored(m3, m4, 111, [checksum, 0, 0, 0])
    && Stored(m4, m5, 120, data)
    && Stored(m5, m6, REG_KIND, Word(CMD_FILE)) && Stored(m6, m7, REG_INT, Word(1))
  }

  /** What each store wrote of its field is still there at the end. */
  lemma {:induction false} HeaderKept(m0: seq<Byte>, m1: seq<Byte>, m2: seq<Byte>, m3: seq<Byte>, m4: seq<Byte>,
                                      m5: seq<Byte>, m6: seq<Byte>, m7: seq<Byte>,
                                      offset: U32, sync: Byte, checksum: Byte, data: seq<Byte>)
    requires HeaderStores(m0, m1, m2, m3, m4, m5, m6, m7, offset, sync, checksum, data)
    ensures Same(m0, m7, 0, 4) && Same(m0, m7, 100, 104) && Same(m1, m7, 104, 108) && Same(m2, m7, 108, 110)
    ensures Same(m6, m7, REG_KIND, REG_KIND + 4)
    ensures m7[110] == sync && m7[111] == checksum && m7[120..120 + |data|] == data
  {
    assert m3[110] == LeByte(sync, 0) == sync;
  }

  /** The overlapping stores leave every header field intact. */
  lemma {:induction false} HeaderComposed(m0: seq<Byte>, m1: seq<Byte>, m2: seq<Byte>, m3: seq<Byte>, m4: seq<Byte>,
                                          m5: seq<Byte>, m6: seq<Byte>, m7: seq<Byte>,
                                          offset: U32, sync: Byte, checksum: Byte, data: seq<Byte>)
    requires HeaderStores(m0, m1, m2, m3, m4, m5, m6, m7, offset, sync, checksum, data)
    ensures Received(m7) == Msg(CMD_FILE, Le32(m0, 0), Le32(m0, 100), offset, |data|, sync, checksum, data)
    ensures Le32(m7, 0) == Le32(m0, 0) && Le32(m7, 100) == Le32(m0, 100)
  {
    HeaderKept(m0, m1, m2, m3, m4, m5, m6, m7, offset, sync, checksum, data);
    StoredWord(m0, m1, 104, offset);
    StoredWord(m1, m2, 108, |data|);
    StoredWord(m5, m6, REG_KIND, CMD_FILE);
    SameWord(m1, m7, 104);
    SameWord(m0, m7, 0);
    SameWord(m0, m7, 100);
    SameWord(m6, m7, REG_KIND);
  }

  /** The mapped window, and the messages handed over so far. */
  class Window {
    const mem: array<Byte>
    var log: seq<Msg>

    constructor ()
      ensures Valid() && log == [] && fresh(mem)
    {
      mem := new Byte[MAP_SIZE](_ => 0);
      log := [];
    }

    ghost predicate Valid() {
      mem.Length == MAP_SIZE
    }

    /**
     * xdma_reg_write: a 32-bit store at any byte address.  A one in the interrupt register makes the
     * A53 take the message that is then in the window.
     */
    method RegWrite(a: nat, v: U32)
      requires Valid() && a + 4 <= MAP_SIZE
      modifies mem, `log
      ensures Stored(old(mem[..]), mem[..], a, Word(v))
      ensures log == if a == 0x30300 && v == 1 then old(log) + [Received(mem[..])] else old(log)
    {
      mem[a], mem[a + 1], mem[a + 2], mem[a + 3] := LeByte(v, 0), LeByte(v, 1), LeByte(v, 2), LeByte(v, 3);
      if a == REG_INT && v == 1 {
        log := log + [Received(mem[..])];
      }
    }

    /** xdma_reg_write_bytes: also a 32-bit store, of a value below 256. */
    method RegWriteByte(a: nat, v: Byte)
      requires Valid() && a + 4 <= MAP_SIZE
      modifies mem, `log
      ensures Stored(old(mem[..]), mem[..], a, [v, 0, 0, 0])
      ensures log == if a == 0x30300 && v == 1 then old(log) + [Received(mem[..])] else old(log)
    {
      RegWrite(a, v);
    }

    /** xdma_memcpy_write */
    method MemcpyWrite(a: nat, data: seq<Byte>)
      requires Valid() && a + |data| <= MAP_SIZE
      modifies mem
      ensures Stored(old(mem[..]), mem[..], a, data)
    {
      for i := 0 to |data|
        invariant forall j | 0 <= j < mem.Length && !(a <= j < a + i) :: mem[j] == old(mem[j])
        invariant forall j | a <= j < a + i :: mem[j] == data[j - a]
      {
        mem[a + i] := data[i];
      }
    }
  }

  /** The running checksum of the source, in a 32-bit variable; its low byte is sent. */
  method Checksum(data: seq<Byte>) returns (last: Byte)
    ensures last == ByteSum(data) % 256
  {
    var checksum: U32 := 0;
    for i := 0 to |data|
      invariant checksum == Wrap32(ByteSum(data[..i]))
    {
      ByteSumTake(data, i);
      WrapAdd32(ByteSum(data[..i]), data[i]);
      checksum := Wrap32(checksum + data[i]);
    }
    assert data[..|data|] == data;
    LowByte(ByteSum(data));
    last := checksum % 256;
  }

  lemma {:induction false} ByteSumTake(data: seq<Byte>, i: nat)
    requires i < |data|
    ensures ByteSum(data[..i + 1]) == ByteSum(data[..i]) + data[i]
  {
    assert data[..i + 1][..i] == data[..i];
  }

  lemma {:induction false} LowByte(x: nat)
    ensures Wrap32(x) % 256 == x % 256
  {
    Wrap32IsMod(x);
  }

  /** One chunk: header, data, command, interrupt. */
  method SendChunk(win: Window, offset: U32, data: seq<Byte>, sync: Byte)
    requires win.Valid() && |data| <= UDATALEN
    modifies win.mem, win`log
    ensures win.log == old(win.log)
      + [Msg(CMD_FILE, Le32(old(win.mem[..]), 0), Le32(old(win.mem[..]), 100), offset, |data|, sync,
             ByteSum(data) % 256, data)]
    ensures Le32(win.mem[..], 0) == Le32(old(win.mem[..]), 0)
    ensures Le32(win.mem[..], 100) == Le32(old(win.mem[..]), 100)
  {
    ghost var m0 := win.mem[..];
    win.RegWrite(104, offset);
    ghost var m1 := win.mem[..];
    win.RegWrite(108, |data|);
    ghost var m2 := win.mem[..];
    win.RegWrite(110, sync);
    ghost var m3 := win.mem[..];
    var last := Checksum(data);
    win.RegWriteByte(111, last);
    ghost var m4 := win.mem[..];
    win.MemcpyWrite(120, data);
    ghost var m5 := win.mem[..];
    win.RegWrite(REG_KIND, CMD_FILE);
    ghost var m6 := win.mem[..];
    win.RegWrite(REG_INT, 1);
    HeaderComposed(m0, m1, m2, m3, m4, m5, m6, win.mem[..], offset, sync, last, data);
  }

  /** The A53's answer to one chunk: how often the interrupt register reads busy, and the result. */
  datatype Reply = Reply(busy: nat, result: nat)

  function BusySum(replies: nat -> Reply, n: nat): nat {
    if n == 0 then 0 else BusySum(replies, n - 1) + replies(n - 1).busy
  }

  /** The polls of all chunks draw on one budget, because loop_count is never reset. */
  ghost predicate Accepted(replies: nat -> Reply, n: nat) {
    forall k | 0 <= k < n :: AcceptedAt(replies, k)
  }

  ghost predicate AcceptedAt(replies: nat -> Reply, k: nat) {
    BusySum(replies, k) + replies(k).busy < POLL_MAX && replies(k).result == 0
  }

  lemma {:induction false} BusySumGrows(replies: nat -> Reply, i: nat, n: nat)
    requires i <= n
    ensures BusySum(replies, i) <= BusySum(replies, n)
  {
    if i < n {
      BusySumGrows(replies, i, n - 1);
    }
  }

  /** No two chunks of a file that is accepted can together use up the budget. */
  lemma {:induction false} SharedBudget(replies: nat -> Reply, n: nat, i: nat, j: nat)
    requires Accepted(replies, n) && i < j < n
    ensures replies(i).busy + replies(j).busy < 100000 && replies(i).result == 0
  {
    assert AcceptedAt(replies, i) && AcceptedAt(replies, j);
    BusySumGrows(replies, i + 1, j);
  }

  /** Waiting for the A53; `count` is loop_count before and after. */
  method AwaitReply(reply: Reply, count0: nat) returns (ok: bool, count: nat)
    requires count0 < POLL_MAX
    ensures ok <==> count0 + reply.busy < POLL_MAX && reply.result == 0
    ensures ok ==> count == count0 + reply.busy
  {
    count := count0;
    var polls := 0;
    while count < POLL_MAX && polls < reply.busy
      invariant count == count0 + polls <= POLL_MAX && polls <= reply.busy
    {
      polls := polls + 1;
      count := count + 1;
    }
    ok := count < POLL_MAX && reply.result == 0;
  }

  /** The window announces this file. */
  ghost predicate Announced(win: Window, file: seq<Byte>)
    reads win, win.mem
  {
    win.Valid() && Le32(win.mem[..], 0) == FILE_FLAG && Le32(win.mem[..], 100) == |file|
  }

  method Announce(win: Window, file: seq<Byte>)
    requires win.Valid() && |file| < TWO32
    modifies win.mem, win`log
    ensures Announced(win, file) && win.log == old(win.log)
  {
    ghost var m := win.mem[..];
    win.RegWrite(0, FILE_FLAG);
    StoredWord(m, win.mem[..], 0, FILE_FLAG);
    ghost var m' := win.mem[..];
    win.RegWrite(100, |file|);
    StoredWord(m', win.mem[..], 100, |file|);
    SameWord(m', win.mem[..], 0);
  }

  /** Chunk i and the A53's answer to it; i' = i + 1 chunks are then handed over. */
  method SendRound(win: Window, file: seq<Byte>, i: nat, ghost i': nat, data: seq<Byte>, sync: Byte,
                   replies: nat -> Reply, count0: nat, ghost log: seq<Msg>)
    returns (ok: bool, count: nat)
    requires Announced(win, file) && |file| < 0x8000_0000
    requires i' == i + 1 && i <= |file| / UDATALEN && data == Chunk(file, i) && sync == ChunkMsg(file, i).sync
    requires count0 == BusySum(replies, i) < POLL_MAX && Accepted(replies, i) && win.log == log + FileMsgs(file, i)
    modifies win.mem, win`log
    ensures Announced(win, file) && win.log == log + FileMsgs(file, i')
    ensures if ok then count == BusySum(replies, i') < POLL_MAX && Accepted(replies, i')
            else forall n | n > i :: !Accepted(replies, n)
  {
    OneMoreMsg(file, i, i');
    assert log + FileMsgs(file, i) + [ChunkMsg(file, i)] == log + FileMsgs(file, i');
    SendChunk(win, i * UDATALEN, data, sync);
    ok, count := AwaitReply(replies(i), count0);
    AcceptedNext(replies, i, i');
  }

  lemma {:induction false} OneMoreMsg(file: seq<Byte>, i: nat, i': nat)
    requires i' == i + 1 && i <= |file| / UDATALEN
    ensures FileMsgs(file, i') == FileMsgs(file, i) + [ChunkMsg(file, i)]
  {
  }

  /**
   * send_file_to_a53_sync from the flag on: the full chunks, then the rest with the sync flag.
   * It succeeds exactly when the A53 accepts every chunk within the shared poll budget; the A53
   * has then received the messages of the whole file, and otherwise those of its first chunks.
   */
  method SendFile(win: Window, file: seq<Byte>, replies: nat -> Reply) returns (ok: bool)
    requires win.Valid() && |file| < 0x8000_0000
    modifies win.mem, win`log
    ensures ok <==> Accepted(replies, |file| / UDATALEN + 1)
    ensures ok ==> win.log == old(win.log) + FileMsgs(file, |file| / UDATALEN + 1)
    ensures !ok ==> exists n | 1 <= n <= |file| / UDATALEN + 1 :: win.log == old(win.log) + FileMsgs(file, n)
  {
    ghost var log := win.log;
    Announce(win, file);
    var a := |file| / UDATALEN;
    var count := 0;
    var i := 0;
    while i < a
      invariant 0 <= i <= a && count == BusySum(replies, i) < POLL_MAX && Accepted(replies, i)
      invariant Announced(win, file) && win.log == log + FileMsgs(file, i)
    {
      var next := i + 1;
      ok, count := SendRound(win, file, i, next, file[i * UDATALEN..next * UDATALEN], 0, replies, count, log);
      if !ok {
        return;
      }
      i := next;
    }
    ok, count := SendRound(win, file, a, a + 1, file[a * UDATALEN..], 1, replies, count, log);
  }

  lemma {:induction false} AcceptedNext(replies: nat -> Reply, i: nat, i': nat)
    requires i' == i + 1 && Accepted(replies, i)
    ensures AcceptedAt(replies, i) ==> Accepted(replies, i')
    ensures BusySum(replies, i') == BusySum(replies, i) + replies(i).busy
    ensures forall n | n > i && Accepted(replies, n) :: AcceptedAt(replies, i)
  {
  }
}
