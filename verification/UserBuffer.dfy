/**
 * cdev_sgdma.c: checking a user buffer's alignment and cutting it into pages.
 *
 * Pages may fail to be pinned, and pinned pages may coincide; both are parameters here.  Alignment
 * is followed from the check on the whole buffer to the descriptors made of it.
 */
module UserBuffers {
  import opened Words
  import opened Memory
  import opened Requests
  import opened Descriptors
  import opened Runs
  import opened Allocation
  import opened Errno

  // ---------------------------------------------------------------------------------------
  // Pages

  /** A scatter table entry: a pinned page, and the part of it the buffer uses. */
  datatype PageEntry = PageEntry(frame: nat, offset: nat, len: nat)

  datatype Mapping = Mapped(entries: seq<PageEntry>) | MapFailed(code: int)

  /** pages_nr, in the unsigned arithmetic of the source. */
  function PagesNr(buf: U64, len: U64): U32 {
    Wrap32(Wrap64(buf + len + PAGE_SIZE - 1 - (buf - BitAnd(buf, PAGE_SIZE - 1))) / PAGE_SIZE)
  }

  /** The user address entry i begins at, when frame i is the i-th page from buf's page on. */
  function UserStart(buf: U64, e: PageEntry, i: nat): nat {
    (buf / PAGE_SIZE + i) * PAGE_SIZE + e.offset
  }

  /** The entries cover [buf, buf + len) exactly, in order, page by page. */
  ghost predicate Tiles(es: seq<PageEntry>, frames: seq<nat>, buf: U64, len: nat) {
    && |es| == |frames|
    && (forall i | 0 <= i < |es| ::
         && es[i].frame == frames[i]
         && es[i].offset + es[i].len <= PAGE_SIZE
         && (i > 0 ==> es[i].offset == 0)
         && (len > 0 ==> es[i].len > 0))
    && (es != [] ==> UserStart(buf, es[0], 0) == buf)
    && (forall i | 0 <= i < |es| - 1 :: UserStart(buf, es[i + 1], i + 1) == UserStart(buf, es[i], i) + es[i].len)
    && (es != [] ==> UserStart(buf, es[|es| - 1], |es| - 1) + es[|es| - 1].len == buf + len)
  }

  lemma {:induction false} PageOffset(buf: nat)
    ensures BitAnd(buf, PAGE_SIZE - 1) == buf % PAGE_SIZE
  {
    assert Pow2(12) == 4096;
    BitAndLowMask(buf, 12);
  }

  lemma {:induction false} PagesNrValue(buf: U64, len: U64)
    requires buf + len + PAGE_SIZE - 1 < TWO64 && len < TWO32
    ensures PagesNr(buf, len) == (buf % PAGE_SIZE + len + PAGE_SIZE - 1) / PAGE_SIZE
  {
    PageOffset(buf);
  }

  /** The end of page i of the buffer, cut off at the buffer's end: where the loop's cursor stands. */
  function CursorAt(buf: U64, len: nat, i: nat): nat {
    if i == 0 then buf else Min((buf / PAGE_SIZE + i) * PAGE_SIZE, buf + len)
  }

  lemma {:induction false} CeilBound(x: nat, i: nat)
    requires i < (x + PAGE_SIZE - 1) / PAGE_SIZE
    ensures PAGE_SIZE * i < x
  {
  }

  lemma {:induction false} PageStart(page: nat)
    ensures (page * PAGE_SIZE) % PAGE_SIZE == 0
  {
  }

  /** Every cursor but the first stands at the start of a page, short of the buffer's end. */
  lemma {:induction false} CursorValue(buf: U64, len: U64, i: nat)
    requires buf + len + PAGE_SIZE - 1 < TWO64 && len < TWO32 && i < PagesNr(buf, len)
    ensures i > 0 ==> CursorAt(buf, len, i) == (buf / PAGE_SIZE + i) * PAGE_SIZE < buf + len
  {
    if i > 0 {
      PagesNrValue(buf, len);
      CeilBound(buf % PAGE_SIZE + len, i);
    }
  }

  /** One round of the loop: from one cursor to the next, inside one page, starting it if not first. */
  lemma {:induction false} CursorStep(buf: U64, len: U64, i: nat)
    requires buf + len + PAGE_SIZE - 1 < TWO64 && len < TWO32 && i < PagesNr(buf, len)
    ensures var b := CursorAt(buf, len, i);
      var off := BitAnd(b, PAGE_SIZE - 1);
      && b <= buf + len && off < PAGE_SIZE
      && (len > 0 ==> b < buf + len)
      && b == (buf / PAGE_SIZE + i) * PAGE_SIZE + off
      && (i > 0 ==> off == 0)
      && b + Min(PAGE_SIZE - off, buf + len - b) == CursorAt(buf, len, i + 1)
  {
    CursorValue(buf, len, i);
    PageOffset(CursorAt(buf, len, i));
    PageStart(buf / PAGE_SIZE + i);
  }

  lemma {:induction false} CursorEnds(buf: U64, len: U64)
    requires buf + len + PAGE_SIZE - 1 < TWO64 && len < TWO32 && PagesNr(buf, len) > 0
    ensures CursorAt(buf, len, PagesNr(buf, len)) == buf + len
  {
    PagesNrValue(buf, len);
  }

  /**
   * char_sgdma_map_user_buf_to_sgl.  `pinned` is what get_user_pages_fast returns and `frames`
   * the pages it pinned.  The test for left-over length at the end is kept as `leftover`.
   */
  method MapUserBuffer(buf: U64, len: U64, pinned: int, frames: seq<nat>)
    returns (r: Mapping, leftover: bool)
    requires buf + len + PAGE_SIZE - 1 < TWO64 && len < TWO32
    requires |frames| == if pinned > 0 then pinned else 0
    ensures !leftover
    ensures r.Mapped? <==> (len > 0 || buf % PAGE_SIZE != 0) && pinned == PagesNr(buf, len)
                           && (forall i | 1 <= i < |frames| :: frames[i - 1] != frames[i])
    ensures r.Mapped? ==> |r.entries| > 0 && Tiles(r.entries, frames, buf, len)
    ensures r.MapFailed? ==> r.code == if len == 0 && buf % PAGE_SIZE == 0 then EINVAL
                                       else if pinned < 0 then pinned else EFAULT
  {
    leftover := false;
    var pages := PagesNr(buf, len);
    PagesNrValue(buf, len);
    if pages == 0 {
      return MapFailed(EINVAL), leftover;
    }
    if pinned < 0 {
      return MapFailed(pinned), leftover;
    }
    if pinned != pages {
      return MapFailed(EFAULT), leftover;
    }
    for i := 1 to pages
      invariant forall j | 1 <= j < i :: frames[j - 1] != frames[j]
    {
      if frames[i - 1] == frames[i] {
        return MapFailed(EFAULT), leftover;
      }
    }
    var es, left := FillTable(buf, len, frames);
    leftover := left != 0;
    r := if left != 0 then MapFailed(EINVAL) else Mapped(es);
  }

  /** Entry k reaches from one cursor to the next inside its page. */
  ghost predicate Reaches(e: PageEntry, frame: nat, buf: U64, len: nat, k: nat) {
    && e.frame == frame
    && UserStart(buf, e, k) == CursorAt(buf, len, k)
    && UserStart(buf, e, k) + e.len == CursorAt(buf, len, k + 1)
    && e.offset + e.len <= PAGE_SIZE
    && (k > 0 ==> e.offset == 0)
    && (len > 0 ==> e.len > 0)
  }

  /** What the loop stores for page i. */
  function EntryAt(frame: nat, buf: U64, len: U64, i: nat): PageEntry {
    var b := CursorAt(buf, len, i);
    var off := BitAnd(b, PAGE_SIZE - 1);
    PageEntry(frame, off, if off <= PAGE_SIZE && b <= buf + len then Min(PAGE_SIZE - off, buf + len - b) else 0)
  }

  lemma {:induction false} EntryReaches(frame: nat, buf: U64, len: U64, i: nat)
    requires buf + len + PAGE_SIZE - 1 < TWO64 && len < TWO32 && i < PagesNr(buf, len)
    ensures Reaches(EntryAt(frame, buf, len, i), frame, buf, len, i)
    ensures var b := CursorAt(buf, len, i); b <= buf + len && BitAnd(b, PAGE_SIZE - 1) < PAGE_SIZE
    ensures CursorAt(buf, len, i) + EntryAt(frame, buf, len, i).len == CursorAt(buf, len, i + 1)
  {
    CursorStep(buf, len, i);
  }

  lemma {:induction false} ReachesTile(es: seq<PageEntry>, frames: seq<nat>, buf: U64, len: U64)
    requires |es| == |frames| > 0 && CursorAt(buf, len, |es|) == buf + len
    requires forall k | 0 <= k < |es| :: Reaches(es[k], frames[k], buf, len, k)
    ensures Tiles(es, frames, buf, len)
  {
    assert Reaches(es[0], frames[0], buf, len, 0);
    assert Reaches(es[|es| - 1], frames[|es| - 1], buf, len, |es| - 1);
    forall i | 0 <= i < |es| - 1
      ensures UserStart(buf, es[i + 1], i + 1) == UserStart(buf, es[i], i) + es[i].len
    {
      assert Reaches(es[i], frames[i], buf, len, i) && Reaches(es[i + 1], frames[i + 1], buf, len, i + 1);
    }
  }

  /** The loop that fills the scatter table. */
  method FillTable(buf: U64, len: U64, frames: seq<nat>) returns (es: seq<PageEntry>, left: nat)
    requires buf + len + PAGE_SIZE - 1 < TWO64 && len < TWO32
    requires |frames| == PagesNr(buf, len) > 0
    ensures left == 0 && Tiles(es, frames, buf, len)
  {
    var b: nat := buf;
    left := len;
    es := [];
    for i := 0 to |frames|
      invariant |es| == i && b == CursorAt(buf, len, i) && left == buf + len - b
      invariant forall k | 0 <= k < i :: es[k] == EntryAt(frames[k], buf, len, k)
    {
      ghost var e := EntryAt(frames[i], buf, len, i);
      assert b <= buf + len && BitAnd(b, PAGE_SIZE - 1) < PAGE_SIZE && b + e.len == CursorAt(buf, len, i + 1) by {
        EntryReaches(frames[i], buf, len, i);
      }
      var offset := BitAnd(b, PAGE_SIZE - 1);
      var nbytes := Min(PAGE_SIZE - offset, Wrap32(left));
      assert PageEntry(frames[i], offset, nbytes) == e;
      es := es + [PageEntry(frames[i], offset, nbytes)];
      b := b + nbytes;
      left := left - nbytes;
    }
    CursorEnds(buf, len);
    TableTiles(es, frames, buf, len);
  }

  lemma {:induction false} TableTiles(es: seq<PageEntry>, frames: seq<nat>, buf: U64, len: U64)
    requires buf + len + PAGE_SIZE - 1 < TWO64 && len < TWO32
    requires |es| == |frames| == PagesNr(buf, len) > 0
    requires forall k | 0 <= k < |es| :: es[k] == EntryAt(frames[k], buf, len, k)
    ensures Tiles(es, frames, buf, len)
  {
    CursorEnds(buf, len);
    forall k | 0 <= k < |es|
      ensures Reaches(es[k], frames[k], buf, len, k)
    {
      EntryReaches(frames[k], buf, len, k);
    }
    ReachesTile(es, frames, buf, len);
  }

  // ---------------------------------------------------------------------------------------
  // Alignment

  /** check_transfer_align: 0 or -EINVAL. */
  function CheckAlign(nonIncr: bool, addrAlign: nat, lenGranularity: nat, buf: U64, count: U64, pos: U64,
                      sync: bool): int
    requires 0 < addrAlign < 256 && 0 < lenGranularity < 256
  {
    var bufLsb := BitAnd(Wrap32(buf), addrAlign - 1);
    var posLsb := BitAnd(Wrap32(pos), addrAlign - 1);
    if nonIncr then
      if bufLsb != 0 then EINVAL
      else if posLsb != 0 && sync then EINVAL
      else if BitAnd(count, lenGranularity - 1) != 0 then EINVAL
      else 0
    else if bufLsb != posLsb then EINVAL else 0
  }

  ghost predicate Congruent(a: int, b: int, m: nat)
    requires m > 0
  {
    a % m == b % m
  }

  lemma {:induction false} CongruentAdd(a: nat, b: nat, x: nat, m: nat)
    requires m > 0 && Congruent(a, b, m)
    ensures Congruent(a + x, b + x, m)
  {
    ModAdd(a, x, m);
    ModAdd(b, x, m);
  }

  lemma {:induction false} Pow2Divides(k: nat, n: nat)
    requires k <= n
    ensures Pow2(n) == Pow2(k) * Pow2(n - k)
  {
    if k > 0 {
      Pow2Divides(k - 1, n - 1);
    }
  }

  lemma {:induction false} Pow2Monotone(k: nat, n: nat)
    requires k <= n
    ensures Pow2(k) <= Pow2(n)
  {
    if k < n {
      Pow2Monotone(k, n - 1);
    }
  }

  /** A power of two below 256 divides the word sizes and the page size. */
  lemma {:induction false} AlignDivides(align: nat, n: nat)
    requires IsPow2(align) && align < 256 && n >= 8
    ensures exists q: nat :: q > 0 && Pow2(n) == align * q
  {
    var k: nat :| Pow2(k) == align;
    assert Pow2(8) == 256;
    if k >= 8 {
      Pow2Monotone(8, k);
    }
    Pow2Divides(k, n);
  }

  lemma {:induction false} WordSizes()
    ensures Pow2(12) == PAGE_SIZE && Pow2(32) == TWO32 && Pow2(64) == TWO64
  {
    assert Pow2(8) == 256;
    Pow2Divides(8, 16);
    Pow2Divides(16, 32);
    Pow2Divides(32, 64);
  }

  lemma {:induction false} CongruentWrap(a: nat, align: nat, n: nat, size: nat)
    requires IsPow2(align) && align < 256 && n >= 8 && size == Pow2(n)
    ensures align > 0 && Congruent(a % size, a, align)
  {
    AlignDivides(align, n);
    var q: nat :| q > 0 && Pow2(n) == align * q;
    ModOfMod(a, align, q);
  }

  /** The low bits of an address, as the check takes them. */
  lemma {:induction false} LowBits(addr: U64, align: nat)
    requires IsPow2(align) && align < 256
    ensures align > 0 && BitAnd(Wrap32(addr), align - 1) == addr % align
  {
    WordSizes();
    Wrap32IsMod(addr);
    MaskIsMod(Wrap32(addr), align);
    CongruentWrap(addr, align, 32, TWO32);
  }

  /**
   * In incremental mode the check accepts exactly congruent buffer and card addresses.  In
   * non-incremental mode the buffer must be aligned, so must the card address of a synchronous
   * request, and the length must be a multiple of the granularity.
   */
  lemma {:induction false} CheckAlignMeaning(nonIncr: bool, addrAlign: nat, lenGranularity: nat, buf: U64, count: U64,
                                             pos: U64, sync: bool)
    requires IsPow2(addrAlign) && addrAlign < 256 && 0 < lenGranularity < 256
    ensures addrAlign > 0
    ensures var r := CheckAlign(nonIncr, addrAlign, lenGranularity, buf, count, pos, sync);
      && (r == 0 || r == -22)
      && (!nonIncr ==> (r == 0 <==> Congruent(buf, pos, addrAlign)))
      && (nonIncr && IsPow2(lenGranularity) ==>
            (r == 0 <==> && buf % addrAlign == 0 && (sync ==> pos % addrAlign == 0)
                         && count % lenGranularity == 0))
  {
    LowBits(buf, addrAlign);
    LowBits(pos, addrAlign);
    if IsPow2(lenGranularity) {
      MaskIsMod(count, lenGranularity);
    }
  }

  /**
   * DMA mapping: every page gets a page-aligned bus address, so an entry keeps its length and
   * its offset inside a page.
   */
  ghost predicate DmaMapped(es: seq<PageEntry>, sg: seq<Extent>) {
    && |sg| == |es|
    && forall i | 0 <= i < |es| :: sg[i].len == es[i].len && sg[i].addr % PAGE_SIZE == es[i].offset % PAGE_SIZE
  }

  lemma {:induction false} EntryStarts(es: seq<PageEntry>, frames: seq<nat>, buf: U64, len: nat,
                                       sg: seq<Extent>, i: nat)
    requires Tiles(es, frames, buf, len) && DmaMapped(es, sg) && i < |es|
    ensures UserStart(buf, es[i], i) == buf + TotalLen(sg[..i])
  {
    if i == 0 {
      assert sg[..0] == [];
    } else {
      EntryStarts(es, frames, buf, len, sg, i - 1);
      TotalLenTake(sg, i - 1);
    }
  }

  /** Byte x of entry i is congruent to the user address it came from. */
  lemma {:induction false} EntryCongruent(es: seq<PageEntry>, frames: seq<nat>, buf: U64, len: nat, sg: seq<Extent>,
                       align: nat, i: nat, x: nat)
    requires Tiles(es, frames, buf, len) && DmaMapped(es, sg) && i < |es|
    requires IsPow2(align) && align < 256
    ensures align > 0
    ensures Congruent(EntryByte(sg, i, x), buf + TotalLen(sg[..i]) + x, align)
  {
    EntryStarts(es, frames, buf, len, sg, i);
    SamePageOffset(sg[i].addr, UserStart(buf, es[i], i), x, align);
  }

  lemma {:induction false} SamePageOffset(a: nat, start: nat, x: nat, align: nat)
    requires a % PAGE_SIZE == start % PAGE_SIZE && IsPow2(align) && align < 256
    ensures align > 0 && Congruent(Wrap64(a + x), start + x, align)
  {
    WordSizes();
    CongruentWrap(a, align, 12, PAGE_SIZE);
    CongruentWrap(start, align, 12, PAGE_SIZE);
    CongruentAdd(a, start, x, align);
    CongruentWrap(a + x, align, 64, TWO64);
    WrapIsMod(a + x);
  }

  lemma {:induction false} LocateByte(sg: seq<Extent>, o: nat) returns (i: nat, x: nat)
    requires o < TotalLen(sg)
    ensures i < |sg| && x < sg[i].len && o == TotalLen(sg[..i]) + x
    decreases |sg|
  {
    var n := |sg| - 1;
    if o < TotalLen(sg[..n]) {
      i, x := LocateByte(sg[..n], o);
      assert sg[..n][..i] == sg[..i];
    } else {
      i, x := n, o - TotalLen(sg[..n]);
    }
  }

  /** Byte o of the request sits at a bus address congruent to buf + o. */
  lemma {:induction false} ByteCongruent(es: seq<PageEntry>, frames: seq<nat>, buf: U64, len: nat, sg: seq<Extent>,
                      align: nat, o: nat)
    requires Tiles(es, frames, buf, len) && DmaMapped(es, sg) && o < TotalLen(sg)
    requires IsPow2(align) && align < 256
    ensures align > 0 && Congruent(HostBytes(sg)[o], buf + o, align)
  {
    var i, x := LocateByte(sg, o);
    EntryByteInRequest(sg, i, x);
    EntryCongruent(es, frames, buf, len, sg, align, i, x);
  }

  lemma {:induction false} PieceCongruent(host: seq<U64>, buf: U64, pos: U64, align: nat, o: nat)
    requires IsPow2(align) && align < 256 && o < |host|
    requires align > 0 && Congruent(host[o], buf + o, align) && Congruent(buf, pos, align)
    ensures Congruent(host[o], Wrap64(pos + o), align)
  {
    WordSizes();
    CongruentAdd(buf, pos, o, align);
    CongruentWrap(pos + o, align, 64, TWO64);
    WrapIsMod(pos + o);
  }

  /** Cutting, mapping and advancing keep host and card address of every piece congruent. */
  lemma {:induction false} PieceAligned(es: seq<PageEntry>, frames: seq<nat>, buf: U64, len: nat, sg: seq<Extent>,
                     align: nat, pos: U64, blen: U32, k: nat)
    requires Tiles(es, frames, buf, len) && DmaMapped(es, sg) && blen > 0
    requires IsPow2(align) && 0 < align < 256 && Congruent(buf, pos, align)
    requires k < |AllPieces(sg, blen)|
    ensures var p := Place(AllPieces(sg, blen), pos, true)[k]; Congruent(p.addr, p.ep, align)
  {
    var sd := AllPieces(sg, blen);
    AllPiecesTile(sg, blen);
    var o := TotalLen(sd[..k]);
    PieceStart(sd, k);
    ByteCongruent(es, frames, buf, len, sg, align, o);
    PieceCongruent(HostBytes(sg), buf, pos, align, o);
  }

  lemma {:induction false} DescAligned(cfg: Config, bus: U64, n: nat, k: nat, p: Piece, align: nat)
    requires k < n && cfg.resBus.NoWriteback? && align > 0 && Congruent(p.addr, p.ep, align)
    ensures var d := RunDesc(cfg, bus, n, k, p); Congruent(d.Src(), d.Dst(), align)
  {
    RunDescFields(cfg, bus, n, k, p);
  }

  /**
   * Alignment carries through: if the check accepted the buffer, then after cutting it into
   * pages, mapping them, cutting long entries and advancing the card address, source and
   * destination of every descriptor agree modulo the engine's alignment.
   */
  lemma {:induction false} AlignmentCarries(es: seq<PageEntry>, frames: seq<nat>, buf: U64, len: U64, sg: seq<Extent>,
                         align: nat, granularity: nat, pos: U64, blen: U32,
                         cfg: Config, bus: U64, i: nat, n: nat, m: nat)
    requires Tiles(es, frames, buf, len) && DmaMapped(es, sg) && blen > 0
    requires IsPow2(align) && 0 < align < 256 && 0 < granularity < 256
    requires CheckAlign(false, align, granularity, buf, len, pos, true) == 0
    requires cfg.resBus.NoWriteback?
    requires i + n <= |AllPieces(sg, blen)| && m < n
    ensures var sd := AllPieces(sg, blen);
      var d := RunDesc(cfg, bus, n, m, Place(sd[i..][..n], EpAfter(pos, sd[..i], true), true)[m]);
      Congruent(d.Src(), d.Dst(), align)
  {
    var sd := AllPieces(sg, blen);
    CheckAlignMeaning(false, align, granularity, buf, len, pos, true);
    PieceAligned(es, frames, buf, len, sg, align, pos, blen, i + m);
    PlaceWindow(sd, pos, true, i, n, m);
    DescAligned(cfg, bus, n, m, Place(sd, pos, true)[i + m], align);
  }

  lemma {:induction false} PieceStart(sd: seq<Extent>, k: nat)
    requires k < |sd| && sd[k].len > 0
    ensures TotalLen(sd[..k]) < TotalLen(sd) && HostBytes(sd)[TotalLen(sd[..k])] == sd[k].addr
  {
    EntryByteInRequest(sd, k, 0);
  }
}
