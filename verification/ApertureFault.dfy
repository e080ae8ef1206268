/** Requests of xdma_xfer_aperture that go wrong: those that do not fit the rest of the ring. */
module ApertureFaults {
  import opened Words
  import opened Memory
  import opened Runs
  import opened Allocation
  import opened Sweeps
  import opened Apertures
  import opened ApertureRoutes

  const PAGE := 0x1000

  /** One page of window, and descriptors of at most a page. */
  ghost predicate PageWindow(a: Aperture) {
    a == Aperture(0, PAGE, PAGE)
  }

  /** A pass starts with the window if its offset is a whole number of pages. */
  lemma {:induction false} PageStart(c: Spot, a: Aperture, k: nat)
    requires PageWindow(a) && c.offset == PAGE * k
    ensures ValidAperture(a) && PassStart(c, a) == 0
  {
    assert Pow2(12) == PAGE;
    MaskIsMod(c.offset, PAGE);
  }

  function Page(addr: U64): Piece {
    Piece(addr, 0, PAGE)
  }

  /** A page or more of an entry, at the start of the window. */
  lemma {:induction false} CutPage(addr: U64, tlen: U32, a: Aperture)
    requires PageWindow(a) && tlen >= PAGE
    ensures ValidAperture(a) && CutPiece(addr, tlen, 0, a) == Page(addr) && Advance(0, PAGE, a) == 0
  {
    ClipTwice(tlen, PAGE, PAGE);
  }

  /** The pages from addr on. */
  function Pages(addr: U64, n: nat): (ps: seq<Piece>)
    ensures |ps| == n
    decreases n
  {
    if n == 0 then [] else [Page(addr)] + Pages(Wrap64(addr + PAGE), n - 1)
  }

  lemma {:induction false} PagesAt(addr: U64, n: nat, k: nat)
    requires k < n && addr + PAGE * n < TWO64
    ensures Pages(addr, n)[k] == Page(addr + PAGE * k)
    decreases n
  {
    if k > 0 {
      PagesAt(addr + PAGE, n - 1, k - 1);
    }
  }

  lemma {:induction false} PagesLen(addr: U64, n: nat)
    ensures PiecesLen(Pages(addr, n)) == PAGE * n
    decreases n
  {
    if n > 0 {
      PagesLen(Wrap64(addr + PAGE), n - 1);
      LenCons(Page(addr), Pages(Wrap64(addr + PAGE), n - 1));
    }
  }

  /** An entry that is not used up is cut into pages. */
  lemma {:induction false} CutPages(addr: U64, tlen: U32, a: Aperture, n: nat)
    requires PageWindow(a) && PAGE * n <= tlen
    ensures ValidAperture(a) && CutEntry(addr, tlen, 0, a, n) == Cut(Pages(addr, n), 0)
    decreases n
  {
    if n > 0 {
      CutPage(addr, tlen, a);
      var addr', k := Wrap64(addr + PAGE), n - 1;
      CutPages(addr', tlen - PAGE, a, k);
    }
  }

  // ---------------------------------------------------------------------------------------
  // Two entries of which the first is a page

  /** A pass that takes the page at addr. */
  function PagePass(addr: U64): Pass {
    Whole([Page(addr)], Rest(0))
  }

  /** A pass that finds a page first, and then the end of the list or of the ring, takes that page. */
  lemma {:induction false} OnePage(sg: seq<Extent>, c: Spot, a: Aperture, slots: nat, k: nat)
    requires PageWindow(a) && c.sgIdx < |sg| && sg[0].len == PAGE && c.sgOffset == 0 && c.offset == PAGE * k
    requires slots == 1 || (slots > 1 && c.sgIdx == |sg| - 1)
    ensures ValidAperture(a) && PassFrom(sg, c, a, slots) == PagePass(sg[0].addr)
  {
    PageStart(c, a, k);
    CutPage(sg[0].addr, PAGE, a);
    CutNone(Wrap64(sg[0].addr + PAGE), a, slots - 1);
    PiecesLenOne(Page(sg[0].addr));
    var seen, rest := Seen(sg, c), slots - 1;
    assert CutFirst(seen[0], 0, 0, a, slots) == Cut([Page(sg[0].addr)], 0);
    assert Sweep(seen[1..], 0, 0, a, rest) == Rest(0);
  }

  lemma {:induction false} CutNone(addr: U64, a: Aperture, slots: nat)
    requires PageWindow(a)
    ensures ValidAperture(a) && CutEntry(addr, 0, 0, a, slots) == Cut([], 0)
  {
  }

  lemma {:induction false} PageOnward(c: Spot, addr: U64)
    requires c.offset + PAGE < TWO32
    ensures PagePass(addr).Cuts() == [Page(addr)]
    ensures Onward(c, PagePass(addr)) == Spot(c.offset + PAGE, c.sgIdx + 1, 0)
  {
    var r := PagePass(addr);
    assert r.rest.Cuts() == [] && r.rest.Full() == 0 && r.rest.Stop() == 0;
    assert [Page(addr)] + [] == [Page(addr)];
    PiecesLenOne(Page(addr));
  }

  lemma {:induction false} TwoEntries(sg: seq<Extent>)
    requires |sg| == 2
    ensures TotalLen(sg) == sg[0].len + sg[1].len && TotalLen(sg[..1]) == sg[0].len
  {
    TotalLenTake(sg, 0);
    TotalLenTake(sg, 1);
    assert sg[..0] == [] && sg[..2] == sg;
  }

  /** Behind the last entry, or at the total, the passes end. */
  lemma {:induction false} NothingBehind(sg: seq<Extent>, c: Spot, a: Aperture, idx: nat, descMax: nat)
    requires ValidAperture(a) && idx < descMax && c.sgIdx == |sg|
    ensures Legs(sg, c, a, idx, descMax) == []
  {
    assert Seen(sg, c) == [];
  }

  /** A page as the last leg. */
  lemma {:induction false} LastPage(sg: seq<Extent>, c: Spot, a: Aperture, idx: nat, descMax: nat)
    requires PageWindow(a) && ValidAperture(a) && idx < descMax && |sg| == 2 && sg[0].len == PAGE
    requires c == Spot(PAGE, 1, 0) && c.offset < TotalLen(sg)
    ensures var legs := Legs(sg, c, a, idx, descMax);
      legs == [Leg(c, PagePass(sg[0].addr))] && EndSpot(c, legs) == Spot(2 * PAGE, 2, 0)
  {
    var r := PagePass(sg[0].addr);
    OnePage(sg, c, a, descMax - idx, 1);
    PageOnward(c, sg[0].addr);
    NothingBehind(sg, Onward(c, r), a, NextIdx(idx, |r.Cuts()|, descMax), descMax);
    LegsStep(sg, c, a, idx, descMax, r);
  }

  /**
   * With one slot left in the ring, the second pass is entered at the second entry but takes the
   * first page again, and then takes the request to be over.
   */
  lemma {:induction false} FirstPageTwice(sg: seq<Extent>, a: Aperture, idx: nat, descMax: nat)
    requires PageWindow(a) && |sg| == 2 && sg[0].len == PAGE <= sg[1].len && idx + 1 == descMax
    ensures ValidAperture(a)
    ensures var r, legs := PagePass(sg[0].addr), Legs(sg, START, a, idx, descMax);
      legs == [Leg(START, r)] + [Leg(Spot(PAGE, 1, 0), r)] && EndSpot(START, legs) == Spot(2 * PAGE, 2, 0)
  {
    TwoEntries(sg);
    var r := PagePass(sg[0].addr);
    OnePage(sg, START, a, 1, 0);
    PageOnward(START, sg[0].addr);
    LastPage(sg, Spot(PAGE, 1, 0), a, NextIdx(idx, 1, descMax), descMax);
    LegsStep(sg, START, a, idx, descMax, r);
  }

  /** Two pages: the second is never read, although the passes reach the total. */
  lemma {:induction false} SecondPageNeverRead(sg: seq<Extent>, a: Aperture, idx: nat, descMax: nat)
    requires PageWindow(a) && idx + 1 == descMax
    requires |sg| == 2 && sg[0].len == PAGE == sg[1].len && sg[0].addr != sg[1].addr
    ensures ValidAperture(a)
    ensures var legs := Legs(sg, START, a, idx, descMax);
      && |legs| == 2 && legs[0].pass == legs[1].pass == PagePass(sg[0].addr)
      && RightLeg(sg, legs[0]) && !RightLeg(sg, legs[1]) && EndSpot(START, legs).offset == TotalLen(sg)
  {
    TwoEntries(sg);
    FirstPageTwice(sg, a, idx, descMax);
    StartIsAt(sg);
    OnePage(sg, START, a, 1, 0);
    FirstPassRight(sg, START, a, 1);
    WrongPage(sg, Spot(PAGE, 1, 0), sg[0].addr);
  }

  lemma {:induction false} WrongPage(sg: seq<Extent>, c: Spot, addr: U64)
    requires c.sgIdx < |sg| && c.sgOffset == 0 && addr != sg[c.sgIdx].addr
    ensures !RightPass(sg, c, PagePass(addr))
  {
    assert Meant(sg, c)[0] == sg[c.sgIdx];
    assert !Contig([Page(addr)], sg[c.sgIdx].addr);
  }

  /** A second entry longer than a page: the passes end before the total. */
  lemma {:induction false} LongerEntryRunsAway(sg: seq<Extent>, a: Aperture, idx: nat, descMax: nat)
    requires PageWindow(a) && idx + 1 == descMax && |sg| == 2 && sg[0].len == PAGE < sg[1].len
    ensures ValidAperture(a) && RunsAway(sg, a, idx, descMax)
  {
    TwoEntries(sg);
    FirstPageTwice(sg, a, idx, descMax);
  }

  // ---------------------------------------------------------------------------------------
  // A first entry shorter than sg_offset

  /** What is left of a page that starts at the card address of byte s. */
  function PageRest(addr: U64, s: nat): Piece
    requires 0 < s < PAGE
  {
    Piece(addr, s, PAGE - s)
  }

  /** The first pass: the short entry, and the second entry up to the end of the window. */
  function ShortPass(sg: seq<Extent>): Pass
    requires |sg| == 2 && 0 < sg[0].len < PAGE
  {
    var s := sg[0].len;
    Whole([Piece(sg[0].addr, 0, s)], Part([PageRest(sg[1].addr, s)], PAGE - s))
  }

  lemma {:induction false} CutShort(addr: U64, s: U32, a: Aperture)
    requires PageWindow(a) && 0 < s < PAGE
    ensures ValidAperture(a) && CutEntry(addr, s, 0, a, 2) == Cut([Piece(addr, 0, s)], s)
    ensures PiecesLen([Piece(addr, 0, s)]) == s
  {
    ClipTwice(s, PAGE, PAGE);
    assert CutPiece(addr, s, 0, a) == Piece(addr, 0, s);
    assert CutEntry(Wrap64(addr + s), 0, s, a, 1) == Cut([], s);
    PiecesLenOne(Piece(addr, 0, s));
  }

  lemma {:induction false} CutRest(addr: U64, tlen: U32, s: nat, a: Aperture)
    requires PageWindow(a) && 0 < s < PAGE < tlen
    ensures ValidAperture(a) && CutEntry(addr, tlen, s, a, 1) == Cut([PageRest(addr, s)], 0)
    ensures PiecesLen([PageRest(addr, s)]) == PAGE - s
  {
    ClipTwice(tlen, PAGE, PAGE - s);
    assert CutPiece(addr, tlen, s, a) == PageRest(addr, s);
    assert CutEntry(Wrap64(addr + (PAGE - s)), tlen - (PAGE - s), 0, a, 0) == Cut([], 0);
    PiecesLenOne(PageRest(addr, s));
  }

  lemma {:induction false} ShortFirst(sg: seq<Extent>, a: Aperture)
    requires PageWindow(a) && |sg| == 2 && 0 < sg[0].len < PAGE < sg[1].len
    ensures ValidAperture(a) && PassFrom(sg, START, a, 2) == ShortPass(sg)
  {
    PageStart(START, a, 0);
    CutShort(sg[0].addr, sg[0].len, a);
    CutRest(sg[1].addr, sg[1].len, sg[0].len, a);
    assert Seen(sg, START) == sg;
    assert Sweep(sg[1..], 0, sg[0].len, a, 1) == ShortPass(sg).rest;
  }

  lemma {:induction false} ShortOnward(sg: seq<Extent>)
    requires |sg| == 2 && 0 < sg[0].len < PAGE
    ensures |ShortPass(sg).Cuts()| == 2 && Onward(START, ShortPass(sg)) == Spot(PAGE, 1, PAGE - sg[0].len)
  {
    var s := sg[0].len;
    var p, q := Piece(sg[0].addr, 0, s), PageRest(sg[1].addr, s);
    var r := ShortPass(sg);
    assert r.rest.Cuts() == [q] && r.rest.Full() == 0 && r.rest.Stop() == PAGE - s;
    LenCons(p, [q]);
    PiecesLenOne(q);
  }

  /** A pass entered behind its first entry: the length left wraps, and it takes page after page. */
  lemma {:induction false} BehindEntry(sg: seq<Extent>, c: Spot, a: Aperture, slots: nat)
    requires PageWindow(a) && |sg| == 2 && 0 < 2 * sg[0].len < PAGE && c == Spot(PAGE, 1, PAGE - sg[0].len)
    requires 0 < slots && PAGE * slots < TWO32 - PAGE
    ensures ValidAperture(a)
    ensures PassFrom(sg, c, a, slots) == WrappedPass(sg, c, slots)
  {
    var seen, x := Seen(sg, c), c.sgOffset;
    PageStart(c, a, 1);
    assert Left(seen[0], x) == Sub32(sg[0].len + TWO32, x) == TWO32 - PAGE + 2 * sg[0].len;
    CutPages(Wrap64(sg[0].addr + x), Left(seen[0], x), a, slots);
    PagesLen(Wrap64(sg[0].addr + x), slots);
  }

  /**
   * A first entry of less than half a page, a second of two pages, and two slots left in the ring.
   * The first pass fills the window; the second is entered with sg_offset behind the end of the
   * first entry and fills the whole ring with pages from there on, none of which is in the request.
   */
  lemma {:induction false} LengthWraps(sg: seq<Extent>, a: Aperture, idx: nat, descMax: nat)
    requires PageWindow(a) && idx + 2 == descMax && PAGE * descMax < TWO32 - PAGE
    requires |sg| == 2 && 0 < 2 * sg[0].len < PAGE && sg[1].len == 2 * PAGE
    ensures ValidAperture(a)
    ensures var c := Spot(PAGE, 1, PAGE - sg[0].len);
      && c.sgOffset > sg[0].len
      && Legs(sg, START, a, idx, descMax)
         == [Leg(START, ShortPass(sg))] + [Leg(c, WrappedPass(sg, c, descMax))]
  {
    var c := Spot(PAGE, 1, PAGE - sg[0].len);
    TwoEntries(sg);
    ShortFirst(sg, a);
    ShortOnward(sg);
    LapEnds(descMax);
    WrappedLeg(sg, c, a, NextIdx(idx, 2, descMax), descMax);
    LegsStep(sg, START, a, idx, descMax, ShortPass(sg));
  }

  /** n pages from sg_offset of the first entry on. */
  function WrappedPass(sg: seq<Extent>, c: Spot, n: nat): Pass
    requires sg != []
  {
    Part(Pages(Wrap64(sg[0].addr + c.sgOffset), n), c.sgOffset + PAGE * n)
  }

  /** These pages are not what was due, and are more than the request holds. */
  lemma {:induction false} WrappedWrong(sg: seq<Extent>, c: Spot, n: nat, k: nat)
    requires |sg| == 2 && 0 < 2 * sg[0].len < PAGE && sg[1].len == 2 * PAGE && 2 <= n
    requires c == Spot(PAGE, 1, PAGE - sg[0].len) && k < n && sg[0].addr + c.sgOffset + PAGE * n < TWO64
    ensures var r := WrappedPass(sg, c, n);
      && At(sg, c) && !RightPass(sg, c, r) && c.offset + PiecesLen(r.Cuts()) > TotalLen(sg)
      && r.Cuts()[k] == Page(sg[0].addr + c.sgOffset + PAGE * k)
      && sg[0].addr + sg[0].len < r.Cuts()[k].addr
  {
    TwoEntries(sg);
    PagesLen(Wrap64(sg[0].addr + c.sgOffset), n);
    PagesAt(Wrap64(sg[0].addr + c.sgOffset), n, k);
    assert Meant(sg, c)[0] == sg[1];
  }

  lemma {:induction false} WrappedLeg(sg: seq<Extent>, c: Spot, a: Aperture, idx: nat, descMax: nat)
    requires PageWindow(a) && ValidAperture(a) && idx == 0 && 2 <= descMax && PAGE * descMax < TWO32 - PAGE
    requires |sg| == 2 && 0 < 2 * sg[0].len < PAGE && sg[1].len == 2 * PAGE
    requires c == Spot(PAGE, 1, PAGE - sg[0].len)
    ensures Legs(sg, c, a, idx, descMax) == [Leg(c, WrappedPass(sg, c, descMax))]
  {
    TwoEntries(sg);
    BehindEntry(sg, c, a, descMax);
    PagesLen(Wrap64(sg[0].addr + c.sgOffset), descMax);
    var r := WrappedPass(sg, c, descMax);
    assert Onward(c, r).offset == PAGE + PAGE * descMax;
    LegsStep(sg, c, a, idx, descMax, r);
    assert Legs(sg, Onward(c, r), a, NextIdx(idx, |r.Cuts()|, descMax), descMax) == [];
  }
}
