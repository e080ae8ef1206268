/** One pass of xdma_xfer_aperture in place: the loops that fill the ring, and the run they make. */
module AperturePasses {
  import opened Words
  import opened Memory
  import opened Descriptors
  import opened Runs
  import opened Allocation
  import opened Queues
  import opened Turns
  import opened Engines
  import opened Sweeps
  import opened Apertures

  /** The cursors of struct xdma_request_cb that the aperture loop uses. */
  class ApertureCb {
    var offset: U32
    var sgIdx: nat
    var sgOffset: U32

    constructor ()
      ensures Here() == START
    {
      offset, sgIdx, sgOffset := 0, 0, 0;
    }

    ghost function Here(): Spot
      reads this
    {
      Spot(offset, sgIdx, sgOffset)
    }
  }

  /** The descriptors from `first` up to `to` are set from the pieces. */
  ghost predicate SetFrom(d: seq<Desc>, d': seq<Desc>, first: nat, to: nat, ps: seq<Piece>, dir: Direction) {
    && |d| == |d'| && first <= to <= |d| && |ps| == to - first
    && (forall j | 0 <= j < |d| && !(first <= j < to) :: d'[j] == d[j])
    && (forall j | first <= j < to :: d'[j] == DescSet(d[j], ps[j - first], dir))
  }

  lemma {:induction false} SetFromExtend(d: seq<Desc>, m: seq<Desc>, first: nat, to: nat, ps: seq<Piece>, p: Piece, dir: Direction)
    requires SetFrom(d, m, first, to, ps, dir) && to < |d|
    ensures SetFrom(d, m[to := DescSet(m[to], p, dir)], first, to + 1, ps + [p], dir)
  {
  }

  /** The card address of place r in the window; the window's end stands for its start. */
  ghost predicate AtPlace(ep: nat, r: nat, a: Aperture) {
    ep == a.base + r || (ep == a.base + a.size && r == 0)
  }

  /** Where the next piece goes and how long it is; fills its descriptor. */
  method StorePiece(engine: XdmaEngine, a: Aperture, idx: nat, addr: U64, left: U32, ep: nat, ghost r: nat)
    returns (ep': nat, len: U32)
    requires ValidAperture(a) && r < a.size && AtPlace(ep, r, a) && left > 0 && idx < engine.desc.Length
    modifies engine.desc
    ensures var p := CutPiece(addr, left, r, a);
      && len == p.len && AtPlace(ep', Advance(r, p.len, a), a)
      && engine.desc[..] == old(engine.desc[..])[idx := DescSet(old(engine.desc[..])[idx], p, engine.dir)]
  {
    ClipTwice(left, a.maxlen, a.size - r);
    var epMax := a.base + a.size - 1;
    var at := ep;
    len := Min(left, a.maxlen);
    if at > epMax {
      at := a.base;
    }
    if at + len > epMax {
      len := epMax - at + 1;
    }
    engine.desc[idx] := DescSet(engine.desc[idx], Piece(addr, at, len), engine.dir);
    ep' := at + len;
  }

  lemma {:induction false} LenSnoc(ps: seq<Piece>, p: Piece)
    ensures PiecesLen(ps + [p]) == PiecesLen(ps) + p.len
  {
    PiecesLenConcat(ps, [p]);
    PiecesLenOne(p);
  }

  /** What a 32-bit cursor becomes when it grows by the length of each piece. */
  function Grown(x: U32, ps: seq<Piece>): U32
    decreases |ps|
  {
    if ps == [] then x else Grown(Wrap32(x + ps[0].len), ps[1..])
  }

  lemma {:induction false} GrownConcat(x: U32, ps: seq<Piece>, qs: seq<Piece>)
    ensures Grown(x, ps + qs) == Grown(Grown(x, ps), qs)
    decreases |ps|
  {
    if ps == [] {
      assert ps + qs == qs;
    } else {
      assert (ps + qs)[1..] == ps[1..] + qs;
      GrownConcat(Wrap32(x + ps[0].len), ps[1..], qs);
    }
  }

  lemma {:induction false} GrownSnoc(x: U32, ps: seq<Piece>, p: Piece)
    ensures Grown(x, ps + [p]) == Wrap32(Grown(x, ps) + p.len)
  {
    GrownConcat(x, ps, [p]);
    assert [p][1..] == [];
  }

  lemma {:induction false} GrownIs(x: U32, ps: seq<Piece>)
    ensures Grown(x, ps) == Wrap32(x + PiecesLen(ps))
    decreases |ps|
  {
    if ps != [] {
      GrownIs(Wrap32(x + ps[0].len), ps[1..]);
      WrapAdd32(x + ps[0].len, PiecesLen(ps[1..]));
    }
  }

  /** The cursors sg_offset and offset, which grow together. */
  datatype Cursors = Cursors(sgOffset: U32, offset: U32)

  function Past(cs: Cursors, ps: seq<Piece>): Cursors {
    Cursors(Grown(cs.sgOffset, ps), Grown(cs.offset, ps))
  }

  /** The pieces g are cut, and `rest` is what the inner loop still has to cut. */
  ghost predicate Going(whole: Cut, g: seq<Piece>, rest: Cut) {
    whole.ps == g + rest.ps && whole.r == rest.r
  }

  lemma {:induction false} CutStep(whole: Cut, g: seq<Piece>, addr: U64, tlen: U32, r: nat, a: Aperture, slots: nat,
                                   slots': nat, p: Piece)
    requires ValidAperture(a) && r < a.size && tlen > 0 && slots > 0 && slots' == slots - 1 && p == CutPiece(addr, tlen, r, a)
    requires Going(whole, g, CutEntry(addr, tlen, r, a, slots))
    ensures Going(whole, g + [p], CutEntry(Wrap64(addr + p.len), tlen - p.len, Advance(r, p.len, a), a, slots'))
  {
  }

  /** One round of the inner loop: the first piece of what is left of the entry. */
  method CutOne(engine: XdmaEngine, a: Aperture, addr: U64, tlen: U32, idx: nat, ep: nat, cs: Cursors,
                ghost cs0: Cursors, ghost r: nat, ghost slots: nat, ghost slots': nat, ghost first: nat, ghost d: seq<Desc>,
                ghost ps: seq<Piece>, ghost g: seq<Piece>, ghost whole: Cut)
    returns (ep': nat, len: U32, cs': Cursors, ghost r': nat, ghost g': seq<Piece>)
    requires ValidAperture(a) && r < a.size && AtPlace(ep, r, a) && tlen > 0 && idx < engine.desc.Length
    requires slots == engine.desc.Length - idx && slots' == slots - 1
    requires cs == Past(cs0, g) && Going(whole, g, CutEntry(addr, tlen, r, a, slots))
    requires SetFrom(d, engine.desc[..], first, idx, ps + g, engine.dir)
    modifies engine.desc
    ensures r' < a.size && AtPlace(ep', r', a) && 0 < len <= tlen
    ensures |g'| == |g| + 1 && PiecesLen(g') == PiecesLen(g) + len && cs' == Past(cs0, g')
    ensures Going(whole, g', CutEntry(Wrap64(addr + len), tlen - len, r', a, slots'))
    ensures SetFrom(d, engine.desc[..], first, idx + 1, ps + g', engine.dir)
  {
    ghost var p := CutPiece(addr, tlen, r, a);
    r', g' := Advance(r, p.len, a), g + [p];
    assert Going(whole, g', CutEntry(Wrap64(addr + p.len), tlen - p.len, r', a, slots')) by {
      CutStep(whole, g, addr, tlen, r, a, slots, slots', p);
    }
    SetFromExtend(d, engine.desc[..], first, idx, ps + g, p, engine.dir);
    assert ps + g' == ps + g + [p];
    LenSnoc(g, p);
    ep', len := StorePiece(engine, a, idx, addr, tlen, ep, r);
    GrownSnoc(cs0.sgOffset, g, p);
    GrownSnoc(cs0.offset, g, p);
    cs' := Cursors(Wrap32(cs.sgOffset + len), Wrap32(cs.offset + len));
  }

  /**
   * The inner `while (tlen)`: cuts what is left of one scatter entry into descriptors from slot
   * idx0 on, until the entry or the ring is used up.
   */
  method CutWindow(engine: XdmaEngine, a: Aperture, addr0: U64, tlen0: U32, idx0: nat, ep0: nat, cs0: Cursors,
                   ghost r0: nat, ghost slots0: nat, ghost first: nat, ghost d: seq<Desc>, ghost ps: seq<Piece>,
                   ghost c: Cut)
    returns (idx: nat, ep: nat, tlen: U32, cs: Cursors)
    requires ValidAperture(a) && r0 < a.size && AtPlace(ep0, r0, a) && idx0 < engine.desc.Length
    requires slots0 == engine.desc.Length - idx0 && c == CutEntry(addr0, tlen0, r0, a, slots0)
    requires SetFrom(d, engine.desc[..], first, idx0, ps, engine.dir)
    modifies engine.desc
    ensures AtPlace(ep, c.r, a) && GreedyCut(c.ps, a, tlen == 0)
    ensures idx == idx0 + |c.ps| && PiecesLen(c.ps) == tlen0 - tlen && cs == Past(cs0, c.ps)
    ensures SetFrom(d, engine.desc[..], first, idx, ps + c.ps, engine.dir)
  {
    var addr := addr0;
    idx, ep, tlen, cs := idx0, ep0, tlen0, cs0;
    ghost var g: seq<Piece>, r: nat, slots: nat := [], r0, slots0;
    assert ps + g == ps && g + c.ps == c.ps;
    while tlen > 0 && idx < engine.desc.Length
      invariant idx == idx0 + |g| <= engine.desc.Length && r < a.size && AtPlace(ep, r, a)
      invariant tlen <= tlen0 && PiecesLen(g) == tlen0 - tlen && cs == Past(cs0, g)
      invariant slots == engine.desc.Length - idx && Going(c, g, CutEntry(addr, tlen, r, a, slots))
      invariant SetFrom(d, engine.desc[..], first, idx, ps + g, engine.dir)
      decreases engine.desc.Length - idx
    {
      var len;
      ghost var rest := slots - 1;
      ep, len, cs, r, g := CutOne(engine, a, addr, tlen, idx, ep, cs, cs0, r, slots, rest, first, d, ps, g, c);
      slots := rest;
      addr := Wrap64(addr + len);
      tlen := tlen - len;
      idx := idx + 1;
    }
    assert g + [] == g;
    assert GreedyCut(c.ps, a, tlen == 0) by {
      CutEntryGreedy(addr0, tlen0, r0, a, slots0);
    }
  }

  /** The sweep s has used up n entries and cut ps; `rest` is what it still has to do. */
  ghost predicate Sweeping(s: Pass, ps: seq<Piece>, n: nat, rest: Pass) {
    s.Cuts() == ps + rest.Cuts() && s.Full() == n + rest.Full() && s.Stop() == rest.Stop()
  }

  /** One entry further: the sweep stops in it, or goes on with the rest of the list. */
  lemma {:induction false} SweepStep(s: Pass, ps: seq<Piece>, n: nat, list: seq<Extent>, x: U32, r: nat, a: Aperture,
                                     slots: nat, slots': nat, c: Cut)
    requires ValidAperture(a) && r < a.size && list != [] && slots > 0 && c == CutFirst(list[0], x, r, a, slots)
    requires slots' == slots - |c.ps|
    requires Sweeping(s, ps, n, Sweep(list, x, r, a, slots))
    ensures PiecesLen(c.ps) <= Left(list[0], x)
    ensures PiecesLen(c.ps) < Left(list[0], x) ==>
      s.Cuts() == ps + c.ps && s.Full() == n && s.Stop() == x + PiecesLen(c.ps)
    ensures PiecesLen(c.ps) == Left(list[0], x) ==>
      Sweeping(s, ps + c.ps, n + 1, Sweep(list[1..], 0, c.r, a, slots'))
  {
    FirstCut(list[0], x, r, a, slots);
    if PiecesLen(c.ps) == Left(list[0], x) {
      var rest := Sweep(list[1..], 0, c.r, a, slots - |c.ps|);
      assert ps + (c.ps + rest.Cuts()) == ps + c.ps + rest.Cuts();
    }
  }

  /** One round of the loop over entries. */
  method CutOneEntry(engine: XdmaEngine, a: Aperture, e: Extent, idx0: nat, ep0: nat, cs0: Cursors, ghost r0: nat,
                     ghost slots0: nat, ghost s: Pass, ghost n: nat, ghost list: seq<Extent>, ghost first: nat, ghost d: seq<Desc>,
                     ghost ps: seq<Piece>, ghost offset0: U32)
    returns (idx: nat, ep: nat, left: bool, cs: Cursors, ghost r: nat, ghost slots: nat, ghost ps': seq<Piece>)
    requires ValidAperture(a) && r0 < a.size && AtPlace(ep0, r0, a)
    requires idx0 < engine.desc.Length && slots0 == engine.desc.Length - idx0 && list != [] && list[0] == e
    requires SetFrom(d, engine.desc[..], first, idx0, ps, engine.dir)
    requires cs0.offset == Grown(offset0, ps)
    requires Sweeping(s, ps, n, Sweep(list, cs0.sgOffset, r0, a, slots0))
    modifies engine.desc
    ensures idx0 <= idx <= engine.desc.Length && slots == engine.desc.Length - idx && r < a.size && AtPlace(ep, r, a)
    ensures SetFrom(d, engine.desc[..], first, idx, ps', engine.dir)
    ensures cs.offset == Grown(offset0, ps')
    ensures if left then s.Cuts() == ps' && s.Full() == n && cs.sgOffset == Wrap32(s.Stop())
            else cs.sgOffset == 0 && Sweeping(s, ps', n + 1, Sweep(list[1..], 0, r, a, slots))
  {
    var addr, tlen := Wrap64(e.addr + cs0.sgOffset), Sub32(e.len, cs0.sgOffset);
    ghost var c := CutFirst(e, cs0.sgOffset, r0, a, slots0);
    r, slots, ps' := c.r, slots0 - |c.ps|, ps + c.ps;
    SweepStep(s, ps, n, list, cs0.sgOffset, r0, a, slots0, slots, c);
    idx, ep, tlen, cs := CutWindow(engine, a, addr, tlen, idx0, ep0, cs0, r0, slots0, first, d, ps, c);
    GrownConcat(offset0, ps, c.ps);
    GrownIs(cs0.sgOffset, c.ps);
    left := tlen > 0;
    if !left {
      cs := cs.(sgOffset := 0);
    }
  }

  lemma {:induction false} SweepEnd(s: Pass, ps: seq<Piece>, n: nat, list: seq<Extent>, x: U32, r: nat, a: Aperture,
                                    slots: nat)
    requires ValidAperture(a) && r < a.size && (list == [] || slots == 0)
    requires Sweeping(s, ps, n, Sweep(list, x, r, a, slots))
    ensures s.Cuts() == ps && s.Full() == n && s.Stop() == x
  {
    assert ps + [] == ps;
  }

  /** The loop over the scatter entries, with the request's cursors as variables. */
  method CutEntries(engine: XdmaEngine, a: Aperture, sg: seq<Extent>, c: Spot, ep0: nat, ghost r0: nat, ghost slots0: nat)
    returns (idx: nat, i: nat, cs: Cursors, ghost s: Pass)
    requires ValidAperture(a) && r0 < a.size && AtPlace(ep0, r0, a)
    requires c.sgIdx <= |sg| && engine.descIdx < engine.desc.Length && slots0 == engine.desc.Length - engine.descIdx
    modifies engine.desc
    ensures s == Sweep(Seen(sg, c), c.sgOffset, r0, a, slots0)
    ensures i == c.sgIdx + s.Full() && cs == Cursors(Wrap32(s.Stop()), Grown(c.offset, s.Cuts()))
    ensures SetFrom(old(engine.desc[..]), engine.desc[..], engine.descIdx, idx, s.Cuts(), engine.dir)
  {
    ghost var d, first, list, ps := engine.desc[..], engine.descIdx, Seen(sg, c), [];
    ghost var r: nat, slots: nat := r0, slots0;
    var ep, n := ep0, 0;         // sg = req->sg: the first entry, whatever sg_idx is
    s := Sweep(list, c.sgOffset, r0, a, slots0);
    idx, i, cs := engine.descIdx, c.sgIdx, Cursors(c.sgOffset, c.offset);
    assert [] + s.Cuts() == s.Cuts();
    while i < |sg| && idx < engine.desc.Length
      invariant i == c.sgIdx + n <= |sg| && list == sg[n..|sg| - c.sgIdx]
      invariant first <= idx <= engine.desc.Length && r < a.size && AtPlace(ep, r, a)
      invariant slots == engine.desc.Length - idx && cs.offset == Grown(c.offset, ps)
      invariant Sweeping(s, ps, n, Sweep(list, cs.sgOffset, r, a, slots))
      invariant SetFrom(d, engine.desc[..], first, idx, ps, engine.dir)
      decreases |sg| - i
    {
      var left;
      idx, ep, left, cs, r, slots, ps :=
        CutOneEntry(engine, a, sg[n], idx, ep, cs, r, slots, s, n, list, first, d, ps, c.offset);
      if left {
        return;
      }
      list := list[1..];
      i := i + 1;
      n := n + 1;
    }
    SweepEnd(s, ps, n, list, cs.sgOffset, r, a, slots);
  }

  const RUN_END: bv32 := 0xAD4B0013   // DESC_MAGIC | STOPPED | EOP | COMPLETED

  function Linked(d: Desc, bus: U64, n: nat, k: nat): Desc {
    Link(d, NextAddr(bus, n, k), if k + 1 == n then RUN_END else DESC_MAGIC)
  }

  ghost predicate LinkStage(s: seq<Desc>, s': seq<Desc>, first: nat, bus: U64, n: nat) {
    && OnlyWindow(s, s', first, n)
    && forall j | first <= j < first + n :: s'[j] == Linked(s[j], bus, n, j - first)
  }

  /** The loop that creates the linked list, and the last descriptor. */
  method LinkRun(engine: XdmaEngine, first: nat, bus: U64, n: nat)
    requires 0 < n && first + n <= engine.desc.Length
    modifies engine.desc
    ensures LinkStage(old(engine.desc[..]), engine.desc[..], first, bus, n)
  {
    ghost var s := engine.desc[..];
    var next := bus;
    var i := 0;
    while i < n - 1
      invariant 0 <= i <= n - 1
      invariant next == Wrap64(bus + DESC_SIZE * i)
      invariant forall j | 0 <= j < engine.desc.Length && !(first <= j < first + i) :: engine.desc[j] == s[j]
      invariant forall j | first <= j < first + i :: engine.desc[j] == Linked(s[j], bus, n, j - first)
    {
      WrapAdd(bus + DESC_SIZE * i, DESC_SIZE);
      next := Wrap64(next + DESC_SIZE);
      engine.desc[first + i] := engine.desc[first + i].(nextLo := Lo32(next), nextHi := Hi32(next),
                                                        control := DESC_MAGIC);
      i := i + 1;
    }
    engine.desc[first + i] := engine.desc[first + i].(nextLo := 0, nextHi := 0,
      control := DESC_MAGIC | STOPPED | EOP | COMPLETED);
  }

  lemma {:induction false} LinkCompose(d: Desc, d1: Desc, d2: Desc, dir: Direction, bus: U64, n: nat, k: nat, p: Piece)
    requires k < n && d1 == DescSet(d, p, dir) && d2 == Linked(d1, bus, n, k)
    ensures WithAdjacent(d2, n - k - 1) == RunDesc(Config(dir, false, NoWriteback), bus, n, k, p)
  {
    assert SetControl(DESC_MAGIC, STOPPED | EOP | COMPLETED) == RUN_END;
  }

  lemma {:induction false} LinkMakesRun(s0: seq<Desc>, s1: seq<Desc>, s2: seq<Desc>, s3: seq<Desc>,
                     descBus: U64, first: nat, ps: seq<Piece>, dir: Direction)
    requires RingFits(s0, descBus) && ps != []
    requires SetFrom(s0, s1, first, first + |ps|, ps, dir)
    requires LinkStage(s1, s2, first, SlotAddr(descBus, first), |ps|)
    requires AdjacentStage(s2, s3, first, |ps|)
    ensures OnlyWindow(s0, s3, first, |ps|)
    ensures HoldsRun(s3, descBus, first, Config(dir, false, NoWriteback), ps)
  {
    var bus := SlotAddr(descBus, first);
    forall k | 0 <= k < |ps|
      ensures s3[first + k] == RunDesc(Config(dir, false, NoWriteback), bus, |ps|, k, ps[k])
    {
      var j := first + k;
      LinkCompose(s0[j], s1[j], s2[j], dir, bus, |ps|, k, ps[k]);
    }
  }

  /** The loops of one pass, from and to the request's cursors. */
  method SweepPass(engine: XdmaEngine, req: ApertureCb, sg: seq<Extent>, a: Aperture, ghost slots: nat)
    returns (count: nat, len: U32, ghost r: Pass)
    requires engine.ValidRing() && ValidAperture(a) && req.sgIdx <= |sg| && slots == engine.descMax - engine.descIdx
    modifies engine.desc, req`offset, req`sgIdx, req`sgOffset
    ensures r == PassFrom(sg, old(req.Here()), a, slots)
    ensures req.Here() == Onward(old(req.Here()), r)
    ensures count == |r.Cuts()| && len == Wrap32(PiecesLen(r.Cuts()))
    ensures SetFrom(old(engine.desc[..]), engine.desc[..], engine.descIdx, engine.descIdx + count, r.Cuts(),
                    engine.dir)
  {
    var c := Spot(req.offset, req.sgIdx, req.sgOffset);
    var place := PassStart(c, a);
    var idx, cs;
    idx, req.sgIdx, cs, r := CutEntries(engine, a, sg, c, a.base + place, place, slots);
    GrownIs(c.offset, r.Cuts());
    req.sgOffset, req.offset := cs.sgOffset, cs.offset;
    count := idx - engine.descIdx;
    len := Sub32(req.offset, c.offset);
    Sub32OfSum(c.offset, PiecesLen(r.Cuts()));
  }

  /**
   * One pass of the loop of xdma_xfer_aperture, up to transfer_queue: the engine is launched with
   * the pieces of the pass, and the request's cursors move on.  A pass without pieces stops here:
   * the source would go on to store beyond the ring.
   */
  method BuildPass(engine: XdmaEngine, req: ApertureCb, sg: seq<Extent>, a: Aperture, ghost slots: nat)
    returns (t: Transfer, ghost r: Pass)
    requires engine.ValidRing() && Ready(engine.Setup(), engine.View())
    requires ValidAperture(a) && req.sgIdx <= |sg| && slots == engine.descMax - engine.descIdx
    modifies engine.desc, engine`descIdx, engine`descUsed, engine`xfers, engine`nextXfer,
             req`offset, req`sgIdx, req`sgOffset
    ensures engine.ValidRing()
    ensures r == PassFrom(sg, old(req.Here()), a, slots)
    ensures req.Here() == Onward(old(req.Here()), r)
    ensures t.descNum == |r.Cuts()| && t.first == old(engine.descIdx) && t.x == old(engine.nextXfer)
    ensures t.len == Wrap32(PiecesLen(r.Cuts())) && t.first + t.descNum <= engine.descMax
    ensures engine.View() == if r.Cuts() == [] then old(engine.View())
                             else Launched(engine.Setup(), old(engine.View()), false, r.Cuts())
  {
    ghost var m := engine.View();
    var first := engine.descIdx;
    var count, len;
    count, len, r := SweepPass(engine, req, sg, a, slots);
    t := LaunchPass(engine, first, count, len, m, r.Cuts());
  }

  /** The rest of a pass: link the run, take the window, name the transfer. */
  method LaunchPass(engine: XdmaEngine, first: nat, count: nat, len: U32, ghost m: Machine, ghost ps: seq<Piece>)
    returns (t: Transfer)
    requires engine.ValidRing() && count == |ps| && first == engine.descIdx && first + count <= engine.descMax
    requires SetFrom(m.ring, engine.desc[..], first, first + count, ps, engine.dir)
    requires Ready(engine.Setup(), m) && engine.View() == m.(ring := engine.desc[..])
    modifies engine.desc, engine`descIdx, engine`descUsed, engine`xfers, engine`nextXfer
    ensures engine.ValidRing()
    ensures t.descNum == count && t.first == first && t.x == m.next && t.len == len
    ensures engine.View() == if ps == [] then m else Launched(engine.Setup(), m, false, ps)
  {
    t := Transfer(engine.nextXfer, first, SlotAddr(engine.descBus, first), count, count, count, len);
    if count == 0 {
      assert engine.desc[..] == m.ring;
    } else {
      FinishPass(engine, first, count, m.ring, ps);
      engine.descUsed := engine.descUsed + count;
      engine.descIdx := NextIdx(engine.descIdx, count, engine.descMax);
      engine.xfers := engine.xfers[engine.nextXfer := Xfer(New, count, 0, false)];
      engine.nextXfer := engine.nextXfer + 1;
    }
  }

  /** Linking and adjacency turn the descriptors of a pass into a run. */
  method FinishPass(engine: XdmaEngine, first: nat, count: nat, ghost s0: seq<Desc>, ghost ps: seq<Piece>)
    requires engine.ValidRing() && 0 < count == |ps| && first + count <= engine.descMax
    requires SetFrom(s0, engine.desc[..], first, first + count, ps, engine.dir)
    modifies engine.desc
    ensures |s0| == engine.desc.Length
    ensures engine.desc[..] == Written(s0, engine.descBus, first, Config(engine.dir, false, NoWriteback), ps)
  {
    ghost var s1 := engine.desc[..];
    LinkRun(engine, first, SlotAddr(engine.descBus, first), count);
    ghost var s2 := engine.desc[..];
    engine.SetAdjacents(first, count);
    LinkMakesRun(s0, s1, s2, engine.desc[..], engine.descBus, first, ps, engine.dir);
    WrittenUnique(s0, engine.desc[..], engine.descBus, first, Config(engine.dir, false, NoWriteback), ps);
  }
}
