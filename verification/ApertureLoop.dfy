/**
 * The request loop of xdma_xfer_aperture: which passes there are depends on the scatter list and the
 * ring alone, and the rest of the system decides how far the request gets.
 */
module ApertureRequests {
  import opened Words
  import opened Memory
  import opened Runs
  import opened Allocation
  import opened Turns
  import opened Engines
  import opened Sweeps
  import opened Apertures
  import opened AperturePasses
  import opened ApertureRoutes
  import opened Submission
  import opened Errno

  /** The passes of a whole request. */
  function Itinerary(p: Params, m: Machine, sg: seq<Extent>, a: Aperture): seq<Leg>
    requires ValidAperture(a) && m.idx < p.descMax
  {
    Legs(sg, START, a, m.idx, p.descMax)
  }

  lemma {:induction false} ItineraryFits(p: Params, m: Machine, sg: seq<Extent>, a: Aperture)
    requires ValidAperture(a) && m.idx < p.descMax
    ensures IsRoute(sg, START, m.idx, p.descMax, Itinerary(p, m, sg, a))
    ensures IsPow2(a.size) ==> PhasedLegs(a, Itinerary(p, m, sg, a))
    ensures Fits(p.descMax, m.idx, BatchesOf(Itinerary(p, m, sg, a)))
  {
    LegsAreRoute(sg, START, a, m.idx, p.descMax, Itinerary(p, m, sg, a));
    RouteFits(sg, START, m.idx, p.descMax, Itinerary(p, m, sg, a));
  }

  /** xdma_xfer_aperture once its scatter list is mapped: one turn per pass. */
  ghost function Aimed(e: Site, m: Machine, sg: seq<Extent>, a: Aperture): (f: Final)
    requires ValidAperture(a) && Sound(e.deal) && Ready(e.p, m)
    ensures Ready(e.p, f.m)
  {
    ItineraryFits(e.p, m, sg, a);
    Play(e, m, false, BatchesOf(Itinerary(e.p, m, sg, a)), 0)
  }

  /** The transfers of a request: names, states, desc_used. */
  lemma {:induction false} AimedTransfers(e: Site, m: Machine, sg: seq<Extent>, a: Aperture)
    requires ValidAperture(a) && Sound(e.deal) && Ready(e.p, m)
    ensures var f := Aimed(e, m, sg, a);
      && f.m.next == m.next + |f.chains| && Ledger(f.chains, f.m.q.xfer, m.next, f.v)
      && f.done <= |Itinerary(e.p, m, sg, a)| && (f.v == Done <==> f.done == |Itinerary(e.p, m, sg, a)|)
      && (f.m.used == m.used <==> f.v != Rejected)
      && (f.chains == [] ==> f.v == Done)
      && Returned(f.chains, m.ring, f.m.ring, f.v != Rejected)
  {
    var bs := BatchesOf(Itinerary(e.p, m, sg, a));
    ItineraryFits(e.p, m, sg, a);
    PlayRing(e, m, false, bs, 0);
    PlayCounts(e, m, false, bs, 0);
    PlayLedger(e, m, false, bs, 0);
  }

  /** A request takes a transfer exactly if it has bytes to move. */
  lemma {:induction false} AimedStarts(e: Site, m: Machine, sg: seq<Extent>, a: Aperture)
    requires ValidAperture(a) && Sound(e.deal) && Ready(e.p, m) && TotalLen(sg) < TWO32
    ensures Aimed(e, m, sg, a).chains == [] <==> TotalLen(sg) == 0
  {
    ItineraryFits(e.p, m, sg, a);
    FirstLeg(sg, a, m.idx, e.p.descMax);
    PlayCounts(e, m, false, BatchesOf(Itinerary(e.p, m, sg, a)), 0);
  }

  /** If the completed passes are right, their bytes are counted from the start of the request. */
  lemma {:induction false} AimedBytes(e: Site, m: Machine, sg: seq<Extent>, a: Aperture, f: Final, legs: seq<Leg>)
    requires ValidAperture(a) && Sound(e.deal) && Ready(e.p, m) && TotalLen(sg) < TWO32
    requires f == Aimed(e, m, sg, a) && legs == Itinerary(e.p, m, sg, a)
    requires f.done <= |legs| && RightLegs(sg, legs, f.done)
    ensures BytesDone(f) == EndSpot(START, legs[..f.done]).offset <= TotalLen(sg)
    ensures f.done < |legs| ==> BytesDone(f) < TotalLen(sg)
  {
    ItineraryFits(e.p, m, sg, a);
    PlayBytes(e, m, false, BatchesOf(legs), 0);
    StartIsAt(sg);
    RightRouteEnds(sg, START, m.idx, e.p.descMax, legs, f.done);
  }

  /**
   * If the completed passes are right, the bytes of the completed transfers are the leading bytes
   * of the request, and running their chains streams these bytes, byte o to base + o mod size.
   */
  lemma {:induction false} AimedDelivers(e: Site, m: Machine, sg: seq<Extent>, a: Aperture, w: World)
    requires ValidAperture(a) && IsPow2(a.size) && Sound(e.deal) && Ready(e.p, m) && TotalLen(sg) < TWO32
    requires var f := Aimed(e, m, sg, a);
      f.done <= |Itinerary(e.p, m, sg, a)| && RightLegs(sg, Itinerary(e.p, m, sg, a), f.done)
    ensures var f := Aimed(e, m, sg, a);
      && BytesDone(f) == EndSpot(START, Itinerary(e.p, m, sg, a)[..f.done]).offset <= TotalLen(sg)
      && Carried(w, e.p, f.chains, f.m.q.xfer)
         == Apply(w, e.p.dir, StreamMoves(HostBytes(sg)[..BytesDone(f)], a, 0))
  {
    var legs, f := Itinerary(e.p, m, sg, a), Aimed(e, m, sg, a);
    ItineraryFits(e.p, m, sg, a);
    AimedBytes(e, m, sg, a, f, legs);
    PlayMemory(w, e, m, false, BatchesOf(legs), 0);
    StartIsAt(sg);
    RightRouteStreams(sg, START, a, m.idx, e.p.descMax, legs, f.done, BytesDone(f));
    assert HostBytes(sg)[0..BytesDone(f)] == HostBytes(sg)[..BytesDone(f)];
  }

  /**
   * If the entries agree at every pass that is meant, the request does not run away, its completed
   * passes are right, and it is complete exactly if its last transfer is.
   */
  lemma {:induction false} AimedComplete(e: Site, m: Machine, sg: seq<Extent>, a: Aperture)
    requires ValidAperture(a) && Sound(e.deal) && Ready(e.p, m) && TotalLen(sg) < TWO32
    requires At(sg, START) && AgreeAll(sg, START, a, m.idx, e.p.descMax)
    ensures !RunsAway(sg, a, m.idx, e.p.descMax)
    ensures var f := Aimed(e, m, sg, a);
      && f.done <= |Itinerary(e.p, m, sg, a)| && RightLegs(sg, Itinerary(e.p, m, sg, a), f.done)
      && BytesDone(f) <= TotalLen(sg) && (BytesDone(f) == TotalLen(sg) <==> f.v == Done)
  {
    var f, legs := Aimed(e, m, sg, a), Itinerary(e.p, m, sg, a);
    AllRightIff(sg, START, a, m.idx, e.p.descMax);
    AimedTransfers(e, m, sg, a);
    AimedBytes(e, m, sg, a, f, legs);
    assert legs[..|legs|] == legs;
  }

  // ---------------------------------------------------------------------------------------
  // The request in place

  /** A round of the loop is a turn with the pieces of the next pass; without pieces it stops short. */
  method PassOne(engine: XdmaEngine, req: ApertureCb, sg: seq<Extent>, a: Aperture, s: Script, ghost deal: Dealing,
                 ghost slots: nat)
    returns (v: Verdict, len: U32, empty: bool, ghost r: Pass, ghost chain: Chain)
    requires engine.ValidRing() && Ready(engine.Setup(), engine.View())
    requires ValidAperture(a) && req.sgIdx <= |sg| && slots == engine.descMax - engine.descIdx
    requires Sound(deal) && IsDriver(deal, engine.Setup())
    modifies engine, engine.desc, req
    ensures engine.ValidRing() && Ready(engine.Setup(), engine.View()) && engine.Setup() == old(engine.Setup())
    ensures r == PassFrom(sg, old(req.Here()), a, slots)
    ensures req.Here() == Onward(old(req.Here()), r)
    ensures empty <==> r.Cuts() == []
    ensures empty ==> v == Done && engine.View() == old(engine.View())
    ensures !empty ==>
      && |r.Cuts()| <= slots && len == Wrap32(PiecesLen(r.Cuts()))
      && Turned(engine.View(), chain, v)
         == Turn(engine.Setup(), deal, old(engine.View()), false, r.Cuts(), s)
  {
    ghost var m := engine.View();
    var t;
    t, r := BuildPass(engine, req, sg, a, slots);
    len, empty := t.len, t.descNum == 0;
    chain := Chain(0, [], 0, Window(0, 0), 0);
    if empty {
      return Done, len, empty, r, chain;
    }
    v, chain := TakeTurn(engine, t, s, deal, m, false, r.Cuts());
  }

  /** What is left of the request: its batches, and where it will end. */
  ghost predicate OnRoute(sg: seq<Extent>, c: Spot, a: Aperture, p: Params, m: Machine, bs: seq<seq<Piece>>, end: Spot)
    requires ValidAperture(a) && m.idx < p.descMax
  {
    && c.sgIdx <= |sg|
    && Fits(p.descMax, m.idx, bs)
    && bs == BatchesOf(Legs(sg, c, a, m.idx, p.descMax))
    && end == EndSpot(c, Legs(sg, c, a, m.idx, p.descMax))
  }

  /** One pass further along the route. */
  lemma {:induction false} RouteStep(sg: seq<Extent>, c: Spot, a: Aperture, p: Params, m: Machine,
                                     bs: seq<seq<Piece>>, end: Spot, slots: nat, r: Pass)
    requires ValidAperture(a) && m.idx < p.descMax && OnRoute(sg, c, a, p, m, bs, end) && c.offset < TotalLen(sg)
    requires slots == p.descMax - m.idx && r == PassFrom(sg, c, a, slots)
    ensures r.Cuts() == [] ==> bs == [] && end == c
    ensures r.Cuts() != [] ==>
      && bs != [] && bs[0] == r.Cuts()
      && forall m': Machine | m'.idx == NextIdx(m.idx, |bs[0]|, p.descMax) ::
           OnRoute(sg, Onward(c, r), a, p, m', bs[1..], end)
  {
    if r.Cuts() != [] {
      var rest := Legs(sg, Onward(c, r), a, NextIdx(m.idx, |r.Cuts()|, p.descMax), p.descMax);
      LegCons(c, Leg(c, r), rest);
      assert ([r.Cuts()] + BatchesOf(rest))[1..] == BatchesOf(rest);
    }
  }

  lemma {:induction false} RouteDone(sg: seq<Extent>, c: Spot, a: Aperture, p: Params, m: Machine,
                                     bs: seq<seq<Piece>>, end: Spot)
    requires ValidAperture(a) && m.idx < p.descMax && OnRoute(sg, c, a, p, m, bs, end) && c.offset >= TotalLen(sg)
    ensures bs == [] && end == c
  {
  }

  /** A round, and what it leaves of the request's route. */
  method PassRound(engine: XdmaEngine, req: ApertureCb, sg: seq<Extent>, a: Aperture, s: Script,
                   ghost e: Site, ghost k: nat, ghost k': nat, ghost bs: seq<seq<Piece>>, ghost chains: seq<Chain>,
                   ghost done: nat, ghost f: Final, ghost end: Spot)
    returns (v: Verdict, len: U32, empty: bool, ghost bs': seq<seq<Piece>>, ghost chains': seq<Chain>)
    requires engine.ValidRing() && Ready(engine.Setup(), engine.View()) && ValidAperture(a)
    requires e.p == engine.Setup() && IsDriver(e.deal, e.p) && e.env(k) == s && k' == k + 1
    requires Midway(e, engine.View(), false, bs, k, chains, done, f)
    requires OnRoute(sg, req.Here(), a, e.p, engine.View(), bs, end) && req.offset < TotalLen(sg)
    modifies engine, engine.desc, req
    ensures engine.ValidRing() && Ready(engine.Setup(), engine.View()) && engine.Setup() == old(engine.Setup())
    ensures empty ==> v == Done && end == old(req.Here())
    ensures !empty ==> |bs'| < |bs| && OnRoute(sg, req.Here(), a, e.p, engine.View(), bs', end)
    ensures if empty || v != Done then f == Final(engine.View(), chains', v, k) && BytesDone(f) == done
            else Midway(e, engine.View(), false, bs', k', chains', done + len, f)
  {
    ghost var m, c, slots := engine.View(), req.Here(), engine.descMax - engine.descIdx;
    ghost var r, chain;
    v, len, empty, r, chain := PassOne(engine, req, sg, a, s, e.deal, slots);
    RouteStep(sg, c, a, e.p, m, bs, end, slots, r);
    bs', chains' := bs, chains;
    if empty {
      PlayEnds(e, m, false, bs, k, chains, done, f);
    } else {
      bs', chains' := bs[1..], chains + [chain];
      PlayAdvances(e, m, false, bs, k, k', chains, done, f, Turned(engine.View(), chain, v), len);
    }
  }

  /**
   * The loop of xdma_xfer_aperture plays the passes of the request.  `runaway` says that it has
   * come to a pass without descriptors, where the source leaves its ring.
   */
  method PassLoop(engine: XdmaEngine, req: ApertureCb, sg: seq<Extent>, total: U32, a: Aperture, env: nat -> Script,
                  ghost deal: Dealing, ghost bs0: seq<seq<Piece>>, ghost end: Spot)
    returns (done: nat, v: Verdict, runaway: bool, ghost f: Final)
    requires engine.ValidRing() && Ready(engine.Setup(), engine.View())
    requires ValidAperture(a) && total == TotalLen(sg)
    requires Sound(deal) && IsDriver(deal, engine.Setup())
    requires OnRoute(sg, req.Here(), a, engine.Setup(), engine.View(), bs0, end)
    modifies engine, engine.desc, req
    ensures engine.ValidRing() && engine.Setup() == old(engine.Setup())
    ensures f == Play(Site(engine.Setup(), deal, env), old(engine.View()), false, bs0, 0)
    ensures engine.View() == f.m && v == f.v && done == BytesDone(f)
    ensures runaway <==> v == Done && end.offset < total
  {
    ghost var e := Site(engine.Setup(), deal, env);
    ghost var bs, chains := bs0, [];
    f := Play(e, engine.View(), false, bs0, 0);
    PlayStarts(e, engine.View(), false, bs0, f);
    var k := 0;
    done, v, runaway := 0, Done, false;
    while req.offset < total
      invariant engine.ValidRing() && Ready(engine.Setup(), engine.View()) && engine.Setup() == e.p
      invariant v == Done && !runaway
      invariant OnRoute(sg, req.Here(), a, e.p, engine.View(), bs, end)
      invariant Midway(e, engine.View(), false, bs, k, chains, done, f)
      decreases |bs|, !runaway
    {
      var len, empty;
      var k' := k + 1;
      v, len, empty, bs, chains := PassRound(engine, req, sg, a, env(k), e, k, k', bs, chains, done, f, end);
      if empty {
        runaway := true;
        return;
      }
      if v != Done {
        return;
      }
      done := done + len;
      k := k';
    }
    RouteDone(sg, req.Here(), a, e.p, engine.View(), bs, end);
    PlayEnds(e, engine.View(), false, bs, k, chains, done, f);
  }

  /** The total length, a 32-bit sum. */
  method SumLens(sg: seq<Extent>) returns (tlen: U32)
    ensures tlen == Wrap32(TotalLen(sg))
  {
    tlen := 0;
    for i := 0 to |sg|
      invariant tlen == Wrap32(TotalLen(sg[..i]))
    {
      TotalLenTake(sg, i);
      WrapAdd32(TotalLen(sg[..i]), sg[i].len);
      tlen := Wrap32(tlen + sg[i].len);
    }
    assert sg[..|sg|] == sg;
  }

  /** Besides what xdma_xfer_submit turns away, a streaming engine is. */
  ghost predicate TurnedBack(offlineSeen: bool, write: bool, engine: XdmaEngine, sg: seq<Extent>) {
    TurnedAway(offlineSeen, write, engine.dir, sg) || engine.streaming
  }

  /** What xdma_xfer_aperture does with a mapped scatter list, for the driver's way with a transfer. */
  ghost function Apertured(p: Params, m: Machine, sg: seq<Extent>, a: Aperture, env: nat -> Script): (f: Final)
    requires ValidAperture(a) && Ready(p, m)
  {
    DriverSound(p);
    Aimed(Site(p, Driver(p), env), m, sg, a)
  }

  /**
   * xdma_xfer_aperture on a mapped scatter list, for any list and ring: it leaves the engine and
   * the transfers of Apertured, and a positive result is the bytes of the transfers that are then
   * COMPLETED.  If their passes are right, these are the leading bytes of the request, and running
   * their chains streams them through the window.  If the entries agree at every pass that is meant,
   * the passes are right, and the result is the total exactly if every transfer was completed; with
   * one scatter entry, or a request that fits the rest of the ring, they agree.
   */
  method XferAperture(engine: XdmaEngine, write: bool, offlineSeen: bool, sg: seq<Extent>, ep: U64, aperture: U32,
                      blen: U32, env: nat -> Script)
    returns (rv: int, v: Verdict, runaway: bool)
    requires engine.ValidRing() && Ready(engine.Setup(), engine.View())
    requires blen > 0 && TotalLen(sg) < TWO32 && 0 < aperture && ep + aperture < TWO64
    modifies engine, engine.desc
    ensures engine.Setup() == old(engine.Setup())
    ensures TurnedBack(offlineSeen, write, engine, sg) ==>
      && v == Rejected && !runaway && engine.View() == old(engine.View())
      && rv == if offlineSeen then -16
               else if write == engine.dir.ToDevice? && !engine.streaming then -5 else -22
    ensures engine.nextXfer > old(engine.nextXfer) <==> !TurnedBack(offlineSeen, write, engine, sg) && TotalLen(sg) > 0
    ensures !TurnedBack(offlineSeen, write, engine, sg) ==>
      var a := Aperture(ep, aperture, Min(aperture, blen));
      var f := Apertured(engine.Setup(), old(engine.View()), sg, a, env);
      var legs := Itinerary(engine.Setup(), old(engine.View()), sg, a);
      var n := CompletedLen(f.chains, engine.xfers);
      && engine.View() == f.m && v == f.v
      && (runaway <==> v == Done && RunsAway(sg, a, old(engine.descIdx), engine.descMax))
      && (!runaway ==> Told(rv, n, engine.xfers, old(engine.nextXfer), engine.nextXfer))
      && engine.nextXfer == old(engine.nextXfer) + |f.chains|
      && Ledger(f.chains, engine.xfers, old(engine.nextXfer), v)
      && Returned(f.chains, old(engine.desc[..]), engine.desc[..], v != Rejected)
      && (engine.descUsed == old(engine.descUsed) <==> v != Rejected)
      && f.done <= |legs| && GreedyLegs(a, legs)
      && (IsPow2(aperture) && RightLegs(sg, legs, f.done) ==>
            && n <= TotalLen(sg)
            && forall w :: Carried(w, engine.Setup(), f.chains, engine.xfers)
                           == Apply(w, engine.dir, StreamMoves(HostBytes(sg)[..n], a, 0)))
      && At(sg, START)
      && (AgreeAll(sg, START, a, old(engine.descIdx), engine.descMax) ==>
            !runaway && RightLegs(sg, legs, f.done) && n <= TotalLen(sg) && (n == TotalLen(sg) <==> v == Done))
      && (|sg| == 1 || Need(sg, a) <= engine.descMax - old(engine.descIdx) ==>
            AgreeAll(sg, START, a, old(engine.descIdx), engine.descMax))
  {
    runaway := false;
    if offlineSeen {
      return EBUSY, Rejected, runaway;
    }
    if write != engine.dir.ToDevice? {
      return EINVAL, Rejected, runaway;
    }
    if engine.streaming {
      return EINVAL, Rejected, runaway;
    }
    if sg == [] {
      return EIO, Rejected, runaway;
    }
    var a := Aperture(ep, aperture, Min(aperture, blen));
    StartIsAt(sg);
    AgreesWhen(sg, a, engine.descIdx, engine.descMax);
    DriverSound(engine.Setup());
    ghost var f;
    rv, v, runaway, f := ApertureMapped(engine, sg, a, env, Driver(engine.Setup()));
  }

  /** xdma_xfer_aperture once the scatter list is mapped. */
  method ApertureMapped(engine: XdmaEngine, sg: seq<Extent>, a: Aperture, env: nat -> Script, ghost deal: Dealing)
    returns (rv: int, v: Verdict, runaway: bool, ghost f: Final)
    requires engine.ValidRing() && Ready(engine.Setup(), engine.View())
    requires ValidAperture(a) && TotalLen(sg) < TWO32
    requires Sound(deal) && IsDriver(deal, engine.Setup())
    modifies engine, engine.desc
    ensures engine.Setup() == old(engine.Setup())
    ensures f == Aimed(Site(engine.Setup(), deal, env), old(engine.View()), sg, a)
    ensures engine.View() == f.m && v == f.v
    ensures runaway <==> v == Done && RunsAway(sg, a, old(engine.descIdx), engine.descMax)
    ensures Told(rv, BytesDone(f), engine.xfers, old(engine.nextXfer), engine.nextXfer)
    ensures engine.nextXfer > old(engine.nextXfer) <==> TotalLen(sg) > 0
    ensures Returned(f.chains, old(engine.desc[..]), engine.desc[..], v != Rejected)
    ensures engine.nextXfer == old(engine.nextXfer) + |f.chains|
    ensures Ledger(f.chains, engine.xfers, old(engine.nextXfer), v)
    ensures engine.descUsed == old(engine.descUsed) <==> v != Rejected
    ensures f.done <= |Itinerary(engine.Setup(), old(engine.View()), sg, a)|
    ensures GreedyLegs(a, Itinerary(engine.Setup(), old(engine.View()), sg, a))
    ensures IsPow2(a.size) && RightLegs(sg, Itinerary(engine.Setup(), old(engine.View()), sg, a), f.done) ==>
      && BytesDone(f) <= TotalLen(sg)
      && forall w :: Carried(w, engine.Setup(), f.chains, engine.xfers)
                     == Apply(w, engine.dir, StreamMoves(HostBytes(sg)[..BytesDone(f)], a, 0))
    ensures At(sg, START)
    ensures AgreeAll(sg, START, a, old(engine.descIdx), engine.descMax) ==>
      && !RunsAway(sg, a, old(engine.descIdx), engine.descMax)
      && RightLegs(sg, Itinerary(engine.Setup(), old(engine.View()), sg, a), f.done)
      && BytesDone(f) <= TotalLen(sg) && (BytesDone(f) == TotalLen(sg) <==> v == Done)
  {
    StartIsAt(sg);
    ghost var e, m := Site(engine.Setup(), deal, env), engine.View();
    ghost var legs := Itinerary(e.p, m, sg, a);
    ItineraryFits(e.p, m, sg, a);
    var req := new ApertureCb();
    var total := SumLens(sg);
    var done;
    done, v, runaway, f := PassLoop(engine, req, sg, total, a, env, deal, BatchesOf(legs), EndSpot(START, legs));
    rv := if done > 0 then done else Code(v);
    AimedTransfers(e, m, sg, a);
    AimedStarts(e, m, sg, a);
    LegsAreGreedy(sg, START, a, m.idx, e.p.descMax, legs);
    AnswerTells(f.chains, f.m.q.xfer, m.next, f.m.next, f.v, BytesDone(f));
    if AgreeAll(sg, START, a, m.idx, e.p.descMax) {
      AimedComplete(e, m, sg, a);
    }
    if IsPow2(a.size) && RightLegs(sg, Itinerary(e.p, m, sg, a), f.done) {
      AimedDelivers(e, m, sg, a, World(map[], map[]));
      forall w
        ensures Carried(w, e.p, f.chains, f.m.q.xfer)
             == Apply(w, e.p.dir, StreamMoves(HostBytes(sg)[..BytesDone(f)], a, 0))
      {
        AimedDelivers(e, m, sg, a, w);
      }
    }
  }
}
