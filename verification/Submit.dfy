/**
 * xdma_xfer_submit: one synchronous request from its scatter list to the byte count returned.  All
 * that others do to the engine meanwhile is a parameter, and so is when each wait ends.
 */
module Submission {
  import opened Words
  import opened Memory
  import opened Requests
  import opened Runs
  import opened Allocation
  import opened Queues
  import opened Turns
  import opened Engines
  import opened Errno
  import Sync

  // ---------------------------------------------------------------------------------------
  // The request as a function

  /** What transfer_init makes of the pieces of a request: one batch per window of the ring. */
  function Batches(ps: seq<Piece>, idx: nat, descMax: nat): seq<seq<Piece>>
    requires idx < descMax
    decreases |ps|
  {
    if ps == [] then []
    else
      var n := Take(idx, |ps|, descMax);
      [ps[..n]] + Batches(ps[n..], NextIdx(idx, n, descMax), descMax)
  }

  /** Cutting the pieces into batches loses none, and takes the windows of Allocation. */
  lemma {:induction false} BatchesTile(ps: seq<Piece>, idx: nat, descMax: nat)
    requires idx < descMax
    ensures var bs := Batches(ps, idx, descMax);
      && Fits(descMax, idx, bs) && Flat(bs) == ps
      && BatchWindows(descMax, idx, bs) == Windows(idx, |ps|, descMax)
    decreases |ps|
  {
    if ps != [] {
      var n := Take(idx, |ps|, descMax);
      var rest := Batches(ps[n..], NextIdx(idx, n, descMax), descMax);
      BatchesTile(ps[n..], NextIdx(idx, n, descMax), descMax);
      assert ([ps[..n]] + rest)[1..] == rest;
      assert ps == ps[..n] + ps[n..];
    }
  }

  lemma {:induction false} FlatPrefix(bs: seq<seq<Piece>>, k: nat)
    requires k <= |bs|
    ensures Flat(bs[..k]) <= Flat(bs)
    ensures k < |bs| && (forall j | 0 <= j < |bs| :: bs[j] != []) ==> |Flat(bs[..k])| < |Flat(bs)|
    decreases |bs|
  {
    if k == |bs| {
      assert bs[..k] == bs;
    } else if k > 0 {
      FlatPrefix(bs[1..], k - 1);
      assert bs[..k][1..] == bs[1..][..k - 1];
    } else {
      assert bs[..0] == [];
    }
  }

  lemma {:induction false} FitsNonEmpty(descMax: nat, idx: nat, bs: seq<seq<Piece>>)
    requires descMax > 0 && Fits(descMax, idx, bs)
    ensures forall j | 0 <= j < |bs| :: bs[j] != []
    decreases |bs|
  {
    if bs != [] {
      FitsNonEmpty(descMax, NextIdx(idx, |bs[0]|, descMax), bs[1..]);
      assert forall j | 1 <= j < |bs| :: bs[j] == bs[1..][j - 1];
    }
  }

  /** The batches of software descriptors placed from card address ep on. */
  function Plan(p: Params, m: Machine, descs: seq<Extent>, ep: U64, incr: bool): seq<seq<Piece>>
    requires m.idx < p.descMax
  {
    Batches(Place(descs, ep, incr), m.idx, p.descMax)
  }

  lemma {:induction false} PlanFits(p: Params, m: Machine, descs: seq<Extent>, ep: U64, incr: bool)
    requires m.idx < p.descMax
    ensures Fits(p.descMax, m.idx, Plan(p, m, descs, ep, incr))
  {
    BatchesTile(Place(descs, ep, incr), m.idx, p.descMax);
  }

  /** xdma_xfer_submit once its scatter list is cut: one turn per batch. */
  ghost function Request(e: Site, m: Machine, descs: seq<Extent>, ep: U64, incr: bool): (f: Final)
    requires Sound(e.deal) && Ready(e.p, m)
    ensures Ready(e.p, f.m)
  {
    PlanFits(e.p, m, descs, ep, incr);
    Play(e, m, e.p.eopFlush, Plan(e.p, m, descs, ep, incr), 0)
  }

  // ---------------------------------------------------------------------------------------
  // What the function delivers

  lemma {:induction false} HostBytesTake(es: seq<Extent>, k: nat)
    requires k <= |es|
    ensures TotalLen(es[..k]) <= TotalLen(es)
    ensures HostBytes(es[..k]) == HostBytes(es)[..TotalLen(es[..k])]
  {
    assert es == es[..k] + es[k..];
    TotalLenConcat(es[..k], es[k..]);
    HostBytesConcat(es[..k], es[k..]);
  }

  lemma {:induction false} NonEmptyPrefix(es: seq<Extent>, blen: U32, k: nat)
    requires ValidPieces(es, blen) && 0 < k <= |es|
    ensures TotalLen(es[..k]) > 0
  {
    TotalLenTake(es, k - 1);
  }

  lemma {:induction false} ShortPrefix(es: seq<Extent>, blen: U32, k: nat)
    requires ValidPieces(es, blen) && k < |es|
    ensures TotalLen(es[..k]) < TotalLen(es)
  {
    TotalLenTake(es, k);
    TotalLenMonotone(es, k + 1, |es|);
    assert es[..|es|] == es;
  }

  /** How many bytes the first k software descriptors of a request are, and which. */
  lemma {:induction false} PrefixBytes(sg: seq<Extent>, blen: U32, k: nat)
    requires blen > 0 && k <= |AllPieces(sg, blen)|
    ensures var ds := AllPieces(sg, blen);
      var n := TotalLen(ds[..k]);
      && n <= TotalLen(sg) && HostBytes(ds[..k]) == HostBytes(sg)[..n]
      && (n == TotalLen(sg) <==> k == |ds|)
      && (n == 0 <==> k == 0)
  {
    var ds := AllPieces(sg, blen);
    AllPiecesTile(sg, blen);
    HostBytesTake(ds, k);
    assert ds[..|ds|] == ds && ds[..0] == [];
    if k > 0 {
      NonEmptyPrefix(ds, blen, k);
    }
    if k < |ds| {
      ShortPrefix(ds, blen, k);
    }
  }

  /** As long as the total fits 32 bits, the lengths of the transfers add up to those of the pieces. */
  lemma {:induction false} LensAdd(bs: seq<seq<Piece>>)
    requires PiecesLen(Flat(bs)) < TWO32
    ensures TransferLens(bs) == PiecesLen(Flat(bs))
    decreases |bs|
  {
    if bs != [] {
      PiecesLenConcat(bs[0], Flat(bs[1..]));
      LensAdd(bs[1..]);
    }
  }

  /** How many software descriptors the first `done` batches of a request carry. */
  function Copied(p: Params, m: Machine, descs: seq<Extent>, ep: U64, incr: bool, done: nat): nat
    requires m.idx < p.descMax && done <= |Plan(p, m, descs, ep, incr)|
  {
    |Flat(Plan(p, m, descs, ep, incr)[..done])|
  }

  /** Some batches of a request are its first software descriptors, placed. */
  lemma {:induction false} BatchesPrefix(p: Params, m: Machine, descs: seq<Extent>, ep: U64, incr: bool, done: nat)
    requires m.idx < p.descMax && done <= |Plan(p, m, descs, ep, incr)|
    ensures var n := Copied(p, m, descs, ep, incr, done);
      && n <= |descs| && (n == |descs| <==> done == |Plan(p, m, descs, ep, incr)|)
      && Flat(Plan(p, m, descs, ep, incr)[..done]) == Place(descs[..n], ep, incr)
  {
    var bs, n := Plan(p, m, descs, ep, incr), Copied(p, m, descs, ep, incr, done);
    BatchesTile(Place(descs, ep, incr), m.idx, p.descMax);
    FitsNonEmpty(p.descMax, m.idx, bs);
    FlatPrefix(bs, done);
    assert bs[..|bs|] == bs;
    PlacePrefix(descs, ep, incr, n);
  }

  lemma {:induction false} PrefixLens(p: Params, m: Machine, descs: seq<Extent>, ep: U64, incr: bool, done: nat)
    requires m.idx < p.descMax && done <= |Plan(p, m, descs, ep, incr)| && TotalLen(descs) < TWO32
    ensures var n := Copied(p, m, descs, ep, incr, done);
      n <= |descs| && TransferLens(Plan(p, m, descs, ep, incr)[..done]) == TotalLen(descs[..n])
  {
    var n := Copied(p, m, descs, ep, incr, done);
    BatchesPrefix(p, m, descs, ep, incr, done);
    PlaceLen(descs[..n], ep, incr);
    TotalLenMonotone(descs, n, |descs|);
    assert descs[..|descs|] == descs;
    LensAdd(Plan(p, m, descs, ep, incr)[..done]);
  }

  /** The transfers of a request: names, states, windows, desc_used. */
  lemma {:induction false} RequestTransfers(e: Site, m: Machine, descs: seq<Extent>, ep: U64, incr: bool)
    requires Sound(e.deal) && Ready(e.p, m)
    ensures var f := Request(e, m, descs, ep, incr);
      && f.m.next == m.next + |f.chains| && Ledger(f.chains, f.m.q.xfer, m.next, f.v)
      && WindowsOf(f.chains) <= Windows(m.idx, |descs|, e.p.descMax)
      && (f.v == Done ==> WindowsOf(f.chains) == Windows(m.idx, |descs|, e.p.descMax))
      && (f.m.used == m.used <==> f.v != Rejected)
      && (f.chains == [] ==> f.v == Done)
      && Returned(f.chains, m.ring, f.m.ring, f.v != Rejected)
  {
    var bs := Plan(e.p, m, descs, ep, incr);
    BatchesTile(Place(descs, ep, incr), m.idx, e.p.descMax);
    PlayRing(e, m, e.p.eopFlush, bs, 0);
    PlayCounts(e, m, e.p.eopFlush, bs, 0);
    PlayLedger(e, m, e.p.eopFlush, bs, 0);
    PlayWindows(e, m, e.p.eopFlush, bs, 0);
  }

  /** The completed transfers are the first software descriptors of the request, all of them iff Done. */
  lemma {:induction false} RequestBytes(e: Site, m: Machine, descs: seq<Extent>, ep: U64, incr: bool) returns (n: nat)
    requires Sound(e.deal) && Ready(e.p, m) && TotalLen(descs) < TWO32
    ensures var f := Request(e, m, descs, ep, incr);
      && n <= |descs| && (n == |descs| <==> f.v == Done)
      && BytesDone(f) == TotalLen(descs[..n])
      && forall w :: Carried(w, e.p, f.chains, f.m.q.xfer)
                     == Apply(w, e.p.dir, if incr then FlatMoves(HostBytes(descs[..n]), ep)
                                          else FixedMoves(descs[..n], ep))
  {
    var bs, f := Plan(e.p, m, descs, ep, incr), Request(e, m, descs, ep, incr);
    PlanFits(e.p, m, descs, ep, incr);
    PlayCounts(e, m, e.p.eopFlush, bs, 0);
    PlayBytes(e, m, e.p.eopFlush, bs, 0);
    n := Copied(e.p, m, descs, ep, incr, f.done);
    BatchesPrefix(e.p, m, descs, ep, incr, f.done);
    PrefixLens(e.p, m, descs, ep, incr, f.done);
    if incr {
      PlaceIsFlat(descs[..n], ep);
    } else {
      PlaceIsFixed(descs[..n], ep);
    }
    forall w
      ensures Carried(w, e.p, f.chains, f.m.q.xfer) == Apply(w, e.p.dir, AllMoves(Place(descs[..n], ep, incr)))
    {
      PlayMemory(w, e, m, e.p.eopFlush, bs, 0);
    }
  }

  /**
   * Running the chains of the completed transfers moves the first n bytes of the request, software
   * descriptor by software descriptor, each from or to the same card address.
   */
  ghost predicate CarriesFixed(p: Params, f: Final, ds: seq<Extent>, n: nat, ep: U64) {
    exists k | 0 <= k <= |ds| ::
      && TotalLen(ds[..k]) == n
      && forall w :: Carried(w, p, f.chains, f.m.q.xfer) == Apply(w, p.dir, FixedMoves(ds[..k], ep))
  }

  /**
   * End to end, for every scatter list, ring and behaviour of the rest of the system: the bytes of
   * the transfers that are COMPLETED are the leading bytes of the request, all of them exactly
   * when the verdict is Done, and running the chains of those transfers, in incrementing mode, is
   * one flat copy of these bytes.  In non-incrementing mode every software descriptor meets the
   * card addresses from ep on.
   */
  lemma {:induction false} RequestDelivers(e: Site, m: Machine, sg: seq<Extent>, ep: U64, blen: U32, incr: bool)
    requires Sound(e.deal) && Ready(e.p, m) && blen > 0 && TotalLen(sg) < TWO32
    ensures var f := Request(e, m, AllPieces(sg, blen), ep, incr);
      && BytesDone(f) <= TotalLen(sg) && (BytesDone(f) == TotalLen(sg) <==> f.v == Done)
      && (incr ==> forall w :: Carried(w, e.p, f.chains, f.m.q.xfer)
                               == FlatCopy(w, e.p.dir, HostBytes(sg)[..BytesDone(f)], ep))
      && (!incr ==> CarriesFixed(e.p, f, AllPieces(sg, blen), BytesDone(f), ep))
  {
    var ds := AllPieces(sg, blen);
    AllPiecesTile(sg, blen);
    var n := RequestBytes(e, m, ds, ep, incr);
    PrefixBytes(sg, blen, n);
  }

  /** A request takes a transfer exactly if it has bytes to move. */
  lemma {:induction false} RequestStarts(e: Site, m: Machine, sg: seq<Extent>, ep: U64, blen: U32, incr: bool)
    requires Sound(e.deal) && Ready(e.p, m) && blen > 0
    ensures Request(e, m, AllPieces(sg, blen), ep, incr).chains == [] <==> TotalLen(sg) == 0
  {
    var ds := AllPieces(sg, blen);
    PrefixBytes(sg, blen, |ds|);
    assert ds[..|ds|] == ds;
    AllPiecesTile(sg, blen);
    var bs := Plan(e.p, m, ds, ep, incr);
    PlanFits(e.p, m, ds, ep, incr);
    PlayCounts(e, m, e.p.eopFlush, bs, 0);
  }

  /** A request that starts from a reachable state of the synchronous-caller machine ends in one. */
  lemma {:induction false} RequestIsRun(e: Site, start: Sync.Sys, m: Machine, offline: bool, rejected: nat,
                     descs: seq<Extent>, ep: U64, incr: bool)
    returns (offline': bool, rejected': nat)
    requires Sound(e.deal) && IsDriver(e.deal, e.p) && Ready(e.p, m)
    requires Sync.Reaches(e.p.dir, e.p.eopFlush, start, Caller(m, offline, rejected))
    requires Sync.Invariant(Caller(m, offline, rejected))
    ensures var f := Request(e, m, descs, ep, incr);
      && Sync.Reaches(e.p.dir, e.p.eopFlush, start, Caller(f.m, offline', rejected'))
      && (f.v != Rejected ==> rejected' == rejected)
  {
    PlanFits(e.p, m, descs, ep, incr);
    offline', rejected' :=
      PlayIsRun(e, start, m, offline, rejected, e.p.eopFlush, Plan(e.p, m, descs, ep, incr), 0);
  }

  // ---------------------------------------------------------------------------------------
  // The request in place

  /** Other critical sections run. */
  method Interfere(engine: XdmaEngine, events: seq<Event>)
    requires WellFormed(engine.Q())
    modifies engine`transferList, engine`xfers, engine`descDequeued, engine`running,
             engine`shutdownRequest, engine`shutdownIdle, engine`status
    ensures engine.Q() == Events(old(engine.Q()), engine.dir, engine.eopFlush, events)
  {
    ghost var q := engine.Q();
    for i := 0 to |events|
      invariant engine.Q() == Events(q, engine.dir, engine.eopFlush, events[..i])
    {
      assert events[..i + 1][..i] == events[..i];
      match events[i] {
        case ServiceEvent(sample) => var _ := engine.Service(sample);
        case OfflineEvent => engine.DeviceOffline();
        case OnlineEvent => engine.DeviceOnline();
      }
    }
    assert events[..|events|] == events;
  }

  /** Queue the transfer, wait, and look at its state. */
  method RunTransfer(engine: XdmaEngine, x: nat, s: Script) returns (v: Verdict)
    requires Fresh(engine.Q(), x)
    modifies engine`transferList, engine`xfers, engine`descDequeued, engine`running,
             engine`shutdownRequest, engine`shutdownIdle, engine`status
    ensures Outcome(engine.Q(), v) == Transact(old(engine.Q()), engine.dir, engine.eopFlush, x, s)
  {
    ghost var q := engine.Q();
    Interfere(engine, s.before);
    EventsQuiet(q, engine.dir, engine.eopFlush, s.before);
    var rv := engine.TransferQueue(x, s.offlineSeen, s.startStatus);
    if rv < 0 {
      return Rejected;
    }
    v := Await(engine, x, s.during, s.abortStatus);
  }

  /** The wait and the switch on the transfer's state. */
  method Await(engine: XdmaEngine, x: nat, during: seq<Event>, abortStatus: bv32) returns (v: Verdict)
    requires WellFormed(engine.Q()) && engine.transferList == [x] && x in engine.xfers
    modifies engine`transferList, engine`xfers, engine`descDequeued, engine`running,
             engine`shutdownRequest, engine`shutdownIdle, engine`status
    ensures var q := Events(old(engine.Q()), engine.dir, engine.eopFlush, during);
      && x in q.xfer && v == Judge(q.xfer[x].state)
      && engine.Q() == if v == TimedOut then AbortAndStop(q, x, abortStatus) else q
  {
    ghost var q := engine.Q();
    EventsServe(q, engine.dir, engine.eopFlush, during);
    ServedOnly(q, Events(q, engine.dir, engine.eopFlush, during), x);
    Interfere(engine, during);
    var state := engine.xfers[x].state;
    if state == Completed {
      v := Done;
    } else if state == Failed {
      v := Errored;
    } else {
      engine.TransferAbortAndStop(x, abortStatus);
      v := TimedOut;
    }
  }

  /** The rest of a turn, once the run is in the ring and the transfer has its name. */
  method TakeTurn(engine: XdmaEngine, t: Transfer, s: Script, ghost deal: Dealing,
                  ghost m: Machine, ghost flush: bool, ghost ps: seq<Piece>)
    returns (v: Verdict, ghost chain: Chain)
    requires Sound(deal) && IsDriver(deal, engine.Setup())
    requires engine.ValidRing() && Ready(engine.Setup(), m) && 0 < |ps| && m.idx + |ps| <= engine.descMax
    requires engine.View() == Launched(engine.Setup(), m, flush, ps)
    requires t.x == m.next && t.first == m.idx && t.descNum == |ps|
    modifies engine.desc, engine`descUsed, engine`transferList, engine`xfers, engine`descDequeued, engine`running,
             engine`shutdownRequest, engine`shutdownIdle, engine`status
    ensures engine.ValidRing()
    ensures Turned(engine.View(), chain, v) == Turn(engine.Setup(), deal, m, flush, ps, s)
  {
    ghost var p, l := engine.Setup(), engine.View();
    v := RunTransfer(engine, t.x, s);
    chain := Turn(p, deal, m, flush, ps, s).chain;
    assert deal(l.q, t.x, s) == Transact(l.q, p.dir, p.eopFlush, t.x, s);
    if v == Rejected {
      return;
    }
    engine.descUsed := engine.descUsed - t.descNum;
    engine.TransferDestroy(t);
  }

  /** The engine and the request between two rounds of the loop. */
  ghost predicate InStep(engine: XdmaEngine, req: RequestCb, ep: U64)
    reads engine, engine.desc, req, req.sdesc
  {
    && engine.ValidRing() && Ready(engine.Setup(), engine.View()) && !(engine.streaming && engine.dir.FromDevice?)
    && req.Valid() && TotalLen(req.Descs()) < TWO32
    && req.epAddr == EpAfter(ep, req.Descs()[..req.swDescIdx], !engine.nonIncrAddr)
  }

  /** What is left of the request's pieces. */
  ghost function Left(engine: XdmaEngine, req: RequestCb, ep: U64): seq<Piece>
    reads engine, req, req.sdesc
    requires req.Valid()
  {
    Place(req.Descs(), ep, !engine.nonIncrAddr)[req.swDescIdx..]
  }

  /** The next batch is what transfer_init places. */
  lemma {:induction false} NextBatch(descs: seq<Extent>, ep: U64, incr: bool, i: nat, n: nat)
    requires i + n <= |descs|
    ensures Place(descs[i..][..n], EpAfter(ep, descs[..i], incr), incr) == Place(descs, ep, incr)[i..][..n]
  {
    var a, b := Place(descs[i..][..n], EpAfter(ep, descs[..i], incr), incr), Place(descs, ep, incr)[i..][..n];
    forall m | 0 <= m < n
      ensures a[m] == b[m]
    {
      PlaceWindow(descs, ep, incr, i, n, m);
    }
  }

  lemma {:induction false} DropAgain(ps: seq<Piece>, i: nat, n: nat)
    requires i + n <= |ps|
    ensures ps[i + n..] == ps[i..][n..]
  {
  }

  /** transfer_init as the loop calls it: the engine is launched with the next batch. */
  method Prepare(engine: XdmaEngine, req: RequestCb, ghost ep: U64) returns (t: Transfer)
    requires InStep(engine, req, ep) && req.swDescIdx < req.swDescCnt
    modifies engine`descIdx, engine`descUsed, engine`xfers, engine`nextXfer, engine.desc, req
    ensures t.descNum == Take(old(engine.descIdx), |old(Left(engine, req, ep))|, engine.descMax)
    ensures 0 < t.descNum <= |old(Left(engine, req, ep))|
    ensures var ps := old(Left(engine, req, ep))[..t.descNum];
      && engine.View() == Launched(engine.Setup(), old(engine.View()), engine.eopFlush, ps)
      && t.x == old(engine.nextXfer) && t.first == old(engine.descIdx)
      && t.len == Wrap32(PiecesLen(ps))
    ensures engine.ValidRing() && req.Valid() && req.Descs() == old(req.Descs())
    ensures req.swDescIdx == old(req.swDescIdx) + t.descNum
    ensures req.epAddr == EpAfter(ep, req.Descs()[..req.swDescIdx], !engine.nonIncrAddr)
    ensures Left(engine, req, ep) == old(Left(engine, req, ep))[t.descNum..]
  {
    ghost var descs, i, incr := req.Descs(), req.swDescIdx, !engine.nonIncrAddr;
    t := engine.TransferInit(req);
    ghost var n := t.descNum;
    EpAfterTwice(ep, descs, i, n, incr);
    NextBatch(descs, ep, incr, i, n);
    PlaceLen(descs[i..][..n], EpAfter(ep, descs[..i], incr), incr);
    DropAgain(Place(descs, ep, incr), i, n);
  }

  /** One round of the loop of xdma_xfer_submit is one turn with the next batch. */
  method SubmitOne(engine: XdmaEngine, req: RequestCb, s: Script, ghost ep: U64, ghost deal: Dealing)
    returns (v: Verdict, len: U32, n: nat, ghost chain: Chain)
    requires InStep(engine, req, ep) && req.swDescIdx < req.swDescCnt
    requires Sound(deal) && IsDriver(deal, engine.Setup())
    modifies engine, engine.desc, req
    ensures n == Take(old(engine.descIdx), |old(Left(engine, req, ep))|, engine.descMax)
    ensures 0 < n <= |old(Left(engine, req, ep))| && req.swDescIdx == old(req.swDescIdx) + n
    ensures var ps := old(Left(engine, req, ep))[..n];
      && Turned(engine.View(), chain, v) == Turn(engine.Setup(), deal, old(engine.View()), engine.eopFlush, ps, s)
      && len == Wrap32(PiecesLen(ps))
    ensures InStep(engine, req, ep) && req.Descs() == old(req.Descs())
    ensures Left(engine, req, ep) == old(Left(engine, req, ep))[n..]
    ensures engine.nonIncrAddr == old(engine.nonIncrAddr) && engine.Setup() == old(engine.Setup())
  {
    ghost var m, left := engine.View(), Left(engine, req, ep);
    var t := Prepare(engine, req, ep);
    n, len := t.descNum, t.len;
    v, chain := TakeTurn(engine, t, s, deal, m, engine.eopFlush, left[..n]);
  }

  /** The loop of xdma_xfer_submit plays the plan; `done` is the bytes of completed transfers. */
  method SubmitLoop(engine: XdmaEngine, req: RequestCb, env: nat -> Script, ghost deal: Dealing,
                    ghost bs0: seq<seq<Piece>>)
    returns (done: nat, v: Verdict, ghost f: Final)
    requires InStep(engine, req, req.epAddr) && req.swDescIdx == 0
    requires Sound(deal) && IsDriver(deal, engine.Setup())
    requires OnPlan(Left(engine, req, req.epAddr), engine.Setup(), engine.View(), bs0)
    modifies engine, engine.desc, req
    ensures f == Play(Site(engine.Setup(), deal, env), old(engine.View()), engine.eopFlush, bs0, 0)
    ensures engine.View() == f.m && v == f.v && done == BytesDone(f)
    ensures engine.ValidRing() && engine.Setup() == old(engine.Setup())
    ensures engine.nonIncrAddr == old(engine.nonIncrAddr)
  {
    ghost var e, ep, incr := Site(engine.Setup(), deal, env), req.epAddr, !engine.nonIncrAddr;
    ghost var bs, chains := bs0, [];
    f := Play(e, engine.View(), e.p.eopFlush, bs0, 0);
    PlayStarts(e, engine.View(), e.p.eopFlush, bs0, f);
    var nents := req.swDescCnt;
    var k := 0;
    done, v := 0, Done;
    while nents > 0
      invariant InStep(engine, req, ep) && engine.Setup() == e.p
      invariant engine.nonIncrAddr == !incr
      invariant v == Done && req.swDescIdx == req.swDescCnt - nents
      invariant OnPlan(Left(engine, req, ep), e.p, engine.View(), bs)
      invariant Midway(e, engine.View(), e.p.eopFlush, bs, k, chains, done, f)
      decreases nents
    {
      var len, n;
      var k' := k + 1;
      v, len, n, bs, chains := SubmitRound(engine, req, env(k), e, ep, k, k', bs, chains, done, f);
      nents := nents - n;
      if v != Done {
        return;
      }
      done := done + len;
      k := k';
    }
    PlanDone(Left(engine, req, ep), e.p, engine.View(), bs);
    PlayEnds(e, engine.View(), e.p.eopFlush, bs, k, chains, done, f);
  }

  /** The batches are those of what is left of the request. */
  ghost predicate OnPlan(left: seq<Piece>, p: Params, m: Machine, bs: seq<seq<Piece>>)
    requires m.idx < p.descMax
  {
    bs == Batches(left, m.idx, p.descMax) && Fits(p.descMax, m.idx, bs)
  }

  /** One batch further along the plan. */
  lemma {:induction false} PlanStep(left: seq<Piece>, p: Params, m: Machine, bs: seq<seq<Piece>>, n: nat)
    requires m.idx < p.descMax && OnPlan(left, p, m, bs) && left != [] && n == Take(m.idx, |left|, p.descMax)
    ensures bs != [] && bs[0] == left[..n]
    ensures forall m': Machine | m'.idx == NextIdx(m.idx, n, p.descMax) :: OnPlan(left[n..], p, m', bs[1..])
  {
  }

  lemma {:induction false} PlanDone(left: seq<Piece>, p: Params, m: Machine, bs: seq<seq<Piece>>)
    requires m.idx < p.descMax && OnPlan(left, p, m, bs) && left == []
    ensures bs == []
  {
  }

  /** A round, and what it leaves of the request's plan. */
  method SubmitRound(engine: XdmaEngine, req: RequestCb, s: Script, ghost e: Site, ghost ep: U64, ghost k: nat,
                     ghost k': nat, ghost bs: seq<seq<Piece>>, ghost chains: seq<Chain>, ghost done: nat, ghost f: Final)
    returns (v: Verdict, len: U32, n: nat, ghost bs': seq<seq<Piece>>, ghost chains': seq<Chain>)
    requires InStep(engine, req, ep) && req.swDescIdx < req.swDescCnt
    requires e.p == engine.Setup() && IsDriver(e.deal, e.p) && e.env(k) == s && k' == k + 1
    requires Midway(e, engine.View(), e.p.eopFlush, bs, k, chains, done, f)
    requires OnPlan(Left(engine, req, ep), e.p, engine.View(), bs)
    modifies engine, engine.desc, req
    ensures InStep(engine, req, ep) && req.Descs() == old(req.Descs())
    ensures engine.nonIncrAddr == old(engine.nonIncrAddr) && engine.Setup() == old(engine.Setup())
    ensures 0 < n && req.swDescIdx == old(req.swDescIdx) + n
    ensures OnPlan(Left(engine, req, ep), e.p, engine.View(), bs')
    ensures if v != Done then f == Final(engine.View(), chains', v, k) && BytesDone(f) == done
            else Midway(e, engine.View(), e.p.eopFlush, bs', k', chains', done + len, f)
  {
    ghost var m, left := engine.View(), Left(engine, req, ep);
    ghost var chain;
    v, len, n, chain := SubmitOne(engine, req, s, ep, e.deal);
    PlanStep(left, e.p, m, bs, n);
    bs', chains' := bs[1..], chains + [chain];
    PlayAdvances(e, m, e.p.eopFlush, bs, k, k', chains, done, f, Turned(engine.View(), chain, v), len);
  }

  /** The requests that are turned away: offline, in the wrong direction, or without an entry. */
  ghost predicate TurnedAway(offlineSeen: bool, write: bool, dir: Direction, sg: seq<Extent>) {
    offlineSeen || (write && dir.FromDevice?) || (!write && dir.ToDevice?) || |sg| == 0
  }

  /** What xdma_xfer_submit does with a mapped scatter list, for the driver's way with a transfer. */
  ghost function Submitted(p: Params, m: Machine, sg: seq<Extent>, ep: U64, blen: U32, incr: bool,
                           env: nat -> Script): (f: Final)
    requires Ready(p, m) && blen > 0
  {
    DriverSound(p);
    Request(Site(p, Driver(p), env), m, AllPieces(sg, blen), ep, incr)
  }

  /**
   * xdma_xfer_submit on a mapped scatter list: it leaves the engine and the transfers of
   * Submitted.  A positive result is the bytes of the transfers that are then COMPLETED, and
   * running the chains of those transfers is one flat copy of that many leading bytes, or in
   * non-incrementing mode one copy per software descriptor from or to the same card address.  Any
   * other result says what became of the last transfer.  A request turned away changes nothing;
   * any other takes a transfer if it has a byte to move.
   */
  method XferSubmit(engine: XdmaEngine, write: bool, offlineSeen: bool, sg: seq<Extent>, ep: U64, blen: U32,
                    env: nat -> Script)
    returns (rv: int, v: Verdict)
    requires engine.ValidRing() && Ready(engine.Setup(), engine.View())
    requires !(engine.streaming && engine.dir.FromDevice?)
    requires blen > 0 && Sizable(sg, blen) && TotalLen(sg) < TWO32
    modifies engine, engine.desc
    ensures engine.Setup() == old(engine.Setup()) && engine.nonIncrAddr == old(engine.nonIncrAddr)
    ensures TurnedAway(offlineSeen, write, engine.dir, sg) ==>
      && v == Rejected && engine.View() == old(engine.View())
      && rv == if offlineSeen then -16 else if write == engine.dir.ToDevice? then -5 else -22
    ensures engine.nextXfer > old(engine.nextXfer)
       <==> !TurnedAway(offlineSeen, write, engine.dir, sg) && TotalLen(sg) > 0
    ensures !TurnedAway(offlineSeen, write, engine.dir, sg) ==>
      var f := Submitted(engine.Setup(), old(engine.View()), sg, ep, blen, !engine.nonIncrAddr, env);
      var n := CompletedLen(f.chains, engine.xfers);
      && engine.View() == f.m && v == f.v
      && Told(rv, n, engine.xfers, old(engine.nextXfer), engine.nextXfer)
      && (rv == 0 <==> TotalLen(sg) == 0)
      && n <= TotalLen(sg) && (n == TotalLen(sg) <==> v == Done)
      && engine.nextXfer == old(engine.nextXfer) + |f.chains|
      && Ledger(f.chains, engine.xfers, old(engine.nextXfer), v)
      && Returned(f.chains, old(engine.desc[..]), engine.desc[..], v != Rejected)
      && (engine.descUsed == old(engine.descUsed) <==> v != Rejected)
      && (!engine.nonIncrAddr ==> forall w :: Carried(w, engine.Setup(), f.chains, engine.xfers)
                                             == FlatCopy(w, engine.dir, HostBytes(sg)[..n], ep))
      && (engine.nonIncrAddr ==> CarriesFixed(engine.Setup(), f, AllPieces(sg, blen), n, ep))
  {
    if offlineSeen {
      return EBUSY, Rejected;
    }
    if write != engine.dir.ToDevice? {
      return EINVAL, Rejected;
    }
    if sg == [] {
      return EIO, Rejected;
    }
    DriverSound(engine.Setup());
    ghost var f;
    rv, v, f := SubmitMapped(engine, sg, ep, blen, env, Driver(engine.Setup()));
  }

  /** xdma_xfer_submit once the scatter list is mapped. */
  method SubmitMapped(engine: XdmaEngine, sg: seq<Extent>, ep: U64, blen: U32, env: nat -> Script,
                      ghost deal: Dealing)
    returns (rv: int, v: Verdict, ghost f: Final)
    requires engine.ValidRing() && Ready(engine.Setup(), engine.View())
    requires !(engine.streaming && engine.dir.FromDevice?)
    requires blen > 0 && Sizable(sg, blen) && TotalLen(sg) < TWO32
    requires Sound(deal) && IsDriver(deal, engine.Setup())
    modifies engine, engine.desc
    ensures engine.Setup() == old(engine.Setup()) && engine.nonIncrAddr == old(engine.nonIncrAddr)
    ensures f == Request(Site(engine.Setup(), deal, env), old(engine.View()), AllPieces(sg, blen), ep,
                         !engine.nonIncrAddr)
    ensures engine.View() == f.m && v == f.v
    ensures Told(rv, BytesDone(f), engine.xfers, old(engine.nextXfer), engine.nextXfer)
    ensures rv == 0 <==> TotalLen(sg) == 0
    ensures BytesDone(f) <= TotalLen(sg) && (BytesDone(f) == TotalLen(sg) <==> v == Done)
    ensures engine.nextXfer > old(engine.nextXfer) <==> TotalLen(sg) > 0
    ensures Returned(f.chains, old(engine.desc[..]), engine.desc[..], v != Rejected)
    ensures engine.nonIncrAddr ==> CarriesFixed(engine.Setup(), f, AllPieces(sg, blen), BytesDone(f), ep)
    ensures engine.nextXfer == old(engine.nextXfer) + |f.chains|
    ensures Ledger(f.chains, engine.xfers, old(engine.nextXfer), v)
    ensures engine.descUsed == old(engine.descUsed) <==> v != Rejected
    ensures !engine.nonIncrAddr ==> forall w :: Carried(w, engine.Setup(), f.chains, engine.xfers)
                                               == FlatCopy(w, engine.dir, HostBytes(sg)[..BytesDone(f)], ep)
  {
    ghost var e, m, incr := Site(engine.Setup(), deal, env), engine.View(), !engine.nonIncrAddr;
    var overflow, req := InitRequest(sg, ep, blen);
    assert TotalLen(req.Descs()) == TotalLen(sg) by {
      AllPiecesTile(sg, blen);
    }
    assert req.Descs()[..0] == [];
    PlanFits(e.p, m, req.Descs(), ep, incr);
    var done;
    done, v, f := SubmitLoop(engine, req, env, deal, Plan(e.p, m, req.Descs(), ep, incr));
    rv := if done > 0 then done else Code(v);
    RequestTransfers(e, m, AllPieces(sg, blen), ep, incr);
    RequestDelivers(e, m, sg, ep, blen, incr);
    RequestStarts(e, m, sg, ep, blen, incr);
    AnswerTells(f.chains, f.m.q.xfer, m.next, f.m.next, f.v, BytesDone(f));
    if f.chains != [] {
      LastDone(f, m.next);
    }
  }
}
