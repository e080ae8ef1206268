/** struct xdma_engine and the functions of libxdma.c that work on it in place. */
module Engines {
  import opened Words
  import opened Memory
  import opened Requests
  import opened Descriptors
  import opened Runs
  import opened Allocation
  import opened Queues
  import opened Services
  import opened Turns
  import opened Errno

  /** What transfer_init leaves in req->tfer[0], besides the state kept in the engine. */
  datatype Transfer = Transfer(
    x: nat,                  // the transfer's name in the engine's queue
    first: nat,              // desc_index
    descBus: U64,
    descNum: nat,
    descAdjacent: nat,
    descCmplTh: nat,
    len: U32)

  // ---------------------------------------------------------------------------------------
  // The stages of transfer_init, as relations between the ring before and after

  /** Only the window [first, first + count) of the ring may have changed. */
  ghost predicate OnlyWindow(s: seq<Desc>, s': seq<Desc>, first: nat, count: nat) {
    && |s| == |s'| && first + count <= |s|
    && forall j | 0 <= j < |s| && !(first <= j < first + count) :: s'[j] == s[j]
  }

  function Chained(d: Desc, bus: U64, count: nat, k: nat): Desc {
    Link(d.(bytes := 0), NextAddr(bus, count, k), DESC_MAGIC)
  }

  function Filled(d: Desc, cfg: Config, k: nat, p: Piece): Desc {
    WritebackSource(DescSet(d, p, cfg.dir), cfg.resBus, k)
  }

  function WithControl(d: Desc, last: bool, eop: bool): Desc {
    if last then d.(control := SetControl(d.control, STOPPED | EOP | COMPLETED))
    else if eop then d.(control := SetControl(d.control, COMPLETED))
    else d
  }

  function WithAdjacent(d: Desc, remaining: nat): Desc {
    d.(control := SetAdjacent(d.control, NextAdj(remaining, d.nextLo) as bv6))
  }

  ghost predicate ChainStage(s: seq<Desc>, s': seq<Desc>, first: nat, bus: U64, count: nat) {
    && OnlyWindow(s, s', first, count)
    && forall j | first <= j < first + count :: s'[j] == Chained(s[j], bus, count, j - first)
  }

  ghost predicate FillStage(s: seq<Desc>, s': seq<Desc>, first: nat, cfg: Config, ps: seq<Piece>) {
    && OnlyWindow(s, s', first, |ps|)
    && forall j | first <= j < first + |ps| :: s'[j] == Filled(s[j], cfg, j - first, ps[j - first])
  }

  ghost predicate ControlStage(s: seq<Desc>, s': seq<Desc>, first: nat, count: nat, eop: bool) {
    && OnlyWindow(s, s', first, count)
    && forall j | first <= j < first + count :: s'[j] == WithControl(s[j], j + 1 == first + count, eop)
  }

  ghost predicate AdjacentStage(s: seq<Desc>, s': seq<Desc>, first: nat, count: nat) {
    && OnlyWindow(s, s', first, count)
    && forall j | first <= j < first + count :: s'[j] == WithAdjacent(s[j], first + count - j - 1)
  }

  /** The four stages compose to the finished descriptor, whatever the slot held before. */
  lemma {:induction false} StagesCompose(d: Desc, d1: Desc, d2: Desc, d3: Desc, d4: Desc, cfg: Config, bus: U64,
                                         count: nat, k: nat, p: Piece, last: bool, rem: nat)
    requires k < count && (last <==> k + 1 == count) && rem == count - k - 1
    requires d1 == Chained(d, bus, count, k) && d2 == Filled(d1, cfg, k, p)
    requires d3 == WithControl(d2, last, cfg.eopFlush) && d4 == WithAdjacent(d3, rem)
    ensures d4 == RunDesc(cfg, bus, count, k, p)
  {
  }

  lemma {:induction false} StagesMakeRun(s0: seq<Desc>, s1: seq<Desc>, s2: seq<Desc>, s3: seq<Desc>, s4: seq<Desc>,
                      descBus: U64, first: nat, cfg: Config, ps: seq<Piece>)
    requires RingFits(s0, descBus) && ps != []
    requires ChainStage(s0, s1, first, SlotAddr(descBus, first), |ps|)
    requires FillStage(s1, s2, first, cfg, ps)
    requires ControlStage(s2, s3, first, |ps|, cfg.eopFlush)
    requires AdjacentStage(s3, s4, first, |ps|)
    ensures OnlyWindow(s0, s4, first, |ps|)
    ensures HoldsRun(s4, descBus, first, cfg, ps)
  {
    var bus, n := SlotAddr(descBus, first), |ps|;
    forall j | first <= j < first + n
      ensures s4[j] == RunDesc(cfg, bus, n, j - first, ps[j - first])
    {
      var k, rem := j - first, first + n - j - 1;
      StagesCompose(s0[j], s1[j], s2[j], s3[j], s4[j], cfg, bus, n, k, ps[k], j + 1 == first + n, rem);
    }
    SlotsHoldRun(s4, descBus, first, cfg, ps);
  }

  lemma {:induction false} SlotsHoldRun(s: seq<Desc>, descBus: U64, first: nat, cfg: Config, ps: seq<Piece>)
    requires RingFits(s, descBus) && ps != [] && first + |ps| <= |s|
    requires forall j | first <= j < first + |ps| ::
      s[j] == RunDesc(cfg, SlotAddr(descBus, first), |ps|, j - first, ps[j - first])
    ensures HoldsRun(s, descBus, first, cfg, ps)
  {
    forall k | 0 <= k < |ps|
      ensures s[first + k] == RunDesc(cfg, SlotAddr(descBus, first), |ps|, k, ps[k])
    {
      var j := first + k;
      assert j - first == k;
    }
  }

  lemma {:induction false} AdvanceEp(ep: U64, sd: seq<Extent>, i: nat, incr: bool)
    requires i < |sd|
    ensures TotalLen(sd[..i + 1]) == TotalLen(sd[..i]) + sd[i].len
    ensures Wrap32(Wrap32(TotalLen(sd[..i])) + sd[i].len) == Wrap32(TotalLen(sd[..i + 1]))
    ensures incr ==> Wrap64(EpAfter(ep, sd[..i], true) + sd[i].len) == EpAfter(ep, sd[..i + 1], true)
  {
    TotalLenTake(sd, i);
    WrapAdd32(TotalLen(sd[..i]), sd[i].len);
    WrapAdd(ep + TotalLen(sd[..i]), sd[i].len);
  }

  /** Descriptors that write back have, slot by slot, the slots of their results as source. */
  ghost predicate ResultsFrom(ring: seq<Desc>, resBus: U64, first: nat, n: nat) {
    first + n <= |ring| && forall s | first <= s < first + n :: ring[s].Src() == Wrap64(resBus + 32 * s)
  }

  lemma {:induction false} ResultSlots(ring: seq<Desc>, descBus: U64, first: nat, cfg: Config, resBus: U64,
                                       ps: seq<Piece>)
    requires first + |ps| <= |ring| && cfg.resBus == WritebackAt(Wrap64(resBus + DESC_SIZE * first))
    ensures ResultsFrom(Written(ring, descBus, first, cfg, ps), resBus, first, |ps|)
  {
    forall s | first <= s < first + |ps|
      ensures Written(ring, descBus, first, cfg, ps)[s].Src() == Wrap64(resBus + 32 * s)
    {
      RunDescFields(cfg, SlotAddr(descBus, first), |ps|, s - first, ps[s - first]);
      WrapAdd(resBus + DESC_SIZE * first, 32 * (s - first));
    }
  }

  class XdmaEngine {
    const dir: Direction
    const streaming: bool
    const descMax: nat
    const descBus: U64
    const resBus: U64
    const desc: array<Desc>
    var nonIncrAddr: bool
    var eopFlush: bool

    var descIdx: nat
    var descUsed: int

    var transferList: seq<nat>
    var xfers: map<nat, Xfer>
    var nextXfer: nat
    var running: bool
    var shutdownRequest: bool
    var shutdownIdle: bool
    var descDequeued: nat
    var status: bv32

    ghost predicate ValidRing()
      reads this
    {
      desc.Length == descMax && descIdx < descMax && descBus + DESC_SIZE * descMax <= TWO64
    }

    ghost function Q(): Queue
      reads this
    {
      Queue(transferList, xfers, running, shutdownRequest, shutdownIdle, descDequeued, status)
    }

    ghost function Setup(): Params
      reads this
    {
      Params(dir, eopFlush, descMax, descBus)
    }

    /** The engine as a value. */
    ghost function View(): Machine
      reads this, desc
    {
      Machine(desc[..], descIdx, descUsed, Q(), nextXfer)
    }

    function Writebacks(first: nat): Writeback {
      if streaming && dir.FromDevice? then WritebackAt(Wrap64(resBus + DESC_SIZE * first)) else NoWriteback
    }

    ghost function Cfg(first: nat): Config
      reads this
    {
      Config(dir, eopFlush, Writebacks(first))
    }

    // -------------------------------------------------------------------------------------
    // Building a transfer

    /** transfer_desc_init */
    method TransferDescInit(first: nat, bus: U64, count: nat)
      requires 0 < count && first + count <= desc.Length
      modifies desc
      ensures ChainStage(old(desc[..]), desc[..], first, bus, count)
    {
      ghost var s := desc[..];
      var next := bus;
      var i := 0;
      while i < count - 1
        invariant 0 <= i <= count - 1
        invariant next == Wrap64(bus + DESC_SIZE * i)
        invariant forall j | 0 <= j < desc.Length && !(first <= j < first + i) :: desc[j] == s[j]
        invariant forall j | first <= j < first + i :: desc[j] == Chained(s[j], bus, count, j - first)
      {
        WrapAdd(bus + DESC_SIZE * i, DESC_SIZE);
        next := Wrap64(next + DESC_SIZE);
        desc[first + i] := desc[first + i].(nextLo := Lo32(next), nextHi := Hi32(next), bytes := 0,
                                            control := DESC_MAGIC);
        i := i + 1;
      }
      desc[first + i] := desc[first + i].(nextLo := 0, nextHi := 0, bytes := 0, control := DESC_MAGIC);
    }

    /** The stores of transfer_build into descriptor i of its window. */
    method FillOne(first: nat, i: nat, p: Piece)
      requires first + i < desc.Length
      modifies desc
      ensures desc[first + i] == Filled(old(desc[first + i]), Cfg(first), i, p)
      ensures forall j | 0 <= j < desc.Length && j != first + i :: desc[j] == old(desc[j])
    {
      desc[first + i] := DescSet(desc[first + i], p, dir);
      desc[first + i] := WritebackSource(desc[first + i], Writebacks(first), i);
    }

    /** transfer_build: fills `count` descriptors from the request's cursor on. */
    method TransferBuild(req: RequestCb, first: nat, count: nat) returns (len: U32)
      requires first + count <= desc.Length
      requires req.Valid() && req.swDescIdx + count <= req.swDescCnt
      modifies desc, req`epAddr, req`swDescIdx
      ensures req.swDescIdx == old(req.swDescIdx) + count
      ensures var sd := old(req.Descs()[req.swDescIdx..req.swDescIdx + count]);
        && len == Wrap32(TotalLen(sd))
        && req.epAddr == EpAfter(old(req.epAddr), sd, !nonIncrAddr)
        && (nonIncrAddr ==> req.epAddr == old(req.epAddr))
        && (nonIncrAddr ==> forall p | p in Place(sd, old(req.epAddr), false) :: p.ep == old(req.epAddr))
        && FillStage(old(desc[..]), desc[..], first, Cfg(first), Place(sd, old(req.epAddr), !nonIncrAddr))
    {
      ghost var s := desc[..];
      ghost var sd := req.Descs()[req.swDescIdx..req.swDescIdx + count];
      ghost var ps := Place(sd, req.epAddr, !nonIncrAddr);
      ghost var ep, cfg := req.epAddr, Cfg(first);
      len := 0;
      var i := 0;
      while i < count
        invariant 0 <= i <= count
        invariant req.swDescIdx == old(req.swDescIdx)
        invariant len == Wrap32(TotalLen(sd[..i]))
        invariant req.epAddr == EpAfter(ep, sd[..i], !nonIncrAddr)
        invariant forall j | 0 <= j < desc.Length && !(first <= j < first + i) :: desc[j] == s[j]
        invariant forall j | first <= j < first + i :: desc[j] == Filled(s[j], cfg, j - first, ps[j - first])
      {
        var e := req.sdesc[req.swDescIdx + i];
        assert e == req.Descs()[req.swDescIdx + i] == sd[i];
        FillOne(first, i, Piece(e.addr, req.epAddr, e.len));
        AdvanceEp(ep, sd, i, !nonIncrAddr);
        len := Wrap32(len + e.len);
        if !nonIncrAddr {
          req.epAddr := Wrap64(req.epAddr + e.len);
        }
        i := i + 1;
      }
      assert sd[..count] == sd;
      req.swDescIdx := req.swDescIdx + count;
    }

    /** The control bits: stop on the last descriptor, and with eop_flush report every one. */
    method SetControls(first: nat, count: nat)
      requires 0 < count && first + count <= desc.Length
      modifies desc
      ensures ControlStage(old(desc[..]), desc[..], first, count, eopFlush)
    {
      ghost var s := desc[..];
      var last := first + count - 1;
      desc[last] := desc[last].(control := SetControl(desc[last].control, STOPPED | EOP | COMPLETED));
      if eopFlush {
        var i := 0;
        while i < count - 1
          invariant 0 <= i <= count - 1
          invariant desc[last] == WithControl(s[last], true, true)
          invariant forall j | 0 <= j < desc.Length && !(first <= j < first + i) && j != last :: desc[j] == s[j]
          invariant forall j | first <= j < first + i :: desc[j] == WithControl(s[j], false, true)
        {
          desc[first + i] := desc[first + i].(control := SetControl(desc[first + i].control, COMPLETED));
          i := i + 1;
        }
      }
    }

    /** The last loop of transfer_init: every descriptor gets its successor's adjacency. */
    method SetAdjacents(first: nat, count: nat)
      requires first + count <= desc.Length
      modifies desc
      ensures AdjacentStage(old(desc[..]), desc[..], first, count)
    {
      ghost var s := desc[..];
      var i := 0;
      while i < count
        invariant 0 <= i <= count
        invariant forall j | 0 <= j < desc.Length && !(first <= j < first + i) :: desc[j] == s[j]
        invariant forall j | first <= j < first + i :: desc[j] == WithAdjacent(s[j], first + count - j - 1)
      {
        var adj := NextAdj(count - i - 1, desc[first + i].nextLo);
        desc[first + i] := desc[first + i].(control := SetAdjacent(desc[first + i].control, adj as bv6));
        i := i + 1;
      }
    }

    /** The stages of transfer_init on one window of the ring. */
    method WriteRun(req: RequestCb, first: nat, n: nat) returns (len: U32)
      requires ValidRing() && 0 < n && first + n <= descMax
      requires req.Valid() && req.swDescIdx + n <= req.swDescCnt
      modifies desc, req`epAddr, req`swDescIdx
      ensures req.swDescIdx == old(req.swDescIdx) + n
      ensures var sd := old(req.Descs()[req.swDescIdx..req.swDescIdx + n]);
        && len == Wrap32(TotalLen(sd))
        && req.epAddr == EpAfter(old(req.epAddr), sd, !nonIncrAddr)
        && desc[..] == Written(old(desc[..]), descBus, first, Cfg(first), Place(sd, old(req.epAddr), !nonIncrAddr))
    {
      ghost var ps := Place(req.Descs()[req.swDescIdx..req.swDescIdx + n], req.epAddr, !nonIncrAddr);
      ghost var s0 := desc[..];
      TransferDescInit(first, SlotAddr(descBus, first), n);
      ghost var s1 := desc[..];
      len := TransferBuild(req, first, n);
      ghost var s2 := desc[..];
      SetControls(first, n);
      ghost var s3 := desc[..];
      SetAdjacents(first, n);
      StagesMakeRun(s0, s1, s2, s3, desc[..], descBus, first, Cfg(first), ps);
      WrittenUnique(s0, desc[..], descBus, first, Cfg(first), ps);
    }

    /**
     * transfer_init: takes the next window of the ring, writes a complete run into it, and
     * advances the ring and the request.
     */
    method TransferInit(req: RequestCb) returns (t: Transfer)
      requires ValidRing()
      requires req.Valid() && req.swDescIdx < req.swDescCnt
      modifies desc, `descIdx, `descUsed, `xfers, `nextXfer, req`epAddr, req`swDescIdx
      ensures ValidRing()
      ensures t.first == old(descIdx) && t.descBus == SlotAddr(descBus, t.first)
      ensures t.descNum == t.descAdjacent == Take(old(descIdx), req.swDescCnt - old(req.swDescIdx), descMax)
      ensures 0 < t.descNum <= req.swDescCnt - old(req.swDescIdx)
      ensures t.descCmplTh == if eopFlush then 1 else t.descNum
      ensures descIdx == NextIdx(old(descIdx), t.descNum, descMax) && descUsed == old(descUsed) + t.descNum
      ensures t.x == old(nextXfer) && nextXfer == old(nextXfer) + 1
      ensures xfers == old(xfers)[t.x := Xfer(New, t.descNum, 0, false)]
      ensures req.swDescIdx == old(req.swDescIdx) + t.descNum
      ensures var sd := old(req.Descs()[req.swDescIdx..])[..t.descNum];
        && t.len == Wrap32(TotalLen(sd))
        && req.epAddr == EpAfter(old(req.epAddr), sd, !nonIncrAddr)
        && desc[..] == Written(old(desc[..]), descBus, t.first, Cfg(t.first), Place(sd, old(req.epAddr), !nonIncrAddr))
      ensures streaming && dir.FromDevice? ==> ResultsFrom(desc[..], resBus, t.first, t.descNum)
    {
      var n := Min(req.swDescCnt - req.swDescIdx, descMax);
      var first := descIdx;
      if first + n >= descMax {
        n := descMax - first;
      }
      assert req.Descs()[req.swDescIdx..req.swDescIdx + n] == req.Descs()[req.swDescIdx..][..n];
      ghost var ring := desc[..];
      ghost var ps := Place(req.Descs()[req.swDescIdx..][..n], req.epAddr, !nonIncrAddr);
      var len := WriteRun(req, first, n);
      if streaming && dir.FromDevice? {
        ResultSlots(ring, descBus, first, Cfg(first), resBus, ps);
      }
      descIdx := NextIdx(descIdx, n, descMax);
      descUsed := descUsed + n;
      t := Transfer(nextXfer, first, SlotAddr(descBus, first), n, n, if eopFlush then 1 else n, len);
      xfers := xfers[nextXfer := Xfer(New, n, 0, false)];
      nextXfer := nextXfer + 1;
    }

    /** transfer_destroy, as far as the ring goes. */
    method TransferDestroy(t: Transfer)
      requires t.first + t.descNum <= desc.Length
      modifies desc
      ensures desc[..] == Cleared(old(desc[..]), Window(t.first, t.descNum))
      ensures forall j | t.first <= j < t.first + t.descNum :: desc[j] == Desc(0, 0, 0, 0, 0, 0, 0, 0)
      ensures forall j | 0 <= j < desc.Length && !(t.first <= j < t.first + t.descNum) :: desc[j] == old(desc[j])
    {
      for i := 0 to t.descNum
        invariant forall j | 0 <= j < desc.Length && !(t.first <= j < t.first + i) :: desc[j] == old(desc[j])
        invariant forall j | t.first <= j < t.first + i :: desc[j] == BLANK
      {
        desc[t.first + i] := BLANK;
      }
    }

    // -------------------------------------------------------------------------------------
    // The transfer list; each method is called under engine->lock

    /** engine_start */
    method EngineStart(statusReg: bv32) returns (started: bool)
      modifies `running, `shutdownRequest, `shutdownIdle, `descDequeued, `status
      ensures started == (!old(running) && transferList != [])
      ensures Q() == if started then Start(old(Q()), statusReg) else old(Q())
    {
      if running || transferList == [] {
        return false;
      }
      shutdownRequest, shutdownIdle := false, false;
      descDequeued := 0;
      status := statusReg;
      running := true;
      started := true;
    }

    /** xdma_engine_stop */
    method EngineStop()
      modifies `running
      ensures Q() == old(Q()).(running := false)
    {
      running := false;
    }

    /** engine_service_transfer_list */
    method ServiceTransferList(completed: nat) returns (left: nat)
      requires WellFormed(Q())
      modifies `transferList, `xfers, `descDequeued
      ensures (Q(), left) == ServiceList(old(Q()), completed)
    {
      left := completed;
      while transferList != [] && left > xfers[transferList[0]].descNum
        invariant WellFormed(Q())
        invariant ServiceList(Q(), left) == ServiceList(old(Q()), completed)
        decreases |transferList|
      {
        var x := transferList[0];
        ghost var before := Q();
        left := left - xfers[x].descNum;
        transferList := transferList[1..];
        descDequeued := descDequeued + xfers[x].descNum;
        xfers := xfers[x := xfers[x].(state := Completed)];
        assert Q() == CompleteHead(before);
      }
    }

    /** engine_service_final_transfer */
    method ServiceFinalTransfer(completed: nat, eopSeen: bool)
      requires WellFormed(Q())
      modifies `transferList, `xfers, `descDequeued, `running
      ensures Q() == ServiceFinal(old(Q()), completed, dir, eopFlush, eopSeen)
      ensures old(transferList) != [] && completed == old(xfers[transferList[0]]).descNum ==>
        var x := old(transferList)[0];
        x in xfers && xfers[x].state == if ErrorShown(dir, old(status)) then Failed else Completed
    {
      StatusBits(dir, status);
      if transferList == [] {
        return;
      }
      var x := transferList[0];
      var t := xfers[x];
      if StatusError(dir, status) {
        EngineStop();
        CloseHead(t.(state := Failed));
      } else if completed < t.descNum {
        if eopFlush {
          FlushHead(t.(eop := t.eop || eopSeen, descCmpl := t.descCmpl + completed));
        } else {
          descDequeued := descDequeued + t.descNum;
          CloseHead(t.(state := Failed, descCmpl := completed));
        }
      } else {
        descDequeued := descDequeued + t.descNum;
        CloseHead(t.(state := Completed, descCmpl := t.descNum));
      }
    }

    /** The end of engine_service_final_transfer: take the head off the list. */
    method CloseHead(t: Xfer)
      requires transferList != []
      modifies `transferList, `xfers
      ensures Q() == old(Q()).(list := old(transferList)[1..], xfer := old(xfers)[old(transferList)[0] := t])
    {
      xfers := xfers[transferList[0] := t];
      transferList := transferList[1..];
    }

    /** With eop_flush a transfer cut short stays at the head until its end of packet was seen. */
    method FlushHead(t: Xfer)
      requires transferList != []
      modifies `transferList, `xfers, `descDequeued, `running
      ensures Q() == if t.eop
        then old(Q()).(list := old(transferList)[1..], running := false, dequeued := old(descDequeued) + t.descCmpl,
                       xfer := old(xfers)[old(transferList)[0] := t.(state := Completed)])
        else old(Q()).(xfer := old(xfers)[old(transferList)[0] := t])
    {
      if !t.eop {
        xfers := xfers[transferList[0] := t];
        return;
      }
      EngineStop();
      descDequeued := descDequeued + t.descCmpl;
      CloseHead(t.(state := Completed));
    }

    /** engine_service_resume */
    method ServiceResume(statusReg: bv32)
      modifies `running, `shutdownRequest, `shutdownIdle, `descDequeued, `status
      ensures Q() == Resume(old(Q()), statusReg)
    {
      if !running {
        if transferList != [] {
          var _ := EngineStart(statusReg);
        } else if shutdownRequest {
          shutdownIdle := true;
        }
      } else if transferList == [] {
        EngineStop();
      }
    }

    /** The start of engine_service: read the status if need be, stop unless still busy. */
    method ServiceStop(s: Sample)
      requires WellFormed(Q())
      modifies `running, `status
      ensures Q() == Quiesce(old(Q()), eopFlush, s)
    {
      if s.wbCount == 0 || s.wbErr {
        status := s.statusRc;
      }
      if !Busy(status) || (!eopFlush && s.wbCount != 0) {
        EngineStop();
      }
    }

    /** engine_service from the descriptor count on. */
    method ServiceCount(s: Sample)
      requires WellFormed(Q())
      modifies `transferList, `xfers, `descDequeued, `running, `shutdownRequest, `shutdownIdle, `status
      ensures Q() == Counted(old(Q()), dir, eopFlush, s)
    {
      var count := if s.wbCount == 0 then s.count else s.wbCount;
      if count == 0 {
        return;
      }
      var left := ServiceTransferList(Sub32(count, descDequeued));
      ServiceFinalTransfer(left, s.eopSeen);
      if !eopFlush {
        ServiceResume(s.statusStart);
      }
    }

    /** engine_service; rv is -1 exactly when a running engine's writeback carried an error. */
    method Service(s: Sample) returns (rv: int)
      requires WellFormed(Q())
      modifies `transferList, `xfers, `descDequeued, `running, `shutdownRequest, `shutdownIdle, `status
      ensures Q() == Queues.Service(old(Q()), dir, eopFlush, s)
      ensures rv == if old(running) && s.wbErr then -1 else 0
      ensures old(running) && old(transferList) != []
              && CountOf(s) == old(descDequeued) + old(xfers[transferList[0]]).descNum ==>
        var x := old(transferList)[0];
        && transferList == old(transferList)[1..] && x in xfers
        && xfers[x].state == if ErrorShown(dir, StatusOf(s, old(status))) then Failed else Completed
    {
      if running && transferList != [] && CountOf(s) == descDequeued + xfers[transferList[0]].descNum {
        HeadServed(Q(), dir, eopFlush, s);
      }
      if !running {
        status := s.statusRc;
        return 0;
      }
      rv := if s.wbErr then -1 else 0;
      ServiceStop(s);
      ServiceCount(s);
    }

    /** transfer_queue; offlineSeen is what the flag check before the lock saw. */
    method TransferQueue(x: nat, offlineSeen: bool, statusReg: bv32) returns (rv: int)
      requires WellFormed(Q()) && x in xfers && x !in transferList
      modifies `transferList, `xfers, `descDequeued, `running, `shutdownRequest, `shutdownIdle, `status
      ensures rv == if old(xfers)[x].descNum == 0 then EINVAL
                    else if offlineSeen || old(shutdownRequest) then EBUSY else 0
      ensures x in xfers && xfers[x].descNum == old(xfers)[x].descNum
      ensures Q() == if rv < 0 then old(Q()) else Enqueue(old(Q()), x, statusReg)
    {
      if xfers[x].descNum == 0 {
        return EINVAL;
      }
      if offlineSeen {
        return EBUSY;
      }
      if shutdownRequest {
        return EBUSY;
      }
      xfers := xfers[x := xfers[x].(state := Submitted)];
      transferList := transferList + [x];
      if !running {
        var _ := EngineStart(statusReg);
      }
      rv := 0;
    }

    /** transfer_abort */
    method TransferAbort(x: nat)
      requires x in xfers
      modifies `transferList, `xfers
      ensures transferList == Unheaded(old(transferList), x) && xfers == Unsubmitted(old(xfers), x)
    {
      if transferList != [] && transferList[0] == x {
        transferList := transferList[1..];
      }
      if xfers[x].state == Submitted {
        xfers := xfers[x := xfers[x].(state := Aborted)];
      }
    }

    /** The timeout path: the status register, transfer_abort, then xdma_engine_stop. */
    method TransferAbortAndStop(x: nat, statusReg: bv32)
      requires WellFormed(Q()) && x in xfers && xfers[x].descNum >= 1
      modifies `transferList, `xfers, `running, `status
      ensures Q() == AbortAndStop(old(Q()), x, statusReg)
    {
      status := statusReg;
      TransferAbort(x);
      EngineStop();
    }

    /** The engine's part of xdma_device_offline and of xdma_device_online. */
    method DeviceOffline()
      modifies `shutdownRequest, `running
      ensures Q() == Offline(old(Q()))
    {
      shutdownRequest := true;
      EngineStop();
    }

    method DeviceOnline()
      modifies `shutdownRequest
      ensures Q() == Online(old(Q()))
    {
      shutdownRequest := false;
    }
  }
}
