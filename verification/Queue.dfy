/**
 * The software state of one engine as a value, and each critical section under engine->lock
 * as a function on it.  The class XdmaEngine does the same work in place.
 */
module Queues {
  import opened Words
  import opened Memory

  datatype XState = New | Submitted | Completed | Failed | Aborted

  /** descCmpl and eop are only used when eop_flush is on. */
  datatype Xfer = Xfer(state: XState, descNum: nat, descCmpl: nat, eop: bool)

  datatype Queue = Queue(
    list: seq<nat>,          // transfer_list, oldest first; transfers are named by numbers
    xfer: map<nat, Xfer>,
    running: bool,
    request: bool,           // ENGINE_SHUTDOWN_REQUEST
    idle: bool,              // ENGINE_SHUTDOWN_IDLE
    dequeued: nat,           // desc_dequeued
    status: bv32)

  /** What the hardware shows to one service: nothing in it is trusted. */
  datatype Sample = Sample(
    wbCount: U32,            // desc_writeback & WB_COUNT_MASK
    wbErr: bool,             // desc_writeback & WB_ERR_MASK
    statusRc: bv32,
    count: U32,              // completed_desc_count
    statusStart: bv32,       // the status read that ends engine_start
    eopSeen: bool)           // some completed result carries RX_STATUS_EOP

  const STAT_BUSY: bv32 := 0x1
  const H2C_ERR_MASK: bv32 := 0x00F8FE38
  const C2H_ERR_MASK: bv32 := 0x00F80638

  predicate Busy(status: bv32) {
    status & STAT_BUSY != 0
  }

  predicate StatusError(dir: Direction, status: bv32) {
    match dir
    case FromDevice => status & C2H_ERR_MASK != 0
    case ToDevice => status & H2C_ERR_MASK != 0
  }

  /**
   * The bits of the status register that report an error: bits 3 to 5 and 19 to 23 for both
   * directions, read and write errors of a host-to-card engine in bits 9 to 15, read errors of a
   * card-to-host engine in bits 9 and 10.
   */
  predicate ErrorBit(dir: Direction, i: BitNo) {
    3 <= i <= 5 || 19 <= i <= 23 || 9 <= i <= (if dir.ToDevice? then 15 else 10)
  }

  ghost predicate ErrorShown(dir: Direction, status: bv32) {
    exists i: BitNo :: ErrorBit(dir, i) && Bit(status, i)
  }

  lemma {:induction false} StatusBits(dir: Direction, status: bv32)
    ensures StatusError(dir, status) <==> ErrorShown(dir, status)
    ensures Busy(status) <==> Bit(status, 0)
  {
    if StatusError(dir, status) {
      assert || Bit(status, 3) || Bit(status, 4) || Bit(status, 5) || Bit(status, 9) || Bit(status, 10)
             || (dir.ToDevice? && (Bit(status, 11) || Bit(status, 12) || Bit(status, 13) || Bit(status, 14)
                                   || Bit(status, 15)))
             || Bit(status, 19) || Bit(status, 20) || Bit(status, 21) || Bit(status, 22) || Bit(status, 23);
    }
  }

  predicate Terminal(s: XState) {
    s == Completed || s == Failed || s == Aborted
  }

  ghost predicate WellFormed(q: Queue) {
    && (forall i | 0 <= i < |q.list| :: q.list[i] in q.xfer && q.xfer[q.list[i]].descNum >= 1)
    && NoDup(q.list)
  }

  ghost predicate NoDup(xs: seq<nat>) {
    xs == [] || (xs[0] !in xs[1..] && NoDup(xs[1..]))
  }

  lemma {:induction false} NoDupAppend(xs: seq<nat>, x: nat)
    requires NoDup(xs) && x !in xs
    ensures NoDup(xs + [x])
  {
    if xs == [] {
      assert NoDup([x]) by {
        assert [x][1..] == [];
      }
      assert xs + [x] == [x];
    } else {
      NoDupAppend(xs[1..], x);
      assert (xs + [x])[1..] == xs[1..] + [x];
    }
  }

  lemma {:induction false} NoDupDrop(xs: seq<nat>, j: nat)
    requires NoDup(xs) && j <= |xs|
    ensures NoDup(xs[j..])
  {
    if j == 0 {
      assert xs[0..] == xs;
    } else {
      NoDupDrop(xs[1..], j - 1);
      assert xs[1..][j - 1..] == xs[j..];
    }
  }

  lemma {:induction false} NoDupAt(xs: seq<nat>, k: nat)
    requires NoDup(xs) && k < |xs|
    ensures xs[k] !in xs[..k]
  {
    if k > 0 {
      NoDupAt(xs[1..], k - 1);
      assert xs[..k] == [xs[0]] + xs[1..][..k - 1];
    }
  }

  function Mark(q: Queue, x: nat, s: XState): Queue
    requires x in q.xfer
  {
    q.(xfer := q.xfer[x := q.xfer[x].(state := s)])
  }

  /** engine_start on an idle engine with a non-empty list. */
  function Start(q: Queue, status: bv32): Queue {
    q.(running := true, request := false, idle := false, dequeued := 0, status := status)
  }

  function CompleteHead(q: Queue): Queue
    requires WellFormed(q) && q.list != []
  {
    var x := q.list[0];
    Mark(q, x, Completed).(list := q.list[1..], dequeued := q.dequeued + q.xfer[x].descNum)
  }

  /** engine_service_transfer_list: all finished transfers but the last. */
  function ServiceList(q: Queue, p: nat): (r: (Queue, nat))
    requires WellFormed(q)
    ensures WellFormed(r.0)
    decreases |q.list|
  {
    if q.list == [] || p <= q.xfer[q.list[0]].descNum then (q, p)
    else ServiceList(CompleteHead(q), p - q.xfer[q.list[0]].descNum)
  }

  /** engine_service_final_transfer */
  function ServiceFinal(q: Queue, p: nat, dir: Direction, eopFlush: bool, eopSeen: bool): (r: Queue)
    requires WellFormed(q)
    ensures WellFormed(r)
  {
    if q.list == [] then q
    else
      var x := q.list[0];
      var t := q.xfer[x];
      if StatusError(dir, q.status) then
        Mark(q, x, Failed).(list := q.list[1..], running := false)
      else if p < t.descNum && eopFlush then
        var t' := t.(eop := t.eop || eopSeen, descCmpl := t.descCmpl + p);
        if !t'.eop then q.(xfer := q.xfer[x := t'])
        else q.(xfer := q.xfer[x := t'.(state := Completed)], list := q.list[1..],
                running := false, dequeued := q.dequeued + t'.descCmpl)
      else if p < t.descNum then
        q.(xfer := q.xfer[x := t.(state := Failed, descCmpl := p)], list := q.list[1..],
           dequeued := q.dequeued + t.descNum)
      else
        q.(xfer := q.xfer[x := t.(state := Completed, descCmpl := t.descNum)], list := q.list[1..],
           dequeued := q.dequeued + t.descNum)
  }

  /** Both passes over the list, for p descriptors not yet dequeued. */
  function Process(q: Queue, p: nat, dir: Direction, eopFlush: bool, eopSeen: bool): (r: Queue)
    requires WellFormed(q)
    ensures WellFormed(r)
  {
    var (q1, p') := ServiceList(q, p);
    ServiceFinal(q1, p', dir, eopFlush, eopSeen)
  }

  /** engine_service_resume */
  function Resume(q: Queue, status: bv32): Queue {
    if !q.running then
      if q.list != [] then Start(q, status)
      else if q.request then q.(idle := true)
      else q
    else if q.list == [] then q.(running := false)
    else q
  }

  /** engine_service up to the descriptor count: read status, stop unless still busy. */
  function Quiesce(q: Queue, eopFlush: bool, s: Sample): (r: Queue)
    requires WellFormed(q)
    ensures WellFormed(r)
  {
    var q1 := if s.wbCount == 0 || s.wbErr then q.(status := s.statusRc) else q;
    if !Busy(q1.status) || (!eopFlush && s.wbCount != 0) then q1.(running := false) else q1
  }

  /** engine_service from the descriptor count on; p is what this run has not yet dequeued. */
  function Settle(q: Queue, p: nat, dir: Direction, eopFlush: bool, s: Sample): (r: Queue)
    requires WellFormed(q)
    ensures WellFormed(r)
  {
    var r := Process(q, p, dir, eopFlush, s.eopSeen);
    if eopFlush then r else Resume(r, s.statusStart)
  }

  function Count(s: Sample): U32 {
    if s.wbCount == 0 then s.count else s.wbCount
  }

  /** desc_count is unsigned: a count below desc_dequeued wraps around. */
  function Counted(q: Queue, dir: Direction, eopFlush: bool, s: Sample): (r: Queue)
    requires WellFormed(q)
    ensures WellFormed(r)
  {
    if Count(s) == 0 then q else Settle(q, Sub32(Count(s), q.dequeued), dir, eopFlush, s)
  }

  /** engine_service */
  function Service(q: Queue, dir: Direction, eopFlush: bool, s: Sample): (r: Queue)
    requires WellFormed(q)
    ensures WellFormed(r)
  {
    if !q.running then q.(status := s.statusRc)
    else Counted(Quiesce(q, eopFlush, s), dir, eopFlush, s)
  }

  /** transfer_queue from the engine lock on; a request for shutdown rejects the transfer. */
  function Enqueue(q: Queue, x: nat, status: bv32): (r: Queue)
    requires WellFormed(q) && x in q.xfer && x !in q.list && q.xfer[x].descNum >= 1
    ensures WellFormed(r)
  {
    if q.request then q
    else
      NoDupAppend(q.list, x);
      var q1 := Mark(q, x, Submitted).(list := q.list + [x]);
      if q1.running then q1 else Start(q1, status)
  }

  /** transfer_abort takes the transfer off the head of the list, if it is there, ... */
  function Unheaded(list: seq<nat>, x: nat): seq<nat> {
    if list != [] && list[0] == x then list[1..] else list
  }

  /** ... and marks it aborted if it is still submitted. */
  function Unsubmitted(xfer: map<nat, Xfer>, x: nat): map<nat, Xfer>
    requires x in xfer
  {
    if xfer[x].state == Submitted then xfer[x := xfer[x].(state := Aborted)] else xfer
  }

  /** The timeout path: a read of the status register, transfer_abort, then xdma_engine_stop. */
  function AbortAndStop(q: Queue, x: nat, status: bv32): (r: Queue)
    requires WellFormed(q) && x in q.xfer
    ensures WellFormed(r)
  {
    q.(list := Unheaded(q.list, x), xfer := Unsubmitted(q.xfer, x), running := false, status := status)
  }

  function Offline(q: Queue): Queue {
    q.(request := true, running := false)
  }

  function Online(q: Queue): Queue {
    q.(request := false)
  }

  // ---------------------------------------------------------------------------------------
  // Service accounting

  function Descs(q: Queue, xs: seq<nat>): nat
    requires forall i | 0 <= i < |xs| :: xs[i] in q.xfer
  {
    if xs == [] then 0 else q.xfer[xs[0]].descNum + Descs(q, xs[1..])
  }

  /** Only transfer states differ, and only those of the given transfers. */
  ghost predicate SameBut(q: Queue, r: Queue, xs: seq<nat>) {
    && q.xfer.Keys == r.xfer.Keys
    && (forall x | x in q.xfer :: q.xfer[x].descNum == r.xfer[x].descNum)
    && (forall x | x in q.xfer && x !in xs :: q.xfer[x] == r.xfer[x])
  }

  lemma {:induction false} DescsSame(q: Queue, r: Queue, xs: seq<nat>)
    requires forall i | 0 <= i < |xs| :: xs[i] in q.xfer && xs[i] in r.xfer
    requires forall i | 0 <= i < |xs| :: q.xfer[xs[i]].descNum == r.xfer[xs[i]].descNum
    ensures Descs(q, xs) == Descs(r, xs)
  {
    if xs != [] {
      DescsSame(q, r, xs[1..]);
    }
  }

  /** The sum over the first k queued transfers. */
  function PrefixSum(q: Queue, k: nat): nat
    requires WellFormed(q) && k <= |q.list|
  {
    Descs(q, q.list[..k])
  }

  lemma {:induction false} PrefixShift(q: Queue, k: nat)
    requires WellFormed(q) && 0 < k <= |q.list|
    ensures PrefixSum(q, k) == q.xfer[q.list[0]].descNum + PrefixSum(CompleteHead(q), k - 1)
  {
    var r := CompleteHead(q);
    assert q.list[..k][1..] == r.list[..k - 1];
    DescsSame(q, r, r.list[..k - 1]);
  }

  lemma {:induction false} PrefixSumGrows(q: Queue, i: nat, j: nat)
    requires WellFormed(q) && i <= j <= |q.list|
    ensures PrefixSum(q, i) + (j - i) <= PrefixSum(q, j)
    decreases |q.list|, j
  {
    if i == 0 {
      assert q.list[..0] == [];
      if j > 0 {
        PrefixShift(q, j);
        assert CompleteHead(q).list[..0] == [];
        PrefixSumGrows(CompleteHead(q), 0, j - 1);
      }
    } else {
      PrefixShift(q, i);
      PrefixShift(q, j);
      PrefixSumGrows(CompleteHead(q), i - 1, j - 1);
    }
  }

  /** r is q with its first k transfers taken off the list as COMPLETED, and nothing else changed. */
  ghost predicate Retired(q: Queue, r: Queue, k: nat)
    requires WellFormed(q) && k <= |q.list|
  {
    && r.list == q.list[k..]
    && SameBut(q, r, q.list[..k])
    && (forall i | 0 <= i < k :: r.xfer[q.list[i]].state == Completed)
    && SameFlags(q, r)
  }

  ghost predicate SameFlags(q: Queue, r: Queue) {
    r.running == q.running && r.request == q.request && r.idle == q.idle && r.status == q.status
  }

  lemma {:induction false} RetiredOneMore(q: Queue, r: Queue, k: nat)
    requires WellFormed(q) && 0 < k <= |q.list|
    requires Retired(CompleteHead(q), r, k - 1)
    ensures Retired(q, r, k)
  {
    var h := CompleteHead(q);
    var x := q.list[0];
    var done := h.list[..k - 1];
    assert q.list[..k] == [x] + done;
    assert x !in done;
    assert r.xfer[x] == h.xfer[x];
    forall i | 0 <= i < k
      ensures r.xfer[q.list[i]].state == Completed
    {
      if i > 0 {
        assert q.list[i] == h.list[i - 1];
      }
    }
  }

  lemma {:induction false} EmptyPrefix(q: Queue)
    requires WellFormed(q)
    ensures PrefixSum(q, 0) == 0
    ensures q.list != [] ==> PrefixSum(q, 1) == q.xfer[q.list[0]].descNum
  {
    assert q.list[..0] == [];
    if q.list != [] {
      assert q.list[..1] == [q.list[0]];
      assert q.list[..1][1..] == [];
    }
  }

  lemma {:induction false} FirstBelow(q: Queue, k: nat)
    requires WellFormed(q) && 0 < k <= |q.list|
    ensures q.xfer[q.list[0]].descNum <= PrefixSum(q, k)
  {
    EmptyPrefix(q);
    PrefixSumGrows(q, 1, k);
  }

  /**
   * The first loop removes, in order, the transfers whose cumulative descriptor count stays
   * strictly below p, marks each COMPLETED, and leaves the rest of p.
   */
  lemma {:induction false} ServiceListMeaning(q: Queue, p: nat, k: nat)
    requires WellFormed(q) && k <= |q.list|
    requires k > 0 ==> PrefixSum(q, k) < p
    requires k < |q.list| ==> p <= PrefixSum(q, k + 1)
    ensures Retired(q, ServiceList(q, p).0, k)
    ensures ServiceList(q, p).1 == p - PrefixSum(q, k)
    decreases |q.list|
  {
    if k == 0 {
      ServiceListStops(q, p);
    } else {
      var h, n := CompleteHead(q), q.xfer[q.list[0]].descNum;
      HeadFits(q, p, k);
      ServiceListMeaning(h, p - n, k - 1);
      ServiceListAdvances(q, h, p, n, k);
    }
  }

  lemma {:induction false} ServiceListStops(q: Queue, p: nat)
    requires WellFormed(q) && (q.list != [] ==> p <= PrefixSum(q, 1))
    ensures Retired(q, ServiceList(q, p).0, 0)
    ensures ServiceList(q, p).1 == p - PrefixSum(q, 0)
  {
    EmptyPrefix(q);
    assert q.list[0..] == q.list;
  }

  lemma {:induction false} ServiceListAdvances(q: Queue, h: Queue, p: nat, n: nat, k: nat)
    requires WellFormed(q) && 0 < k <= |q.list| && h == CompleteHead(q)
    requires n == q.xfer[q.list[0]].descNum < p
    requires Retired(h, ServiceList(h, p - n).0, k - 1)
    ensures ServiceList(q, p) == ServiceList(h, p - n)
    ensures Retired(q, ServiceList(q, p).0, k)
  {
    RetiredOneMore(q, ServiceList(h, p - n).0, k);
  }

  /** What leaves p goes into desc_dequeued. */
  lemma {:induction false} ServiceListConserves(q: Queue, p: nat)
    requires WellFormed(q)
    ensures ServiceList(q, p).0.dequeued + ServiceList(q, p).1 == q.dequeued + p
    decreases |q.list|
  {
    if q.list != [] && p > q.xfer[q.list[0]].descNum {
      ServiceListConserves(CompleteHead(q), p - q.xfer[q.list[0]].descNum);
    }
  }

  /** The bounds on p, seen from behind the head of the list. */
  lemma {:induction false} HeadFits(q: Queue, p: nat, k: nat)
    requires WellFormed(q) && 0 < k <= |q.list| && PrefixSum(q, k) < p
    requires k < |q.list| ==> p <= PrefixSum(q, k + 1)
    ensures var h, n := CompleteHead(q), q.xfer[q.list[0]].descNum;
      && n < p
      && PrefixSum(q, k) == n + PrefixSum(h, k - 1)
      && (k > 1 ==> PrefixSum(h, k - 1) < p - n)
      && (k < |q.list| ==> p - n <= PrefixSum(h, k))
  {
    FirstBelow(q, k);
    PrefixShift(q, k);
    if k < |q.list| {
      PrefixShift(q, k + 1);
    }
  }

  /** k is the length of the longest queue prefix with at most p descriptors. */
  ghost predicate Longest(q: Queue, p: nat, k: nat)
    requires WellFormed(q)
  {
    k <= |q.list| && PrefixSum(q, k) <= p && (k < |q.list| ==> p < PrefixSum(q, k + 1))
  }

  lemma {:induction false} LongestExists(q: Queue, p: nat) returns (k: nat)
    requires WellFormed(q)
    ensures Longest(q, p, k)
  {
    k := 0;
    assert q.list[..0] == [];
    while k < |q.list| && PrefixSum(q, k + 1) <= p
      invariant k <= |q.list| && PrefixSum(q, k) <= p
    {
      k := k + 1;
    }
  }

  /** p ends on a transfer boundary other than the start of the queue. */
  ghost predicate OnBoundary(q: Queue, p: nat)
    requires WellFormed(q)
  {
    exists i | 1 <= i <= |q.list| :: PrefixSum(q, i) == p
  }

  lemma {:induction false} BoundaryIsLongest(q: Queue, p: nat, k: nat)
    requires WellFormed(q) && Longest(q, p, k)
    ensures OnBoundary(q, p) <==> k > 0 && PrefixSum(q, k) == p
    ensures p < PrefixSum(q, |q.list|) <==> k < |q.list|
  {
    if OnBoundary(q, p) {
      var i :| 1 <= i <= |q.list| && PrefixSum(q, i) == p;
      if i < k {
        PrefixSumGrows(q, i, k);
      } else if k < i {
        PrefixSumGrows(q, k + 1, i);
      }
    }
    if k < |q.list| {
      PrefixSumGrows(q, k + 1, |q.list|);
    }
  }

  lemma {:induction false} DescsSplit(q: Queue, xs: seq<nat>, j: nat)
    requires forall i | 0 <= i < |xs| :: xs[i] in q.xfer
    requires j <= |xs|
    ensures Descs(q, xs) == Descs(q, xs[..j]) + Descs(q, xs[j..])
  {
    if j == 0 {
      assert xs[..0] == [] && xs[0..] == xs;
    } else {
      DescsSplit(q, xs[1..], j - 1);
      assert xs[1..][..j - 1] == xs[..j][1..];
      assert xs[1..][j - 1..] == xs[j..];
    }
  }

  /** Whatever left the list is accounted for in desc_dequeued. */
  lemma {:induction false} Conserved(q: Queue, r: Queue, j: nat)
    requires WellFormed(q) && j <= |q.list|
    requires r.list == q.list[j..] && SameBut(q, r, q.list[..j])
    requires r.dequeued == q.dequeued + PrefixSum(q, j)
    ensures WellFormed(r)
    ensures r.dequeued + Descs(r, r.list) == q.dequeued + Descs(q, q.list)
  {
    NoDupDrop(q.list, j);
    DescsSplit(q, q.list, j);
    DescsSame(q, r, r.list);
  }

  /** r is q with k transfers retired and one more taken off in the given state. */
  ghost predicate Closed(q: Queue, r: Queue, k: nat, s: XState)
    requires WellFormed(q) && k < |q.list|
  {
    && r.list == q.list[k + 1..]
    && SameBut(q, r, q.list[..k + 1])
    && (forall i | 0 <= i < k :: r.xfer[q.list[i]].state == Completed)
    && r.xfer[q.list[k]].state == s
  }

  lemma {:induction false} CloseNext(q: Queue, m: Queue, r: Queue, k: nat, t: Xfer)
    requires WellFormed(q) && k < |q.list| && Retired(q, m, k)
    requires r.xfer == m.xfer[q.list[k] := t] && t.descNum == q.xfer[q.list[k]].descNum
    requires r.list == m.list[1..]
    ensures Closed(q, r, k, t.state)
    ensures PrefixSum(q, k + 1) == PrefixSum(q, k) + t.descNum
  {
    var x := q.list[k];
    assert q.list[..k + 1] == q.list[..k] + [x];
    NoDupAt(q.list, k);
    DescsSplit(q, q.list[..k + 1], k);
    assert q.list[..k + 1][..k] == q.list[..k];
    assert q.list[..k + 1][k..] == [x];
    assert [x][1..] == [];
    assert r.xfer.Keys == q.xfer.Keys;
  }

  /** The second pass on a non-empty list, error-free and with eop_flush off. */
  lemma {:induction false} FinalMeaning(m: Queue, p: nat, dir: Direction, seen: bool)
    requires WellFormed(m) && m.list != [] && !StatusError(dir, m.status)
    ensures var r := ServiceFinal(m, p, dir, false, seen);
      var x := m.list[0];
      && x in r.xfer && r.xfer == m.xfer[x := r.xfer[x]]
      && r.xfer[x].descNum == m.xfer[x].descNum
      && r.xfer[x].state == (if p < m.xfer[x].descNum then Failed else Completed)
      && r.list == m.list[1..]
      && r.dequeued == m.dequeued + m.xfer[x].descNum
      && SameFlags(m, r)
  {
  }

  lemma {:induction false} RetiredHead(q: Queue, m: Queue, k: nat)
    requires WellFormed(q) && k < |q.list| && Retired(q, m, k)
    ensures m.list != [] && m.list[0] == q.list[k] && m.xfer[q.list[k]] == q.xfer[q.list[k]]
  {
    NoDupAt(q.list, k);
  }

  /** Both passes when the first one stops in front of transfer k. */
  lemma {:induction false} ProcessStopsAt(q: Queue, p: nat, dir: Direction, seen: bool, k: nat)
    requires WellFormed(q) && !StatusError(dir, q.status) && k < |q.list|
    requires k > 0 ==> PrefixSum(q, k) < p
    requires p <= PrefixSum(q, k + 1)
    ensures var r := Process(q, p, dir, false, seen);
      && Closed(q, r, k, if p < PrefixSum(q, k + 1) then Failed else Completed)
      && r.dequeued + Descs(r, r.list) == q.dequeued + Descs(q, q.list)
      && SameFlags(q, r)
  {
    var (m, p') := ServiceList(q, p);
    var r := ServiceFinal(m, p', dir, false, seen);
    ServiceListMeaning(q, p, k);
    ServiceListConserves(q, p);
    RetiredHead(q, m, k);
    FinalMeaning(m, p', dir, seen);
    CloseNext(q, m, r, k, r.xfer[q.list[k]]);
    Conserved(q, r, k + 1);
  }

  lemma {:induction false} ProcessAll(q: Queue, p: nat, dir: Direction, seen: bool)
    requires WellFormed(q) && (q.list != [] ==> PrefixSum(q, |q.list|) < p)
    ensures Retired(q, Process(q, p, dir, false, seen), |q.list|)
    ensures Process(q, p, dir, false, seen).dequeued == q.dequeued + PrefixSum(q, |q.list|)
  {
    EmptyPrefix(q);
    ServiceListMeaning(q, p, |q.list|);
    ServiceListConserves(q, p);
  }

  /** The first k queued transfers completed, the next one failed if `failed`, the rest as before. */
  ghost predicate Settled(q: Queue, r: Queue, k: nat, failed: bool)
    requires WellFormed(q)
  {
    var j := if failed then k + 1 else k;
    && j <= |q.list| && r.list == q.list[j..]
    && SameBut(q, r, q.list[..j])
    && (forall i | 0 <= i < k :: r.xfer[q.list[i]].state == Completed)
    && (failed ==> r.xfer[q.list[k]].state == Failed)
  }

  /** And the engine's own state is as before. */
  ghost predicate Accounted(q: Queue, r: Queue, k: nat, failed: bool)
    requires WellFormed(q)
  {
    Settled(q, r, k, failed) && SameFlags(q, r)
  }

  lemma {:induction false} ClosedIsAccounted(q: Queue, r: Queue, k: nat, failed: bool)
    requires WellFormed(q) && k < |q.list| && SameFlags(q, r)
    requires Closed(q, r, k, if failed then Failed else Completed)
    ensures Accounted(q, r, if failed then k else k + 1, failed)
  {
  }

  lemma {:induction false} RetiredIsAccounted(q: Queue, r: Queue)
    requires WellFormed(q) && Retired(q, r, |q.list|) && r.dequeued == q.dequeued + PrefixSum(q, |q.list|)
    ensures Accounted(q, r, |q.list|, false)
    ensures WellFormed(r) && r.dequeued + Descs(r, r.list) == q.dequeued + Descs(q, q.list)
  {
    Conserved(q, r, |q.list|);
  }

  /**
   * Service accounting without hardware error: the longest prefix that p covers completes, the
   * next transfer fails exactly when p stops short of the queue's end and not on a boundary,
   * nothing else is touched, removal is from the front, and no descriptor is lost.
   */
  lemma {:induction false} ServiceAccounting(q: Queue, p: nat, dir: Direction, seen: bool, k: nat)
    requires WellFormed(q) && !ErrorShown(dir, q.status) && Longest(q, p, k)
    ensures Accounted(q, Process(q, p, dir, false, seen), k,
                      p < PrefixSum(q, |q.list|) && !OnBoundary(q, p))
    ensures var r := Process(q, p, dir, false, seen);
      r.dequeued + Descs(r, r.list) == q.dequeued + Descs(q, q.list)
  {
    StatusBits(dir, q.status);
    var failed := p < PrefixSum(q, |q.list|) && !OnBoundary(q, p);
    assert failed <==> k < |q.list| && !(k > 0 && PrefixSum(q, k) == p) by {
      BoundaryIsLongest(q, p, k);
    }
    if k > 0 && PrefixSum(q, k) == p {
      AccountingOnBoundary(q, p, dir, seen, k);
    } else if k < |q.list| {
      AccountingInside(q, p, dir, seen, k);
    } else {
      ProcessAll(q, p, dir, seen);
      RetiredIsAccounted(q, Process(q, p, dir, false, seen));
    }
  }

  lemma {:induction false} AccountingOnBoundary(q: Queue, p: nat, dir: Direction, seen: bool, k: nat)
    requires WellFormed(q) && !StatusError(dir, q.status) && 0 < k <= |q.list| && PrefixSum(q, k) == p
    ensures Accounted(q, Process(q, p, dir, false, seen), k, false)
    ensures var r := Process(q, p, dir, false, seen);
      r.dequeued + Descs(r, r.list) == q.dequeued + Descs(q, q.list)
  {
    assert PrefixSum(q, k - 1) < p by {
      PrefixSumGrows(q, k - 1, k);
    }
    ProcessStopsAt(q, p, dir, seen, k - 1);
    ClosedIsAccounted(q, Process(q, p, dir, false, seen), k - 1, false);
  }

  lemma {:induction false} AccountingInside(q: Queue, p: nat, dir: Direction, seen: bool, k: nat)
    requires WellFormed(q) && !StatusError(dir, q.status) && k < |q.list|
    requires (k > 0 ==> PrefixSum(q, k) < p) && p < PrefixSum(q, k + 1)
    ensures Accounted(q, Process(q, p, dir, false, seen), k, true)
    ensures var r := Process(q, p, dir, false, seen);
      r.dequeued + Descs(r, r.list) == q.dequeued + Descs(q, q.list)
  {
    ProcessStopsAt(q, p, dir, seen, k);
    ClosedIsAccounted(q, Process(q, p, dir, false, seen), k, true);
  }

  /**
   * With a hardware error the transfers strictly below p complete, the next one fails even if p
   * covers it, its descriptors are not added to desc_dequeued, and the engine stops.
   */
  lemma {:induction false} ServiceErrorAccounting(q: Queue, p: nat, dir: Direction, eopFlush: bool, seen: bool, k: nat)
    requires WellFormed(q) && ErrorShown(dir, q.status) && k < |q.list|
    requires k > 0 ==> PrefixSum(q, k) < p
    requires p <= PrefixSum(q, k + 1)
    ensures var r := Process(q, p, dir, eopFlush, seen);
      && Closed(q, r, k, Failed)
      && !r.running
      && r.dequeued + Descs(r, r.list) + q.xfer[q.list[k]].descNum == q.dequeued + Descs(q, q.list)
  {
    StatusBits(dir, q.status);
    var (m, p') := ServiceList(q, p);
    var r := ServiceFinal(m, p', dir, eopFlush, seen);
    ServiceListMeaning(q, p, k);
    ServiceListConserves(q, p);
    RetiredHead(q, m, k);
    CloseNext(q, m, r, k, q.xfer[q.list[k]].(state := Failed));
    var full := r.(dequeued := r.dequeued + q.xfer[q.list[k]].descNum);
    Conserved(q, full, k + 1);
    DescsSame(r, full, r.list);
  }
}
