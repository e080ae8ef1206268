/**
 * Every interleaving of the critical sections of one engine, by any number of callers:
 * the run flag and the queue, and what taking a device offline guarantees.
 */
module EngineRuns {
  import opened Words
  import opened Memory
  import opened Queues

  /** One critical section.  A caller queues a transfer it has just built, under a fresh name. */
  datatype Step =
    | QueueStep(x: nat, descNum: nat, status: bv32)
    | ServiceStep(sample: Sample)
    | AbortStep(x: nat, status: bv32)
    | OfflineStep
    | OnlineStep

  ghost predicate Enabled(q: Queue, s: Step) {
    match s
    case QueueStep(x, _, _) => x !in q.xfer
    case AbortStep(x, _) => x in q.xfer
    case _ => true
  }

  /** transfer_queue refuses an empty transfer before it takes the lock. */
  function Next(q: Queue, dir: Direction, eopFlush: bool, s: Step): (r: Queue)
    requires WellFormed(q) && Enabled(q, s)
    ensures WellFormed(r)
  {
    match s
    case QueueStep(x, n, status) =>
      var built := q.(xfer := q.xfer[x := Xfer(New, n, 0, false)]);
      if n == 0 then built else Enqueue(built, x, status)
    case ServiceStep(sample) => Service(q, dir, eopFlush, sample)
    case AbortStep(x, status) => AbortAndStop(q, x, status)
    case OfflineStep => Offline(q)
    case OnlineStep => Online(q)
  }

  /** qs is a run: a list of states, each from the one before by some step of `steps`. */
  ghost predicate IsRun(dir: Direction, eopFlush: bool, qs: seq<Queue>, steps: seq<Step>) {
    && |qs| == |steps| + 1
    && (forall i | 0 <= i < |qs| :: WellFormed(qs[i]))
    && (forall i | 0 <= i < |steps| ::
          Enabled(qs[i], steps[i]) && qs[i + 1] == Next(qs[i], dir, eopFlush, steps[i]))
  }

  const INITIAL := Queue([], map[], false, false, false, 0, 0)

  // ---------------------------------------------------------------------------------------
  // running and the queue

  ghost predicate RunningHasWork(q: Queue) {
    q.running ==> q.list != []
  }

  /**
   * After a service that saw a completed count, the engine runs exactly when work is left:
   * on the idle, the busy and the error path alike.
   */
  lemma {:induction false} ServiceSettlesRunning(q: Queue, dir: Direction, s: Sample)
    requires WellFormed(q) && q.running && Count(s) != 0
    ensures var r := Service(q, dir, false, s); r.running <==> r.list != []
  {
    var q2 := Quiesce(q, false, s);
    var r := Process(q2, Sub32(Count(s), q2.dequeued), dir, false, s.eopSeen);
    assert Service(q, dir, false, s) == Resume(r, s.statusStart);
  }

  lemma {:induction false} QuiesceKeepsWork(q: Queue, s: Sample)
    requires WellFormed(q) && RunningHasWork(q)
    ensures RunningHasWork(Quiesce(q, false, s))
  {
  }

  lemma {:induction false} NextKeepsWork(q: Queue, dir: Direction, s: Step)
    requires WellFormed(q) && Enabled(q, s) && RunningHasWork(q)
    ensures RunningHasWork(Next(q, dir, false, s))
  {
    if s.ServiceStep? && q.running {
      if Count(s.sample) == 0 {
        QuiesceKeepsWork(q, s.sample);
      } else {
        ServiceSettlesRunning(q, dir, s.sample);
      }
    }
  }

  /** In every reachable state a running engine has a transfer to run. */
  lemma {:induction false} RunningImpliesWork(dir: Direction, qs: seq<Queue>, steps: seq<Step>, i: nat)
    requires IsRun(dir, false, qs, steps) && qs[0] == INITIAL && i < |qs|
    ensures RunningHasWork(qs[i])
    decreases i
  {
    if i > 0 {
      RunningImpliesWork(dir, qs, steps, i - 1);
      NextKeepsWork(qs[i - 1], dir, steps[i - 1]);
    }
  }

  /** The status a service of a running engine goes by. */
  function StatusSeen(q: Queue, s: Sample): bv32 {
    if s.wbCount == 0 || s.wbErr then s.statusRc else q.status
  }

  // ---------------------------------------------------------------------------------------
  // Accounting, for a whole service

  /** What is settled stays so when only the engine's own state changes. */
  lemma {:induction false} SettledSame(q: Queue, m: Queue, p: Queue, r: Queue, k: nat, failed: bool)
    requires WellFormed(q) && m.list == q.list && m.xfer == q.xfer && r.list == p.list && r.xfer == p.xfer
    ensures WellFormed(m) && (Settled(m, p, k, failed) ==> Settled(q, r, k, failed))
  {
    if Settled(m, p, k, failed) {
      var j := if failed then k + 1 else k;
      assert SameBut(q, r, q.list[..j]);
    }
  }

  /**
   * engine_service on a running engine, error-free, with eop_flush off and a nonzero count at or
   * above desc_dequeued: with p the difference, the longest queue prefix with at most p descriptors
   * becomes COMPLETED, the next transfer is FAILED exactly when p is below the queue's total and on
   * no boundary, nothing else is touched; the engine runs on exactly if work is left; and the
   * descriptors dequeued and queued add up as before unless the engine was stopped and started
   * again, which sets desc_dequeued to zero.
   */
  lemma {:induction false} ServiceAccounts(q: Queue, dir: Direction, s: Sample) returns (k: nat)
    requires WellFormed(q) && q.running && Count(s) != 0 && q.dequeued <= Count(s)
    requires !ErrorShown(dir, StatusSeen(q, s))
    ensures Longest(q, Count(s) - q.dequeued, k)
    ensures var p, r := Count(s) - q.dequeued, Service(q, dir, false, s);
      && Settled(q, r, k, p < PrefixSum(q, |q.list|) && !OnBoundary(q, p))
      && (r.running <==> r.list != [])
      && (if r.list != [] && (!Bit(StatusSeen(q, s), 0) || s.wbCount != 0) then r.dequeued == 0
          else r.dequeued + Descs(r, r.list) == q.dequeued + Descs(q, q.list))
  {
    var p := Count(s) - q.dequeued;
    k := LongestExists(q, p);
    StatusBits(dir, StatusSeen(q, s));
    var m := Quiesced(q, s);
    SameQueue(q, m, p, k);
    var failed := p < PrefixSum(q, |q.list|) && !OnBoundary(q, p);
    var d := Process(m, p, dir, false, s.eopSeen);
    assert Accounted(m, d, k, failed) && d.dequeued + Descs(d, d.list) == q.dequeued + Descs(q, q.list) by {
      ServiceAccounting(m, p, dir, s.eopSeen, k);
    }
    assert Service(q, dir, false, s) == Resume(d, s.statusStart) by {
      ServiceIs(q, dir, s, p);
    }
    var r := Resume(d, s.statusStart);
    ResumeIs(d, s.statusStart);
    SettledSame(q, m, d, r, k, failed);
    DescsSame(d, r, d.list);
  }

  /** A running engine after the first part of a service. */
  function Quiesced(q: Queue, s: Sample): Queue {
    q.(status := StatusSeen(q, s), running := Busy(StatusSeen(q, s)) && s.wbCount == 0)
  }

  lemma {:induction false} ServiceIs(q: Queue, dir: Direction, s: Sample, p: nat)
    requires WellFormed(q) && q.running && Count(s) != 0 && p == Count(s) - q.dequeued
    ensures WellFormed(Quiesced(q, s))
    ensures Service(q, dir, false, s) == Resume(Process(Quiesced(q, s), p, dir, false, s.eopSeen), s.statusStart)
  {
    assert Quiesce(q, false, s) == Quiesced(q, s);
    assert Sub32(Count(s), q.dequeued) == p;
  }

  /** What resuming makes of it. */
  lemma {:induction false} ResumeIs(d: Queue, status: bv32)
    requires WellFormed(d)
    ensures var r := Resume(d, status);
      && WellFormed(r) && r.list == d.list && r.xfer == d.xfer && (r.running <==> r.list != [])
      && r.dequeued == if d.list != [] && !d.running then 0 else d.dequeued
  {
  }

  /** Sums over the queue do not depend on the flags. */
  lemma {:induction false} SameQueue(q: Queue, m: Queue, p: nat, k: nat)
    requires WellFormed(q) && WellFormed(m) && m.list == q.list && m.xfer == q.xfer && Longest(q, p, k)
    ensures Longest(m, p, k) && PrefixSum(m, |m.list|) == PrefixSum(q, |q.list|)
    ensures OnBoundary(m, p) <==> OnBoundary(q, p)
    ensures Descs(m, m.list) == Descs(q, q.list)
  {
    forall i | 0 <= i <= |q.list|
      ensures PrefixSum(m, i) == PrefixSum(q, i)
    {
      DescsSame(q, m, q.list[..i]);
    }
    DescsSame(q, m, q.list);
  }

  /** With eop_flush on, resume is skipped and a running engine can be left without work. */
  lemma {:induction false} EopFlushLeavesRunning()
    ensures exists q, s ::
              && WellFormed(q) && RunningHasWork(q) && q.running
              && !RunningHasWork(Service(q, FromDevice, true, s))
  {
    var q := Queue([7], map[7 := Xfer(Submitted, 1, 0, false)], true, false, false, 0, 0);
    var s := Sample(0, false, 1, 1, 0, false);
    assert WellFormed(q) && RunningHasWork(q);
    var q2 := Quiesce(q, true, s);
    assert Busy(1 as bv32) && !StatusError(FromDevice, 1 as bv32);
    assert q2 == q.(status := 1);
    assert ServiceList(q2, 1) == (q2, 1);
    assert q.list[1..] == [];
    var r := Service(q, FromDevice, true, s);
    assert r == ServiceFinal(q2, 1, FromDevice, true, false);
    assert r.running && r.list == [];
  }

  /** The count reaches past the queue, or exactly to its end without an error. */
  ghost predicate CountsQueueOut(q: Queue, dir: Direction, p: nat, status: bv32)
    requires WellFormed(q)
  {
    var total := PrefixSum(q, |q.list|);
    p > total || (p == total && !ErrorShown(dir, status))
  }

  /** The transfer that a count within the queue stops at. */
  lemma {:induction false} StopsIn(q: Queue, p: nat) returns (k: nat)
    requires WellFormed(q) && q.list != [] && p <= PrefixSum(q, |q.list|)
    ensures k < |q.list| && (k > 0 ==> PrefixSum(q, k) < p) && p <= PrefixSum(q, k + 1)
  {
    k := 0;
    while p > PrefixSum(q, k + 1)
      invariant k < |q.list| && (k > 0 ==> PrefixSum(q, k) < p)
      decreases |q.list| - k
    {
      k := k + 1;
    }
  }

  /** With eop_flush the second pass leaves a busy engine without work in one case only. */
  lemma {:induction false} FlushFinal(m: Queue, p: nat, dir: Direction, seen: bool)
    requires WellFormed(m) && m.running && m.list != []
    ensures RunningHasWork(ServiceFinal(m, p, dir, true, seen))
       <==> !(|m.list| == 1 && p >= m.xfer[m.list[0]].descNum && !StatusError(dir, m.status))
  {
  }

  lemma {:induction false} FlushStopsIn(q: Queue, p: nat, dir: Direction, seen: bool, k: nat)
    requires WellFormed(q) && q.running && k < |q.list|
    requires (k > 0 ==> PrefixSum(q, k) < p) && p <= PrefixSum(q, k + 1)
    ensures RunningHasWork(Process(q, p, dir, true, seen)) <==> !CountsQueueOut(q, dir, p, q.status)
  {
    var (m, p') := ServiceList(q, p);
    ServiceListMeaning(q, p, k);
    RetiredHead(q, m, k);
    StatusBits(dir, q.status);
    FlushFinal(m, p', dir, seen);
    PrefixNext(q, m, k, k + 1);
    LastCounted(q, p, k, k + 1);
  }

  lemma {:induction false} PrefixNext(q: Queue, m: Queue, k: nat, k': nat)
    requires WellFormed(q) && k < |q.list| && k' == k + 1 && Retired(q, m, k)
    ensures PrefixSum(q, k') == PrefixSum(q, k) + q.xfer[q.list[k]].descNum
  {
    CloseNext(q, m, m.(xfer := m.xfer[q.list[k] := q.xfer[q.list[k]]], list := m.list[1..]), k, q.xfer[q.list[k]]);
  }

  /** A count within transfer k counts the queue out exactly if it is the last and p covers it. */
  lemma {:induction false} LastCounted(q: Queue, p: nat, k: nat, k': nat)
    requires WellFormed(q) && k < |q.list| && k' == k + 1 && p <= PrefixSum(q, k')
    ensures p <= PrefixSum(q, |q.list|)
    ensures p == PrefixSum(q, |q.list|) <==> k' == |q.list| && p == PrefixSum(q, k')
  {
    PrefixSumGrows(q, k', |q.list|);
  }

  lemma {:induction false} FlushProcess(q: Queue, p: nat, dir: Direction, seen: bool)
    requires WellFormed(q) && q.list != []
    ensures RunningHasWork(Process(q, p, dir, true, seen)) <==> !(q.running && CountsQueueOut(q, dir, p, q.status))
  {
    if !q.running {
      StaysStopped(q, p, dir, true, seen);
    } else if p > PrefixSum(q, |q.list|) {
      ServiceListMeaning(q, p, |q.list|);
    } else {
      var k := StopsIn(q, p);
      FlushStopsIn(q, p, dir, seen, k);
    }
  }

  lemma {:induction false} StaysStopped(q: Queue, p: nat, dir: Direction, eopFlush: bool, seen: bool)
    requires WellFormed(q) && !q.running
    ensures !Process(q, p, dir, eopFlush, seen).running
    decreases |q.list|
  {
    if q.list != [] && p > q.xfer[q.list[0]].descNum {
      StaysStopped(CompleteHead(q), p - q.xfer[q.list[0]].descNum, dir, eopFlush, seen);
    }
  }

  /**
   * Exactly when that happens: the engine is still busy and the completed count reaches past the
   * queue, or to its very end without an error.
   */
  lemma {:induction false} EopFlushRunning(q: Queue, dir: Direction, s: Sample)
    requires WellFormed(q) && q.running && q.list != []
    ensures RunningHasWork(Service(q, dir, true, s))
       <==> !(&& Count(s) != 0 && Bit(StatusSeen(q, s), 0)
              && CountsQueueOut(q, dir, Sub32(Count(s), q.dequeued), StatusSeen(q, s)))
  {
    StatusBits(dir, StatusSeen(q, s));
    var m := Quiesce(q, true, s);
    assert m == q.(status := StatusSeen(q, s), running := Busy(StatusSeen(q, s)));
    if Count(s) != 0 {
      DescsSame(q, m, q.list[..|q.list|]);
      FlushProcess(m, Sub32(Count(s), q.dequeued), dir, s.eopSeen);
    }
  }

  /** An abort takes the transfer off the list exactly when it is not queued behind another. */
  lemma {:induction false} AbortRemovesHeadOnly(q: Queue, x: nat, status: bv32)
    requires WellFormed(q) && x in q.xfer
    ensures x !in AbortAndStop(q, x, status).list <==> (x in q.list ==> q.list[0] == x)
  {
    var r := AbortAndStop(q, x, status);
    if q.list != [] && q.list[0] == x {
      assert x !in q.list[1..];
    }
  }

  // ---------------------------------------------------------------------------------------
  // offline

  /** What holds from the stop in xdma_device_offline until the next xdma_device_online. */
  ghost predicate Parked(q: Queue) {
    !q.running && q.request
  }

  ghost predicate ShrinksTo(q: Queue, r: Queue) {
    && (forall x | x in r.list :: x in q.list)
    && (forall x | x in r.xfer && r.xfer[x].state == Submitted ::
          x in q.xfer && q.xfer[x].state == Submitted)
  }

  lemma {:induction false} ParkedAbort(q: Queue, x: nat, status: bv32)
    requires WellFormed(q) && x in q.xfer && Parked(q)
    ensures Parked(AbortAndStop(q, x, status)) && ShrinksTo(q, AbortAndStop(q, x, status))
  {
  }

  lemma {:induction false} ParkedNext(q: Queue, dir: Direction, eopFlush: bool, s: Step)
    requires WellFormed(q) && Enabled(q, s) && Parked(q) && !s.OnlineStep?
    ensures Parked(Next(q, dir, eopFlush, s)) && ShrinksTo(q, Next(q, dir, eopFlush, s))
    ensures s.QueueStep? ==> s.x !in Next(q, dir, eopFlush, s).list
  {
    match s
    case AbortStep(x, status) => ParkedAbort(q, x, status);
    case QueueStep(x, n, status) => assert x !in q.list;
    case _ =>
  }

  /**
   * From the moment xdma_device_offline has stopped the engine, every interleaving without
   * xdma_device_online keeps it stopped and lets no transfer onto its list.
   */
  lemma {:induction false} OfflineStaysParked(dir: Direction, eopFlush: bool,
                                              qs: seq<Queue>, steps: seq<Step>, i: nat, j: nat)
    requires IsRun(dir, eopFlush, qs, steps)
    requires i < j < |qs| && steps[i] == OfflineStep
    requires forall k | i < k < j :: !steps[k].OnlineStep?
    ensures Parked(qs[j]) && ShrinksTo(qs[i], qs[j])
    decreases j
  {
    if j > i + 1 {
      var m := j - 1;
      OfflineStaysParked(dir, eopFlush, qs, steps, i, m);
      assert qs[j] == Next(qs[m], dir, eopFlush, steps[m]);
      ParkedNext(qs[m], dir, eopFlush, steps[m]);
    }
  }

  // ---------------------------------------------------------------------------------------
  // online again

  lemma {:induction false} NextStaysOpen(q: Queue, dir: Direction, eopFlush: bool, s: Step)
    requires WellFormed(q) && Enabled(q, s) && !q.request && !s.OfflineStep?
    ensures !Next(q, dir, eopFlush, s).request
  {
    if s.ServiceStep? {
      ServiceStaysOpen(q, dir, eopFlush, s.sample);
    }
  }

  lemma {:induction false} ServiceStaysOpen(q: Queue, dir: Direction, eopFlush: bool, s: Sample)
    requires WellFormed(q) && !q.request
    ensures !Service(q, dir, eopFlush, s).request
  {
    if q.running && Count(s) != 0 {
      var m := Quiesce(q, eopFlush, s);
      assert !m.request && m.dequeued == q.dequeued;
      var p := Sub32(Count(s), m.dequeued);
      ProcessStaysOpen(m, p, dir, eopFlush, s.eopSeen);
      assert Service(q, dir, eopFlush, s) == Settle(m, p, dir, eopFlush, s);
    }
  }

  lemma {:induction false} ProcessStaysOpen(q: Queue, p: nat, dir: Direction, eopFlush: bool, seen: bool)
    requires WellFormed(q) && !q.request
    ensures !Process(q, p, dir, eopFlush, seen).request
    decreases |q.list|
  {
    if q.list != [] && p > q.xfer[q.list[0]].descNum {
      ProcessStaysOpen(CompleteHead(q), p - q.xfer[q.list[0]].descNum, dir, eopFlush, seen);
    }
  }

  /** Without xdma_device_offline an engine goes on accepting transfers. */
  lemma {:induction false} StaysOpen(dir: Direction, eopFlush: bool, qs: seq<Queue>, steps: seq<Step>, i: nat, j: nat)
    requires IsRun(dir, eopFlush, qs, steps) && i <= j < |qs| && !qs[i].request
    requires forall k | i <= k < j :: !steps[k].OfflineStep?
    ensures !qs[j].request
    decreases j
  {
    if i < j {
      var m := j - 1;
      StaysOpen(dir, eopFlush, qs, steps, i, m);
      assert qs[j] == Next(qs[m], dir, eopFlush, steps[m]);
      NextStaysOpen(qs[m], dir, eopFlush, steps[m]);
    }
  }

  /** A transfer of at least one descriptor that is accepted is the last on the list of a running engine. */
  ghost predicate Accepted(q: Queue, r: Queue, x: nat, n: nat) {
    && r.list == q.list + [x]
    && r.xfer == q.xfer[x := Xfer(Submitted, n, 0, false)]
    && r.running
  }

  /**
   * From xdma_device_online to the next xdma_device_offline, whatever else happens, transfer_queue
   * accepts every transfer with descriptors: it is listed last, SUBMITTED, and the engine runs.
   */
  lemma {:induction false} OnlineAccepts(dir: Direction, eopFlush: bool, qs: seq<Queue>, steps: seq<Step>,
                                         i: nat, j: nat)
    requires IsRun(dir, eopFlush, qs, steps) && i < j < |steps| && steps[i] == OnlineStep
    requires forall k | i < k < j :: !steps[k].OfflineStep?
    requires steps[j].QueueStep? && steps[j].descNum > 0
    ensures Accepted(qs[j], qs[j + 1], steps[j].x, steps[j].descNum)
  {
    StaysOpen(dir, eopFlush, qs, steps, i + 1, j);
    QueueAccepts(qs[j], dir, eopFlush, steps[j]);
  }

  lemma {:induction false} QueueAccepts(q: Queue, dir: Direction, eopFlush: bool, s: Step)
    requires WellFormed(q) && Enabled(q, s) && s.QueueStep? && s.descNum > 0 && !q.request
    ensures Accepted(q, Next(q, dir, eopFlush, s), s.x, s.descNum)
  {
    var built := q.(xfer := q.xfer[s.x := Xfer(New, s.descNum, 0, false)]);
    assert Mark(built, s.x, Submitted).xfer == q.xfer[s.x := Xfer(Submitted, s.descNum, 0, false)];
  }
}
