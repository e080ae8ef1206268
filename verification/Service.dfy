/** What one service makes of the head of the list, from status bits and descriptors counted. */
module Services {
  import opened Words
  import opened Memory
  import opened Queues
  import Sync

  /** The completed count: the writeback's if there is one, else that of the register. */
  function CountOf(s: Sample): nat {
    if s.wbCount > 0 then s.wbCount else s.count
  }

  /** The status a service of a running engine goes by: read anew without a writeback or with a bad one. */
  function StatusOf(s: Sample, before: bv32): bv32 {
    if s.wbCount > 0 && !s.wbErr then before else s.statusRc
  }

  /**
   * A service whose count covers exactly the transfer at the head of the list takes it off, FAILED
   * if one of the error bits of the engine's direction is set and COMPLETED if none is.
   */
  lemma {:induction false} HeadServed(q: Queue, dir: Direction, eopFlush: bool, s: Sample)
    requires WellFormed(q) && q.running && q.list != []
    requires CountOf(s) == q.dequeued + q.xfer[q.list[0]].descNum
    ensures var x, r := q.list[0], Service(q, dir, eopFlush, s);
      && r.list == q.list[1..] && r.xfer.Keys == q.xfer.Keys
      && r.xfer[x].state == (if ErrorShown(dir, StatusOf(s, q.status)) then Failed else Completed)
      && forall y | y in q.xfer && y != x :: r.xfer[y] == q.xfer[y]
  {
    var n, m := q.xfer[q.list[0]].descNum, Quiesce(q, eopFlush, s);
    QuiescedFields(q, eopFlush, s, m);
    assert Sub32(CountOf(s), q.dequeued) == n;
    ServiceSettles(q, dir, eopFlush, s, m, n);
    SettleHead(m, n, dir, eopFlush, s);
    StatusBits(dir, m.status);
  }

  lemma {:induction false} QuiescedFields(q: Queue, eopFlush: bool, s: Sample, m: Queue)
    requires WellFormed(q) && m == Quiesce(q, eopFlush, s)
    ensures m.list == q.list && m.xfer == q.xfer && m.dequeued == q.dequeued && m.status == StatusOf(s, q.status)
  {
  }

  lemma {:induction false} ServiceSettles(q: Queue, dir: Direction, eopFlush: bool, s: Sample, m: Queue, n: nat)
    requires WellFormed(q) && q.running && CountOf(s) > 0
    requires m == Quiesce(q, eopFlush, s) && n == Sub32(CountOf(s), m.dequeued)
    ensures Service(q, dir, eopFlush, s) == Settle(m, n, dir, eopFlush, s)
  {
  }

  lemma {:induction false} SettleHead(m: Queue, n: nat, dir: Direction, eopFlush: bool, s: Sample)
    requires WellFormed(m) && m.list != [] && n == m.xfer[m.list[0]].descNum
    ensures var x, r := m.list[0], Settle(m, n, dir, eopFlush, s);
      && r.list == m.list[1..] && r.xfer.Keys == m.xfer.Keys
      && r.xfer[x].state == (if StatusError(dir, m.status) then Failed else Completed)
      && forall y | y in m.xfer && y != x :: r.xfer[y] == m.xfer[y]
  {
    assert ServiceList(m, n) == (m, n);
    HeadFinal(m, n, dir, eopFlush, s.eopSeen);
    Sync.ResumeFields(ServiceFinal(m, n, dir, eopFlush, s.eopSeen), s.statusStart);
  }

  lemma {:induction false} HeadFinal(m: Queue, n: nat, dir: Direction, eopFlush: bool, seen: bool)
    requires WellFormed(m) && m.list != [] && n == m.xfer[m.list[0]].descNum
    ensures var x, r := m.list[0], ServiceFinal(m, n, dir, eopFlush, seen);
      && r.list == m.list[1..] && r.xfer.Keys == m.xfer.Keys
      && r.xfer[x].state == (if StatusError(dir, m.status) then Failed else Completed)
      && forall y | y in m.xfer && y != x :: r.xfer[y] == m.xfer[y]
  {
  }

  /**
   * With eop_flush a count that stops inside the transfer at the head completes it if its end of
   * packet was seen, now or before, and stops the engine; otherwise the transfer stays.
   */
  lemma {:induction false} FlushedHead(q: Queue, dir: Direction, s: Sample)
    requires WellFormed(q) && q.running && q.list != [] && !ErrorShown(dir, StatusOf(s, q.status))
    requires q.dequeued < CountOf(s) < q.dequeued + q.xfer[q.list[0]].descNum
    ensures var x, r := q.list[0], Service(q, dir, true, s);
      && r.xfer.Keys == q.xfer.Keys && (forall y | y in q.xfer && y != x :: r.xfer[y] == q.xfer[y])
      && if q.xfer[x].eop || s.eopSeen then r.xfer[x].state == Completed && r.list == q.list[1..] && !r.running
         else r.xfer[x].state == q.xfer[x].state && !r.xfer[x].eop && r.list == q.list
  {
    var p, m := CountOf(s) - q.dequeued, Quiesce(q, true, s);
    QuiescedFields(q, true, s, m);
    assert Sub32(CountOf(s), q.dequeued) == p;
    ServiceSettles(q, dir, true, s, m, p);
    StatusBits(dir, m.status);
    assert ServiceList(m, p) == (m, p);
  }
}
