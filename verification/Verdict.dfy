/** What a caller gets to hear, from what the hardware shows and the system does. */
module Verdicts {
  import opened Words
  import opened Memory
  import opened Runs
  import opened Queues
  import opened Services
  import opened Turns
  import opened Requests
  import opened Submission
  import EngineRuns

  /**
   * The state one service leaves a lone transfer of n descriptors in, on an engine just started.  An
   * error goes unnoticed if more descriptors are counted than the transfer has; a count cut short
   * fails the transfer, unless eop_flush waits for the end of the packet.
   */
  function StateServed(n: nat, count: nat, error: bool, eopFlush: bool, eop: bool): XState {
    if count == 0 then Submitted
    else if count > n then Completed
    else if error then Failed
    else if count == n then Completed
    else if !eopFlush then Failed
    else if eop then Completed
    else Submitted
  }

  ghost predicate Lone(q: Queue, x: nat) {
    WellFormed(q) && q.list == [x] && q.running && q.dequeued == 0 && q.xfer[x].state == Submitted
  }

  lemma {:induction false} LoneServed(q: Queue, dir: Direction, eopFlush: bool, x: nat, s: Sample)
    requires Lone(q, x)
    ensures var r := Service(q, dir, eopFlush, s);
      && x in r.xfer
      && r.xfer[x].state == StateServed(q.xfer[x].descNum, CountOf(s), ErrorShown(dir, StatusOf(s, q.status)),
                                        eopFlush, q.xfer[x].eop || s.eopSeen)
  {
    var m := Quiesce(q, eopFlush, s);
    QuiescedFields(q, eopFlush, s, m);
    if CountOf(s) > 0 {
      var p := CountOf(s);
      assert Sub32(p, 0) == p;
      ServiceSettles(q, dir, eopFlush, s, m, p);
      StatusBits(dir, m.status);
      LoneSettled(m, p, dir, eopFlush, x, s);
    }
  }

  lemma {:induction false} LoneSettled(m: Queue, p: nat, dir: Direction, eopFlush: bool, x: nat, s: Sample)
    requires WellFormed(m) && m.list == [x] && m.xfer[x].state == Submitted && p > 0
    ensures var r := Settle(m, p, dir, eopFlush, s);
      && x in r.xfer
      && r.xfer[x].state == StateServed(m.xfer[x].descNum, p, StatusError(dir, m.status), eopFlush,
                                        m.xfer[x].eop || s.eopSeen)
  {
    var f := Process(m, p, dir, eopFlush, s.eopSeen);
    Sync.ResumeFields(f, s.statusStart);
    if p > m.xfer[x].descNum {
      assert CompleteHead(m).list == [];
      assert ServiceList(m, p) == (CompleteHead(m), p - m.xfer[x].descNum);
    } else {
      assert ServiceList(m, p) == (m, p);
      LoneFinal(m, p, dir, eopFlush, x, s.eopSeen);
    }
  }

  lemma {:induction false} LoneFinal(m: Queue, p: nat, dir: Direction, eopFlush: bool, x: nat, seen: bool)
    requires WellFormed(m) && m.list == [x] && m.xfer[x].state == Submitted && 0 < p <= m.xfer[x].descNum
    ensures var r := ServiceFinal(m, p, dir, eopFlush, seen);
      && x in r.xfer
      && r.xfer[x].state == StateServed(m.xfer[x].descNum, p, StatusError(dir, m.status), eopFlush, m.xfer[x].eop || seen)
  {
  }

  /** What the caller makes of it. */
  function VerdictOn(s: XState): Verdict {
    if s == Completed then Done else if s == Failed then Errored else TimedOut
  }

  /**
   * A transfer on an engine that is neither running nor being shut down, and one service before the
   * wait ends: the verdict is a function of the descriptors counted, of the error bits of the status
   * (read when the engine was started, or by the service), and with eop_flush of the end of packet.
   */
  lemma {:induction false} OneService(q: Queue, dir: Direction, eopFlush: bool, x: nat, start: bv32, s: Sample, abort: bv32)
    requires Fresh(q, x) && !q.request && !q.running
    ensures Transact(q, dir, eopFlush, x, Script([], false, start, [ServiceEvent(s)], abort)).v
         == VerdictOn(StateServed(q.xfer[x].descNum, CountOf(s), ErrorShown(dir, StatusOf(s, start)), eopFlush,
                                  q.xfer[x].eop || s.eopSeen))
  {
    ScriptServed(q, dir, eopFlush, x, start, s, abort);
    var q1 := Enqueue(q, x, start);
    assert q1.list == [x] && q1.xfer[x] == q.xfer[x].(state := Submitted) && q1.status == start;
    LoneServed(q1, dir, eopFlush, x, s);
  }

  lemma {:induction false} ScriptServed(q: Queue, dir: Direction, eopFlush: bool, x: nat, start: bv32, s: Sample, abort: bv32)
    requires Fresh(q, x) && !q.request
    ensures var o := Transact(q, dir, eopFlush, x, Script([], false, start, [ServiceEvent(s)], abort));
      var r := Service(Enqueue(q, x, start), dir, eopFlush, s);
      && x in r.xfer && o.v == Judge(r.xfer[x].state) && (o.v != TimedOut ==> o.q == r)
  {
    var script := Script([], false, start, [ServiceEvent(s)], abort);
    var q1 := Enqueue(q, x, start);
    assert script.during[..0] == [];
    assert Events(q1, dir, eopFlush, script.during) == Service(q1, dir, eopFlush, s);
    assert Waited(q, dir, eopFlush, x, script.during, start) == Service(q1, dir, eopFlush, s);
    assert Transact(q, dir, eopFlush, x, script) == Conclude(q, dir, eopFlush, x, script);
  }

  // ---------------------------------------------------------------------------------------
  // Off and on again

  /** The device goes offline and comes back before the transfer is queued: as on an engine at rest. */
  lemma {:induction false} BackOnline(q: Queue, dir: Direction, eopFlush: bool, x: nat, s: Script)
    requires Fresh(q, x) && s.before == [OfflineEvent, OnlineEvent]
    ensures var rested := q.(request := false, running := false);
      Transact(q, dir, eopFlush, x, s) == Transact(rested, dir, eopFlush, x, s.(before := []))
  {
    assert s.before[..1] == [OfflineEvent] && [OfflineEvent][..0] == [];
    assert Events(q, dir, eopFlush, [OfflineEvent]) == Offline(q);
    assert Events(q, dir, eopFlush, s.before) == Online(Offline(q));
  }

  /** Nothing happens to a transfer but that the hardware reports its n descriptors, perhaps after the
      device was offline and online again. */
  function Served(n: U32, cycled: bool): Script {
    Script(if cycled then [OfflineEvent, OnlineEvent] else [], false, 0,
           [ServiceEvent(Sample(0, false, 0, n, 0, false))], 0)
  }

  ghost predicate AtRest(q: Queue) {
    !q.request && !q.running
  }

  lemma {:induction false} NoError(dir: Direction)
    ensures !ErrorShown(dir, 0)
  {
    forall i: BitNo
      ensures !Bit(0, i)
    {
    }
  }

  /** Then the transfer completes, and the engine is at rest again. */
  lemma {:induction false} ServedIsDone(q: Queue, dir: Direction, eopFlush: bool, x: nat, n: U32, cycled: bool)
    requires Fresh(q, x) && n == q.xfer[x].descNum && (cycled || AtRest(q))
    ensures var o := Transact(q, dir, eopFlush, x, Served(n, cycled)); o.v == Done && AtRest(o.q)
  {
    var rested, s := q.(request := false, running := false), Served(n, false);
    if cycled {
      BackOnline(q, dir, eopFlush, x, Served(n, true));
      assert Served(n, true).(before := []) == s;
    } else {
      assert rested == q;
    }
    NoError(dir);
    OneService(rested, dir, eopFlush, x, 0, s.during[0].sample, 0);
    ScriptServed(rested, dir, eopFlush, x, 0, s.during[0].sample, 0);
    TransactCloses(rested, dir, eopFlush, x, s);
    IdleRests(Enqueue(rested, x, 0), dir, eopFlush, s.during[0].sample);
  }

  /** A service that finds the engine idle and leaves nothing to run leaves it at rest. */
  lemma {:induction false} IdleRests(q: Queue, dir: Direction, eopFlush: bool, s: Sample)
    requires WellFormed(q) && q.running && !q.request && s.wbCount == 0 && !Bit(s.statusRc, 0) && CountOf(s) > 0
    requires Service(q, dir, eopFlush, s).list == []
    ensures AtRest(Service(q, dir, eopFlush, s))
  {
    var m := Quiesce(q, eopFlush, s);
    StatusBits(dir, s.statusRc);
    assert !m.running && !m.request;
    var p := Sub32(CountOf(s), m.dequeued);
    ServiceSettles(q, dir, eopFlush, s, m, p);
    EngineRuns.StaysStopped(m, p, dir, eopFlush, s.eopSeen);
    EngineRuns.ProcessStaysOpen(m, p, dir, eopFlush, s.eopSeen);
    Sync.ResumeFields(Process(m, p, dir, eopFlush, s.eopSeen), s.statusStart);
  }

  /** Every batch is served like that, from the k-th transfer on. */
  ghost predicate ServedInTurn(env: nat -> Script, bs: seq<seq<Piece>>, k: nat, cycled: nat -> bool)
    decreases |bs|
  {
    bs == [] || (&& |bs[0]| < TWO32 && env(k) == Served(|bs[0]|, cycled(k))
                 && ServedInTurn(env, bs[1..], k + 1, cycled))
  }

  lemma {:induction false} TurnServed(p: Params, deal: Dealing, m: Machine, flush: bool, ps: seq<Piece>, cycled: bool)
    requires Sound(deal) && IsDriver(deal, p) && Ready(p, m) && 0 < |ps| < TWO32 && m.idx + |ps| <= p.descMax
    requires cycled || AtRest(m.q)
    ensures var t := Turn(p, deal, m, flush, ps, Served(|ps|, cycled)); t.v == Done && AtRest(t.m.q)
  {
    var l, s := Launched(p, m, flush, ps), Served(|ps|, cycled);
    assert deal(l.q, m.next, s) == Transact(l.q, p.dir, p.eopFlush, m.next, s);
    ServedIsDone(l.q, p.dir, p.eopFlush, m.next, |ps|, cycled);
  }

  lemma {:induction false} PlayServed(e: Site, m: Machine, flush: bool, bs: seq<seq<Piece>>, k: nat, cycled: nat -> bool)
    requires Sound(e.deal) && IsDriver(e.deal, e.p) && Ready(e.p, m) && Fits(e.p.descMax, m.idx, bs)
    requires ServedInTurn(e.env, bs, k, cycled) && (cycled(k) || AtRest(m.q))
    ensures Play(e, m, flush, bs, k).v == Done
    decreases |bs|
  {
    if bs != [] {
      var t := Turn(e.p, e.deal, m, flush, bs[0], e.env(k));
      TurnServed(e.p, e.deal, m, flush, bs[0], cycled(k));
      TurnMeaning(e.p, e.deal, m, flush, bs[0], e.env(k));
      PlayServed(e, t.m, flush, bs[1..], k + 1, cycled);
    }
  }

  /**
   * A request on an engine at rest, or one that goes offline and comes back before the first transfer
   * is queued, completes if nothing else disturbs it: by the contract of XferSubmit its result is then
   * the total length.
   */
  lemma {:induction false} UndisturbedRequest(p: Params, m: Machine, sg: seq<Extent>, ep: U64, blen: U32, incr: bool,
                                              env: nat -> Script, cycled: nat -> bool)
    requires Ready(p, m) && blen > 0 && (cycled(0) || AtRest(m.q))
    requires ServedInTurn(env, Plan(p, m, AllPieces(sg, blen), ep, incr), 0, cycled)
    ensures Submission.Submitted(p, m, sg, ep, blen, incr, env).v == Done
  {
    var bs := Plan(p, m, AllPieces(sg, blen), ep, incr);
    DriverSound(p);
    PlanFits(p, m, AllPieces(sg, blen), ep, incr);
    PlayServed(Site(p, Driver(p), env), m, p.eopFlush, bs, 0, cycled);
  }
}
