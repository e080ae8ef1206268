/** Synchronous callers, one at a time under desc_lock, amid service, offline and online. */
module Sync {
  import opened Words
  import opened Memory
  import opened Queues

  /** Where the holder of desc_lock is.  Idle covers having no transfer, between two or at the end. */
  datatype Phase =
    | Idle
    | Built(x: nat)      // transfer_init done
    | Checked(x: nat)    // transfer_queue has seen the device online
    | Waiting(x: nat)    // queued, waiting for the state to change

  /** `rejected` counts the descriptors of transfers that transfer_queue turned away. */
  datatype Sys = Sys(q: Queue, offline: bool, phase: Phase, next: nat, used: int, rejected: nat)

  datatype Step =
    | Build(descNum: nat)
    | CheckFlag
    | EnqueueStep(status: bv32)
    | WaitEnds(status: bv32)  // woken, timed out or interrupted
    | ServiceStep(sample: Sample)
    | SetFlag | StopEngine    // xdma_device_offline
    | ReleaseEngine | ClearFlag // xdma_device_online

  const INITIAL := Sys(Queue([], map[], false, false, false, 0, 0), false, Idle, 0, 0, 0)

  ghost predicate Enabled(s: Sys, st: Step) {
    match st
    case Build(n) => s.phase == Idle && n >= 1
    case CheckFlag => s.phase.Built?
    case EnqueueStep(_) => s.phase.Checked?
    case WaitEnds(_) => s.phase.Waiting?
    case _ => true
  }

  /** The transfer of the current caller, if it has one, is known to the engine. */
  ghost predicate Named(s: Sys) {
    && WellFormed(s.q)
    && (forall x | x in s.q.xfer :: x < s.next)
    && (!s.phase.Idle? ==> s.phase.x in s.q.xfer && s.q.xfer[s.phase.x].descNum >= 1)
    && (s.phase.Checked? ==> s.phase.x !in s.q.list)
  }

  function Next(s: Sys, dir: Direction, eopFlush: bool, st: Step): Sys
    requires Named(s) && Enabled(s, st)
  {
    match st
    case Build(n) =>
      s.(q := s.q.(xfer := s.q.xfer[s.next := Xfer(New, n, 0, false)]),
         phase := Built(s.next), next := s.next + 1, used := s.used + n)
    case CheckFlag =>
      var x := s.phase.x;
      if s.offline then s.(phase := Idle, rejected := s.rejected + s.q.xfer[x].descNum)
      else s.(phase := Checked(x))
    case EnqueueStep(status) =>
      var x := s.phase.x;
      if s.q.request then s.(phase := Idle, rejected := s.rejected + s.q.xfer[x].descNum)
      else s.(q := Enqueue(s.q, x, status), phase := Waiting(x))
    case WaitEnds(status) =>
      var x := s.phase.x;
      var q := match s.q.xfer[x].state
        case Completed => s.q
        case Failed => s.q
        case _ => AbortAndStop(s.q, x, status);
      s.(q := q, phase := Idle, used := s.used - s.q.xfer[x].descNum)
    case ServiceStep(sample) => s.(q := Service(s.q, dir, eopFlush, sample))
    case SetFlag => s.(offline := true)
    case StopEngine => s.(q := Offline(s.q))
    case ReleaseEngine => s.(q := Online(s.q))
    case ClearFlag => s.(offline := false)
  }

  // ---------------------------------------------------------------------------------------
  // The invariant

  function Queued(s: Sys): seq<nat> { s.q.list }

  /** A transfer is on the list exactly when its state is SUBMITTED. */
  ghost predicate ListedIffSubmitted(q: Queue) {
    forall x | x in q.xfer :: x in q.list <==> q.xfer[x].state == Submitted
  }

  ghost predicate Invariant(s: Sys) {
    && Named(s)
    && ListedIffSubmitted(s.q)
    && (match s.phase
        case Waiting(x) => (s.q.list == [x] || s.q.list == []) && s.q.xfer[x].state != New
        case Idle => s.q.list == []
        case Built(x) => s.q.list == [] && s.q.xfer[x].state == New
        case Checked(x) => s.q.list == [] && s.q.xfer[x].state == New)
    && s.used == s.rejected + (if s.phase.Idle? then 0 else s.q.xfer[s.phase.x].descNum)
  }

  /** How far a transfer has got; every step only moves it forward. */
  ghost predicate Forward(a: XState, b: XState) {
    a == b || (a == New && b == Submitted) || (a == Submitted && Terminal(b))
  }

  ghost predicate AllForward(q: Queue, r: Queue) {
    forall x | x in q.xfer ::
      && x in r.xfer && r.xfer[x].descNum == q.xfer[x].descNum
      && Forward(q.xfer[x].state, r.xfer[x].state)
  }

  /** Service of a queue of at most one transfer: it stays as it is or leaves, finished. */
  ghost predicate ServedOne(q: Queue, r: Queue)
    requires WellFormed(q)
  {
    Served(q.list, q.xfer, r.list, r.xfer)
  }

  ghost predicate Served(list: seq<nat>, xfer: map<nat, Xfer>, list': seq<nat>, xfer': map<nat, Xfer>) {
    && xfer'.Keys == xfer.Keys
    && (forall x | x in xfer && x !in list :: xfer'[x] == xfer[x])
    && (forall x | x in list && x in xfer ::
         && xfer'[x].descNum == xfer[x].descNum
         && (|| (list' == list && xfer'[x].state == xfer[x].state)
             || (list' == [] && (xfer'[x].state == Completed || xfer'[x].state == Failed))))
    && (list == [] ==> list' == [])
  }

  lemma {:induction false} ServeOneInList(q: Queue, p: nat)
    requires WellFormed(q) && |q.list| <= 1
    ensures ServedOne(q, ServiceList(q, p).0)
    ensures ServiceList(q, p).0.list == q.list ==> ServiceList(q, p).0 == q
  {
    if |q.list| == 1 && p > q.xfer[q.list[0]].descNum {
      var h := CompleteHead(q);
      assert h.list == [];
      assert ServiceList(q, p).0 == h;
    }
  }

  lemma {:induction false} ServeOneFinal(q: Queue, p: nat, dir: Direction, eopFlush: bool, seen: bool)
    requires WellFormed(q) && |q.list| <= 1
    ensures ServedOne(q, ServiceFinal(q, p, dir, eopFlush, seen))
  {
  }

  lemma {:induction false} ServeOneProcess(q: Queue, p: nat, dir: Direction, eopFlush: bool, seen: bool)
    requires WellFormed(q) && |q.list| <= 1
    ensures ServedOne(q, Process(q, p, dir, eopFlush, seen))
  {
    var (m, p') := ServiceList(q, p);
    ServeOneInList(q, p);
    assert |m.list| <= 1;
    ServeOneFinal(m, p', dir, eopFlush, seen);
    if m.list == q.list {
      assert m == q;
    } else {
      assert m.list == [];
      assert ServiceFinal(m, p', dir, eopFlush, seen) == m;
    }
  }

  lemma {:induction false} ResumeFields(q: Queue, status: bv32)
    ensures Resume(q, status).list == q.list && Resume(q, status).xfer == q.xfer
  {
  }

  lemma {:induction false} QuiesceFields(q: Queue, eopFlush: bool, s: Sample)
    requires WellFormed(q)
    ensures Quiesce(q, eopFlush, s).list == q.list && Quiesce(q, eopFlush, s).xfer == q.xfer
  {
  }

  lemma {:induction false} ServeOneSettle(q: Queue, p: nat, dir: Direction, eopFlush: bool, s: Sample)
    requires WellFormed(q) && |q.list| <= 1
    ensures ServedOne(q, Settle(q, p, dir, eopFlush, s))
  {
    ServeOneProcess(q, p, dir, eopFlush, s.eopSeen);
    ResumeFields(Process(q, p, dir, eopFlush, s.eopSeen), s.statusStart);
  }

  lemma {:induction false} ServeOneCounted(q: Queue, dir: Direction, eopFlush: bool, s: Sample)
    requires WellFormed(q) && |q.list| <= 1
    ensures ServedOne(q, Counted(q, dir, eopFlush, s))
  {
    if Count(s) != 0 {
      ServeOneSettle(q, Sub32(Count(s), q.dequeued), dir, eopFlush, s);
    }
  }

  lemma {:induction false} ServeOne(q: Queue, dir: Direction, eopFlush: bool, s: Sample)
    requires WellFormed(q) && |q.list| <= 1
    ensures ServedOne(q, Service(q, dir, eopFlush, s))
  {
    if q.running {
      QuiesceFields(q, eopFlush, s);
      ServeOneCounted(Quiesce(q, eopFlush, s), dir, eopFlush, s);
    }
  }

  lemma {:induction false} ServiceKeeps(s: Sys, dir: Direction, eopFlush: bool, sample: Sample)
    requires Invariant(s)
    ensures var s' := s.(q := Service(s.q, dir, eopFlush, sample));
      Invariant(s') && AllForward(s.q, s'.q)
  {
    ServeOne(s.q, dir, eopFlush, sample);
  }

  lemma {:induction false} BuildKeeps(s: Sys, dir: Direction, eopFlush: bool, n: nat)
    requires Invariant(s) && Enabled(s, Build(n))
    ensures var s' := Next(s, dir, eopFlush, Build(n)); Invariant(s') && AllForward(s.q, s'.q)
  {
    assert s.next !in s.q.xfer;
  }

  lemma {:induction false} EnqueueKeeps(s: Sys, dir: Direction, eopFlush: bool, status: bv32)
    requires Invariant(s) && Enabled(s, EnqueueStep(status))
    ensures var s' := Next(s, dir, eopFlush, EnqueueStep(status)); Invariant(s') && AllForward(s.q, s'.q)
  {
    if !s.q.request {
      var x := s.phase.x;
      var r := Enqueue(s.q, x, status);
      assert r.list == [x];
      assert r.xfer == s.q.xfer[x := s.q.xfer[x].(state := Submitted)];
    }
  }

  lemma {:induction false} WaitEndsKeeps(s: Sys, dir: Direction, eopFlush: bool, status: bv32)
    requires Invariant(s) && Enabled(s, WaitEnds(status))
    ensures var s' := Next(s, dir, eopFlush, WaitEnds(status)); Invariant(s') && AllForward(s.q, s'.q)
  {
    var x := s.phase.x;
    if s.q.xfer[x].state == Submitted {
      assert s.q.list == [x];
      var r := AbortAndStop(s.q, x, status);
      assert r.list == [];
      assert r.xfer == s.q.xfer[x := s.q.xfer[x].(state := Aborted)];
    }
  }

  lemma {:induction false} NextKeeps(s: Sys, dir: Direction, eopFlush: bool, st: Step)
    requires Invariant(s) && Enabled(s, st)
    ensures Invariant(Next(s, dir, eopFlush, st))
    ensures AllForward(s.q, Next(s, dir, eopFlush, st).q)
  {
    match st
    case ServiceStep(sample) => ServiceKeeps(s, dir, eopFlush, sample);
    case Build(n) => BuildKeeps(s, dir, eopFlush, n);
    case EnqueueStep(status) => EnqueueKeeps(s, dir, eopFlush, status);
    case WaitEnds(status) => WaitEndsKeeps(s, dir, eopFlush, status);
    case _ =>
  }

  // ---------------------------------------------------------------------------------------
  // Whole runs

  /** ss is a list of states, each from the one before by the step of `steps` between them. */
  ghost predicate IsPath(dir: Direction, eopFlush: bool, ss: seq<Sys>, steps: seq<Step>) {
    && |ss| == |steps| + 1
    && (forall i | 0 <= i < |steps| ::
          && Named(ss[i]) && Enabled(ss[i], steps[i])
          && ss[i + 1] == Next(ss[i], dir, eopFlush, steps[i]))
  }

  ghost predicate IsRun(dir: Direction, eopFlush: bool, ss: seq<Sys>, steps: seq<Step>) {
    IsPath(dir, eopFlush, ss, steps) && ss[0] == INITIAL
  }

  ghost predicate Reaches(dir: Direction, eopFlush: bool, s: Sys, t: Sys) {
    exists ss, steps :: IsPath(dir, eopFlush, ss, steps) && ss[0] == s && ss[|ss| - 1] == t
  }

  lemma {:induction false} ReachesSelf(dir: Direction, eopFlush: bool, s: Sys)
    ensures Reaches(dir, eopFlush, s, s)
  {
    assert IsPath(dir, eopFlush, [s], []);
  }

  lemma {:induction false} ReachesNext(dir: Direction, eopFlush: bool, s: Sys, m: Sys, st: Step)
    requires Reaches(dir, eopFlush, s, m) && Invariant(m) && Enabled(m, st)
    ensures Reaches(dir, eopFlush, s, Next(m, dir, eopFlush, st))
    ensures Invariant(Next(m, dir, eopFlush, st))
  {
    var ss, steps :| IsPath(dir, eopFlush, ss, steps) && ss[0] == s && ss[|ss| - 1] == m;
    PathGoesOn(dir, eopFlush, ss, steps, st);
    assert Invariant(Next(m, dir, eopFlush, st)) by {
      NextKeeps(m, dir, eopFlush, st);
    }
  }

  lemma {:induction false} PathGoesOn(dir: Direction, eopFlush: bool, ss: seq<Sys>, steps: seq<Step>, st: Step)
    requires IsPath(dir, eopFlush, ss, steps)
    requires Named(ss[|ss| - 1]) && Enabled(ss[|ss| - 1], st)
    ensures IsPath(dir, eopFlush, ss + [Next(ss[|ss| - 1], dir, eopFlush, st)], steps + [st])
  {
    var t := Next(ss[|ss| - 1], dir, eopFlush, st);
    var ss', steps' := ss + [t], steps + [st];
    forall i | 0 <= i < |steps'|
      ensures Named(ss'[i]) && Enabled(ss'[i], steps'[i]) && ss'[i + 1] == Next(ss'[i], dir, eopFlush, steps'[i])
    {
      if i < |steps| {
        assert ss'[i] == ss[i] && ss'[i + 1] == ss[i + 1] && steps'[i] == steps[i];
      }
    }
  }

  lemma {:induction false} Reachable(dir: Direction, eopFlush: bool, ss: seq<Sys>, steps: seq<Step>, i: nat)
    requires IsRun(dir, eopFlush, ss, steps) && i < |ss|
    ensures Invariant(ss[i])
    decreases i
  {
    if i > 0 {
      Reachable(dir, eopFlush, ss, steps, i - 1);
      NextKeeps(ss[i - 1], dir, eopFlush, steps[i - 1]);
    }
  }

  /**
   * In every reachable state the list holds exactly the SUBMITTED transfers; tfer[0] is off it
   * whenever the caller is about to build in it again or to free the request; and desc_used is
   * the current transfer plus what was rejected, so it is back at zero exactly when nothing was.
   */
  lemma {:induction false} ListDiscipline(dir: Direction, eopFlush: bool, ss: seq<Sys>, steps: seq<Step>, i: nat)
    requires IsRun(dir, eopFlush, ss, steps) && i < |ss|
    ensures ListedIffSubmitted(ss[i].q)
    ensures ss[i].phase.Idle? ==> ss[i].q.list == []
    ensures ss[i].phase.Idle? ==> (ss[i].used == 0 <==> ss[i].rejected == 0)
  {
    Reachable(dir, eopFlush, ss, steps, i);
  }

  /** How often x leaves the list in the first i steps. */
  ghost function Departures(ss: seq<Sys>, x: nat, i: nat): nat
    requires i < |ss|
  {
    if i == 0 then 0
    else (if x in Queued(ss[i - 1]) && x !in Queued(ss[i]) then 1 else 0) + Departures(ss, x, i - 1)
  }

  ghost predicate Finished(s: Sys, x: nat) {
    x in s.q.xfer && Terminal(s.q.xfer[x].state)
  }

  /** A transfer leaves the list in a step exactly when the step finishes it. */
  lemma {:induction false} DepartureFinishes(s: Sys, dir: Direction, eopFlush: bool, st: Step, x: nat)
    requires Invariant(s) && Enabled(s, st)
    ensures var s' := Next(s, dir, eopFlush, st);
      && (x in Queued(s) && x !in Queued(s') <==> !Finished(s, x) && Finished(s', x))
      && (Finished(s, x) ==> Finished(s', x))
  {
    NextKeeps(s, dir, eopFlush, st);
    if x !in s.q.xfer {
      NewTransferIsNew(s, dir, eopFlush, st, x);
    }
  }

  /**
   * Each transfer leaves the list exactly once, into COMPLETED, FAILED or ABORTED: at every
   * point of every run it has left once if it is in one of those states and never otherwise.
   */
  lemma {:induction false} LeavesExactlyOnce(dir: Direction, eopFlush: bool, ss: seq<Sys>, steps: seq<Step>,
                                             x: nat, i: nat)
    requires IsRun(dir, eopFlush, ss, steps) && i < |ss|
    ensures Departures(ss, x, i) == if Finished(ss[i], x) then 1 else 0
    decreases i
  {
    if i > 0 {
      LeavesExactlyOnce(dir, eopFlush, ss, steps, x, i - 1);
      Reachable(dir, eopFlush, ss, steps, i - 1);
      DepartureFinishes(ss[i - 1], dir, eopFlush, steps[i - 1], x);
    }
  }

  lemma {:induction false} NewTransferIsNew(s: Sys, dir: Direction, eopFlush: bool, st: Step, x: nat)
    requires Invariant(s) && Enabled(s, st) && x !in s.q.xfer
    ensures var r := Next(s, dir, eopFlush, st).q; x in r.xfer ==> r.xfer[x].state == New
  {
    if st.ServiceStep? {
      ServeOne(s.q, dir, eopFlush, st.sample);
    }
  }

  /** A finished transfer keeps its verdict for the rest of the run. */
  lemma {:induction false} VerdictIsFinal(dir: Direction, eopFlush: bool, ss: seq<Sys>, steps: seq<Step>,
                                          x: nat, i: nat, j: nat)
    requires IsRun(dir, eopFlush, ss, steps) && i <= j < |ss| && Finished(ss[i], x)
    ensures x in ss[j].q.xfer && ss[j].q.xfer[x].state == ss[i].q.xfer[x].state
    decreases j
  {
    if i < j {
      VerdictIsFinal(dir, eopFlush, ss, steps, x, i, j - 1);
      Reachable(dir, eopFlush, ss, steps, j - 1);
      NextKeeps(ss[j - 1], dir, eopFlush, steps[j - 1]);
    }
  }
}
