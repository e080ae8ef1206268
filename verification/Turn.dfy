/** One transfer's turn on the engine, with all that happens meanwhile; and turn after turn. */
module Turns {
  import opened Words
  import opened Memory
  import opened Descriptors
  import opened Runs
  import opened Allocation
  import opened Queues
  import opened Errno
  import Sync

  // ---------------------------------------------------------------------------------------
  // The queue while a caller waits

  datatype Event = ServiceEvent(sample: Sample) | OfflineEvent | OnlineEvent

  /** What the rest of the system does around one transfer. */
  datatype Script = Script(
    before: seq<Event>,      // between transfer_init and the lock in transfer_queue
    offlineSeen: bool,       // what the flag check saw
    startStatus: bv32,
    during: seq<Event>,      // until the wait is woken, times out or is interrupted
    abortStatus: bv32)       // the status read of the timeout path

  function Happens(q: Queue, dir: Direction, eopFlush: bool, e: Event): (r: Queue)
    requires WellFormed(q)
    ensures WellFormed(r)
  {
    match e
    case ServiceEvent(sample) => Service(q, dir, eopFlush, sample)
    case OfflineEvent => Offline(q)
    case OnlineEvent => Online(q)
  }

  function Events(q: Queue, dir: Direction, eopFlush: bool, es: seq<Event>): (r: Queue)
    requires WellFormed(q)
    ensures WellFormed(r)
  {
    if es == [] then q
    else Happens(Events(q, dir, eopFlush, es[..|es| - 1]), dir, eopFlush, es[|es| - 1])
  }

  lemma {:induction false} ServedTwice(q: Queue, m: Queue, r: Queue)
    requires WellFormed(q) && WellFormed(m) && |q.list| <= 1
    requires Sync.ServedOne(q, m) && Sync.ServedOne(m, r)
    ensures Sync.ServedOne(q, r)
  {
    if q.list != [] {
      var x := q.list[0];
      assert q.list == [x];
      if m.list == [] {
        assert r.xfer[x] == m.xfer[x];
      }
    }
  }

  lemma {:induction false} ServedShort(q: Queue, r: Queue)
    requires WellFormed(q) && |q.list| <= 1 && Sync.ServedOne(q, r)
    ensures |r.list| <= 1
  {
    if q.list != [] {
      assert q.list[0] in q.list;
    }
  }

  lemma {:induction false} ServedQuiet(q: Queue, r: Queue)
    requires WellFormed(q) && q.list == [] && Sync.ServedOne(q, r)
    ensures r.list == [] && r.xfer == q.xfer
  {
  }

  lemma {:induction false} ServedOnly(q: Queue, r: Queue, x: nat)
    requires WellFormed(q) && q.list == [x] && x in q.xfer && Sync.ServedOne(q, r)
    ensures r.xfer.Keys == q.xfer.Keys && r.xfer[x].descNum == q.xfer[x].descNum
    ensures || (r.list == [x] && r.xfer[x].state == q.xfer[x].state)
            || (r.list == [] && (r.xfer[x].state == Completed || r.xfer[x].state == Failed))
    ensures forall y | y in q.xfer && y != x :: r.xfer[y] == q.xfer[y]
  {
    assert x in q.list;
  }

  /** With at most one transfer queued, whatever happens can only finish it. */
  lemma {:induction false} EventsServe(q: Queue, dir: Direction, eopFlush: bool, es: seq<Event>)
    requires WellFormed(q) && |q.list| <= 1
    ensures Sync.ServedOne(q, Events(q, dir, eopFlush, es))
  {
    if es != [] {
      var m := Events(q, dir, eopFlush, es[..|es| - 1]);
      EventsServe(q, dir, eopFlush, es[..|es| - 1]);
      ServedShort(q, m);
      if es[|es| - 1].ServiceEvent? {
        Sync.ServeOne(m, dir, eopFlush, es[|es| - 1].sample);
      }
      ServedTwice(q, m, Events(q, dir, eopFlush, es));
    }
  }

  lemma {:induction false} EventsQuiet(q: Queue, dir: Direction, eopFlush: bool, es: seq<Event>)
    requires WellFormed(q) && q.list == []
    ensures Events(q, dir, eopFlush, es).list == [] && Events(q, dir, eopFlush, es).xfer == q.xfer
  {
    EventsServe(q, dir, eopFlush, es);
    ServedQuiet(q, Events(q, dir, eopFlush, es));
  }

  // ---------------------------------------------------------------------------------------
  // The verdict on one transfer

  /** What the caller finds when it takes the lock again. */
  datatype Verdict = Done | Errored | TimedOut | Rejected

  function Code(v: Verdict): int {
    match v
    case Done => 0
    case Errored => EIO
    case TimedOut => ERESTARTSYS
    case Rejected => EBUSY
  }

  /** The switch on the transfer's state after the wait. */
  function Judge(s: XState): Verdict {
    match s
    case Completed => Done
    case Failed => Errored
    case _ => TimedOut
  }

  /** The state a verdict leaves the transfer in. */
  function StateAfter(v: Verdict): XState {
    match v
    case Done => Completed
    case Errored => Failed
    case TimedOut => Aborted
    case Rejected => New
  }

  /** Nothing of the lock holder's is queued, and transfer x is new. */
  ghost predicate Fresh(q: Queue, x: nat) {
    WellFormed(q) && q.list == [] && x in q.xfer && q.xfer[x].state == New && q.xfer[x].descNum >= 1
  }

  /** The queue when the wait for an accepted transfer ends. */
  function Waited(q: Queue, dir: Direction, eopFlush: bool, x: nat, during: seq<Event>, status: bv32): (r: Queue)
    requires Fresh(q, x) && !q.request
    ensures WellFormed(r) && x in r.xfer
  {
    var q1 := Enqueue(q, x, status);
    EventsServe(q1, dir, eopFlush, during);
    Events(q1, dir, eopFlush, during)
  }

  datatype Outcome = Outcome(q: Queue, v: Verdict)

  /** The switch on the state of an accepted transfer after the wait. */
  function Conclude(q: Queue, dir: Direction, eopFlush: bool, x: nat, s: Script): (o: Outcome)
    requires Fresh(q, x) && !q.request
    ensures WellFormed(o.q)
  {
    var r := Waited(q, dir, eopFlush, x, s.during, s.startStatus);
    var v := Judge(r.xfer[x].state);
    Outcome(if v == TimedOut then AbortAndStop(r, x, s.abortStatus) else r, v)
  }

  /** transfer_queue, the wait, and the switch on the transfer's state. */
  function Transact(q: Queue, dir: Direction, eopFlush: bool, x: nat, s: Script): (o: Outcome)
    requires Fresh(q, x)
    ensures WellFormed(o.q)
  {
    EventsQuiet(q, dir, eopFlush, s.before);
    var q1 := Events(q, dir, eopFlush, s.before);
    if s.offlineSeen || q1.request then Outcome(q1, Rejected)
    else Conclude(q1, dir, eopFlush, x, s)
  }

  /** The transfer is off the list, its state agrees with the verdict, and no other has changed. */
  ghost predicate Closes(q: Queue, x: nat, o: Outcome)
    requires x in q.xfer
  {
    && o.q.list == []
    && o.q.xfer.Keys == q.xfer.Keys
    && o.q.xfer[x].state == StateAfter(o.v) && o.q.xfer[x].descNum == q.xfer[x].descNum
    && forall y | y in q.xfer && y != x :: o.q.xfer[y] == q.xfer[y]
  }

  lemma {:induction false} WaitedMeaning(q: Queue, dir: Direction, eopFlush: bool, x: nat, during: seq<Event>, status: bv32)
    requires Fresh(q, x) && !q.request
    ensures var r := Waited(q, dir, eopFlush, x, during, status);
      && r.xfer.Keys == q.xfer.Keys && r.xfer[x].descNum == q.xfer[x].descNum
      && (|| (r.list == [x] && r.xfer[x].state == Submitted)
          || (r.list == [] && (r.xfer[x].state == Completed || r.xfer[x].state == Failed)))
      && (forall y | y in q.xfer && y != x :: r.xfer[y] == q.xfer[y])
  {
    var q1 := Enqueue(q, x, status);
    assert q1.list == [x] && q1.xfer == q.xfer[x := q.xfer[x].(state := Submitted)];
    EventsServe(q1, dir, eopFlush, during);
    ServedOnly(q1, Events(q1, dir, eopFlush, during), x);
  }

  lemma {:induction false} ConcludeCloses(q: Queue, dir: Direction, eopFlush: bool, x: nat, s: Script)
    requires Fresh(q, x) && !q.request
    ensures Closes(q, x, Conclude(q, dir, eopFlush, x, s))
  {
    var r := Waited(q, dir, eopFlush, x, s.during, s.startStatus);
    WaitedMeaning(q, dir, eopFlush, x, s.during, s.startStatus);
    if r.list == [x] {
      assert Unheaded(r.list, x) == [];
    }
  }

  /** However the system behaves, the transfer ends off the list in the state of its verdict. */
  lemma {:induction false} TransactCloses(q: Queue, dir: Direction, eopFlush: bool, x: nat, s: Script)
    requires Fresh(q, x)
    ensures Closes(q, x, Transact(q, dir, eopFlush, x, s))
  {
    EventsQuiet(q, dir, eopFlush, s.before);
    var q1 := Events(q, dir, eopFlush, s.before);
    if !s.offlineSeen && !q1.request {
      ConcludeCloses(q1, dir, eopFlush, x, s);
    }
  }

  /** The hardware reports all descriptors of a transfer that nobody disturbs. */
  function Undisturbed(n: U32): Script {
    Script([], false, 0, [ServiceEvent(Sample(0, false, 0, n, 0, false))], 0)
  }

  lemma {:induction false} UndisturbedCompletes(q: Queue, dir: Direction, x: nat)
    requires Fresh(q, x) && !q.request && !q.running && q.xfer[x].descNum < TWO32
    ensures Transact(q, dir, false, x, Undisturbed(q.xfer[x].descNum)).v == Done
  {
    var n := q.xfer[x].descNum;
    var s := Undisturbed(n);
    var q1 := Enqueue(q, x, 0);
    assert Events(q1, dir, false, s.during) == Service(q1, dir, false, s.during[0].sample) by {
      assert s.during[..0] == [];
    }
    AllServed(q1, dir, x, n);
  }

  lemma {:induction false} AllServed(q: Queue, dir: Direction, x: nat, n: U32)
    requires WellFormed(q) && q.list == [x] && q.xfer[x].descNum == n && q.running && q.dequeued == 0
    ensures var r := Service(q, dir, false, Sample(0, false, 0, n, 0, false));
      x in r.xfer && r.xfer[x].state == Completed
  {
    var s := Sample(0, false, 0, n, 0, false);
    var q2 := Quiesce(q, false, s);
    assert Sub32(n, 0) == n;
    assert !StatusError(dir, q2.status);
    assert ServiceList(q2, n) == (q2, n);
    var r := ServiceFinal(q2, n, dir, false, false);
    assert r.xfer == q2.xfer[x := r.xfer[x]] && r.xfer[x].state == Completed;
    Sync.ResumeFields(r, 0);
    assert Service(q, dir, false, s) == Resume(r, 0);
  }

  // ---------------------------------------------------------------------------------------
  // The ring, and one turn

  /** What of an engine never changes. */
  datatype Params = Params(dir: Direction, eopFlush: bool, descMax: nat, bus: U64)

  /** What of it does: the ring, its cursor, desc_used, the queue, and the names given out. */
  datatype Machine = Machine(ring: seq<Desc>, idx: nat, used: int, q: Queue, next: nat)

  /** A run handed to the hardware: the transfer's name, the ring as it stood, where the run starts. */
  datatype Chain = Chain(x: nat, ring: seq<Desc>, start: U64, window: Window, len: U32)

  ghost predicate Ready(p: Params, m: Machine) {
    && |m.ring| == p.descMax && m.idx < p.descMax && p.bus + DESC_SIZE * p.descMax <= TWO64
    && WellFormed(m.q) && m.q.list == []
    && forall x | x in m.q.xfer :: x < m.next
  }

  /** The ring with a finished run in the slots from `first` on. */
  function Written(ring: seq<Desc>, bus: U64, first: nat, cfg: Config, ps: seq<Piece>): (r: seq<Desc>)
    requires first + |ps| <= |ring|
    ensures |r| == |ring|
  {
    seq<Desc>(|ring|, j requires 0 <= j < |ring| =>
      if first <= j < first + |ps| then RunDesc(cfg, SlotAddr(bus, first), |ps|, j - first, ps[j - first])
      else ring[j])
  }

  lemma {:induction false} WrittenUnique(ring: seq<Desc>, r: seq<Desc>, bus: U64, first: nat, cfg: Config, ps: seq<Piece>)
    requires HoldsRun(r, bus, first, cfg, ps) && |r| == |ring|
    requires forall j | 0 <= j < |ring| && !(first <= j < first + |ps|) :: r[j] == ring[j]
    ensures r == Written(ring, bus, first, cfg, ps)
  {
    forall j | 0 <= j < |r|
      ensures r[j] == Written(ring, bus, first, cfg, ps)[j]
    {
      if first <= j < first + |ps| {
        assert r[first + (j - first)] == RunDesc(cfg, SlotAddr(bus, first), |ps|, j - first, ps[j - first]);
      }
    }
  }

  /** The ring with some slots zeroed. */
  function Cleared(ring: seq<Desc>, w: Window): (r: seq<Desc>)
    ensures |r| == |ring|
  {
    seq<Desc>(|ring|, j requires 0 <= j < |ring| =>
      if w.first <= j < w.first + w.count then BLANK else ring[j])
  }

  datatype Turned = Turned(m: Machine, chain: Chain, v: Verdict)

  function RunConfig(p: Params, flush: bool): Config {
    Config(p.dir, flush, NoWriteback)
  }

  /** The run is in the ring and the transfer has its name, but nothing is queued yet. */
  function Launched(p: Params, m: Machine, flush: bool, ps: seq<Piece>): (r: Machine)
    requires Ready(p, m) && 0 < |ps| && m.idx + |ps| <= p.descMax
    ensures Fresh(r.q, m.next)
  {
    assert m.next !in m.q.xfer;
    Machine(Written(m.ring, p.bus, m.idx, RunConfig(p, flush), ps), NextIdx(m.idx, |ps|, p.descMax),
            m.used + |ps|, m.q.(xfer := m.q.xfer[m.next := Xfer(New, |ps|, 0, false)]), m.next + 1)
  }

  /** How the engine deals with one transfer; the loops are described for any way that closes it. */
  type Dealing = (Queue, nat, Script) --> Outcome

  ghost predicate Sound(deal: Dealing) {
    forall q, x, s | Fresh(q, x) ::
      deal.requires(q, x, s) && WellFormed(deal(q, x, s).q) && Closes(q, x, deal(q, x, s))
  }

  /** The driver's way. */
  function Driver(p: Params): Dealing {
    (q: Queue, x: nat, s: Script) requires Fresh(q, x) => Transact(q, p.dir, p.eopFlush, x, s)
  }

  ghost predicate IsDriver(deal: Dealing, p: Params) {
    forall q, x, s {:trigger Transact(q, p.dir, p.eopFlush, x, s)} | Fresh(q, x) ::
      deal.requires(q, x, s) && deal(q, x, s) == Transact(q, p.dir, p.eopFlush, x, s)
  }

  lemma {:induction false} DriverSound(p: Params)
    ensures Sound(Driver(p)) && IsDriver(Driver(p), p)
  {
    forall q, x, s | Fresh(q, x)
      ensures WellFormed(Driver(p)(q, x, s).q) && Closes(q, x, Driver(p)(q, x, s))
    {
      TransactCloses(q, p.dir, p.eopFlush, x, s);
    }
  }

  /** An engine, how it deals with a transfer, and what happens around the k-th transfer. */
  datatype Site = Site(p: Params, deal: Dealing, env: nat -> Script)

  /** A turn: write the run, queue and wait, give the window back unless the queue refused it. */
  ghost function Turn(p: Params, deal: Dealing, m: Machine, flush: bool, ps: seq<Piece>, s: Script): (t: Turned)
    requires Sound(deal) && Ready(p, m) && 0 < |ps| && m.idx + |ps| <= p.descMax
    ensures Ready(p, t.m)
  {
    var l := Launched(p, m, flush, ps);
    var window := Window(m.idx, |ps|);
    var o := deal(l.q, m.next, s);
    var chain := Chain(m.next, l.ring, SlotAddr(p.bus, m.idx), window, Wrap32(PiecesLen(ps)));
    if o.v == Rejected then Turned(l.(q := o.q), chain, o.v)
    else Turned(l.(q := o.q, used := m.used, ring := Cleared(l.ring, window)), chain, o.v)
  }

  lemma {:induction false} WrittenHoldsRun(ring: seq<Desc>, bus: U64, first: nat, cfg: Config, ps: seq<Piece>)
    requires RingFits(ring, bus) && 0 < |ps| && first + |ps| <= |ring|
    ensures HoldsRun(Written(ring, bus, first, cfg, ps), bus, first, cfg, ps)
  {
  }

  /** What a turn does: a run in the ring, one transfer with its verdict, desc_used back unless refused. */
  lemma {:induction false} TurnMeaning(p: Params, deal: Dealing, m: Machine, flush: bool, ps: seq<Piece>, s: Script)
    requires Sound(deal) && Ready(p, m) && 0 < |ps| && m.idx + |ps| <= p.descMax
    ensures var t := Turn(p, deal, m, flush, ps, s);
      && t.chain.x == m.next && t.m.next == m.next + 1
      && t.m.q.xfer.Keys == m.q.xfer.Keys + {m.next}
      && t.m.q.xfer[m.next].state == StateAfter(t.v) && t.m.q.xfer[m.next].descNum == |ps|
      && (forall y | y in m.q.xfer :: t.m.q.xfer[y] == m.q.xfer[y])
      && HoldsRun(t.chain.ring, p.bus, m.idx, RunConfig(p, flush), ps)
      && t.m.used == m.used + (if t.v == Rejected then |ps| else 0)
      && t.m.idx == NextIdx(m.idx, |ps|, p.descMax)
  {
    var l := Launched(p, m, flush, ps);
    assert Closes(l.q, m.next, deal(l.q, m.next, s));
    WrittenHoldsRun(m.ring, p.bus, m.idx, RunConfig(p, flush), ps);
  }

  function InWindow(w: Window, j: nat): bool {
    w.first <= j < w.first + w.count
  }

  /** What a turn does to the ring: its window is zero again unless the queue refused the transfer. */
  lemma {:induction false} TurnRing(p: Params, deal: Dealing, m: Machine, flush: bool, ps: seq<Piece>, s: Script, j: nat)
    requires Sound(deal) && Ready(p, m) && 0 < |ps| && m.idx + |ps| <= p.descMax && j < p.descMax
    ensures var t := Turn(p, deal, m, flush, ps, s);
      && t.chain.window == Window(m.idx, |ps|)
      && (!InWindow(t.chain.window, j) ==> t.m.ring[j] == m.ring[j])
      && (InWindow(t.chain.window, j) && t.v != Rejected ==> t.m.ring[j] == Desc(0, 0, 0, 0, 0, 0, 0, 0))
  {
  }

  // ---------------------------------------------------------------------------------------
  // What the hardware does with the chains it is given

  lemma {:induction false} WalkInRing(ring: seq<Desc>, bus: U64, start: U64, tr: seq<nat>)
    requires IsWalk(ring, bus, start, tr)
    ensures InRing(ring, tr)
    decreases |tr|
  {
    if |tr| > 1 {
      WalkInRing(ring, bus, ring[tr[0]].Next(), tr[1..]);
      assert forall i | 1 <= i < |tr| :: tr[i] == tr[1..][i - 1];
    }
  }

  /** An engine started at a bus address follows next pointers until a descriptor stops it. */
  ghost function HardwareRun(w: World, dir: Direction, ring: seq<Desc>, bus: U64, start: U64): World {
    if exists tr :: IsWalk(ring, bus, start, tr) then
      var tr :| IsWalk(ring, bus, start, tr);
      WalkInRing(ring, bus, start, tr);
      Execute(w, dir, ring, tr)
    else w
  }

  lemma {:induction false} HardwareRunsPieces(w: World, ring: seq<Desc>, bus: U64, first: nat, cfg: Config, ps: seq<Piece>)
    requires HoldsRun(ring, bus, first, cfg, ps) && cfg.resBus.NoWriteback?
    ensures HardwareRun(w, cfg.dir, ring, bus, SlotAddr(bus, first)) == Apply(w, cfg.dir, AllMoves(ps))
  {
    var start, slots := SlotAddr(bus, first), Range(first, first + |ps|);
    forall tr | IsWalk(ring, bus, start, tr) || tr == slots
      ensures tr == slots && IsWalk(ring, bus, start, tr)
    {
      WalkVisitsRun(ring, bus, first, cfg, ps, tr);
    }
    ExecuteRun(w, ring, bus, first, cfg, ps, slots);
  }

  ghost predicate IsDone(c: Chain, xfer: map<nat, Xfer>) {
    c.x in xfer && xfer[c.x].state == Completed
  }

  /** Memory after the hardware has run, in order, the chains whose transfers are COMPLETED. */
  ghost function Carried(w: World, p: Params, chains: seq<Chain>, xfer: map<nat, Xfer>): World
    decreases |chains|
  {
    if chains == [] then w
    else
      var c := chains[0];
      Carried(if IsDone(c, xfer) then HardwareRun(w, p.dir, c.ring, p.bus, c.start) else w, p, chains[1..], xfer)
  }

  /** The bytes of the chains whose transfers are COMPLETED. */
  ghost function CompletedLen(chains: seq<Chain>, xfer: map<nat, Xfer>): nat {
    if chains == [] then 0
    else (if IsDone(chains[0], xfer) then chains[0].len else 0) + CompletedLen(chains[1..], xfer)
  }

  /**
   * The states a request loop leaves: its transfers are named one after another from `from` on,
   * all but the last are COMPLETED, and the last is in the state of the verdict.
   */
  ghost predicate Ledger(chains: seq<Chain>, xfer: map<nat, Xfer>, from: nat, v: Verdict)
    decreases |chains|
  {
    chains == [] ||
    (&& chains[0].x == from && from in xfer
     && xfer[from].state == (if |chains| == 1 then StateAfter(v) else Completed)
     && Ledger(chains[1..], xfer, from + 1, v))
  }

  lemma {:induction false} LedgerCons(c: Chain, rest: seq<Chain>, xfer: map<nat, Xfer>, from: nat, next: nat, v: Verdict)
    requires c.x == from && from in xfer && next == from + 1
    requires xfer[from].state == if rest == [] then StateAfter(v) else Completed
    requires Ledger(rest, xfer, next, v)
    ensures Ledger([c] + rest, xfer, from, v)
  {
    assert ([c] + rest)[1..] == rest;
  }

  /** There is a last transfer among those named from `from` up to `next`, and it is in this state. */
  ghost predicate LastIs(xfer: map<nat, Xfer>, from: nat, next: nat, s: XState) {
    from < next && next - 1 in xfer && xfer[next - 1].state == s
  }

  /**
   * What the caller of a request is told: the bytes of its completed transfers if there are any.
   * Otherwise what became of its last transfer: -EIO if it failed, -ERESTARTSYS if it was aborted,
   * -EBUSY if it was rejected; and 0 if there was none, or it completed without carrying a byte.
   */
  ghost predicate Told(rv: int, n: nat, xfer: map<nat, Xfer>, from: nat, next: nat) {
    && (rv > 0 <==> n > 0) && (n > 0 ==> rv == n)
    && (n == 0 ==>
          && (rv == -5 <==> LastIs(xfer, from, next, Failed))
          && (rv == -512 <==> LastIs(xfer, from, next, Aborted))
          && (rv == -16 <==> LastIs(xfer, from, next, New))
          && (rv == 0 <==> from == next || LastIs(xfer, from, next, Completed)))
  }

  lemma {:induction false} LedgerLast(chains: seq<Chain>, xfer: map<nat, Xfer>, from: nat, next: nat, v: Verdict)
    requires Ledger(chains, xfer, from, v) && chains != [] && next == from + |chains|
    ensures LastIs(xfer, from, next, StateAfter(v))
    decreases |chains|
  {
    if |chains| > 1 {
      LedgerLast(chains[1..], xfer, from + 1, next, v);
    }
  }

  /** The end of both request loops: `done ? done : rv`. */
  function Answer(n: nat, v: Verdict): int {
    if n > 0 then n else Code(v)
  }

  lemma {:induction false} AnswerTells(chains: seq<Chain>, xfer: map<nat, Xfer>, from: nat, next: nat, v: Verdict, n: nat)
    requires Ledger(chains, xfer, from, v) && next == from + |chains| && (chains == [] ==> v == Done)
    ensures Told(Answer(n, v), n, xfer, from, next)
  {
    if chains != [] {
      LedgerLast(chains, xfer, from, next, v);
    }
  }

  // ---------------------------------------------------------------------------------------
  // A turn is a run of the synchronous-caller machine

  function Caller(m: Machine, offline: bool, rejected: nat): Sync.Sys {
    Sync.Sys(m.q, offline, Sync.Idle, m.next, m.used, rejected)
  }

  lemma {:induction false} EventsAreSteps(dir: Direction, eopFlush: bool, start: Sync.Sys, s: Sync.Sys, es: seq<Event>)
    requires Sync.Reaches(dir, eopFlush, start, s) && Sync.Invariant(s) && WellFormed(s.q)
    ensures var t := s.(q := Events(s.q, dir, eopFlush, es));
      Sync.Reaches(dir, eopFlush, start, t) && Sync.Invariant(t)
    decreases |es|
  {
    if es == [] {
      assert s == s.(q := Events(s.q, dir, eopFlush, es));
    } else {
      EventsAreSteps(dir, eopFlush, start, s, es[..|es| - 1]);
      var m := s.(q := Events(s.q, dir, eopFlush, es[..|es| - 1]));
      var step := match es[|es| - 1]
        case ServiceEvent(sample) => Sync.ServiceStep(sample)
        case OfflineEvent => Sync.StopEngine
        case OnlineEvent => Sync.ReleaseEngine;
      Sync.ReachesNext(dir, eopFlush, start, m, step);
    }
  }

  lemma {:induction false} FlagIsStep(dir: Direction, eopFlush: bool, start: Sync.Sys, s: Sync.Sys, flag: bool)
    requires Sync.Reaches(dir, eopFlush, start, s) && Sync.Invariant(s)
    ensures Sync.Reaches(dir, eopFlush, start, s.(offline := flag)) && Sync.Invariant(s.(offline := flag))
  {
    Sync.ReachesNext(dir, eopFlush, start, s, if flag then Sync.SetFlag else Sync.ClearFlag);
  }

  /** From the flag check on. */
  lemma {:induction false} TransactIsRun(p: Params, start: Sync.Sys, s: Sync.Sys, x: nat, script: Script)
    requires Sync.Reaches(p.dir, p.eopFlush, start, s) && Sync.Invariant(s)
    requires s.phase == Sync.Built(x) && Fresh(s.q, x)
    ensures var o := Transact(s.q, p.dir, p.eopFlush, x, script);
      var n := s.q.xfer[x].descNum;
      var t := if o.v == Rejected then Sync.Sys(o.q, script.offlineSeen, Sync.Idle, s.next, s.used, s.rejected + n)
               else Sync.Sys(o.q, script.offlineSeen, Sync.Idle, s.next, s.used - n, s.rejected);
      Sync.Reaches(p.dir, p.eopFlush, start, t) && Sync.Invariant(t)
  {
    EventsQuiet(s.q, p.dir, p.eopFlush, script.before);
    EventsAreSteps(p.dir, p.eopFlush, start, s, script.before);
    var s1 := s.(q := Events(s.q, p.dir, p.eopFlush, script.before));
    FlagIsStep(p.dir, p.eopFlush, start, s1, script.offlineSeen);
    var s2 := s1.(offline := script.offlineSeen);
    Sync.ReachesNext(p.dir, p.eopFlush, start, s2, Sync.CheckFlag);
    if !script.offlineSeen {
      QueueIsRun(p, start, s2.(phase := Sync.Checked(x)), x, script);
    }
  }

  /** From the lock of transfer_queue on. */
  lemma {:induction false} QueueIsRun(p: Params, start: Sync.Sys, s: Sync.Sys, x: nat, script: Script)
    requires Sync.Reaches(p.dir, p.eopFlush, start, s) && Sync.Invariant(s)
    requires s.phase == Sync.Checked(x) && Fresh(s.q, x)
    ensures var n := s.q.xfer[x].descNum;
      var t := if s.q.request then s.(phase := Sync.Idle, rejected := s.rejected + n)
               else s.(q := Conclude(s.q, p.dir, p.eopFlush, x, script).q, phase := Sync.Idle, used := s.used - n);
      Sync.Reaches(p.dir, p.eopFlush, start, t) && Sync.Invariant(t)
  {
    Sync.ReachesNext(p.dir, p.eopFlush, start, s, Sync.EnqueueStep(script.startStatus));
    if !s.q.request {
      WaitIsRun(p, start, s, x, script);
    }
  }

  lemma {:induction false} WaitEndsStep(p: Params, s: Sync.Sys, x: nat, status: bv32)
    requires Sync.Named(s) && s.phase == Sync.Waiting(x)
    ensures var v := Judge(s.q.xfer[x].state);
      Sync.Next(s, p.dir, p.eopFlush, Sync.WaitEnds(status))
      == s.(q := if v == TimedOut then AbortAndStop(s.q, x, status) else s.q,
            phase := Sync.Idle, used := s.used - s.q.xfer[x].descNum)
  {
  }

  lemma {:induction false} WaitIsRun(p: Params, start: Sync.Sys, s: Sync.Sys, x: nat, script: Script)
    requires s.phase == Sync.Checked(x) && Fresh(s.q, x) && !s.q.request
    requires Sync.Invariant(s)
    requires var s1 := s.(q := Enqueue(s.q, x, script.startStatus), phase := Sync.Waiting(x));
      Sync.Reaches(p.dir, p.eopFlush, start, s1) && Sync.Invariant(s1)
    ensures var n := s.q.xfer[x].descNum;
      var t := s.(q := Conclude(s.q, p.dir, p.eopFlush, x, script).q, phase := Sync.Idle, used := s.used - n);
      Sync.Reaches(p.dir, p.eopFlush, start, t) && Sync.Invariant(t)
  {
    var s1 := s.(q := Enqueue(s.q, x, script.startStatus), phase := Sync.Waiting(x));
    EventsAreSteps(p.dir, p.eopFlush, start, s1, script.during);
    WaitedMeaning(s.q, p.dir, p.eopFlush, x, script.during, script.startStatus);
    var s2 := s1.(q := Events(s1.q, p.dir, p.eopFlush, script.during));
    Sync.ReachesNext(p.dir, p.eopFlush, start, s2, Sync.WaitEnds(script.abortStatus));
    WaitEndsStep(p, s2, x, script.abortStatus);
    assert Sync.Next(s2, p.dir, p.eopFlush, Sync.WaitEnds(script.abortStatus))
        == s.(q := Conclude(s.q, p.dir, p.eopFlush, x, script).q, phase := Sync.Idle, used := s.used - s.q.xfer[x].descNum);
  }

  /** Every turn is a run of the machine whose reachable states Sync describes. */
  lemma {:induction false} TurnIsRun(p: Params, deal: Dealing, start: Sync.Sys, m: Machine, offline: bool, rejected: nat, flush: bool,
                  ps: seq<Piece>, script: Script)
    requires Sound(deal) && IsDriver(deal, p) && Ready(p, m) && 0 < |ps| && m.idx + |ps| <= p.descMax
    requires Sync.Reaches(p.dir, p.eopFlush, start, Caller(m, offline, rejected))
    requires Sync.Invariant(Caller(m, offline, rejected))
    ensures var t := Turn(p, deal, m, flush, ps, script);
      var c := Caller(t.m, script.offlineSeen, rejected + (if t.v == Rejected then |ps| else 0));
      Sync.Reaches(p.dir, p.eopFlush, start, c) && Sync.Invariant(c)
  {
    var s := Caller(m, offline, rejected);
    Sync.ReachesNext(p.dir, p.eopFlush, start, s, Sync.Build(|ps|));
    var l := Launched(p, m, flush, ps);
    var s1 := Sync.Sys(l.q, offline, Sync.Built(m.next), l.next, l.used, rejected);
    assert s1 == Sync.Next(s, p.dir, p.eopFlush, Sync.Build(|ps|));
    TransactIsRun(p, start, s1, m.next, script);
  }

  // ---------------------------------------------------------------------------------------
  // Turn after turn

  /** Each batch of pieces fits the ring where the batches before it leave the cursor. */
  ghost predicate Fits(descMax: nat, idx: nat, bs: seq<seq<Piece>>)
    requires descMax > 0
    decreases |bs|
  {
    bs == [] || (&& 0 < |bs[0]| && idx + |bs[0]| <= descMax
                 && Fits(descMax, NextIdx(idx, |bs[0]|, descMax), bs[1..]))
  }

  function Flat(bs: seq<seq<Piece>>): seq<Piece> {
    if bs == [] then [] else bs[0] + Flat(bs[1..])
  }

  /** Where a request ends: the engine, the chains it queued, the last verdict, batches completed. */
  datatype Final = Final(m: Machine, chains: seq<Chain>, v: Verdict, done: nat)

  /** One turn per batch, until one is not completed. */
  ghost function Play(e: Site, m: Machine, flush: bool, bs: seq<seq<Piece>>, k: nat): (f: Final)
    requires Sound(e.deal) && Ready(e.p, m) && Fits(e.p.descMax, m.idx, bs)
    ensures Ready(e.p, f.m)
    decreases |bs|
  {
    if bs == [] then Final(m, [], Done, 0)
    else
      var t := Turn(e.p, e.deal, m, flush, bs[0], e.env(k));
      if t.v != Done then Final(t.m, [t.chain], t.v, 0)
      else
        var f := Play(e, t.m, flush, bs[1..], k + 1);
        Final(f.m, [t.chain] + f.chains, f.v, f.done + 1)
  }

  /** How many transfers there are and how many completed, and desc_used. */
  lemma {:induction false} PlayCounts(e: Site, m: Machine, flush: bool, bs: seq<seq<Piece>>, k: nat)
    requires Sound(e.deal) && Ready(e.p, m) && Fits(e.p.descMax, m.idx, bs)
    ensures var f := Play(e, m, flush, bs, k);
      && f.m.next == m.next + |f.chains|
      && f.done <= |bs| && (f.v == Done <==> f.done == |bs|)
      && |f.chains| == (if f.v == Done then |bs| else f.done + 1)
      && f.m.used >= m.used && (f.m.used == m.used <==> f.v != Rejected)
    decreases |bs|
  {
    if bs != [] {
      var t := Turn(e.p, e.deal, m, flush, bs[0], e.env(k));
      TurnMeaning(e.p, e.deal, m, flush, bs[0], e.env(k));
      if t.v == Done {
        PlayCounts(e, t.m, flush, bs[1..], k + 1);
      }
    }
  }

  /** No turn changes an earlier transfer. */
  lemma {:induction false} PlayFrame(e: Site, m: Machine, flush: bool, bs: seq<seq<Piece>>, k: nat)
    requires Sound(e.deal) && Ready(e.p, m) && Fits(e.p.descMax, m.idx, bs)
    ensures var f := Play(e, m, flush, bs, k);
      forall y | y in m.q.xfer :: y in f.m.q.xfer && f.m.q.xfer[y] == m.q.xfer[y]
    decreases |bs|
  {
    if bs != [] {
      var t := Turn(e.p, e.deal, m, flush, bs[0], e.env(k));
      TurnMeaning(e.p, e.deal, m, flush, bs[0], e.env(k));
      if t.v == Done {
        PlayFrame(e, t.m, flush, bs[1..], k + 1);
      }
    }
  }

  /** The transfers and their states. */
  lemma {:induction false} PlayLedger(e: Site, m: Machine, flush: bool, bs: seq<seq<Piece>>, k: nat)
    requires Sound(e.deal) && Ready(e.p, m) && Fits(e.p.descMax, m.idx, bs)
    ensures var f := Play(e, m, flush, bs, k);
      Ledger(f.chains, f.m.q.xfer, m.next, f.v)
    decreases |bs|
  {
    if bs != [] {
      var t := Turn(e.p, e.deal, m, flush, bs[0], e.env(k));
      TurnMeaning(e.p, e.deal, m, flush, bs[0], e.env(k));
      if t.v == Done {
        var k' := k + 1;
        var f := Play(e, t.m, flush, bs[1..], k');
        assert Ledger(f.chains, f.m.q.xfer, t.m.next, f.v) by {
          PlayLedger(e, t.m, flush, bs[1..], k');
        }
        assert m.next in f.m.q.xfer && f.m.q.xfer[m.next].state == Completed by {
          PlayFrame(e, t.m, flush, bs[1..], k');
        }
        assert f.chains == [] ==> f.v == Done by {
          PlayCounts(e, t.m, flush, bs[1..], k');
        }
        LedgerCons(t.chain, f.chains, f.m.q.xfer, m.next, t.m.next, f.v);
      } else {
        LedgerCons(t.chain, [], t.m.q.xfer, m.next, t.m.next, t.v);
      }
    }
  }

  ghost predicate InWindows(chains: seq<Chain>, j: nat) {
    chains != [] && (InWindow(chains[0].window, j) || InWindows(chains[1..], j))
  }

  /** The ring is as before, but for the windows of these transfers, which are zero if `back`. */
  ghost predicate Returned(chains: seq<Chain>, before: seq<Desc>, after: seq<Desc>, back: bool) {
    && |after| == |before|
    && forall j | 0 <= j < |after| ::
         if !InWindows(chains, j) then after[j] == before[j] else back ==> after[j] == Desc(0, 0, 0, 0, 0, 0, 0, 0)
  }

  lemma {:induction false} ReturnedCons(c: Chain, rest: seq<Chain>, r0: seq<Desc>, r1: seq<Desc>, r2: seq<Desc>, back: bool)
    requires Returned(rest, r1, r2, back) && |r1| == |r0|
    requires forall j | 0 <= j < |r0| ::
      if InWindow(c.window, j) then r1[j] == Desc(0, 0, 0, 0, 0, 0, 0, 0) else r1[j] == r0[j]
    ensures Returned([c] + rest, r0, r2, back)
  {
    assert ([c] + rest)[1..] == rest;
  }

  /** What a request does to the ring: no slot changes outside its windows, and these are given back. */
  lemma {:induction false} PlayRing(e: Site, m: Machine, flush: bool, bs: seq<seq<Piece>>, k: nat)
    requires Sound(e.deal) && Ready(e.p, m) && Fits(e.p.descMax, m.idx, bs)
    ensures var f := Play(e, m, flush, bs, k); Returned(f.chains, m.ring, f.m.ring, f.v != Rejected)
    decreases |bs|
  {
    if bs != [] {
      var t := Turn(e.p, e.deal, m, flush, bs[0], e.env(k));
      TurnMeaning(e.p, e.deal, m, flush, bs[0], e.env(k));
      forall j | 0 <= j < e.p.descMax
        ensures !InWindow(t.chain.window, j) ==> t.m.ring[j] == m.ring[j]
        ensures InWindow(t.chain.window, j) && t.v != Rejected ==> t.m.ring[j] == Desc(0, 0, 0, 0, 0, 0, 0, 0)
      {
        TurnRing(e.p, e.deal, m, flush, bs[0], e.env(k), j);
      }
      if t.v == Done {
        var f := Play(e, t.m, flush, bs[1..], k + 1);
        assert Returned(f.chains, t.m.ring, f.m.ring, f.v != Rejected) by {
          PlayRing(e, t.m, flush, bs[1..], k + 1);
        }
        ReturnedCons(t.chain, f.chains, m.ring, t.m.ring, f.m.ring, f.v != Rejected);
      } else {
        assert [t.chain][1..] == [];
      }
    }
  }

  /** The state of the first transfer is still what its turn made it. */
  lemma {:induction false} FirstVerdict(e: Site, m: Machine, flush: bool, bs: seq<seq<Piece>>, k: nat)
    requires Sound(e.deal) && Ready(e.p, m) && Fits(e.p.descMax, m.idx, bs) && bs != []
    ensures var f := Play(e, m, flush, bs, k);
      var t := Turn(e.p, e.deal, m, flush, bs[0], e.env(k));
      f.chains != [] && f.chains[0] == t.chain && (IsDone(t.chain, f.m.q.xfer) <==> t.v == Done)
  {
    var t := Turn(e.p, e.deal, m, flush, bs[0], e.env(k));
    TurnMeaning(e.p, e.deal, m, flush, bs[0], e.env(k));
    if t.v == Done {
      PlayFrame(e, t.m, flush, bs[1..], k + 1);
    }
  }

  /** The lengths of some transfers, each a 32-bit sum. */
  function TransferLens(bs: seq<seq<Piece>>): nat {
    if bs == [] then 0 else Wrap32(PiecesLen(bs[0])) + TransferLens(bs[1..])
  }

  lemma {:induction false} PlayBytes(e: Site, m: Machine, flush: bool, bs: seq<seq<Piece>>, k: nat)
    requires Sound(e.deal) && Ready(e.p, m) && Fits(e.p.descMax, m.idx, bs)
    ensures var f := Play(e, m, flush, bs, k);
      f.done <= |bs| && CompletedLen(f.chains, f.m.q.xfer) == TransferLens(bs[..f.done])
    decreases |bs|
  {
    if bs != [] {
      var t := Turn(e.p, e.deal, m, flush, bs[0], e.env(k));
      FirstVerdict(e, m, flush, bs, k);
      if t.v == Done {
        PlayBytes(e, t.m, flush, bs[1..], k + 1);
        var f := Play(e, t.m, flush, bs[1..], k + 1);
        CompletedCons(t.chain, f.chains, f.m.q.xfer);
        assert bs[..f.done + 1][1..] == bs[1..][..f.done];
      } else {
        CompletedCons(t.chain, [], t.m.q.xfer);
        assert [t.chain] + [] == [t.chain];
      }
    }
  }

  /** Running the chain of a turn moves the pieces of its batch. */
  lemma {:induction false} TurnMoves(w: World, p: Params, deal: Dealing, m: Machine, flush: bool, ps: seq<Piece>, s: Script)
    requires Sound(deal) && Ready(p, m) && 0 < |ps| && m.idx + |ps| <= p.descMax
    ensures var c := Turn(p, deal, m, flush, ps, s).chain;
      HardwareRun(w, p.dir, c.ring, p.bus, c.start) == Apply(w, p.dir, AllMoves(ps))
  {
    TurnMeaning(p, deal, m, flush, ps, s);
    HardwareRunsPieces(w, Turn(p, deal, m, flush, ps, s).chain.ring, p.bus, m.idx, RunConfig(p, flush), ps);
  }

  /** Running the chains of the completed transfers moves exactly the pieces of those transfers. */
  lemma {:induction false} PlayMemory(w: World, e: Site, m: Machine, flush: bool, bs: seq<seq<Piece>>, k: nat)
    requires Sound(e.deal) && Ready(e.p, m) && Fits(e.p.descMax, m.idx, bs)
    ensures var f := Play(e, m, flush, bs, k);
      f.done <= |bs|
      && Carried(w, e.p, f.chains, f.m.q.xfer) == Apply(w, e.p.dir, AllMoves(Flat(bs[..f.done])))
    decreases |bs|
  {
    if bs != [] {
      var t := Turn(e.p, e.deal, m, flush, bs[0], e.env(k));
      FirstVerdict(e, m, flush, bs, k);
      if t.v == Done {
        var f := Play(e, t.m, flush, bs[1..], k + 1);
        TurnMoves(w, e.p, e.deal, m, flush, bs[0], e.env(k));
        PlayMemory(Apply(w, e.p.dir, AllMoves(bs[0])), e, t.m, flush, bs[1..], k + 1);
        CarriedCons(w, e.p, t.chain, f.chains, f.m.q.xfer);
        FlatCons(w, e.p.dir, bs, f.done);
      } else {
        assert [t.chain][1..] == [];
      }
    }
  }

  lemma {:induction false} CarriedCons(w: World, p: Params, c: Chain, rest: seq<Chain>, xfer: map<nat, Xfer>)
    ensures Carried(w, p, [c] + rest, xfer)
         == Carried(if IsDone(c, xfer) then HardwareRun(w, p.dir, c.ring, p.bus, c.start) else w, p, rest, xfer)
  {
    assert ([c] + rest)[1..] == rest;
  }

  lemma {:induction false} CompletedCons(c: Chain, rest: seq<Chain>, xfer: map<nat, Xfer>)
    ensures CompletedLen([c] + rest, xfer) == (if IsDone(c, xfer) then c.len else 0) + CompletedLen(rest, xfer)
  {
    assert ([c] + rest)[1..] == rest;
  }

  lemma {:induction false} FlatCons(w: World, dir: Direction, bs: seq<seq<Piece>>, n: nat)
    requires n < |bs|
    ensures Apply(w, dir, AllMoves(Flat(bs[..n + 1])))
         == Apply(Apply(w, dir, AllMoves(bs[0])), dir, AllMoves(Flat(bs[1..][..n])))
  {
    assert bs[..n + 1][1..] == bs[1..][..n];
    AllMovesConcat(bs[0], Flat(bs[1..][..n]));
    ApplyConcat(w, dir, AllMoves(bs[0]), AllMoves(Flat(bs[1..][..n])));
  }

  function WindowsOf(chains: seq<Chain>): (ws: seq<Window>)
    ensures |ws| == |chains|
  {
    seq(|chains|, j requires 0 <= j < |chains| => chains[j].window)
  }

  /** The windows some batches take. */
  function BatchWindows(descMax: nat, idx: nat, bs: seq<seq<Piece>>): (ws: seq<Window>)
    requires descMax > 0
    ensures |ws| == |bs|
    decreases |bs|
  {
    if bs == [] then []
    else [Window(idx, |bs[0]|)] + BatchWindows(descMax, NextIdx(idx, |bs[0]|, descMax), bs[1..])
  }

  lemma {:induction false} PlayWindows(e: Site, m: Machine, flush: bool, bs: seq<seq<Piece>>, k: nat)
    requires Sound(e.deal) && Ready(e.p, m) && Fits(e.p.descMax, m.idx, bs)
    ensures WindowsOf(Play(e, m, flush, bs, k).chains) <= BatchWindows(e.p.descMax, m.idx, bs)
    decreases |bs|
  {
    if bs != [] {
      var t := Turn(e.p, e.deal, m, flush, bs[0], e.env(k));
      TurnMeaning(e.p, e.deal, m, flush, bs[0], e.env(k));
      if t.v == Done {
        var f := Play(e, t.m, flush, bs[1..], k + 1);
        assert WindowsOf(f.chains) <= BatchWindows(e.p.descMax, t.m.idx, bs[1..]) by {
          PlayWindows(e, t.m, flush, bs[1..], k + 1);
        }
        WindowsCons(t.chain, f.chains);
      } else {
        assert WindowsOf([t.chain]) == [t.chain.window];
      }
    }
  }

  lemma {:induction false} WindowsCons(c: Chain, rest: seq<Chain>)
    ensures WindowsOf([c] + rest) == [c.window] + WindowsOf(rest)
  {
  }

  /** The turns of a request, one after another, are a run of the synchronous-caller machine. */
  lemma {:induction false} PlayIsRun(e: Site, start: Sync.Sys, m: Machine, offline: bool, rejected: nat,
                                     flush: bool, bs: seq<seq<Piece>>, k: nat)
    returns (offline': bool, rejected': nat)
    requires Sound(e.deal) && IsDriver(e.deal, e.p) && Ready(e.p, m) && Fits(e.p.descMax, m.idx, bs)
    requires Sync.Reaches(e.p.dir, e.p.eopFlush, start, Caller(m, offline, rejected))
    requires Sync.Invariant(Caller(m, offline, rejected))
    ensures var f := Play(e, m, flush, bs, k);
      var c := Caller(f.m, offline', rejected');
      && Sync.Reaches(e.p.dir, e.p.eopFlush, start, c) && Sync.Invariant(c)
      && (f.v != Rejected ==> rejected' == rejected)
    decreases |bs|
  {
    if bs == [] {
      return offline, rejected;
    }
    var t := Turn(e.p, e.deal, m, flush, bs[0], e.env(k));
    TurnMeaning(e.p, e.deal, m, flush, bs[0], e.env(k));
    TurnIsRun(e.p, e.deal, start, m, offline, rejected, flush, bs[0], e.env(k));
    offline', rejected' := e.env(k).offlineSeen, rejected + if t.v == Rejected then |bs[0]| else 0;
    if t.v == Done {
      offline', rejected' := PlayIsRun(e, start, t.m, offline', rejected', flush, bs[1..], k + 1);
    }
  }

  /** The bytes of a request's completed transfers: the result if there are any. */
  ghost function BytesDone(f: Final): nat {
    CompletedLen(f.chains, f.m.q.xfer)
  }

  /** A request so far, and the rest of it. */
  function Resumed(chains: seq<Chain>, rest: Final, k: nat): Final {
    Final(rest.m, chains + rest.chains, rest.v, k + rest.done)
  }

  /** A request after k turns: f is where it ends if it goes on with the batches bs. */
  ghost predicate Midway(e: Site, m: Machine, flush: bool, bs: seq<seq<Piece>>, k: nat, chains: seq<Chain>, done: nat,
                         f: Final)
  {
    && Sound(e.deal) && Ready(e.p, m) && Fits(e.p.descMax, m.idx, bs)
    && var g := Play(e, m, flush, bs, k);
       f == Resumed(chains, g, k) && BytesDone(f) == done + BytesDone(g)
  }

  lemma {:induction false} PlayStarts(e: Site, m: Machine, flush: bool, bs: seq<seq<Piece>>, f: Final)
    requires Sound(e.deal) && Ready(e.p, m) && Fits(e.p.descMax, m.idx, bs) && f == Play(e, m, flush, bs, 0)
    ensures Midway(e, m, flush, bs, 0, [], 0, f)
  {
    assert [] + f.chains == f.chains;
  }

  lemma {:induction false} PlayEnds(e: Site, m: Machine, flush: bool, bs: seq<seq<Piece>>, k: nat, chains: seq<Chain>,
                                    done: nat, f: Final)
    requires Midway(e, m, flush, bs, k, chains, done, f) && bs == []
    ensures f == Final(m, chains, Done, k) && BytesDone(f) == done
  {
    assert chains + [] == chains;
  }

  /** The first turn of a request. */
  lemma {:induction false} PlayStep(e: Site, m: Machine, flush: bool, bs: seq<seq<Piece>>, k: nat, t: Turned)
    requires Sound(e.deal) && Ready(e.p, m) && Fits(e.p.descMax, m.idx, bs) && bs != []
    requires t == Turn(e.p, e.deal, m, flush, bs[0], e.env(k))
    ensures Ready(e.p, t.m) && t.m.idx == NextIdx(m.idx, |bs[0]|, e.p.descMax)
    ensures Fits(e.p.descMax, t.m.idx, bs[1..]) && t.chain.len == Wrap32(PiecesLen(bs[0]))
    ensures var f := Play(e, m, flush, bs, k);
      if t.v != Done then f == Final(t.m, [t.chain], t.v, 0)
      else f == Preceded(t.chain, Play(e, t.m, flush, bs[1..], k + 1))
  {
    TurnMeaning(e.p, e.deal, m, flush, bs[0], e.env(k));
  }

  /** A completed turn and the rest of the request. */
  function Preceded(c: Chain, r: Final): Final {
    Final(r.m, [c] + r.chains, r.v, r.done + 1)
  }

  lemma {:induction false} ResumedStep(chains: seq<Chain>, c: Chain, r: Final, k: nat, k': nat)
    requires k' == k + 1
    ensures Resumed(chains, Preceded(c, r), k) == Resumed(chains + [c], r, k')
  {
    assert chains + ([c] + r.chains) == chains + [c] + r.chains;
  }

  /** An answer of zero after some transfers means that the last of them completed. */
  lemma {:induction false} LastDone(f: Final, from: nat)
    requires Ledger(f.chains, f.m.q.xfer, from, f.v) && f.m.next == from + |f.chains| && f.chains != []
    ensures LastIs(f.m.q.xfer, from, f.m.next, Completed) <==> f.v == Done
  {
    LedgerLast(f.chains, f.m.q.xfer, from, f.m.next, f.v);
  }

  lemma {:induction false} PlayBytesStep(e: Site, m: Machine, flush: bool, bs: seq<seq<Piece>>, k: nat, t: Turned)
    requires Sound(e.deal) && Ready(e.p, m) && Fits(e.p.descMax, m.idx, bs) && bs != []
    requires t == Turn(e.p, e.deal, m, flush, bs[0], e.env(k))
    ensures BytesDone(Play(e, m, flush, bs, k))
         == if t.v != Done then 0 else t.chain.len + BytesDone(Play(e, t.m, flush, bs[1..], k + 1))
  {
    PlayStep(e, m, flush, bs, k, t);
    FirstVerdict(e, m, flush, bs, k);
    if t.v == Done {
      var r := Play(e, t.m, flush, bs[1..], k + 1);
      CompletedCons(t.chain, r.chains, r.m.q.xfer);
    } else {
      CompletedCons(t.chain, [], t.m.q.xfer);
      assert [t.chain] + [] == [t.chain];
    }
  }

  /** One turn further: the request ends, or is midway again. */
  lemma {:induction false} PlayAdvances(e: Site, m: Machine, flush: bool, bs: seq<seq<Piece>>, k: nat, k': nat,
                                        chains: seq<Chain>, done: nat, f: Final, t: Turned, len: nat)
    requires Midway(e, m, flush, bs, k, chains, done, f) && bs != [] && k' == k + 1 && |bs[0]| > 0
    requires t == Turn(e.p, e.deal, m, flush, bs[0], e.env(k)) && len == Wrap32(PiecesLen(bs[0]))
    ensures Ready(e.p, t.m) && t.m.idx == NextIdx(m.idx, |bs[0]|, e.p.descMax)
    ensures if t.v != Done then f == Final(t.m, chains + [t.chain], t.v, k) && BytesDone(f) == done
            else Midway(e, t.m, flush, bs[1..], k', chains + [t.chain], done + len, f)
  {
    PlayStep(e, m, flush, bs, k, t);
    PlayBytesStep(e, m, flush, bs, k, t);
    if t.v == Done {
      ResumedStep(chains, t.chain, Play(e, t.m, flush, bs[1..], k'), k, k');
    }
  }
}
