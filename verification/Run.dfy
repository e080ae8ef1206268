/**
 * The run of descriptors one transfer leaves in the ring, and the two ways hardware can
 * follow it: the plain next-pointer walk, and the prefetching fetch of adjacent blocks.
 */
module Runs {
  import opened Words
  import opened Memory
  import opened Descriptors

  /** One descriptor's worth of work: len bytes at host address addr and card address ep. */
  datatype Piece = Piece(addr: U64, ep: U64, len: U32)

  /** resBus is the writeback address of a streaming card-to-host engine, if it is one. */
  datatype Config = Config(dir: Direction, eopFlush: bool, resBus: Writeback)
  datatype Writeback = NoWriteback | WritebackAt(bus: U64)

  /** xdma_desc_set */
  function DescSet(d: Desc, p: Piece, dir: Direction): Desc {
    var d := d.(bytes := p.len);
    match dir
    case ToDevice =>
      d.(srcLo := Lo32(p.addr), srcHi := Hi32(p.addr), dstLo := Lo32(p.ep), dstHi := Hi32(p.ep))
    case FromDevice =>
      d.(srcLo := Lo32(p.ep), srcHi := Hi32(p.ep), dstLo := Lo32(p.addr), dstHi := Hi32(p.addr))
  }

  /** The source override of transfer_build for streaming card-to-host engines. */
  function WritebackSource(d: Desc, wb: Writeback, k: nat): Desc {
    match wb
    case NoWriteback => d
    case WritebackAt(bus) =>
      var a := Wrap64(bus + DESC_SIZE * k);
      d.(srcLo := Lo32(a), srcHi := Hi32(a))
  }

  /** The bus address descriptor k of n links to; the last links to zero. */
  function NextAddr(bus: U64, n: nat, k: nat): U64 {
    if k + 1 < n then Wrap64(bus + DESC_SIZE * (k + 1)) else 0
  }

  function Link(d: Desc, next: U64, control: bv32): Desc {
    d.(nextLo := Lo32(next), nextHi := Hi32(next), control := control)
  }

  const BLANK := Desc(0, 0, 0, 0, 0, 0, 0, 0)

  /** Descriptor k of a finished run of n whose first descriptor is at bus address `bus`. */
  function RunDesc(cfg: Config, bus: U64, n: nat, k: nat, p: Piece): Desc
    requires k < n
  {
    var next := NextAddr(bus, n, k);
    var d := WritebackSource(DescSet(BLANK, p, cfg.dir), cfg.resBus, k);
    Link(d, next, ControlWord(k + 1 == n, cfg.eopFlush, NextAdj(n - k - 1, Lo32(next))))
  }

  ghost predicate HoldsRun(ring: seq<Desc>, bus: U64, first: nat, cfg: Config, ps: seq<Piece>) {
    && RingFits(ring, bus)
    && 0 < |ps| && first + |ps| <= |ring|
    && forall k | 0 <= k < |ps| ::
         ring[first + k] == RunDesc(cfg, SlotAddr(bus, first), |ps|, k, ps[k])
  }

  /** The ring lies inside the bus address space. */
  ghost predicate RingFits(ring: seq<Desc>, bus: U64) {
    bus + DESC_SIZE * |ring| <= TWO64
  }

  function SlotAddr(bus: U64, slot: nat): U64 {
    Wrap64(bus + DESC_SIZE * slot)
  }

  function Range(lo: nat, hi: nat): (r: seq<nat>)
    requires lo <= hi
    ensures |r| == hi - lo
  {
    seq(hi - lo, i requires 0 <= i < hi - lo => lo + i)
  }

  /**
   * What the hardware reads in a finished descriptor.  A streaming card-to-host engine has no card
   * address: there the source is the slot for the descriptor's result, 32 bytes each.
   */
  lemma {:induction false} RunDescFields(cfg: Config, bus: U64, n: nat, k: nat, p: Piece)
    requires k < n
    ensures var d := RunDesc(cfg, bus, n, k, p);
      && (d.Stops() <==> k + 1 == n)
      && d.Next() == (if k + 1 < n then Wrap64(bus + 32 * (k + 1)) else 0)
      && d.Adjacent() == NextAdj(n - k - 1, Lo32(d.Next()))
      && Magic(d.control) == 0xAD4B
      && Flags(d.control) == (if k + 1 == n then 0x13 else if cfg.eopFlush then 0x02 else 0)
      && d.bytes == p.len
      && (if cfg.dir.ToDevice? then d.Dst() == p.ep else d.Dst() == p.addr)
      && (match cfg.resBus
          case NoWriteback => d.Src() == if cfg.dir.ToDevice? then p.addr else p.ep
          case WritebackAt(res) => d.Src() == Wrap64(res + 32 * k))
  {
    ControlWordDecodes(k + 1 == n, cfg.eopFlush, NextAdj(n - k - 1, Lo32(NextAddr(bus, n, k))));
  }

  /** The adjacency engine_start programs, and every descriptor repeats for its successor. */
  function AdjacentFrom(bus: U64, slot: nat, remaining: nat): (n: nat)
    ensures remaining >= 1 ==> n < remaining
  {
    NextAdj(remaining, Lo32(SlotAddr(bus, slot)))
  }

  /** The descriptor in a slot links to the next slot, or stops if it is the last before hi. */
  ghost predicate Links(d: Desc, bus: U64, slot: nat, hi: nat)
    requires slot < hi
  {
    if slot + 1 == hi then d.Stops()
    else
      && !d.Stops()
      && d.Next() == SlotAddr(bus, slot + 1)
      && d.Adjacent() == AdjacentFrom(bus, slot + 1, hi - slot - 1)
  }

  /** Slots lo up to hi form one chain of descriptors that stops at its end. */
  ghost predicate Chain(ring: seq<Desc>, bus: U64, lo: nat, hi: nat) {
    && RingFits(ring, bus)
    && lo < hi <= |ring|
    && forall s | lo <= s < hi :: Links(ring[s], bus, s, hi)
  }

  lemma {:induction false} RunLinks(cfg: Config, bus: U64, first: nat, n: nat, k: nat, p: Piece)
    requires k < n && bus + DESC_SIZE * (first + n) <= TWO64
    ensures Links(RunDesc(cfg, SlotAddr(bus, first), n, k, p), bus, first + k, first + n)
  {
    RunDescFields(cfg, SlotAddr(bus, first), n, k, p);
  }

  lemma {:induction false} RunIsChain(ring: seq<Desc>, bus: U64, first: nat, cfg: Config, ps: seq<Piece>)
    requires HoldsRun(ring, bus, first, cfg, ps)
    ensures Chain(ring, bus, first, first + |ps|)
  {
    forall s | first <= s < first + |ps|
      ensures Links(ring[s], bus, s, first + |ps|)
    {
      var k := s - first;
      RunLinks(cfg, bus, first, |ps|, k, ps[k]);
      assert ring[first + k] == RunDesc(cfg, SlotAddr(bus, first), |ps|, k, ps[k]);
    }
  }

  lemma {:induction false} SlotAddrInjective(ring: seq<Desc>, bus: U64, i: nat, j: nat)
    requires RingFits(ring, bus) && i < |ring| && j < |ring|
    requires SlotAddr(bus, i) == SlotAddr(bus, j)
    ensures i == j
  {
  }

  // ---------------------------------------------------------------------------------------
  // The next-pointer walk

  /** tr is the list of ring slots the engine visits from bus address `start` until it stops. */
  ghost predicate IsWalk(ring: seq<Desc>, bus: U64, start: U64, tr: seq<nat>)
    decreases |tr|
  {
    && tr != []
    && tr[0] < |ring|
    && SlotAddr(bus, tr[0]) == start
    && var d := ring[tr[0]];
       if |tr| == 1 then d.Stops() else !d.Stops() && IsWalk(ring, bus, d.Next(), tr[1..])
  }

  lemma {:induction false} WalkFrom(ring: seq<Desc>, bus: U64, lo: nat, hi: nat, tr: seq<nat>)
    requires Chain(ring, bus, lo, hi)
    ensures IsWalk(ring, bus, SlotAddr(bus, lo), tr) <==> tr == Range(lo, hi)
    decreases hi - lo
  {
    assert Links(ring[lo], bus, lo, hi);
    if IsWalk(ring, bus, SlotAddr(bus, lo), tr) {
      SlotAddrInjective(ring, bus, tr[0], lo);
    }
    if lo + 1 == hi {
      assert Range(lo, hi) == [lo];
    } else if tr != [] {
      RangeStep(lo, hi, tr);
      WalkFrom(ring, bus, lo + 1, hi, tr[1..]);
    }
  }

  lemma {:induction false} RangeStep(lo: nat, hi: nat, tr: seq<nat>)
    requires lo < hi && tr != []
    ensures tr == Range(lo, hi) <==> tr[0] == lo && tr[1..] == Range(lo + 1, hi)
  {
    assert Range(lo, hi) == [lo] + Range(lo + 1, hi);
    assert tr == [tr[0]] + tr[1..];
  }

  /** The walk from a run's first descriptor visits exactly its slots, once each, in order. */
  lemma {:induction false} WalkVisitsRun(ring: seq<Desc>, bus: U64, first: nat, cfg: Config, ps: seq<Piece>, tr: seq<nat>)
    requires HoldsRun(ring, bus, first, cfg, ps)
    ensures IsWalk(ring, bus, SlotAddr(bus, first), tr) <==> tr == Range(first, first + |ps|)
  {
    RunIsChain(ring, bus, first, cfg, ps);
    WalkFrom(ring, bus, first, first + |ps|, tr);
  }

  // ---------------------------------------------------------------------------------------
  // The prefetching engine

  datatype Fetch = Fetch(slot: nat, count: nat) {
    function Slots(): seq<nat> { Range(slot, slot + count) }
  }

  /**
   * The engine reads adj + 1 contiguous descriptors at `start`, works through them, and
   * fetches again from the last one's next pointer with the last one's adjacency.
   */
  ghost predicate IsPrefetch(ring: seq<Desc>, bus: U64, start: U64, adj: nat, fs: seq<Fetch>)
    decreases |fs|
  {
    && fs != []
    && fs[0].count == adj + 1
    && fs[0].slot + fs[0].count <= |ring|
    && SlotAddr(bus, fs[0].slot) == start
    && (forall j | fs[0].slot <= j < fs[0].slot + adj :: !ring[j].Stops())
    && var d := ring[fs[0].slot + adj];
       if |fs| == 1 then d.Stops()
       else !d.Stops() && IsPrefetch(ring, bus, d.Next(), d.Adjacent(), fs[1..])
  }

  function Visited(fs: seq<Fetch>): seq<nat> {
    if fs == [] then [] else fs[0].Slots() + Visited(fs[1..])
  }

  /** A fetch stays inside one block of 64 descriptors aligned to the block size. */
  ghost predicate InOneBlock(bus: U64, f: Fetch) {
    f.count >= 1
    && SlotAddr(bus, f.slot) / (DESC_SIZE * MAX_ADJ_BLOCK)
       == SlotAddr(bus, f.slot + f.count - 1) / (DESC_SIZE * MAX_ADJ_BLOCK)
  }

  ghost predicate AllInOneBlock(bus: U64, fs: seq<Fetch>) {
    fs == [] || (InOneBlock(bus, fs[0]) && AllInOneBlock(bus, fs[1..]))
  }

  /** The programmed fetch stays in its block, and one descriptor more would leave it or the run. */
  lemma {:induction false} FetchInOneBlock(ring: seq<Desc>, bus: U64, slot: nat, remaining: nat)
    requires RingFits(ring, bus) && bus % DESC_SIZE == 0
    requires remaining >= 1 && slot + remaining <= |ring|
    ensures var n := AdjacentFrom(bus, slot, remaining) + 1;
      && InOneBlock(bus, Fetch(slot, n))
      && (n < remaining ==> !InOneBlock(bus, Fetch(slot, n + 1)))
  {
    var n := AdjacentFrom(bus, slot, remaining);
    var u := bus / 32 + slot;
    assert SlotAddr(bus, slot) == 32 * u && SlotAddr(bus, slot + n) == 32 * (u + n);
    BlockIndex(u);
    SameBlock(u, n);
    if n + 1 < remaining {
      assert SlotAddr(bus, slot + n + 1) == 32 * (u + n + 1);
      SameBlock(u, n + 1);
    }
  }

  lemma {:induction false} BlockIndex(u: nat)
    requires 32 * u < TWO64
    ensures ((Lo32(32 * u) % PAGE_SIZE) / DESC_SIZE) % MAX_ADJ_BLOCK == u % 64
  {
    ModOfMod(32 * u, 4096, 0x100000);
    DivModUnique(32 * u, 4096, u / 128, 32 * (u % 128));
    ModOfMod(u, 64, 2);
  }

  lemma {:induction false} SameBlock(u: nat, n: nat)
    requires n <= 64 - u % 64
    ensures (32 * u) / (DESC_SIZE * MAX_ADJ_BLOCK) == (32 * (u + n)) / (DESC_SIZE * MAX_ADJ_BLOCK) <==> n <= 63 - u % 64
  {
    assert (32 * u) / 2048 == u / 64;
    assert (32 * (u + n)) / 2048 == (u + n) / 64;
    assert (u + n) / 64 == if n <= 63 - u % 64 then u / 64 else u / 64 + 1;
  }

  /** The first fetch takes the slots up to mid; the engine goes on behind them. */
  lemma {:induction false} FirstFetch(ring: seq<Desc>, bus: U64, lo: nat, hi: nat, fs: seq<Fetch>, mid: nat)
    requires Chain(ring, bus, lo, hi)
    requires mid == lo + AdjacentFrom(bus, lo, hi - lo) + 1
    requires fs != [] && IsPrefetch(ring, bus, SlotAddr(bus, lo), AdjacentFrom(bus, lo, hi - lo), fs)
    ensures fs[0] == Fetch(lo, mid - lo)
    ensures if mid == hi then |fs| == 1
            else IsPrefetch(ring, bus, SlotAddr(bus, mid), AdjacentFrom(bus, mid, hi - mid), fs[1..])
  {
    assert Links(ring[mid - 1], bus, mid - 1, hi);
    SlotAddrInjective(ring, bus, fs[0].slot, lo);
  }

  lemma {:induction false} PrefetchFrom(ring: seq<Desc>, bus: U64, lo: nat, hi: nat, fs: seq<Fetch>)
    requires Chain(ring, bus, lo, hi)
    requires IsPrefetch(ring, bus, SlotAddr(bus, lo), AdjacentFrom(bus, lo, hi - lo), fs)
    ensures Visited(fs) == Range(lo, hi)
    decreases hi - lo
  {
    var mid := lo + AdjacentFrom(bus, lo, hi - lo) + 1;
    FirstFetch(ring, bus, lo, hi, fs, mid);
    if mid < hi {
      PrefetchFrom(ring, bus, mid, hi, fs[1..]);
      RangeSplit(lo, mid, hi);
    } else {
      assert fs[1..] == [];
    }
  }

  lemma {:induction false} PrefetchInBlocks(ring: seq<Desc>, bus: U64, lo: nat, hi: nat, fs: seq<Fetch>)
    requires Chain(ring, bus, lo, hi) && bus % DESC_SIZE == 0
    requires IsPrefetch(ring, bus, SlotAddr(bus, lo), AdjacentFrom(bus, lo, hi - lo), fs)
    ensures AllInOneBlock(bus, fs)
    decreases hi - lo
  {
    var mid := lo + AdjacentFrom(bus, lo, hi - lo) + 1;
    FirstFetch(ring, bus, lo, hi, fs, mid);
    FetchInOneBlock(ring, bus, lo, hi - lo);
    if mid < hi {
      PrefetchInBlocks(ring, bus, mid, hi, fs[1..]);
    }
  }

  lemma {:induction false} RangeSplit(lo: nat, mid: nat, hi: nat)
    requires lo <= mid <= hi
    ensures Range(lo, mid) + Range(mid, hi) == Range(lo, hi)
  {
  }

  function RunFetches(bus: U64, lo: nat, hi: nat): seq<Fetch>
    requires lo < hi
    decreases hi - lo
  {
    var mid := lo + AdjacentFrom(bus, lo, hi - lo) + 1;
    [Fetch(lo, mid - lo)] + (if mid < hi then RunFetches(bus, mid, hi) else [])
  }

  lemma {:induction false} PrefetchExists(ring: seq<Desc>, bus: U64, lo: nat, hi: nat)
    requires Chain(ring, bus, lo, hi)
    ensures IsPrefetch(ring, bus, SlotAddr(bus, lo), AdjacentFrom(bus, lo, hi - lo), RunFetches(bus, lo, hi))
    decreases hi - lo
  {
    var adj := AdjacentFrom(bus, lo, hi - lo);
    var mid := lo + adj + 1;
    if mid < hi {
      PrefetchExists(ring, bus, mid, hi);
      PrefetchOn(ring, bus, lo, hi, adj, mid, RunFetches(bus, mid, hi));
    } else {
      PrefetchOn(ring, bus, lo, hi, adj, mid, []);
    }
  }

  lemma {:induction false} PrefetchOn(ring: seq<Desc>, bus: U64, lo: nat, hi: nat, adj: nat, mid: nat, rest: seq<Fetch>)
    requires Chain(ring, bus, lo, hi) && mid == lo + adj + 1 <= hi
    requires if mid == hi then rest == []
             else rest != [] && IsPrefetch(ring, bus, SlotAddr(bus, mid), AdjacentFrom(bus, mid, hi - mid), rest)
    ensures IsPrefetch(ring, bus, SlotAddr(bus, lo), adj, [Fetch(lo, mid - lo)] + rest)
  {
    var fs, last := [Fetch(lo, mid - lo)] + rest, lo + adj;
    assert fs[1..] == rest;
    forall s | lo <= s < last
      ensures !ring[s].Stops()
    {
      LinkOn(ring[s], bus, s, s + 1, hi);
    }
    LinkOn(ring[last], bus, last, mid, hi);
  }

  lemma {:induction false} LinkOn(d: Desc, bus: U64, slot: nat, next: nat, hi: nat)
    requires slot < hi && next == slot + 1 && Links(d, bus, slot, hi)
    ensures if next == hi then d.Stops()
            else !d.Stops() && d.Next() == SlotAddr(bus, next) && d.Adjacent() == AdjacentFrom(bus, next, hi - next)
  {
  }

  /**
   * Prefetching refines the walk: whatever way an engine fetches from the programmed start, it
   * sees the slots of the walk, once each and in order, and no fetch leaves its aligned block;
   * and such a way of fetching exists.
   */
  lemma {:induction false} PrefetchRefinesWalk(ring: seq<Desc>, bus: U64, first: nat, cfg: Config, ps: seq<Piece>,
                            fs: seq<Fetch>, tr: seq<nat>)
    requires HoldsRun(ring, bus, first, cfg, ps) && bus % DESC_SIZE == 0
    requires IsWalk(ring, bus, SlotAddr(bus, first), tr)
    ensures IsPrefetch(ring, bus, SlotAddr(bus, first), AdjacentFrom(bus, first, |ps|), fs) ==>
      Visited(fs) == tr && AllInOneBlock(bus, fs)
    ensures exists gs :: IsPrefetch(ring, bus, SlotAddr(bus, first), AdjacentFrom(bus, first, |ps|), gs)
  {
    WalkVisitsRun(ring, bus, first, cfg, ps, tr);
    RunIsChain(ring, bus, first, cfg, ps);
    var hi := first + |ps|;
    if IsPrefetch(ring, bus, SlotAddr(bus, first), AdjacentFrom(bus, first, |ps|), fs) {
      PrefetchFrom(ring, bus, first, hi, fs);
      PrefetchInBlocks(ring, bus, first, hi, fs);
    }
    PrefetchExists(ring, bus, first, hi);
  }

  // ---------------------------------------------------------------------------------------
  // What a run does to memory

  function DescMoves(d: Desc, dir: Direction): (ms: seq<Move>)
    ensures |ms| == d.bytes
  {
    seq<Move>(d.bytes, i requires 0 <= i < d.bytes =>
      match dir
      case ToDevice => Move(Wrap64(d.Src() + i), Wrap64(d.Dst() + i))
      case FromDevice => Move(Wrap64(d.Dst() + i), Wrap64(d.Src() + i)))
  }

  ghost predicate InRing(ring: seq<Desc>, tr: seq<nat>) {
    forall i | 0 <= i < |tr| :: tr[i] < |ring|
  }

  /** Execute the descriptors at the given slots, one after another. */
  ghost function Execute(w: World, dir: Direction, ring: seq<Desc>, tr: seq<nat>): World
    requires InRing(ring, tr)
  {
    if tr == [] then w
    else Apply(Execute(w, dir, ring, tr[..|tr| - 1]), dir, DescMoves(ring[tr[|tr| - 1]], dir))
  }

  function PieceMoves(p: Piece): (ms: seq<Move>)
    ensures |ms| == p.len
  {
    seq<Move>(p.len, i requires 0 <= i < p.len => Move(Wrap64(p.addr + i), Wrap64(p.ep + i)))
  }

  function AllMoves(ps: seq<Piece>): seq<Move> {
    if ps == [] then [] else AllMoves(ps[..|ps| - 1]) + PieceMoves(ps[|ps| - 1])
  }

  lemma {:induction false} RunDescMoves(cfg: Config, bus: U64, n: nat, k: nat, p: Piece)
    requires k < n && cfg.resBus.NoWriteback?
    ensures DescMoves(RunDesc(cfg, bus, n, k, p), cfg.dir) == PieceMoves(p)
  {
    RunDescFields(cfg, bus, n, k, p);
  }

  lemma {:induction false} ExecutePrefix(w: World, ring: seq<Desc>, bus: U64, first: nat, cfg: Config,
                                         ps: seq<Piece>, k: nat)
    requires HoldsRun(ring, bus, first, cfg, ps) && cfg.resBus.NoWriteback? && k <= |ps|
    ensures Execute(w, cfg.dir, ring, Range(first, first + k)) == Apply(w, cfg.dir, AllMoves(ps[..k]))
    decreases k
  {
    if k > 0 {
      var j := k - 1;
      ExecutePrefix(w, ring, bus, first, cfg, ps, j);
      ExecuteLast(w, cfg.dir, ring, first, k, j);
      assert AllMoves(ps[..k]) == AllMoves(ps[..j]) + PieceMoves(ps[j]) by {
        assert ps[..k][..j] == ps[..j];
      }
      RunDescMoves(cfg, SlotAddr(bus, first), |ps|, j, ps[j]);
      ApplyConcat(w, cfg.dir, AllMoves(ps[..j]), PieceMoves(ps[j]));
    }
  }

  lemma {:induction false} ExecuteLast(w: World, dir: Direction, ring: seq<Desc>, first: nat, k: nat, j: nat)
    requires k == j + 1 && first + k <= |ring|
    ensures Execute(w, dir, ring, Range(first, first + k))
         == Apply(Execute(w, dir, ring, Range(first, first + j)), dir, DescMoves(ring[first + j], dir))
  {
    assert Range(first, first + k)[..j] == Range(first, first + j);
  }

  /** Executing a run, however its descriptors are found, moves exactly the bytes of its pieces. */
  lemma {:induction false} ExecuteRun(w: World, ring: seq<Desc>, bus: U64, first: nat, cfg: Config, ps: seq<Piece>, tr: seq<nat>)
    requires HoldsRun(ring, bus, first, cfg, ps) && cfg.resBus.NoWriteback?
    requires IsWalk(ring, bus, SlotAddr(bus, first), tr)
    ensures InRing(ring, tr)
    ensures Execute(w, cfg.dir, ring, tr) == Apply(w, cfg.dir, AllMoves(ps))
  {
    WalkVisitsRun(ring, bus, first, cfg, ps, tr);
    ExecutePrefix(w, ring, bus, first, cfg, ps, |ps|);
    assert ps[..|ps|] == ps;
  }

  // ---------------------------------------------------------------------------------------
  // Pairing software descriptors with card addresses

  /** req->ep_addr after the given software descriptors; it stays put in non-incrementing mode. */
  function EpAfter(ep: U64, sd: seq<Extent>, incr: bool): U64 {
    if incr then Wrap64(ep + TotalLen(sd)) else ep
  }

  function Place(sd: seq<Extent>, ep: U64, incr: bool): (ps: seq<Piece>)
    ensures |ps| == |sd|
  {
    seq<Piece>(|sd|, k requires 0 <= k < |sd| => Piece(sd[k].addr, EpAfter(ep, sd[..k], incr), sd[k].len))
  }

  lemma {:induction false} PieceMovesFlat(p: Piece)
    ensures PieceMoves(p) == FlatMoves(Span(p.addr, p.len), p.ep)
  {
  }

  /** Every software descriptor starts at the same card address. */
  function FixedMoves(sd: seq<Extent>, ep: U64): (ms: seq<Move>)
    ensures |ms| == TotalLen(sd)
  {
    if sd == [] then []
    else FixedMoves(sd[..|sd| - 1], ep) + FlatMoves(Span(sd[|sd| - 1].addr, sd[|sd| - 1].len), ep)
  }

  /** That is, byte x of descriptor k meets card address ep + x. */
  lemma {:induction false} FixedMoveAt(sd: seq<Extent>, ep: U64, k: nat, x: nat)
    requires k < |sd| && x < sd[k].len
    ensures TotalLen(sd[..k]) + x < TotalLen(sd)
    ensures FixedMoves(sd, ep)[TotalLen(sd[..k]) + x] == Move(Wrap64(sd[k].addr + x), Wrap64(ep + x))
    decreases |sd|
  {
    var front := sd[..|sd| - 1];
    if k < |front| {
      assert front[..k] == sd[..k] && front[k] == sd[k];
      FixedMoveAt(front, ep, k, x);
    }
  }

  /** In non-incrementing mode the pieces of a request move just that. */
  lemma {:induction false} PlaceIsFixed(sd: seq<Extent>, ep: U64)
    ensures AllMoves(Place(sd, ep, false)) == FixedMoves(sd, ep)
    decreases |sd|
  {
    if sd != [] {
      var n := |sd| - 1;
      PlaceIsFixed(sd[..n], ep);
      PlacePrefix(sd, ep, false, n);
      PieceMovesFlat(Place(sd, ep, false)[n]);
    }
  }

  /** In incrementing mode the pieces of a request move what one flat copy moves. */
  lemma {:induction false} PlaceIsFlat(sd: seq<Extent>, ep: U64)
    ensures AllMoves(Place(sd, ep, true)) == FlatMoves(HostBytes(sd), ep)
    decreases |sd|
  {
    if sd != [] {
      var n := |sd| - 1;
      var front := sd[..n];
      PlaceIsFlat(front, ep);
      forall k | 0 <= k < n
        ensures Place(sd, ep, true)[k] == Place(front, ep, true)[k]
      {
        assert front[..k] == sd[..k];
      }
      assert Place(sd, ep, true)[..n] == Place(front, ep, true);
      PieceMovesFlat(Place(sd, ep, true)[n]);
      FlatMovesConcat(HostBytes(front), Span(sd[n].addr, sd[n].len), ep);
    }
  }

  lemma {:induction false} EpAfterTwice(ep: U64, descs: seq<Extent>, i: nat, n: nat, incr: bool)
    requires i + n <= |descs|
    ensures EpAfter(EpAfter(ep, descs[..i], incr), descs[i..][..n], incr) == EpAfter(ep, descs[..i + n], incr)
    ensures TotalLen(descs[..i + n]) == TotalLen(descs[..i]) + TotalLen(descs[i..][..n])
  {
    assert descs[..i + n] == descs[..i] + descs[i..][..n];
    TotalLenConcat(descs[..i], descs[i..][..n]);
    WrapAdd(ep + TotalLen(descs[..i]), TotalLen(descs[i..][..n]));
  }

  /** What a transfer places from position i on is what the whole request places there. */
  lemma {:induction false} PlaceWindow(sd: seq<Extent>, ep: U64, incr: bool, i: nat, n: nat, m: nat)
    requires i + n <= |sd| && m < n
    ensures Place(sd[i..][..n], EpAfter(ep, sd[..i], incr), incr)[m] == Place(sd, ep, incr)[i + m]
  {
    assert sd[i..][..n][..m] == sd[i..][..m];
    EpAfterTwice(ep, sd, i, m, incr);
  }

  lemma {:induction false} PlacePrefix(sd: seq<Extent>, ep: U64, incr: bool, k: nat)
    requires k <= |sd|
    ensures Place(sd[..k], ep, incr) == Place(sd, ep, incr)[..k]
  {
    forall j | 0 <= j < k
      ensures Place(sd[..k], ep, incr)[j] == Place(sd, ep, incr)[j]
    {
      assert sd[..k][..j] == sd[..j];
    }
  }

  lemma {:induction false} AllMovesConcat(a: seq<Piece>, b: seq<Piece>)
    ensures AllMoves(a + b) == AllMoves(a) + AllMoves(b)
    decreases |b|
  {
    if b == [] {
      assert a + b == a;
    } else {
      assert (a + b)[..|a + b| - 1] == a + b[..|b| - 1];
      AllMovesConcat(a, b[..|b| - 1]);
    }
  }

  function PiecesLen(ps: seq<Piece>): nat {
    if ps == [] then 0 else ps[0].len + PiecesLen(ps[1..])
  }

  lemma {:induction false} PiecesLenConcat(a: seq<Piece>, b: seq<Piece>)
    ensures PiecesLen(a + b) == PiecesLen(a) + PiecesLen(b)
    decreases |a|
  {
    if a == [] {
      assert a + b == b;
    } else {
      assert (a + b)[1..] == a[1..] + b;
      PiecesLenConcat(a[1..], b);
    }
  }

  lemma {:induction false} PiecesLenOne(p: Piece)
    ensures PiecesLen([p]) == p.len
  {
    assert [p][1..] == [];
  }

  lemma {:induction false} PlaceLen(sd: seq<Extent>, ep: U64, incr: bool)
    ensures PiecesLen(Place(sd, ep, incr)) == TotalLen(sd)
    decreases |sd|
  {
    if sd != [] {
      var ps, n := Place(sd, ep, incr), |sd| - 1;
      PlacePrefix(sd, ep, incr, n);
      PlaceLen(sd[..n], ep, incr);
      assert ps == ps[..n] + [ps[n]];
      PiecesLenConcat(ps[..n], [ps[n]]);
      PiecesLenOne(ps[n]);
    }
  }
}
