/**
 * A scatter list swept through a window of card addresses, cut at scatter entries, at the window's
 * end and at the end of the ring; and when one list is cut as another should have been.
 */
module Sweeps {
  import opened Words
  import opened Memory
  import opened Runs

  lemma {:induction false} PhaseWithin(o: nat, i: nat, m: nat)
    requires m > 0 && Phase(o, m) + i < m
    ensures Phase(o + i, m) == Phase(o, m) + i
    decreases o
  {
    if o >= m {
      PhaseWithin(o - m, i, m);
    }
  }

  /** Advancing inside the window, up to and including its end. */
  lemma {:induction false} PhaseNext(o: nat, len: nat, m: nat)
    requires m > 0 && Phase(o, m) + len <= m
    ensures Phase(o + len, m) == if Phase(o, m) + len == m then 0 else Phase(o, m) + len
    decreases o
  {
    if o >= m {
      PhaseNext(o - m, len, m);
    } else if o + len == m {
      assert Phase(m, m) == Phase(0, m);
    }
  }

  /** The window [base, base + size), and the longest descriptor allowed in it. */
  datatype Aperture = Aperture(base: U64, size: U32, maxlen: U32)

  ghost predicate ValidAperture(a: Aperture) {
    0 < a.maxlen <= a.size && a.base + a.size < TWO64
  }

  /** Byte i of hs meets the card address of request offset o + i. */
  function StreamMoves(hs: seq<U64>, a: Aperture, o: nat): (ms: seq<Move>)
    requires ValidAperture(a)
    ensures |ms| == |hs|
  {
    seq<Move>(|hs|, i requires 0 <= i < |hs| => Move(hs[i], a.base + Phase(o + i, a.size)))
  }

  lemma {:induction false} StreamConcat(hs: seq<U64>, hs': seq<U64>, a: Aperture, o: nat)
    requires ValidAperture(a)
    ensures StreamMoves(hs + hs', a, o) == StreamMoves(hs, a, o) + StreamMoves(hs', a, o + |hs|)
  {
  }

  // ---------------------------------------------------------------------------------------
  // Cutting one entry

  /** n, cut down to each bound in turn. */
  function Clip(n: nat, bounds: seq<nat>): nat {
    if bounds == [] then n else Clip(Min(n, bounds[0]), bounds[1..])
  }

  lemma {:induction false} ClipTwice(n: nat, x: nat, y: nat)
    ensures Clip(n, [x, y]) == Min(Min(n, x), y)
  {
    assert [x, y][1..] == [y] && [y][1..] == [];
    assert Clip(n, [x, y]) == Clip(Min(n, x), [y]);
    assert Clip(Min(n, x), [y]) == Clip(Min(Min(n, x), y), []);
  }

  /** The length and address computation of the inner loop, r bytes into the window. */
  function CutPiece(addr: U64, left: U32, r: nat, a: Aperture): (p: Piece)
    requires ValidAperture(a) && r < a.size && left > 0
    ensures 0 < p.len <= left && p.addr == addr && p.ep == a.base + r && r + p.len <= a.size
  {
    ClipTwice(left, a.maxlen, a.size - r);
    Piece(addr, a.base + r, Clip(left, [a.maxlen, a.size - r]))
  }

  /** Where in the window the next piece starts: its end stands for its start. */
  function Advance(r: nat, len: nat, a: Aperture): (r': nat)
    requires ValidAperture(a) && r + len <= a.size
    ensures r' < a.size
  {
    if r + len == a.size then 0 else r + len
  }

  /** Some pieces, and where in the window the next one would start. */
  datatype Cut = Cut(ps: seq<Piece>, r: nat)

  /** The inner `while (tlen)`: pieces until the entry or the ring is used up. */
  function CutEntry(addr: U64, tlen: U32, r: nat, a: Aperture, slots: nat): (c: Cut)
    requires ValidAperture(a) && r < a.size
    ensures |c.ps| <= slots && c.r < a.size
    decreases slots
  {
    if tlen == 0 || slots == 0 then Cut([], r)
    else
      var p := CutPiece(addr, tlen, r, a);
      var c := CutEntry(Wrap64(addr + p.len), tlen - p.len, Advance(r, p.len, a), a, slots - 1);
      Cut([p] + c.ps, c.r)
  }

  /** The pieces' host bytes follow each other from addr on. */
  ghost predicate Contig(ps: seq<Piece>, addr: U64) {
    ps == [] || (ps[0].addr == addr && Contig(ps[1..], Wrap64(addr + ps[0].len)))
  }

  /** The pieces start at the card addresses of request offsets from o on, and stay in the window. */
  ghost predicate Phased(ps: seq<Piece>, a: Aperture, o: nat)
    requires ValidAperture(a)
    decreases |ps|
  {
    ps == [] || (InPhase(ps[0], a, o) && Phased(ps[1..], a, o + ps[0].len))
  }

  /** A piece that starts at the card address of offset o and stays in the window. */
  ghost predicate InPhase(p: Piece, a: Aperture, o: nat)
    requires ValidAperture(a)
  {
    0 < p.len && p.ep == a.base + Phase(o, a.size) && Phase(o, a.size) + p.len <= a.size
  }

  lemma {:induction false} LenCons(p: Piece, ps: seq<Piece>)
    ensures PiecesLen([p] + ps) == p.len + PiecesLen(ps)
  {
    assert ([p] + ps)[1..] == ps;
  }

  lemma {:induction false} ContigCons(p: Piece, ps: seq<Piece>, addr: U64)
    requires p.addr == addr && Contig(ps, Wrap64(addr + p.len))
    ensures Contig([p] + ps, addr)
  {
    assert ([p] + ps)[1..] == ps;
  }

  /** What the inner loop cuts: consecutive bytes, all of them unless the ring ends. */
  lemma {:induction false} CutEntryBytes(addr: U64, tlen: U32, r: nat, a: Aperture, slots: nat)
    requires ValidAperture(a) && r < a.size
    ensures var ps := CutEntry(addr, tlen, r, a, slots).ps;
      && Contig(ps, addr) && PiecesLen(ps) <= tlen
      && (PiecesLen(ps) < tlen ==> |ps| == slots)
      && (ps == [] <==> tlen == 0 || slots == 0)
      && |ps| <= PiecesLen(ps)
    decreases slots
  {
    if tlen > 0 && slots > 0 {
      var p := CutPiece(addr, tlen, r, a);
      var rest := CutEntry(Wrap64(addr + p.len), tlen - p.len, Advance(r, p.len, a), a, slots - 1).ps;
      CutEntryBytes(Wrap64(addr + p.len), tlen - p.len, Advance(r, p.len, a), a, slots - 1);
      assert CutEntry(addr, tlen, r, a, slots).ps == [p] + rest;
      LenCons(p, rest);
      ContigCons(p, rest, addr);
    }
  }

  /** And where they go, if the place in the window is that of offset o. */
  lemma {:induction false} CutEntryPhased(addr: U64, tlen: U32, r: nat, a: Aperture, slots: nat, o: nat)
    requires ValidAperture(a) && r == Phase(o, a.size)
    ensures var c := CutEntry(addr, tlen, r, a, slots);
      Phased(c.ps, a, o) && c.r == Phase(o + PiecesLen(c.ps), a.size)
    decreases slots
  {
    if tlen > 0 && slots > 0 {
      var p := CutPiece(addr, tlen, r, a);
      var addr', tlen', r', slots' := Wrap64(addr + p.len), tlen - p.len, Advance(r, p.len, a), slots - 1;
      var c := CutEntry(addr', tlen', r', a, slots');
      CutCons(addr, tlen, r, a, slots, p, addr', tlen', r', slots', c);
      var o' := o + p.len;
      assert r' == Phase(o', a.size) by {
        PhaseNext(o, p.len, a.size);
      }
      CutEntryPhased(addr', tlen', r', a, slots', o');
      CutConsPhased(p, c, a, o, o');
    }
  }

  lemma {:induction false} CutConsPhased(p: Piece, c: Cut, a: Aperture, o: nat, o': nat)
    requires ValidAperture(a) && InPhase(p, a, o) && o' == o + p.len
    requires Phased(c.ps, a, o') && c.r == Phase(o' + PiecesLen(c.ps), a.size)
    ensures Phased([p] + c.ps, a, o) && c.r == Phase(o + PiecesLen([p] + c.ps), a.size)
  {
    LenCons(p, c.ps);
    assert ([p] + c.ps)[1..] == c.ps;
  }

  /** A piece that could not be longer: it has the longest length allowed, or ends with the window. */
  ghost predicate Full(p: Piece, a: Aperture) {
    p.len == a.maxlen || p.ep + p.len == a.base + a.size
  }

  ghost predicate AllFull(ps: seq<Piece>, a: Aperture) {
    ps == [] || (Full(ps[0], a) && AllFull(ps[1..], a))
  }

  ghost predicate Bounded(ps: seq<Piece>, a: Aperture) {
    ps == [] || (0 < ps[0].len <= a.maxlen && Bounded(ps[1..], a))
  }

  lemma {:induction false} BoundedAt(ps: seq<Piece>, a: Aperture, k: nat)
    requires Bounded(ps, a) && k < |ps|
    ensures 0 < ps[k].len <= a.maxlen
    decreases |ps|
  {
    if k > 0 {
      BoundedAt(ps[1..], a, k - 1);
    }
  }

  /** What is cut of an entry, as long as possible: all pieces are full, but the one that uses it up. */
  ghost predicate GreedyCut(ps: seq<Piece>, a: Aperture, usedUp: bool) {
    Bounded(ps, a) && AllFull(if usedUp && ps != [] then ps[..|ps| - 1] else ps, a)
  }

  lemma {:induction false} GreedyCons(p: Piece, rest: seq<Piece>, a: Aperture, usedUp: bool)
    requires 0 < p.len <= a.maxlen && (Full(p, a) || (usedUp && rest == []))
    requires GreedyCut(rest, a, usedUp)
    ensures GreedyCut([p] + rest, a, usedUp)
  {
    var ps := [p] + rest;
    assert ps[1..] == rest;
    if rest == [] {
      assert ps[..|ps| - 1] == [];
    } else {
      assert ps[..|ps| - 1][1..] == rest[..|rest| - 1];
    }
  }

  lemma {:induction false} GreedyTail(g: seq<Piece>, a: Aperture, usedUp: bool)
    requires GreedyCut(g, a, usedUp) && g != []
    ensures 0 < g[0].len <= a.maxlen && (Full(g[0], a) || (usedUp && g == [g[0]]))
    ensures GreedyCut(g[1..], a, usedUp)
  {
    if usedUp && |g| > 1 {
      assert g[..|g| - 1][1..] == g[1..][..|g[1..]| - 1];
    }
  }

  /** The inner loop cuts greedily, ... */
  lemma {:induction false} CutEntryGreedy(addr: U64, tlen: U32, r: nat, a: Aperture, slots: nat)
    requires ValidAperture(a) && r < a.size
    ensures var ps := CutEntry(addr, tlen, r, a, slots).ps; GreedyCut(ps, a, PiecesLen(ps) == tlen)
    decreases slots
  {
    if tlen > 0 && slots > 0 {
      var p := CutPiece(addr, tlen, r, a);
      var addr', tlen', r', slots' := Wrap64(addr + p.len), tlen - p.len, Advance(r, p.len, a), slots - 1;
      var c := CutEntry(addr', tlen', r', a, slots');
      CutCons(addr, tlen, r, a, slots, p, addr', tlen', r', slots', c);
      CutEntryGreedy(addr', tlen', r', a, slots');
      LenCons(p, c.ps);
      PieceLongest(addr, tlen, r, a);
      GreedyCons(p, c.ps, a, PiecesLen(c.ps) == tlen');
    }
  }

  lemma {:induction false} PieceLongest(addr: U64, left: U32, r: nat, a: Aperture)
    requires ValidAperture(a) && r < a.size && left > 0
    ensures var p := CutPiece(addr, left, r, a); p.len <= a.maxlen && (p.len == left || Full(p, a))
  {
    ClipTwice(left, a.maxlen, a.size - r);
  }

  /** ... and is the only way to do so. */
  lemma {:induction false} CutUnique(addr: U64, tlen: U32, r: nat, a: Aperture, slots: nat, o: nat, g: seq<Piece>)
    requires ValidAperture(a) && r == Phase(o, a.size)
    requires Contig(g, addr) && Phased(g, a, o) && GreedyCut(g, a, PiecesLen(g) == tlen)
    requires PiecesLen(g) <= tlen && |g| <= slots && (PiecesLen(g) < tlen ==> |g| == slots)
    ensures CutEntry(addr, tlen, r, a, slots).ps == g
    decreases slots
  {
    if g == [] {
      assert tlen == 0 || slots == 0;
    } else {
      var p, rest := g[0], g[1..];
      GreedyTail(g, a, PiecesLen(g) == tlen);
      OnlyPiece(addr, tlen, r, a, o, p, PiecesLen(rest));
      var addr', tlen', r', slots', o' := Wrap64(addr + p.len), tlen - p.len, Advance(r, p.len, a), slots - 1, o + p.len;
      PhaseNext(o, p.len, a.size);
      CutUnique(addr', tlen', r', a, slots', o', rest);
      CutCons(addr, tlen, r, a, slots, p, addr', tlen', r', slots', CutEntry(addr', tlen', r', a, slots'));
    }
  }

  lemma {:induction false} OnlyPiece(addr: U64, tlen: U32, r: nat, a: Aperture, o: nat, p: Piece, more: nat)
    requires ValidAperture(a) && r == Phase(o, a.size) && InPhase(p, a, o) && p.addr == addr
    requires p.len <= a.maxlen && p.len + more <= tlen && (Full(p, a) || p.len == tlen)
    ensures CutPiece(addr, tlen, r, a) == p
  {
    ClipTwice(tlen, a.maxlen, a.size - r);
  }

  /** The host bytes of some pieces, in order. */
  function HostOf(ps: seq<Piece>): (hs: seq<U64>)
    ensures |hs| == PiecesLen(ps)
  {
    if ps == [] then []
    else Span(ps[0].addr, ps[0].len) + HostOf(ps[1..])
  }

  lemma {:induction false} HostOfConcat(ps: seq<Piece>, qs: seq<Piece>)
    ensures HostOf(ps + qs) == HostOf(ps) + HostOf(qs)
    decreases |ps|
  {
    if ps == [] {
      assert ps + qs == qs;
    } else {
      assert (ps + qs)[1..] == ps[1..] + qs;
      HostOfConcat(ps[1..], qs);
    }
  }

  /** Contiguous pieces are one span of host bytes. */
  lemma {:induction false} ContigHost(ps: seq<Piece>, addr: U64)
    requires Contig(ps, addr)
    ensures HostOf(ps) == Span(addr, PiecesLen(ps))
    decreases |ps|
  {
    if ps != [] {
      var p, rest := ps[0], ps[1..];
      ContigHost(rest, Wrap64(addr + p.len));
      SpanSplit(addr, p.len, PiecesLen(rest));
    }
  }

  lemma {:induction false} PieceStream(p: Piece, a: Aperture, o: nat)
    requires ValidAperture(a) && InPhase(p, a, o)
    ensures PieceMoves(p) == StreamMoves(Span(p.addr, p.len), a, o)
  {
    var got, want := PieceMoves(p), StreamMoves(Span(p.addr, p.len), a, o);
    forall i | 0 <= i < p.len
      ensures got[i] == want[i]
    {
      CardByte(p, a, o, i);
      assert got[i] == Move(Wrap64(p.addr + i), Wrap64(p.ep + i));
      assert want[i] == Move(Span(p.addr, p.len)[i], a.base + Phase(o + i, a.size));
    }
  }

  lemma {:induction false} CardByte(p: Piece, a: Aperture, o: nat, i: nat)
    requires ValidAperture(a) && InPhase(p, a, o) && i < p.len
    ensures Wrap64(p.ep + i) == a.base + Phase(o + i, a.size)
  {
    PhaseWithin(o, i, a.size);
  }

  /** Pieces in phase stream their host bytes. */
  lemma {:induction false} PhasedMoves(ps: seq<Piece>, a: Aperture, o: nat)
    requires ValidAperture(a) && Phased(ps, a, o)
    ensures AllMoves(ps) == StreamMoves(HostOf(ps), a, o)
    decreases |ps|
  {
    if ps != [] {
      var p, rest := ps[0], ps[1..];
      PhasedMoves(rest, a, o + p.len);
      PieceStream(p, a, o);
      assert AllMoves(ps) == PieceMoves(p) + AllMoves(rest) by {
        assert ps == [p] + rest;
        AllMovesConcat([p], rest);
        OneMoves(p);
      }
      StreamConcat(Span(p.addr, p.len), HostOf(rest), a, o);
    }
  }

  lemma {:induction false} OneMoves(p: Piece)
    ensures AllMoves([p]) == PieceMoves(p)
  {
    assert [p][..0] == [];
    assert AllMoves([]) + PieceMoves(p) == PieceMoves(p);
  }

  // ---------------------------------------------------------------------------------------
  // Sweeping a list

  /**
   * What a pass cuts, entry by entry: an entry used up and what follows, an entry it stops in with
   * the byte it got to, or nothing more, with the byte it would start from.
   */
  datatype Pass =
    | Whole(g: seq<Piece>, rest: Pass)
    | Part(g: seq<Piece>, x: nat)
    | Rest(x: nat)
  {
    function Cuts(): seq<Piece> {
      match this
      case Whole(g, rest) => g + rest.Cuts()
      case Part(g, _) => g
      case Rest(_) => []
    }

    /** How many entries it uses up. */
    function Full(): nat {
      match this
      case Whole(_, rest) => rest.Full() + 1
      case Part(_, _) => 0
      case Rest(_) => 0
    }

    /** How far it gets in the entry after those. */
    function Stop(): nat {
      match this
      case Whole(_, rest) => rest.Stop()
      case Part(_, x) => x
      case Rest(x) => x
    }
  }

  /** What is left of an entry from byte x on, in 32-bit arithmetic. */
  function Left(e: Extent, x: U32): U32 {
    Sub32(e.len, x)
  }

  /** The pieces of the first entry, from its byte x on. */
  function CutFirst(e: Extent, x: U32, r: nat, a: Aperture, slots: nat): (c: Cut)
    requires ValidAperture(a) && r < a.size
    ensures |c.ps| <= slots && c.r < a.size
  {
    CutEntry(Wrap64(e.addr + x), Left(e, x), r, a, slots)
  }

  /** The loop over scatter entries, from byte x of the first entry on. */
  function Sweep(list: seq<Extent>, x: U32, r: nat, a: Aperture, slots: nat): (s: Pass)
    requires ValidAperture(a) && r < a.size
    ensures s.Full() <= |list|
    decreases |list|
  {
    if list == [] || slots == 0 then Rest(x)
    else
      var c := CutFirst(list[0], x, r, a, slots);
      if PiecesLen(c.ps) < Left(list[0], x) then Part(c.ps, x + PiecesLen(c.ps))
      else Whole(c.ps, Sweep(list[1..], 0, c.r, a, slots - |c.ps|))
  }

  /** The pieces of one entry, cut from byte x on: consecutive, and not all only if the slots are used. */
  ghost predicate EntryCut(e: Extent, x: U32, g: seq<Piece>, slots: nat) {
    && Contig(g, Wrap64(e.addr + x))
    && |g| <= slots && PiecesLen(g) <= Left(e, x)
    && (PiecesLen(g) < Left(e, x) ==> g != [] && |g| == slots)
    && |g| <= PiecesLen(g)
  }

  lemma {:induction false} FirstCut(e: Extent, x: U32, r: nat, a: Aperture, slots: nat)
    requires ValidAperture(a) && r < a.size && slots > 0
    ensures EntryCut(e, x, CutFirst(e, x, r, a, slots).ps, slots)
  {
    CutEntryBytes(Wrap64(e.addr + x), Left(e, x), r, a, slots);
  }

  /** What a sweep takes from the host, whichever way its pieces are cut. */
  ghost predicate Takes(list: seq<Extent>, x: U32, slots: nat, r: Pass)
    decreases r
  {
    match r
    case Rest(x') => x' == x && (list == [] || slots == 0)
    case Part(g, x') =>
      list != [] && slots > 0 && EntryCut(list[0], x, g, slots) && PiecesLen(g) < Left(list[0], x) && x' == x + PiecesLen(g)
    case Whole(g, rest) =>
      list != [] && slots > 0 && EntryCut(list[0], x, g, slots) && PiecesLen(g) == Left(list[0], x)
      && Takes(list[1..], 0, slots - |g|, rest)
  }

  lemma {:induction false} SweepTakes(list: seq<Extent>, x: U32, r: nat, a: Aperture, slots: nat)
    requires ValidAperture(a) && r < a.size
    ensures Takes(list, x, slots, Sweep(list, x, r, a, slots))
    decreases |list|
  {
    if list != [] && slots > 0 {
      var c := CutFirst(list[0], x, r, a, slots);
      FirstCut(list[0], x, r, a, slots);
      if PiecesLen(c.ps) == Left(list[0], x) {
        SweepTakes(list[1..], 0, c.r, a, slots - |c.ps|);
      }
    }
  }

  lemma {:induction false} PhasedConcat(ps: seq<Piece>, qs: seq<Piece>, a: Aperture, o: nat)
    requires ValidAperture(a) && Phased(ps, a, o) && Phased(qs, a, o + PiecesLen(ps))
    ensures Phased(ps + qs, a, o)
    decreases |ps|
  {
    if ps == [] {
      assert ps + qs == qs;
    } else {
      PhasedConcat(ps[1..], qs, a, o + ps[0].len);
      assert (ps + qs)[1..] == ps[1..] + qs;
    }
  }

  /** Every piece of a sweep is in phase with the request offset. */
  lemma {:induction false} SweepPhased(list: seq<Extent>, x: U32, r: nat, a: Aperture, slots: nat, o: nat)
    requires ValidAperture(a) && r == Phase(o, a.size)
    ensures Phased(Sweep(list, x, r, a, slots).Cuts(), a, o)
    decreases |list|
  {
    if list != [] && slots > 0 {
      var c := CutFirst(list[0], x, r, a, slots);
      assert Phased(c.ps, a, o) && c.r == Phase(o + PiecesLen(c.ps), a.size) by {
        CutEntryPhased(Wrap64(list[0].addr + x), Left(list[0], x), r, a, slots, o);
      }
      if PiecesLen(c.ps) >= Left(list[0], x) {
        var rest := Sweep(list[1..], 0, c.r, a, slots - |c.ps|);
        assert Phased(rest.Cuts(), a, o + PiecesLen(c.ps)) by {
          SweepPhased(list[1..], 0, c.r, a, slots - |c.ps|, o + PiecesLen(c.ps));
        }
        PhasedConcat(c.ps, rest.Cuts(), a, o);
      }
    }
  }

  /** Every entry of the sweep is cut greedily. */
  ghost predicate Greedy(r: Pass, a: Aperture)
    decreases r
  {
    match r
    case Rest(_) => true
    case Part(g, _) => GreedyCut(g, a, false)
    case Whole(g, rest) => GreedyCut(g, a, true) && Greedy(rest, a)
  }

  lemma {:induction false} SweepGreedy(list: seq<Extent>, x: U32, r: nat, a: Aperture, slots: nat)
    requires ValidAperture(a) && r < a.size
    ensures Greedy(Sweep(list, x, r, a, slots), a)
    decreases |list|
  {
    if list != [] && slots > 0 {
      var c := CutFirst(list[0], x, r, a, slots);
      FirstCut(list[0], x, r, a, slots);
      CutEntryGreedy(Wrap64(list[0].addr + x), Left(list[0], x), r, a, slots);
      if PiecesLen(c.ps) >= Left(list[0], x) {
        SweepGreedy(list[1..], 0, c.r, a, slots - |c.ps|);
      }
    }
  }

  /** No descriptor of a greedy sweep is longer than allowed. */
  lemma {:induction false} GreedyBounded(r: Pass, a: Aperture)
    requires Greedy(r, a)
    ensures Bounded(r.Cuts(), a)
    decreases r
  {
    if r.Whole? {
      GreedyBounded(r.rest, a);
      BoundedConcat(r.g, r.rest.Cuts(), a);
    }
  }

  lemma {:induction false} BoundedConcat(ps: seq<Piece>, qs: seq<Piece>, a: Aperture)
    requires Bounded(ps, a) && Bounded(qs, a)
    ensures Bounded(ps + qs, a)
    decreases |ps|
  {
    if ps == [] {
      assert ps + qs == qs;
    } else {
      BoundedConcat(ps[1..], qs, a);
      assert (ps + qs)[1..] == ps[1..] + qs;
    }
  }

  lemma {:induction false} PhasedSplit(ps: seq<Piece>, qs: seq<Piece>, a: Aperture, o: nat)
    requires ValidAperture(a) && Phased(ps + qs, a, o)
    ensures Phased(ps, a, o) && Phased(qs, a, o + PiecesLen(ps))
    decreases |ps|
  {
    if ps == [] {
      assert ps + qs == qs;
    } else {
      assert (ps + qs)[1..] == ps[1..] + qs;
      PhasedSplit(ps[1..], qs, a, o + ps[0].len);
    }
  }

  lemma {:induction false} FirstUnique(e: Extent, x: U32, r: nat, a: Aperture, slots: nat, o: nat, g: seq<Piece>, o': nat,
                                       c: Cut)
    requires ValidAperture(a) && r == Phase(o, a.size) && slots > 0 && o' == o + PiecesLen(g)
    requires EntryCut(e, x, g, slots) && Phased(g, a, o) && GreedyCut(g, a, PiecesLen(g) == Left(e, x))
    requires c == CutFirst(e, x, r, a, slots)
    ensures c.ps == g && c.r == Phase(o', a.size)
  {
    CutUnique(Wrap64(e.addr + x), Left(e, x), r, a, slots, o, g);
    CutEntryPhased(Wrap64(e.addr + x), Left(e, x), r, a, slots, o);
  }

  /** What a sweep takes, where it puts it, and that it is greedy: only one sweep is all of this. */
  lemma {:induction false} SweepUnique(list: seq<Extent>, x: U32, r: nat, a: Aperture, slots: nat, o: nat, s: Pass)
    requires ValidAperture(a) && r == Phase(o, a.size)
    requires Takes(list, x, slots, s) && Phased(s.Cuts(), a, o) && Greedy(s, a)
    ensures s == Sweep(list, x, r, a, slots)
    decreases s
  {
    if !s.Rest? {
      var c, o', slots' := CutFirst(list[0], x, r, a, slots), o + PiecesLen(s.g), slots - |s.g|;
      if s.Whole? {
        PhasedSplit(s.g, s.rest.Cuts(), a, o);
        FirstUnique(list[0], x, r, a, slots, o, s.g, o', c);
        SweepUnique(list[1..], 0, c.r, a, slots', o', s.rest);
      } else {
        FirstUnique(list[0], x, r, a, slots, o, s.g, o', c);
      }
      SweepHead(list, x, r, a, slots, slots', c);
    }
  }

  /** The first entry of a sweep. */
  lemma {:induction false} SweepHead(list: seq<Extent>, x: U32, r: nat, a: Aperture, slots: nat, slots': nat, c: Cut)
    requires ValidAperture(a) && r < a.size && list != [] && slots > 0
    requires c == CutFirst(list[0], x, r, a, slots) && slots' == slots - |c.ps|
    ensures Sweep(list, x, r, a, slots)
         == if PiecesLen(c.ps) < Left(list[0], x) then Part(c.ps, x + PiecesLen(c.ps))
            else Whole(c.ps, Sweep(list[1..], 0, c.r, a, slots'))
  {
  }

  /** A sweep ends at the end of the list or of the ring. */
  lemma {:induction false} TakesStops(list: seq<Extent>, x: U32, slots: nat, r: Pass)
    requires Takes(list, x, slots, r)
    ensures r.Full() <= |list| && |r.Cuts()| <= slots
    ensures r.Full() == |list| || |r.Cuts()| == slots
    decreases r
  {
    if r.Whole? {
      TakesStops(list[1..], 0, slots - |r.g|, r.rest);
    }
  }

  /** Each piece carries a byte at least. */
  lemma {:induction false} TakesMoves(list: seq<Extent>, x: U32, slots: nat, r: Pass)
    requires Takes(list, x, slots, r)
    ensures |r.Cuts()| <= PiecesLen(r.Cuts())
    decreases r
  {
    if r.Whole? {
      TakesMoves(list[1..], 0, slots - |r.g|, r.rest);
      PiecesLenConcat(r.g, r.rest.Cuts());
    }
  }

  // ---------------------------------------------------------------------------------------
  // When a sweep cuts the right entries

  /**
   * The pass carries the bytes of these entries from byte x of the first on: what it cuts from each
   * entry is contiguous from where it should start, and the entry is left exactly when it is used up.
   */
  ghost predicate Right(meant: seq<Extent>, x: nat, r: Pass)
    decreases r
  {
    match r
    case Rest(x') => x' == x
    case Part(g, x') =>
      meant != [] && Contig(g, Wrap64(meant[0].addr + x)) && x' == x + PiecesLen(g) < meant[0].len
    case Whole(g, rest) =>
      meant != [] && Contig(g, Wrap64(meant[0].addr + x)) && x + PiecesLen(g) == meant[0].len
      && Right(meant[1..], 0, rest)
  }

  ghost predicate SameEntry(e: Extent, e': Extent) {
    e.len == e'.len && (e.len > 0 ==> e.addr == e'.addr)
  }

  /**
   * What a sweep of the meant entries would cut could as well be cut from the entries seen: these
   * agree in address and length where it uses them up; where it stops, they agree in address and
   * hold more than it takes.
   */
  ghost predicate Agree(seen: seq<Extent>, meant: seq<Extent>, x: U32, m: Pass)
    decreases m
  {
    match m
    case Rest(_) => true
    case Part(g, _) =>
      seen != [] && meant != [] && seen[0].addr == meant[0].addr && PiecesLen(g) < Left(seen[0], x)
    case Whole(_, rest) =>
      seen != [] && meant != [] && SameEntry(seen[0], meant[0]) && Agree(seen[1..], meant[1..], 0, rest)
  }

  lemma {:induction false} SameByte(a: U64, b: U64, x: nat)
    ensures Wrap64(a + x) == Wrap64(b + x) <==> a == b
  {
    if a < b {
      WrapDistinct(x, a, b);
    } else if b < a {
      WrapDistinct(x, b, a);
    }
  }

  /** In 32-bit arithmetic, the rest of an entry of length l ends where one of length m ends. */
  lemma {:induction false} RestOfEntry(l: U32, m: U32, x: U32)
    requires x == 0 || x < m
    ensures x + Sub32(l, x) == m <==> l == m
  {
    if l < x {
      assert Sub32(l, x) == l - x + TWO32;
    } else {
      assert Sub32(l, x) == l - x;
    }
  }

  lemma {:induction false} ContigAt(g: seq<Piece>, a: U64, b: U64, x: nat)
    requires Contig(g, Wrap64(a + x))
    ensures Contig(g, Wrap64(b + x)) <==> g == [] || a == b
  {
    SameByte(a, b, x);
  }

  /** As long as neither entry is used up, its length does not matter. */
  lemma {:induction false} CutLonger(addr: U64, t: U32, t': U32, r: nat, a: Aperture, slots: nat, c: Cut)
    requires ValidAperture(a) && r < a.size
    requires c == CutEntry(addr, t, r, a, slots) && PiecesLen(c.ps) < t && PiecesLen(c.ps) < t'
    ensures CutEntry(addr, t', r, a, slots) == c
    decreases slots
  {
    if slots > 0 {
      var p := CutPiece(addr, t, r, a);
      var addr', r', slots', u, u' := Wrap64(addr + p.len), Advance(r, p.len, a), slots - 1, t - p.len, t' - p.len;
      var rest := CutEntry(addr', u, r', a, slots');
      CutCons(addr, t, r, a, slots, p, addr', u, r', slots', rest);
      assert PiecesLen(c.ps) == p.len + PiecesLen(rest.ps) by {
        LenCons(p, rest.ps);
      }
      assert CutPiece(addr, t', r, a) == p by {
        PieceLonger(addr, t, t', r, a);
      }
      CutLonger(addr', u, u', r', a, slots', rest);
      CutCons(addr, t', r, a, slots, p, addr', u', r', slots', rest);
    }
  }

  /** The first piece of an entry, and the rest. */
  lemma {:induction false} CutCons(addr: U64, t: U32, r: nat, a: Aperture, slots: nat, p: Piece, addr': U64, u: U32,
                                   r': nat, slots': nat, rest: Cut)
    requires ValidAperture(a) && r < a.size && t > 0 && slots == slots' + 1 && p == CutPiece(addr, t, r, a)
    requires addr' == Wrap64(addr + p.len) && u == t - p.len && r' == Advance(r, p.len, a)
    requires rest == CutEntry(addr', u, r', a, slots')
    ensures CutEntry(addr, t, r, a, slots) == Cut([p] + rest.ps, rest.r)
  {
  }

  lemma {:induction false} PieceLonger(addr: U64, t: U32, t': U32, r: nat, a: Aperture)
    requires ValidAperture(a) && r < a.size && t > 0
    requires CutPiece(addr, t, r, a).len < t && CutPiece(addr, t, r, a).len < t'
    ensures CutPiece(addr, t', r, a) == CutPiece(addr, t, r, a)
  {
    ClipTwice(t, a.maxlen, a.size - r);
    ClipTwice(t', a.maxlen, a.size - r);
  }

  lemma {:induction false} CutNothing(addr: U64, addr': U64, r: nat, a: Aperture, slots: nat)
    requires ValidAperture(a) && r < a.size
    ensures CutEntry(addr, 0, r, a, slots) == CutEntry(addr', 0, r, a, slots)
  {
  }

  /** Entries that agree are cut alike. */
  lemma {:induction false} SameCut(e: Extent, e': Extent, x: U32, r: nat, a: Aperture, slots: nat)
    requires ValidAperture(a) && r < a.size && SameEntry(e, e') && (x > 0 ==> x < e'.len)
    ensures Left(e, x) == Left(e', x) && CutFirst(e, x, r, a, slots) == CutFirst(e', x, r, a, slots)
  {
    if e.len == 0 {
      CutNothing(Wrap64(e.addr + x), Wrap64(e'.addr + x), r, a, slots);
    }
  }

  /** So are entries at one address of which neither is used up. */
  lemma {:induction false} SamePart(e: Extent, e': Extent, x: U32, r: nat, a: Aperture, slots: nat)
    requires ValidAperture(a) && r < a.size && e.addr == e'.addr
    requires var n := PiecesLen(CutFirst(e, x, r, a, slots).ps); n < Left(e, x) && n < Left(e', x)
    ensures CutFirst(e', x, r, a, slots) == CutFirst(e, x, r, a, slots)
  {
    CutLonger(Wrap64(e.addr + x), Left(e, x), Left(e', x), r, a, slots, CutFirst(e, x, r, a, slots));
  }

  /** If the entries agree, the sweep of the one list is the sweep of the other. */
  lemma {:induction false} AgreeSame(seen: seq<Extent>, meant: seq<Extent>, x: U32, r: nat, a: Aperture, slots: nat)
    requires ValidAperture(a) && r < a.size && |seen| == |meant|
    requires x > 0 ==> meant != [] && x < meant[0].len
    requires Agree(seen, meant, x, Sweep(meant, x, r, a, slots))
    ensures Sweep(seen, x, r, a, slots) == Sweep(meant, x, r, a, slots)
    decreases |meant|
  {
    if meant != [] && slots > 0 {
      var c := CutFirst(meant[0], x, r, a, slots);
      if PiecesLen(c.ps) < Left(meant[0], x) {
        SamePart(meant[0], seen[0], x, r, a, slots);
      } else {
        SameCut(seen[0], meant[0], x, r, a, slots);
        AgreeSame(seen[1..], meant[1..], 0, c.r, a, slots - |c.ps|);
      }
    }
  }

  /** One entry of the converse. */
  lemma {:induction false} EntryRight(e: Extent, m: Extent, x: U32, g: seq<Piece>, slots: nat)
    requires EntryCut(e, x, g, slots) && (x > 0 ==> x < m.len) && Contig(g, Wrap64(m.addr + x))
    ensures PiecesLen(g) == Left(e, x) && x + PiecesLen(g) == m.len ==> SameEntry(e, m)
    ensures PiecesLen(g) < Left(e, x) ==> e.addr == m.addr
  {
    ContigAt(g, e.addr, m.addr, x);
    RestOfEntry(e.len, m.len, x);
  }

  /** An entry that a right pass stops in, ... */
  lemma {:induction false} RightPart(e: Extent, m: Extent, x: U32, r: nat, a: Aperture, slots: nat, c: Cut)
    requires ValidAperture(a) && r < a.size && slots > 0 && c == CutFirst(e, x, r, a, slots)
    requires Contig(c.ps, Wrap64(m.addr + x)) && PiecesLen(c.ps) < Left(e, x) && x + PiecesLen(c.ps) < m.len
    ensures e.addr == m.addr && PiecesLen(c.ps) < Left(m, x) && CutFirst(m, x, r, a, slots) == c
  {
    FirstCut(e, x, r, a, slots);
    EntryRight(e, m, x, c.ps, slots);
    SamePart(e, m, x, r, a, slots);
  }

  /** ... and one it uses up. */
  lemma {:induction false} RightWhole(e: Extent, m: Extent, x: U32, r: nat, a: Aperture, slots: nat, c: Cut)
    requires ValidAperture(a) && r < a.size && slots > 0 && c == CutFirst(e, x, r, a, slots)
    requires (x > 0 ==> x < m.len) && Contig(c.ps, Wrap64(m.addr + x))
    requires PiecesLen(c.ps) >= Left(e, x) && x + PiecesLen(c.ps) == m.len
    ensures SameEntry(e, m) && PiecesLen(c.ps) >= Left(m, x) && CutFirst(m, x, r, a, slots) == c
  {
    FirstCut(e, x, r, a, slots);
    EntryRight(e, m, x, c.ps, slots);
    SameCut(e, m, x, r, a, slots);
  }

  /** A sweep that is right agrees, and is the sweep that was meant. */
  lemma {:induction false} RightSame(seen: seq<Extent>, meant: seq<Extent>, x: U32, r: nat, a: Aperture, slots: nat,
                                     s: Pass)
    requires ValidAperture(a) && r < a.size && |seen| == |meant|
    requires x > 0 ==> meant != [] && x < meant[0].len
    requires s == Sweep(seen, x, r, a, slots) && Right(meant, x, s)
    ensures s == Sweep(meant, x, r, a, slots) && Agree(seen, meant, x, s)
    decreases |seen|
  {
    if seen != [] && slots > 0 {
      var c := CutFirst(seen[0], x, r, a, slots);
      if PiecesLen(c.ps) < Left(seen[0], x) {
        RightPart(seen[0], meant[0], x, r, a, slots, c);
      } else {
        RightWhole(seen[0], meant[0], x, r, a, slots, c);
        RightSame(seen[1..], meant[1..], 0, c.r, a, slots - |c.ps|, s.rest);
      }
    }
  }

  /** A sweep cuts the entries it reads, if it starts inside the first of them. */
  lemma {:induction false} TakesRight(list: seq<Extent>, x: U32, slots: nat, r: Pass)
    requires Takes(list, x, slots, r) && (list != [] ==> x <= list[0].len)
    ensures Right(list, x, r)
    decreases r
  {
    if r.Whole? {
      TakesRight(list[1..], 0, slots - |r.g|, r.rest);
    }
  }

  /** Where a right pass ends. */
  lemma {:induction false} RightEnds(sg: seq<Extent>, i: nat, x: nat, r: Pass, h: nat, e: nat)
    requires i <= |sg| && Right(sg[i..], x, r) && e == i + r.Full()
    requires h == TotalLen(sg[..i]) + x <= TotalLen(sg)
    requires x > 0 ==> i < |sg| && x < sg[i].len
    ensures e <= |sg| && h + PiecesLen(r.Cuts()) == TotalLen(sg[..e]) + r.Stop() <= TotalLen(sg)
    ensures r.Stop() > 0 ==> e < |sg| && r.Stop() < sg[e].len
    decreases r
  {
    if !r.Rest? {
      var i', h' := i + 1, h + PiecesLen(r.g);
      assert sg[i..][0] == sg[i] && sg[i..][1..] == sg[i'..];
      if r.Whole? {
        EntryUsedUp(sg, i, i', x, r.g, h, h');
        RightEnds(sg, i', 0, r.rest, h', e);
        PiecesLenConcat(r.g, r.rest.Cuts());
      } else {
        TotalLenSplit(sg, i);
      }
    }
  }

  lemma {:induction false} EntryUsedUp(sg: seq<Extent>, i: nat, i': nat, x: nat, g: seq<Piece>, h: nat, h': nat)
    requires i < |sg| && i' == i + 1 && x + PiecesLen(g) == sg[i].len
    requires h == TotalLen(sg[..i]) + x && h' == h + PiecesLen(g)
    ensures h' == TotalLen(sg[..i']) <= TotalLen(sg)
  {
    TotalLenTake(sg, i);
    TotalLenSplit(sg, i);
  }

  /** A right pass carries the request's bytes, from its byte h on. */
  lemma {:induction false} RightHost(sg: seq<Extent>, i: nat, x: nat, r: Pass, h: nat)
    requires i <= |sg| && Right(sg[i..], x, r)
    requires h == TotalLen(sg[..i]) + x <= TotalLen(sg)
    ensures Carries(HostBytes(sg), r.Cuts(), h)
    decreases r
  {
    if !r.Rest? {
      var i', h' := i + 1, h + PiecesLen(r.g);
      assert sg[i..][0] == sg[i] && sg[i..][1..] == sg[i'..];
      GroupHost(sg, i, x, r.g, h);
      if r.Whole? {
        EntryUsedUp(sg, i, i', x, r.g, h, h');
        RightHost(sg, i', 0, r.rest, h');
        JoinBytes(HostBytes(sg), r.g, r.rest.Cuts(), h, h');
      }
    }
  }

  /** The host bytes of the pieces are those from byte h on. */
  ghost predicate Carries(host: seq<U64>, ps: seq<Piece>, h: nat) {
    h + PiecesLen(ps) <= |host| && HostOf(ps) == host[h..h + PiecesLen(ps)]
  }

  lemma {:induction false} GroupHost(sg: seq<Extent>, i: nat, x: nat, g: seq<Piece>, h: nat)
    requires i < |sg| && Contig(g, Wrap64(sg[i].addr + x)) && x + PiecesLen(g) <= sg[i].len
    requires h == TotalLen(sg[..i]) + x
    ensures Carries(HostBytes(sg), g, h)
  {
    ContigHost(g, Wrap64(sg[i].addr + x));
    SpanInRequest(sg, i, x, PiecesLen(g), h);
  }

  lemma {:induction false} JoinBytes(host: seq<U64>, g: seq<Piece>, qs: seq<Piece>, h: nat, h': nat)
    requires h' == h + PiecesLen(g) && Carries(host, g, h) && Carries(host, qs, h')
    ensures Carries(host, g + qs, h)
  {
    PiecesLenConcat(g, qs);
    HostOfConcat(g, qs);
    JoinSlices(host, h, h', h' + PiecesLen(qs));
  }

  lemma {:induction false} JoinSlices(host: seq<U64>, i: nat, j: nat, k: nat)
    requires i <= j <= k <= |host|
    ensures host[i..j] + host[j..k] == host[i..k]
  {
  }

  lemma {:induction false} SpanInRequest(sg: seq<Extent>, i: nat, x: nat, n: nat, h: nat)
    requires i < |sg| && x + n <= sg[i].len && h == TotalLen(sg[..i]) + x
    ensures h + n <= TotalLen(sg) && HostBytes(sg)[h..h + n] == Span(Wrap64(sg[i].addr + x), n)
  {
    var u, v, w := HostBytes(sg[..i]), Span(sg[i].addr, sg[i].len), HostBytes(sg[i + 1..]);
    assert HostBytes(sg) == u + v + w by {
      HostBytesSplit(sg, i);
    }
    SliceMiddle(u, v, w, x, n);
    SpanSlice(sg[i].addr, sg[i].len, x, n);
  }

  lemma {:induction false} SliceMiddle(u: seq<U64>, v: seq<U64>, w: seq<U64>, x: nat, n: nat)
    requires x + n <= |v|
    ensures (u + v + w)[|u| + x..|u| + x + n] == v[x..x + n]
  {
  }

  lemma {:induction false} SpanSlice(a: U64, m: nat, x: nat, n: nat)
    requires x + n <= m
    ensures Span(a, m)[x..x + n] == Span(Wrap64(a + x), n)
  {
    SpanSplit(a, x, m - x);
    SpanSplit(Wrap64(a + x), n, m - x - n);
  }
}
