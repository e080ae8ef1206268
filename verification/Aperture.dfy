/**
 * One pass of xdma_xfer_aperture, from the request's cursors.  A pass that continues a request reads
 * the scatter list from its first entry again, although it counts from entry sg_idx on.
 */
module Apertures {
  import opened Words
  import opened Memory
  import opened Runs
  import opened Sweeps

  /** The request's cursors: offset, sg_idx and sg_offset. */
  datatype Spot = Spot(offset: U32, sgIdx: nat, sgOffset: U32)

  const START := Spot(0, 0, 0)

  /** The offset is the position (sgIdx, sgOffset) of the scatter list, counted in bytes. */
  ghost predicate At(sg: seq<Extent>, c: Spot) {
    && c.sgIdx <= |sg|
    && c.offset == TotalLen(sg[..c.sgIdx]) + c.sgOffset
    && (c.sgOffset > 0 ==> c.sgIdx < |sg| && c.sgOffset < sg[c.sgIdx].len)
  }

  lemma {:induction false} BitAndBound(x: nat, y: nat)
    ensures BitAnd(x, y) <= y
    decreases x
  {
    if x != 0 && y != 0 {
      BitAndBound(x / 2, y / 2);
    }
  }

  /** How far into the window a pass starts. */
  function PassStart(c: Spot, a: Aperture): (r: nat)
    requires ValidAperture(a)
    ensures r < a.size
  {
    BitAndBound(c.offset, a.size - 1);
    BitAnd(c.offset, a.size - 1)
  }

  /** The entries a pass reads, from the first on, and those it is meant to read, from sg_idx on. */
  function Seen(sg: seq<Extent>, c: Spot): (list: seq<Extent>)
    requires c.sgIdx <= |sg|
    ensures |list| == |sg| - c.sgIdx
  {
    sg[..|sg| - c.sgIdx]
  }

  function Meant(sg: seq<Extent>, c: Spot): (list: seq<Extent>)
    requires c.sgIdx <= |sg|
    ensures |list| == |sg| - c.sgIdx
  {
    sg[c.sgIdx..]
  }

  /** The pass entered at c, with some slots of the ring left. */
  function PassFrom(sg: seq<Extent>, c: Spot, a: Aperture, slots: nat): (r: Pass)
    requires ValidAperture(a) && c.sgIdx <= |sg|
    ensures c.sgIdx + r.Full() <= |sg|
  {
    Sweep(Seen(sg, c), c.sgOffset, PassStart(c, a), a, slots)
  }

  /** The pass that was meant: the same loops, had sg been advanced together with sg_idx. */
  function MeantPass(sg: seq<Extent>, c: Spot, a: Aperture, slots: nat): (m: Pass)
    requires ValidAperture(a) && c.sgIdx <= |sg|
    ensures c.sgIdx + m.Full() <= |sg|
  {
    Sweep(Meant(sg, c), c.sgOffset, PassStart(c, a), a, slots)
  }

  /** Where a pass leaves the cursors. */
  function Onward(c: Spot, r: Pass): Spot {
    Spot(Wrap32(c.offset + PiecesLen(r.Cuts())), c.sgIdx + r.Full(), Wrap32(r.Stop()))
  }

  ghost predicate RightPass(sg: seq<Extent>, c: Spot, r: Pass)
    requires c.sgIdx <= |sg|
  {
    Right(Meant(sg, c), c.sgOffset, r)
  }

  /** What a pass entered at c, with some slots left, takes from the host. */
  ghost predicate IsPass(sg: seq<Extent>, c: Spot, slots: nat, r: Pass)
    requires c.sgIdx <= |sg|
  {
    Takes(Seen(sg, c), c.sgOffset, slots, r)
  }

  /** A pass takes what Takes says, and its pieces are in phase with its offset. */
  lemma {:induction false} PassIs(sg: seq<Extent>, c: Spot, a: Aperture, slots: nat)
    requires ValidAperture(a) && c.sgIdx <= |sg|
    ensures IsPass(sg, c, slots, PassFrom(sg, c, a, slots))
    ensures IsPow2(a.size) ==> Phased(PassFrom(sg, c, a, slots).Cuts(), a, c.offset)
    ensures Greedy(PassFrom(sg, c, a, slots), a)
  {
    SweepGreedy(Seen(sg, c), c.sgOffset, PassStart(c, a), a, slots);
    SweepTakes(Seen(sg, c), c.sgOffset, PassStart(c, a), a, slots);
    if IsPow2(a.size) {
      StartPhase(c, a);
      SweepPhased(Seen(sg, c), c.sgOffset, PassStart(c, a), a, slots, c.offset);
    }
  }

  /** And that determines it. */
  lemma {:induction false} PassUnique(sg: seq<Extent>, c: Spot, a: Aperture, slots: nat, r: Pass)
    requires ValidAperture(a) && IsPow2(a.size) && c.sgIdx <= |sg|
    ensures r == PassFrom(sg, c, a, slots)
       <==> IsPass(sg, c, slots, r) && Phased(r.Cuts(), a, c.offset) && Greedy(r, a)
  {
    PassIs(sg, c, a, slots);
    if IsPass(sg, c, slots, r) && Phased(r.Cuts(), a, c.offset) && Greedy(r, a) {
      StartPhase(c, a);
      SweepUnique(Seen(sg, c), c.sgOffset, PassStart(c, a), a, slots, c.offset, r);
    }
  }

  /** Every descriptor of a pass is non-empty, no longer than allowed and inside [base, base + size). */
  lemma {:induction false} PassInside(sg: seq<Extent>, c: Spot, a: Aperture, slots: nat, k: nat)
    requires ValidAperture(a) && IsPow2(a.size) && c.sgIdx <= |sg|
    requires k < |PassFrom(sg, c, a, slots).Cuts()|
    ensures var p := PassFrom(sg, c, a, slots).Cuts()[k];
      0 < p.len <= a.maxlen && a.base <= p.ep && p.ep + p.len <= a.base + a.size
  {
    PassIs(sg, c, a, slots);
    GreedyBounded(PassFrom(sg, c, a, slots), a);
    BoundedAt(PassFrom(sg, c, a, slots).Cuts(), a, k);
    PhasedInside(PassFrom(sg, c, a, slots).Cuts(), a, c.offset, k);
  }

  /** The entries from the first on agree with those from sg_idx on, as far as the pass meant to go. */
  ghost predicate AgreeAt(sg: seq<Extent>, c: Spot, a: Aperture, slots: nat)
    requires ValidAperture(a) && c.sgIdx <= |sg|
  {
    Agree(Seen(sg, c), Meant(sg, c), c.sgOffset, MeantPass(sg, c, a, slots))
  }

  /**
   * Exactly when a pass is right, and then it is the pass that was meant: the entries it reads
   * agree with those it was meant to read.  The condition looks at the scatter list, the cursors
   * and the slots left, not at the pass.
   */
  lemma {:induction false} PassRightIff(sg: seq<Extent>, c: Spot, a: Aperture, slots: nat)
    requires ValidAperture(a) && At(sg, c)
    ensures RightPass(sg, c, PassFrom(sg, c, a, slots)) <==> AgreeAt(sg, c, a, slots)
    ensures AgreeAt(sg, c, a, slots) ==> PassFrom(sg, c, a, slots) == MeantPass(sg, c, a, slots)
  {
    if RightPass(sg, c, PassFrom(sg, c, a, slots)) {
      RightSame(Seen(sg, c), Meant(sg, c), c.sgOffset, PassStart(c, a), a, slots, PassFrom(sg, c, a, slots));
    }
    if AgreeAt(sg, c, a, slots) {
      AgreeSame(Seen(sg, c), Meant(sg, c), c.sgOffset, PassStart(c, a), a, slots);
      MeantIsRight(sg, c, a, slots);
    }
  }

  lemma {:induction false} MeantIsRight(sg: seq<Extent>, c: Spot, a: Aperture, slots: nat)
    requires ValidAperture(a) && At(sg, c)
    ensures RightPass(sg, c, MeantPass(sg, c, a, slots))
    ensures Takes(Meant(sg, c), c.sgOffset, slots, MeantPass(sg, c, a, slots))
  {
    SweepTakes(Meant(sg, c), c.sgOffset, PassStart(c, a), a, slots);
    TakesRight(Meant(sg, c), c.sgOffset, slots, MeantPass(sg, c, a, slots));
  }

  /** A pass entered with sg_idx = 0 agrees with itself. */
  lemma {:induction false} FirstPassRight(sg: seq<Extent>, c: Spot, a: Aperture, slots: nat)
    requires ValidAperture(a) && At(sg, c) && c.sgIdx == 0
    ensures RightPass(sg, c, PassFrom(sg, c, a, slots))
  {
    assert Seen(sg, c) == sg && Meant(sg, c) == sg;
    MeantIsRight(sg, c, a, slots);
  }

  /** Masking the offset with a power of two less one gives its phase. */
  lemma {:induction false} StartPhase(c: Spot, a: Aperture)
    requires ValidAperture(a) && IsPow2(a.size)
    ensures PassStart(c, a) == Phase(c.offset, a.size)
  {
    MaskIsMod(c.offset, a.size);
    PhaseIsMod(c.offset, a.size);
  }

  lemma {:induction false} AtBounded(sg: seq<Extent>, c: Spot)
    requires At(sg, c)
    ensures c.offset <= TotalLen(sg)
  {
    TotalLenMonotone(sg, c.sgIdx, |sg|);
    assert sg[..|sg|] == sg;
    if c.sgIdx < |sg| {
      TotalLenSplit(sg, c.sgIdx);
    }
  }

  /** Pieces in phase are non-empty and stay inside [base, base + size). */
  lemma {:induction false} PhasedInside(ps: seq<Piece>, a: Aperture, o: nat, k: nat)
    requires ValidAperture(a) && Phased(ps, a, o) && k < |ps|
    ensures 0 < ps[k].len && a.base <= ps[k].ep && ps[k].ep + ps[k].len <= a.base + a.size
    decreases |ps|
  {
    if k > 0 {
      PhasedInside(ps[1..], a, o + ps[0].len, k - 1);
    }
  }

  /**
   * What a right pass does: it streams the request's bytes from its offset on, byte o to base + o
   * mod size.
   */
  lemma {:induction false} RightPassStreams(sg: seq<Extent>, c: Spot, a: Aperture, r: Pass)
    requires ValidAperture(a) && At(sg, c) && RightPass(sg, c, r) && Phased(r.Cuts(), a, c.offset)
    ensures c.offset + PiecesLen(r.Cuts()) <= TotalLen(sg)
    ensures AllMoves(r.Cuts()) == StreamMoves(HostBytes(sg)[c.offset..c.offset + PiecesLen(r.Cuts())], a, c.offset)
  {
    RightTakes(sg, c, r);
    PhasedMoves(r.Cuts(), a, c.offset);
  }

  lemma {:induction false} RightTakes(sg: seq<Extent>, c: Spot, r: Pass)
    requires At(sg, c) && RightPass(sg, c, r)
    ensures Carries(HostBytes(sg), r.Cuts(), c.offset)
  {
    AtBounded(sg, c);
    RightHost(sg, c.sgIdx, c.sgOffset, r, c.offset);
  }

  /** Where a right pass leaves the cursors: on the byte after its last. */
  lemma {:induction false} RightSpot(sg: seq<Extent>, c: Spot, r: Pass)
    requires At(sg, c) && TotalLen(sg) < TWO32 && RightPass(sg, c, r)
    ensures At(sg, Onward(c, r)) && Onward(c, r).offset == c.offset + PiecesLen(r.Cuts()) <= TotalLen(sg)
    ensures c.sgIdx + r.Full() == |sg| ==> c.offset + PiecesLen(r.Cuts()) == TotalLen(sg)
  {
    assert c.offset <= TotalLen(sg) by {
      AtBounded(sg, c);
    }
    RightEnds(sg, c.sgIdx, c.sgOffset, r, c.offset, c.sgIdx + r.Full());
    SpotAt(sg, c, r, PiecesLen(r.Cuts()), c.sgIdx + r.Full(), r.Stop());
  }

  lemma {:induction false} SpotAt(sg: seq<Extent>, c: Spot, r: Pass, n: nat, i: nat, x: nat)
    requires i == c.sgIdx + r.Full() <= |sg| && x == r.Stop() && n == PiecesLen(r.Cuts())
    requires c.offset + n == TotalLen(sg[..i]) + x <= TotalLen(sg) < TWO32 && (x > 0 ==> i < |sg| && x < sg[i].len)
    ensures At(sg, Onward(c, r)) && Onward(c, r).offset == c.offset + n
    ensures i == |sg| ==> c.offset + n == TotalLen(sg)
  {
    assert sg[..|sg|] == sg;
  }

  /** And what is left is covered unless the ring ends. */
  lemma {:induction false} RightPassEnds(sg: seq<Extent>, c: Spot, slots: nat, r: Pass)
    requires At(sg, c) && TotalLen(sg) < TWO32 && IsPass(sg, c, slots, r) && RightPass(sg, c, r)
    ensures At(sg, Onward(c, r)) && Onward(c, r).offset == c.offset + PiecesLen(r.Cuts()) <= TotalLen(sg)
    ensures |r.Cuts()| <= slots && (Onward(c, r).offset == TotalLen(sg) || |r.Cuts()| == slots)
  {
    RightSpot(sg, c, r);
    TakesStops(Seen(sg, c), c.sgOffset, slots, r);
  }

  /** The pass that was meant goes on from its offset, if anything is left. */
  lemma {:induction false} MeantPassEnds(sg: seq<Extent>, c: Spot, a: Aperture, slots: nat)
    requires ValidAperture(a) && At(sg, c) && TotalLen(sg) < TWO32 && slots > 0
    ensures var m := MeantPass(sg, c, a, slots);
      && At(sg, Onward(c, m)) && c.offset <= Onward(c, m).offset <= TotalLen(sg)
      && (c.offset < TotalLen(sg) ==> c.offset < Onward(c, m).offset)
  {
    var m := MeantPass(sg, c, a, slots);
    MeantIsRight(sg, c, a, slots);
    RightSpot(sg, c, m);
    TakesStops(Meant(sg, c), c.sgOffset, slots, m);
    TakesMoves(Meant(sg, c), c.sgOffset, slots, m);
  }

  /**
   * What any pass takes, right or not, that starts inside the first entry: the request's bytes
   * from sg_offset on, while those from its offset on are due.
   */
  lemma {:induction false} PassReads(sg: seq<Extent>, c: Spot, slots: nat, r: Pass)
    requires c.sgIdx <= |sg| && IsPass(sg, c, slots, r) && sg != [] && c.sgOffset <= sg[0].len
    ensures Carries(HostBytes(sg), r.Cuts(), c.sgOffset)
  {
    TakesRight(Seen(sg, c), c.sgOffset, slots, r);
    RightOnLonger(Seen(sg, c), sg, c.sgOffset, r);
    assert sg[0..] == sg && sg[..0] == [];
    TotalLenSplit(sg, 0);
    RightHost(sg, 0, c.sgOffset, r, c.sgOffset);
  }

  lemma {:induction false} RightOnLonger(list: seq<Extent>, longer: seq<Extent>, x: nat, r: Pass)
    requires Right(list, x, r) && list <= longer
    ensures Right(longer, x, r)
    decreases r
  {
    if r.Whole? {
      RightOnLonger(list[1..], longer[1..], 0, r.rest);
    }
  }

  lemma {:induction false} StreamSame(hs: seq<U64>, hs': seq<U64>, a: Aperture, o: nat)
    requires ValidAperture(a)
    ensures StreamMoves(hs, a, o) == StreamMoves(hs', a, o) <==> hs == hs'
  {
    if StreamMoves(hs, a, o) == StreamMoves(hs', a, o) {
      assert |hs| == |hs'|;
      forall i | 0 <= i < |hs|
        ensures hs[i] == hs'[i]
      {
        assert StreamMoves(hs, a, o)[i].host == StreamMoves(hs', a, o)[i].host;
      }
    }
  }

  /**
   * So it streams those bytes to the card addresses of the bytes due, which is what was due exactly
   * if the two are the same host bytes.
   */
  lemma {:induction false} PassStreams(sg: seq<Extent>, c: Spot, a: Aperture, slots: nat, r: Pass, n: nat)
    requires ValidAperture(a) && IsPow2(a.size) && c.sgIdx <= |sg| && sg != [] && c.sgOffset <= sg[0].len
    requires r == PassFrom(sg, c, a, slots) && n == PiecesLen(r.Cuts())
    ensures c.sgOffset + n <= TotalLen(sg)
    ensures AllMoves(r.Cuts()) == StreamMoves(HostBytes(sg)[c.sgOffset..c.sgOffset + n], a, c.offset)
    ensures c.offset + n <= TotalLen(sg) ==>
      (AllMoves(r.Cuts()) == StreamMoves(HostBytes(sg)[c.offset..c.offset + n], a, c.offset)
       <==> HostBytes(sg)[c.sgOffset..c.sgOffset + n] == HostBytes(sg)[c.offset..c.offset + n])
  {
    PassIs(sg, c, a, slots);
    PassReads(sg, c, slots, r);
    PhasedMoves(r.Cuts(), a, c.offset);
    var got := HostBytes(sg)[c.sgOffset..c.sgOffset + n];
    if c.offset + n <= TotalLen(sg) {
      StreamSame(got, HostBytes(sg)[c.offset..c.offset + n], a, c.offset);
    }
  }
}
