/**
 * The passes of a request of xdma_xfer_aperture, one after another.  Which passes there are depends
 * on the scatter list, the window and the ring alone.
 */
module ApertureRoutes {
  import opened Words
  import opened Memory
  import opened Runs
  import opened Allocation
  import opened Turns
  import opened Sweeps
  import opened Apertures

  datatype Leg = Leg(c: Spot, pass: Pass)

  /** How much of the first entry a pass would still see. */
  function Ahead(sg: seq<Extent>, c: Spot): nat {
    if sg == [] then 0 else Left(sg[0], c.sgOffset)
  }

  lemma {:induction false} RestShrinks(len: U32, x: U32, n: nat)
    requires 0 < n < Sub32(len, x)
    ensures Sub32(len, Wrap32(x + n)) < Sub32(len, x)
  {
    if x <= len {
      assert Sub32(len, x) == len - x;
    } else {
      assert Sub32(len, x) == len - x + TWO32;
    }
  }

  /** A pass with pieces leaves an entry behind, or less of the first one ahead. */
  lemma {:induction false} PassShrinks(sg: seq<Extent>, c: Spot, slots: nat, r: Pass)
    requires c.sgIdx <= |sg| && IsPass(sg, c, slots, r) && r.Cuts() != []
    ensures r.Full() > 0 || Ahead(sg, Onward(c, r)) < Ahead(sg, c)
  {
    if r.Part? {
      RestShrinks(sg[0].len, c.sgOffset, PiecesLen(r.g));
    }
  }

  /**
   * The passes from c on.  They end when the offset has reached the total, or before a pass that
   * finds no descriptor to write.
   */
  function Legs(sg: seq<Extent>, c: Spot, a: Aperture, idx: nat, descMax: nat): seq<Leg>
    requires ValidAperture(a) && c.sgIdx <= |sg| && idx < descMax
    decreases |sg| - c.sgIdx, Ahead(sg, c)
  {
    if c.offset >= TotalLen(sg) then []
    else
      var r := PassFrom(sg, c, a, descMax - idx);
      if r.Cuts() == [] then []
      else
        PassIs(sg, c, a, descMax - idx);
        PassShrinks(sg, c, descMax - idx, r);
        [Leg(c, r)] + Legs(sg, Onward(c, r), a, NextIdx(idx, |r.Cuts()|, descMax), descMax)
  }

  function EndSpot(c: Spot, legs: seq<Leg>): Spot
    decreases |legs|
  {
    if legs == [] then c else EndSpot(Onward(c, legs[0].pass), legs[1..])
  }

  /** The passes end before the total is reached: the next one would find nothing to write. */
  ghost predicate RunsAway(sg: seq<Extent>, a: Aperture, idx: nat, descMax: nat)
    requires ValidAperture(a) && idx < descMax
  {
    EndSpot(START, Legs(sg, START, a, idx, descMax)).offset < TotalLen(sg)
  }

  function BatchesOf(legs: seq<Leg>): (bs: seq<seq<Piece>>)
    ensures |bs| == |legs|
  {
    if legs == [] then [] else [legs[0].pass.Cuts()] + BatchesOf(legs[1..])
  }

  lemma {:induction false} LegCons(c: Spot, leg: Leg, rest: seq<Leg>)
    ensures BatchesOf([leg] + rest) == [leg.pass.Cuts()] + BatchesOf(rest)
    ensures EndSpot(c, [leg] + rest) == EndSpot(Onward(c, leg.pass), rest)
  {
    assert ([leg] + rest)[1..] == rest;
  }

  /** One pass, and those after it. */
  lemma {:induction false} LegsStep(sg: seq<Extent>, c: Spot, a: Aperture, idx: nat, descMax: nat, r: Pass)
    requires ValidAperture(a) && c.sgIdx <= |sg| && idx < descMax
    requires r == PassFrom(sg, c, a, descMax - idx) && r.Cuts() != [] && c.offset < TotalLen(sg)
    ensures var rest := Legs(sg, Onward(c, r), a, NextIdx(idx, |r.Cuts()|, descMax), descMax);
      && Legs(sg, c, a, idx, descMax) == [Leg(c, r)] + rest
      && EndSpot(c, Legs(sg, c, a, idx, descMax)) == EndSpot(Onward(c, r), rest)
  {
    LegCons(c, Leg(c, r), Legs(sg, Onward(c, r), a, NextIdx(idx, |r.Cuts()|, descMax), descMax));
  }

  lemma {:induction false} LegsHead(sg: seq<Extent>, c: Spot, a: Aperture, idx: nat, descMax: nat, legs: seq<Leg>, r: Pass)
    requires ValidAperture(a) && c.sgIdx <= |sg| && idx < descMax
    requires r == PassFrom(sg, c, a, descMax - idx) && legs == Legs(sg, c, a, idx, descMax) && legs != []
    ensures legs == [Leg(c, r)] + Legs(sg, Onward(c, r), a, NextIdx(idx, |r.Cuts()|, descMax), descMax)
  {
  }

  /** Each leg is a pass entered where the one before it ended. */
  ghost predicate IsRoute(sg: seq<Extent>, c: Spot, idx: nat, descMax: nat, legs: seq<Leg>)
    requires idx < descMax
    decreases |legs|
  {
    legs == [] ||
    (&& legs[0].c == c && c.sgIdx <= |sg| && c.offset < TotalLen(sg)
     && IsPass(sg, c, descMax - idx, legs[0].pass) && legs[0].pass.Cuts() != []
     && IsRoute(sg, Onward(c, legs[0].pass), NextIdx(idx, |legs[0].pass.Cuts()|, descMax), descMax, legs[1..]))
  }

  /** The pieces of each leg are in phase with its offset. */
  ghost predicate PhasedLegs(a: Aperture, legs: seq<Leg>)
    requires ValidAperture(a)
  {
    legs == [] || (Phased(legs[0].pass.Cuts(), a, legs[0].c.offset) && PhasedLegs(a, legs[1..]))
  }

  /** No descriptor is longer than allowed, or shorter than its entry and the window make it. */
  ghost predicate GreedyLegs(a: Aperture, legs: seq<Leg>) {
    forall l | l in legs :: Bounded(l.pass.Cuts(), a) && Greedy(l.pass, a)
  }

  lemma {:induction false} LegsAreGreedy(sg: seq<Extent>, c: Spot, a: Aperture, idx: nat, descMax: nat, legs: seq<Leg>)
    requires ValidAperture(a) && c.sgIdx <= |sg| && idx < descMax && legs == Legs(sg, c, a, idx, descMax)
    ensures GreedyLegs(a, legs)
    decreases |legs|
  {
    if legs != [] {
      var r := PassFrom(sg, c, a, descMax - idx);
      LegsHead(sg, c, a, idx, descMax, legs, r);
      PassIs(sg, c, a, descMax - idx);
      GreedyBounded(r, a);
      LegsAreGreedy(sg, Onward(c, r), a, NextIdx(idx, |r.Cuts()|, descMax), descMax, legs[1..]);
      assert forall l | l in legs :: l == legs[0] || l in legs[1..];
    }
  }

  lemma {:induction false} LegsAreRoute(sg: seq<Extent>, c: Spot, a: Aperture, idx: nat, descMax: nat, legs: seq<Leg>)
    requires ValidAperture(a) && c.sgIdx <= |sg| && idx < descMax && legs == Legs(sg, c, a, idx, descMax)
    ensures IsRoute(sg, c, idx, descMax, legs) && (IsPow2(a.size) ==> PhasedLegs(a, legs))
    decreases |legs|
  {
    if legs != [] {
      var r := PassFrom(sg, c, a, descMax - idx);
      PassIs(sg, c, a, descMax - idx);
      assert legs[0] == Leg(c, r);
      LegsAreRoute(sg, Onward(c, r), a, NextIdx(idx, |r.Cuts()|, descMax), descMax, legs[1..]);
    }
  }

  lemma {:induction false} RouteFits(sg: seq<Extent>, c: Spot, idx: nat, descMax: nat, legs: seq<Leg>)
    requires idx < descMax && IsRoute(sg, c, idx, descMax, legs)
    ensures Fits(descMax, idx, BatchesOf(legs))
    decreases |legs|
  {
    if legs != [] {
      var r := legs[0].pass;
      TakesStops(Seen(sg, c), c.sgOffset, descMax - idx, r);
      RouteFits(sg, Onward(c, r), NextIdx(idx, |r.Cuts()|, descMax), descMax, legs[1..]);
      assert BatchesOf(legs)[1..] == BatchesOf(legs[1..]);
    }
  }

  lemma {:induction false} StartIsAt(sg: seq<Extent>)
    ensures At(sg, START)
  {
    assert sg[..0] == [];
  }

  // ---------------------------------------------------------------------------------------
  // What right passes stream

  ghost predicate RightLeg(sg: seq<Extent>, leg: Leg) {
    leg.c.sgIdx <= |sg| && RightPass(sg, leg.c, leg.pass)
  }

  /** The first n passes are right. */
  ghost predicate RightLegs(sg: seq<Extent>, legs: seq<Leg>, n: nat)
    requires n <= |legs|
  {
    forall i | 0 <= i < n :: RightLeg(sg, legs[i])
  }

  /** The first of k + 1 legs, and the k after it. */
  lemma {:induction false} LegStep(c: Spot, legs: seq<Leg>, n: nat, k: nat)
    requires n == k + 1 <= |legs|
    ensures EndSpot(c, legs[..n]) == EndSpot(Onward(c, legs[0].pass), legs[1..][..k])
    ensures var ps, rest := legs[0].pass.Cuts(), BatchesOf(legs[1..])[..k];
      && Flat(BatchesOf(legs)[..n]) == ps + Flat(rest)
      && TransferLens(BatchesOf(legs)[..n]) == Wrap32(PiecesLen(ps)) + TransferLens(rest)
  {
    assert legs[..n][1..] == legs[1..][..k];
    assert BatchesOf(legs)[..n][1..] == BatchesOf(legs[1..])[..k];
  }

  lemma {:induction false} RightHead(sg: seq<Extent>, legs: seq<Leg>, n: nat, k: nat)
    requires n == k + 1 <= |legs|
    ensures RightLegs(sg, legs, n) <==> RightLeg(sg, legs[0]) && RightLegs(sg, legs[1..], k)
  {
    if RightLeg(sg, legs[0]) && RightLegs(sg, legs[1..], k) {
      forall i | 0 <= i < n
        ensures RightLeg(sg, legs[i])
      {
        assert i > 0 ==> legs[i] == legs[1..][i - 1];
      }
    }
  }

  /** The first leg of a route, if it is right. */
  lemma {:induction false} RightLegEnds(sg: seq<Extent>, c: Spot, idx: nat, descMax: nat, legs: seq<Leg>, n: nat, k: nat)
    returns (next: Spot, idx': nat)
    requires idx < descMax && IsRoute(sg, c, idx, descMax, legs) && At(sg, c) && TotalLen(sg) < TWO32
    requires n == k + 1 <= |legs| && RightLegs(sg, legs, n)
    ensures next == Onward(c, legs[0].pass) && At(sg, next) && idx' < descMax
    ensures next.offset == c.offset + PiecesLen(legs[0].pass.Cuts()) <= TotalLen(sg)
    ensures IsRoute(sg, next, idx', descMax, legs[1..]) && RightLegs(sg, legs[1..], k) && RightLeg(sg, legs[0])
  {
    RightHead(sg, legs, n, k);
    next, idx' := Onward(c, legs[0].pass), NextIdx(idx, |legs[0].pass.Cuts()|, descMax);
    RightPassEnds(sg, c, descMax - idx, legs[0].pass);
  }

  /** Where right passes, one after another, get to: short of the total unless they are all there are. */
  lemma {:induction false} RightRouteEnds(sg: seq<Extent>, c: Spot, idx: nat, descMax: nat, legs: seq<Leg>, n: nat)
    requires idx < descMax && IsRoute(sg, c, idx, descMax, legs)
    requires At(sg, c) && TotalLen(sg) < TWO32 && n <= |legs| && RightLegs(sg, legs, n)
    ensures var e := EndSpot(c, legs[..n]);
      && At(sg, e) && c.offset <= e.offset <= TotalLen(sg) && (n < |legs| ==> e.offset < TotalLen(sg))
      && TransferLens(BatchesOf(legs)[..n]) == e.offset - c.offset
    decreases n
  {
    if n == 0 {
      AtBounded(sg, c);
      assert legs[..0] == [] && BatchesOf(legs)[..0] == [];
    } else {
      var k := n - 1;
      var next, idx' := RightLegEnds(sg, c, idx, descMax, legs, n, k);
      RightRouteEnds(sg, next, idx', descMax, legs[1..], k);
      LegStep(c, legs, n, k);
    }
  }

  /** Two stretches of the request streamed one after the other. */
  lemma {:induction false} JoinStreams(host: seq<U64>, a: Aperture, ps: seq<Piece>, qs: seq<Piece>, i: nat, j: nat, k: nat)
    requires ValidAperture(a) && i <= j <= k <= |host|
    requires AllMoves(ps) == StreamMoves(host[i..j], a, i) && AllMoves(qs) == StreamMoves(host[j..k], a, j)
    ensures AllMoves(ps + qs) == StreamMoves(host[i..k], a, i)
  {
    AllMovesConcat(ps, qs);
    StreamConcat(host[i..j], host[j..k], a, i);
    JoinSlices(host, i, j, k);
  }

  /** Right passes, one after another, stream the request's bytes in order. */
  lemma {:induction false} RightRouteStreams(sg: seq<Extent>, c: Spot, a: Aperture, idx: nat, descMax: nat,
                                             legs: seq<Leg>, n: nat, o: nat)
    requires ValidAperture(a) && idx < descMax && IsRoute(sg, c, idx, descMax, legs) && PhasedLegs(a, legs)
    requires At(sg, c) && TotalLen(sg) < TWO32 && n <= |legs| && RightLegs(sg, legs, n)
    requires c.offset <= o <= TotalLen(sg) && o == EndSpot(c, legs[..n]).offset
    ensures AllMoves(Flat(BatchesOf(legs)[..n])) == StreamMoves(HostBytes(sg)[c.offset..o], a, c.offset)
    decreases n
  {
    if n == 0 {
      assert legs[..0] == [] && BatchesOf(legs)[..0] == [];
    } else {
      var k, ps := n - 1, legs[0].pass.Cuts();
      var next, idx' := RightLegEnds(sg, c, idx, descMax, legs, n, k);
      LegStep(c, legs, n, k);
      var qs := Flat(BatchesOf(legs[1..])[..k]);
      assert next.offset <= o by {
        RightRouteEnds(sg, next, idx', descMax, legs[1..], k);
      }
      assert AllMoves(qs) == StreamMoves(HostBytes(sg)[next.offset..o], a, next.offset) by {
        RightRouteStreams(sg, next, a, idx', descMax, legs[1..], k, o);
      }
      assert AllMoves(ps) == StreamMoves(HostBytes(sg)[c.offset..next.offset], a, c.offset) by {
        RightPassStreams(sg, c, a, legs[0].pass);
      }
      JoinStreams(HostBytes(sg), a, ps, qs, c.offset, next.offset, o);
    }
  }

  // ---------------------------------------------------------------------------------------
  // When the passes are right

  /** At each of the first n passes that are meant, the entries agree. */
  ghost predicate AgreeLegs(sg: seq<Extent>, c: Spot, a: Aperture, idx: nat, descMax: nat, n: nat)
    requires ValidAperture(a) && At(sg, c) && TotalLen(sg) < TWO32 && idx < descMax
    decreases n
  {
    n == 0 ||
    (&& AgreeAt(sg, c, a, descMax - idx)
     && var m := MeantPass(sg, c, a, descMax - idx);
        MeantPassEnds(sg, c, a, descMax - idx);
        AgreeLegs(sg, Onward(c, m), a, NextIdx(idx, |m.Cuts()|, descMax), descMax, n - 1))
  }

  /** A pass that finds nothing to write although something is left is not right. */
  lemma {:induction false} EmptyPassWrong(sg: seq<Extent>, c: Spot, slots: nat, r: Pass)
    requires At(sg, c) && IsPass(sg, c, slots, r) && slots > 0
    requires TotalLen(sg) < TWO32 && c.offset < TotalLen(sg) && r.Cuts() == []
    ensures !RightPass(sg, c, r)
  {
    if RightPass(sg, c, r) {
      RightPassEnds(sg, c, slots, r);
    }
  }

  /** A right pass agrees and is the one that is meant, ... */
  lemma {:induction false} RightIsMeant(sg: seq<Extent>, c: Spot, a: Aperture, slots: nat, r: Pass)
    requires ValidAperture(a) && At(sg, c) && TotalLen(sg) < TWO32 && slots > 0
    requires r == PassFrom(sg, c, a, slots) && RightPass(sg, c, r)
    ensures r == MeantPass(sg, c, a, slots) && AgreeAt(sg, c, a, slots) && At(sg, Onward(c, r))
    ensures c.offset < TotalLen(sg) ==> c.offset < Onward(c, r).offset <= TotalLen(sg) && r.Cuts() != []
  {
    PassRightIff(sg, c, a, slots);
    MeantPassEnds(sg, c, a, slots);
    if c.offset < TotalLen(sg) && r.Cuts() == [] {
      PassIs(sg, c, a, slots);
      EmptyPassWrong(sg, c, slots, r);
    }
  }

  /** ... and where the entries agree, the pass is right. */
  lemma {:induction false} MeantIsPass(sg: seq<Extent>, c: Spot, a: Aperture, slots: nat, m: Pass)
    requires ValidAperture(a) && At(sg, c) && TotalLen(sg) < TWO32 && slots > 0
    requires m == MeantPass(sg, c, a, slots) && AgreeAt(sg, c, a, slots)
    ensures m == PassFrom(sg, c, a, slots) && RightPass(sg, c, m) && At(sg, Onward(c, m))
    ensures c.offset < TotalLen(sg) ==> c.offset < Onward(c, m).offset <= TotalLen(sg) && m.Cuts() != []
  {
    PassRightIff(sg, c, a, slots);
    RightIsMeant(sg, c, a, slots, m);
  }

  /** The first leg, if it is right. */
  lemma {:induction false} RightFirst(sg: seq<Extent>, c: Spot, a: Aperture, idx: nat, descMax: nat, legs: seq<Leg>,
                                      n: nat, k: nat) returns (next: Spot, idx': nat)
    requires ValidAperture(a) && At(sg, c) && TotalLen(sg) < TWO32 && idx < descMax
    requires legs == Legs(sg, c, a, idx, descMax) && n == k + 1 <= |legs| && RightLegs(sg, legs, n)
    ensures At(sg, next) && idx' < descMax
    ensures legs[1..] == Legs(sg, next, a, idx', descMax) && RightLegs(sg, legs[1..], k)
    ensures AgreeLegs(sg, next, a, idx', descMax, k) ==> AgreeLegs(sg, c, a, idx, descMax, n)
  {
    var r := PassFrom(sg, c, a, descMax - idx);
    LegsHead(sg, c, a, idx, descMax, legs, r);
    RightHead(sg, legs, n, k);
    assert RightLeg(sg, Leg(c, r));
    RightIsMeant(sg, c, a, descMax - idx, r);
    next, idx' := Onward(c, r), NextIdx(idx, |r.Cuts()|, descMax);
    if AgreeLegs(sg, next, a, idx', descMax, k) {
      AgreeLegsCons(sg, c, a, idx, descMax, n, k, r, next, idx');
    }
  }

  lemma {:induction false} RightLegsAgree(sg: seq<Extent>, c: Spot, a: Aperture, idx: nat, descMax: nat, legs: seq<Leg>,
                                          n: nat)
    requires ValidAperture(a) && At(sg, c) && TotalLen(sg) < TWO32 && idx < descMax
    requires legs == Legs(sg, c, a, idx, descMax) && n <= |legs| && RightLegs(sg, legs, n)
    ensures AgreeLegs(sg, c, a, idx, descMax, n)
    decreases n
  {
    if n > 0 {
      var k := n - 1;
      var next, idx' := RightFirst(sg, c, a, idx, descMax, legs, n, k);
      RightLegsAgree(sg, next, a, idx', descMax, legs[1..], k);
    }
  }

  lemma {:induction false} AgreeLegsCons(sg: seq<Extent>, c: Spot, a: Aperture, idx: nat, descMax: nat, n: nat, k: nat, m: Pass,
                                         next: Spot, idx': nat)
    requires ValidAperture(a) && At(sg, c) && TotalLen(sg) < TWO32 && idx < descMax && n == k + 1
    requires m == MeantPass(sg, c, a, descMax - idx) && AgreeAt(sg, c, a, descMax - idx)
    requires At(sg, next) && next == Onward(c, m) && idx' == NextIdx(idx, |m.Cuts()|, descMax)
    requires AgreeLegs(sg, next, a, idx', descMax, k)
    ensures AgreeLegs(sg, c, a, idx, descMax, n)
  {
  }

  /** The first leg, if the entries agree. */
  lemma {:induction false} AgreeFirst(sg: seq<Extent>, c: Spot, a: Aperture, idx: nat, descMax: nat, legs: seq<Leg>,
                                      n: nat, k: nat) returns (next: Spot, idx': nat)
    requires ValidAperture(a) && At(sg, c) && TotalLen(sg) < TWO32 && idx < descMax
    requires legs == Legs(sg, c, a, idx, descMax) && n == k + 1 <= |legs| && AgreeLegs(sg, c, a, idx, descMax, n)
    ensures At(sg, next) && idx' < descMax && RightLeg(sg, legs[0])
    ensures legs[1..] == Legs(sg, next, a, idx', descMax) && AgreeLegs(sg, next, a, idx', descMax, k)
  {
    var m := MeantPass(sg, c, a, descMax - idx);
    MeantIsPass(sg, c, a, descMax - idx, m);
    LegsHead(sg, c, a, idx, descMax, legs, m);
    next, idx' := Onward(c, m), NextIdx(idx, |m.Cuts()|, descMax);
  }

  lemma {:induction false} AgreeLegsRight(sg: seq<Extent>, c: Spot, a: Aperture, idx: nat, descMax: nat, legs: seq<Leg>,
                                          n: nat)
    requires ValidAperture(a) && At(sg, c) && TotalLen(sg) < TWO32 && idx < descMax
    requires legs == Legs(sg, c, a, idx, descMax) && n <= |legs| && AgreeLegs(sg, c, a, idx, descMax, n)
    ensures RightLegs(sg, legs, n)
    decreases n
  {
    if n > 0 {
      var k := n - 1;
      var next, idx' := AgreeFirst(sg, c, a, idx, descMax, legs, n, k);
      AgreeLegsRight(sg, next, a, idx', descMax, legs[1..], k);
      RightHead(sg, legs, n, k);
    }
  }

  /**
   * Exactly when the first n passes are right.  The condition follows the passes that are meant,
   * so it depends on the scatter list, the window and the ring alone.
   */
  lemma {:induction false} RightLegsIff(sg: seq<Extent>, c: Spot, a: Aperture, idx: nat, descMax: nat, n: nat)
    requires ValidAperture(a) && At(sg, c) && TotalLen(sg) < TWO32 && idx < descMax
    requires n <= |Legs(sg, c, a, idx, descMax)|
    ensures RightLegs(sg, Legs(sg, c, a, idx, descMax), n) <==> AgreeLegs(sg, c, a, idx, descMax, n)
  {
    var legs := Legs(sg, c, a, idx, descMax);
    if RightLegs(sg, legs, n) {
      RightLegsAgree(sg, c, a, idx, descMax, legs, n);
    } else if AgreeLegs(sg, c, a, idx, descMax, n) {
      AgreeLegsRight(sg, c, a, idx, descMax, legs, n);
    }
  }

  /** A request has a first pass exactly if it has bytes to move. */
  lemma {:induction false} FirstLeg(sg: seq<Extent>, a: Aperture, idx: nat, descMax: nat)
    requires ValidAperture(a) && idx < descMax && TotalLen(sg) < TWO32
    ensures Legs(sg, START, a, idx, descMax) == [] <==> TotalLen(sg) == 0
  {
    if TotalLen(sg) > 0 {
      StartIsAt(sg);
      var r := PassFrom(sg, START, a, descMax - idx);
      FirstPassRight(sg, START, a, descMax - idx);
      RightIsMeant(sg, START, a, descMax - idx, r);
      LegsStep(sg, START, a, idx, descMax, r);
    }
  }

  /** At every pass that is meant, up to the end of the request, the entries agree. */
  ghost predicate AgreeAll(sg: seq<Extent>, c: Spot, a: Aperture, idx: nat, descMax: nat)
    requires ValidAperture(a) && At(sg, c) && TotalLen(sg) < TWO32 && idx < descMax
    decreases TotalLen(sg) - c.offset
  {
    c.offset >= TotalLen(sg) ||
    (&& AgreeAt(sg, c, a, descMax - idx)
     && var m := MeantPass(sg, c, a, descMax - idx);
        MeantPassEnds(sg, c, a, descMax - idx);
        AgreeAll(sg, Onward(c, m), a, NextIdx(idx, |m.Cuts()|, descMax), descMax))
  }

  /** The passes are all right and reach the total. */
  ghost predicate AllRight(sg: seq<Extent>, c: Spot, legs: seq<Leg>) {
    RightLegs(sg, legs, |legs|) && EndSpot(c, legs).offset == TotalLen(sg)
  }

  lemma {:induction false} AllRightCons(sg: seq<Extent>, leg: Leg, rest: seq<Leg>)
    requires leg.c.sgIdx <= |sg|
    ensures AllRight(sg, leg.c, [leg] + rest)
       <==> RightPass(sg, leg.c, leg.pass) && AllRight(sg, Onward(leg.c, leg.pass), rest)
  {
    assert ([leg] + rest)[1..] == rest;
  }

  lemma {:induction false} AllRightAgree(sg: seq<Extent>, c: Spot, a: Aperture, idx: nat, descMax: nat, legs: seq<Leg>)
    requires ValidAperture(a) && At(sg, c) && TotalLen(sg) < TWO32 && idx < descMax
    requires legs == Legs(sg, c, a, idx, descMax) && AllRight(sg, c, legs)
    ensures AgreeAll(sg, c, a, idx, descMax)
    decreases |legs|
  {
    if legs != [] {
      var r := PassFrom(sg, c, a, descMax - idx);
      LegsHead(sg, c, a, idx, descMax, legs, r);
      RightIsMeant(sg, c, a, descMax - idx, r);
      AllRightAgree(sg, Onward(c, r), a, NextIdx(idx, |r.Cuts()|, descMax), descMax, legs[1..]);
    }
  }

  lemma {:induction false} AgreeAllRight(sg: seq<Extent>, c: Spot, a: Aperture, idx: nat, descMax: nat)
    requires ValidAperture(a) && At(sg, c) && TotalLen(sg) < TWO32 && idx < descMax && AgreeAll(sg, c, a, idx, descMax)
    ensures AllRight(sg, c, Legs(sg, c, a, idx, descMax))
    decreases TotalLen(sg) - c.offset
  {
    if c.offset >= TotalLen(sg) {
      AtBounded(sg, c);
    } else {
      var m := MeantPass(sg, c, a, descMax - idx);
      MeantIsPass(sg, c, a, descMax - idx, m);
      var rest := Legs(sg, Onward(c, m), a, NextIdx(idx, |m.Cuts()|, descMax), descMax);
      assert AllRight(sg, Onward(c, m), rest) by {
        AgreeAllRight(sg, Onward(c, m), a, NextIdx(idx, |m.Cuts()|, descMax), descMax);
      }
      LegsStep(sg, c, a, idx, descMax, m);
      AllRightCons(sg, Leg(c, m), rest);
    }
  }

  /** Exactly when a request is served right: from the list, the window and the ring alone. */
  lemma {:induction false} AllRightIff(sg: seq<Extent>, c: Spot, a: Aperture, idx: nat, descMax: nat)
    requires ValidAperture(a) && At(sg, c) && TotalLen(sg) < TWO32 && idx < descMax
    ensures AllRight(sg, c, Legs(sg, c, a, idx, descMax)) <==> AgreeAll(sg, c, a, idx, descMax)
  {
    if AllRight(sg, c, Legs(sg, c, a, idx, descMax)) {
      AllRightAgree(sg, c, a, idx, descMax, Legs(sg, c, a, idx, descMax));
    } else if AgreeAll(sg, c, a, idx, descMax) {
      AgreeAllRight(sg, c, a, idx, descMax);
    }
  }

  /** A pass entered in the first entry agrees. */
  lemma {:induction false} FirstAgrees(sg: seq<Extent>, c: Spot, a: Aperture, slots: nat)
    requires ValidAperture(a) && At(sg, c) && c.sgIdx == 0
    ensures AgreeAt(sg, c, a, slots)
  {
    FirstPassRight(sg, c, a, slots);
    PassRightIff(sg, c, a, slots);
  }

  /** With one scatter entry the passes agree. */
  lemma {:induction false} OneEntryAgrees(sg: seq<Extent>, c: Spot, a: Aperture, idx: nat, descMax: nat)
    requires ValidAperture(a) && idx < descMax && |sg| == 1 && At(sg, c) && TotalLen(sg) < TWO32
    ensures AgreeAll(sg, c, a, idx, descMax)
    decreases TotalLen(sg) - c.offset
  {
    if c.offset < TotalLen(sg) {
      assert sg[..1] == sg;
      FirstAgrees(sg, c, a, descMax - idx);
      MeantPassEnds(sg, c, a, descMax - idx);
      var m := MeantPass(sg, c, a, descMax - idx);
      OneEntryAgrees(sg, Onward(c, m), a, NextIdx(idx, |m.Cuts()|, descMax), descMax);
    }
  }

  lemma {:induction false} CutEntrySlots(addr: U64, tlen: U32, r: nat, a: Aperture, m: nat, n: nat)
    requires ValidAperture(a) && r < a.size
    requires |CutEntry(addr, tlen, r, a, n).ps| <= m <= n
    ensures CutEntry(addr, tlen, r, a, m) == CutEntry(addr, tlen, r, a, n)
    decreases n
  {
    if tlen > 0 && n > 0 {
      var p := CutPiece(addr, tlen, r, a);
      CutEntrySlots(Wrap64(addr + p.len), tlen - p.len, Advance(r, p.len, a), a, m - 1, n - 1);
    }
  }

  /** A sweep that needs no more than m slots cuts the same with m slots. */
  lemma {:induction false} SweepSlots(list: seq<Extent>, x: U32, r: nat, a: Aperture, m: nat, n: nat)
    requires ValidAperture(a) && r < a.size
    requires |Sweep(list, x, r, a, n).Cuts()| <= m <= n
    ensures Sweep(list, x, r, a, m).Cuts() == Sweep(list, x, r, a, n).Cuts()
    decreases |list|
  {
    if list != [] && m > 0 {
      var c := CutFirst(list[0], x, r, a, n);
      assert |c.ps| <= |Sweep(list, x, r, a, n).Cuts()|;
      CutEntrySlots(Wrap64(list[0].addr + x), Left(list[0], x), r, a, m, n);
      if PiecesLen(c.ps) >= Left(list[0], x) {
        var m', n' := m - |c.ps|, n - |c.ps|;
        SweepSlots(list[1..], 0, c.r, a, m', n');
        assert Sweep(list, x, r, a, m) == Whole(c.ps, Sweep(list[1..], 0, c.r, a, m'));
      }
    }
  }

  /** How many descriptors a whole request takes. */
  function Need(sg: seq<Extent>, a: Aperture): nat
    requires ValidAperture(a)
  {
    |MeantPass(sg, START, a, TotalLen(sg)).Cuts()|
  }

  /** The first pass covers the request if it has a slot for each byte, ... */
  lemma {:induction false} ManySlots(sg: seq<Extent>, a: Aperture, slots: nat)
    requires ValidAperture(a) && TotalLen(sg) < TWO32 && slots >= TotalLen(sg)
    ensures PiecesLen(MeantPass(sg, START, a, slots).Cuts()) == TotalLen(sg)
  {
    var m := MeantPass(sg, START, a, slots);
    StartIsAt(sg);
    MeantIsRight(sg, START, a, slots);
    RightSpot(sg, START, m);
    TakesStops(sg[0..], 0, slots, m);
    TakesMoves(sg[0..], 0, slots, m);
  }

  /** ... and therefore if it has as many as the request needs. */
  lemma {:induction false} FitsCovers(sg: seq<Extent>, a: Aperture, slots: nat)
    requires ValidAperture(a) && TotalLen(sg) < TWO32 && Need(sg, a) <= slots
    ensures PiecesLen(MeantPass(sg, START, a, slots).Cuts()) == TotalLen(sg)
  {
    if slots < TotalLen(sg) {
      ManySlots(sg, a, TotalLen(sg));
      SweepSlots(Meant(sg, START), 0, PassStart(START, a), a, slots, TotalLen(sg));
    } else {
      ManySlots(sg, a, slots);
    }
  }

  /** A request whose descriptors fit the rest of the ring is one pass, which agrees. */
  lemma {:induction false} FittingAgrees(sg: seq<Extent>, a: Aperture, idx: nat, descMax: nat)
    requires ValidAperture(a) && idx < descMax && TotalLen(sg) < TWO32 && Need(sg, a) <= descMax - idx
    ensures At(sg, START) && AgreeAll(sg, START, a, idx, descMax)
    ensures |Legs(sg, START, a, idx, descMax)| <= 1
  {
    StartIsAt(sg);
    FirstAgrees(sg, START, a, descMax - idx);
    PassRightIff(sg, START, a, descMax - idx);
    FitsCovers(sg, a, descMax - idx);
    var m := MeantPass(sg, START, a, descMax - idx);
    MeantPassEnds(sg, START, a, descMax - idx);
    assert Onward(START, m).offset == TotalLen(sg);
  }

  /** Requests at which the entries always agree. */
  lemma {:induction false} AgreesWhen(sg: seq<Extent>, a: Aperture, idx: nat, descMax: nat)
    requires ValidAperture(a) && idx < descMax && TotalLen(sg) < TWO32
    ensures At(sg, START)
    ensures |sg| == 1 || Need(sg, a) <= descMax - idx ==> AgreeAll(sg, START, a, idx, descMax)
  {
    StartIsAt(sg);
    if |sg| == 1 {
      OneEntryAgrees(sg, START, a, idx, descMax);
    } else if Need(sg, a) <= descMax - idx {
      FittingAgrees(sg, a, idx, descMax);
    }
  }
}
