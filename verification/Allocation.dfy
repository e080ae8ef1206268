/** How transfer_init hands out the slots of the descriptor ring. */
module Allocation {
  import opened Words

  datatype Window = Window(first: nat, count: nat)

  /** The descriptors transfer_init takes: two clamps, of which the second rules out wrapping. */
  function Take(idx: nat, remaining: nat, descMax: nat): nat
    requires idx < descMax
  {
    var n := Min(remaining, descMax);
    if idx + n >= descMax then descMax - idx else n
  }

  /** The ring cursor after a transfer, modulo desc_max. */
  function NextIdx(idx: nat, n: nat, descMax: nat): (next: nat)
    requires descMax > 0
    ensures next < descMax
  {
    Phase(idx + n, descMax)
  }

  /** The windows of one request when no one else allocates in between. */
  function Windows(idx: nat, remaining: nat, descMax: nat): seq<Window>
    requires idx < descMax
    decreases remaining
  {
    if remaining == 0 then []
    else
      var n := Take(idx, remaining, descMax);
      [Window(idx, n)] + Windows(NextIdx(idx, n, descMax), remaining - n, descMax)
  }

  function Slots(ws: seq<Window>): seq<nat> {
    if ws == [] then []
    else seq(ws[0].count, i requires 0 <= i < ws[0].count => ws[0].first + i) + Slots(ws[1..])
  }

  lemma {:induction false} ModBelow(a: nat, d: nat)
    requires d > 0 && a < 2 * d
    ensures a % d == if a < d then a else a - d
  {
    if a < d {
      DivModUnique(a, d, 0, a);
    } else {
      DivModUnique(a, d, 1, a - d);
    }
  }

  lemma {:induction false} ModAdd(a: nat, b: nat, d: nat)
    requires d > 0
    ensures (a % d + b) % d == (a + b) % d
  {
    var q, r := a / d, a % d;
    assert a == d * q + r;
    var q2, r2 := (r + b) / d, (r + b) % d;
    assert r + b == d * q2 + r2;
    MulDistributes(d, q, q2);
    DivModUnique(a + b, d, q + q2, r2);
  }

  /** Every window is non-empty, inside the ring, and does not wrap. */
  lemma {:induction false} WindowsInRing(idx: nat, remaining: nat, descMax: nat)
    requires idx < descMax
    ensures forall w | w in Windows(idx, remaining, descMax) ::
      0 < w.count && w.first + w.count <= descMax
    decreases remaining
  {
    if remaining > 0 {
      var n := Take(idx, remaining, descMax);
      WindowsInRing(NextIdx(idx, n, descMax), remaining - n, descMax);
    }
  }

  /** No gaps: descriptor o of the request sits in slot (idx + o) mod descMax. */
  lemma {:induction false} SlotOfDescriptor(idx: nat, remaining: nat, descMax: nat, o: nat)
    requires idx < descMax && o < remaining
    ensures |Slots(Windows(idx, remaining, descMax))| == remaining
    ensures Slots(Windows(idx, remaining, descMax))[o] == (idx + o) % descMax
    decreases remaining
  {
    var n := Take(idx, remaining, descMax);
    var next := NextIdx(idx, n, descMax);
    PhaseIsMod(idx + n, descMax);
    var ws := Windows(idx, remaining, descMax);
    assert ws[1..] == Windows(next, remaining - n, descMax);
    if n < remaining {
      SlotOfDescriptor(next, remaining - n, descMax, if o < n then 0 else o - n);
    } else {
      assert Windows(next, 0, descMax) == [];
    }
    if o < n {
      ModBelow(idx + o, descMax);
    } else {
      ModAdd(idx + n, o - n, descMax);
    }
  }

  /** Descriptors less than a ring apart never share a slot. */
  lemma {:induction false} SlotsDisjoint(idx: nat, remaining: nat, descMax: nat, o: nat, o': nat)
    requires idx < descMax && o < o' < remaining && o' - o < descMax
    ensures |Slots(Windows(idx, remaining, descMax))| == remaining
    ensures var s := Slots(Windows(idx, remaining, descMax)); s[o] != s[o']
  {
    SlotOfDescriptor(idx, remaining, descMax, o);
    SlotOfDescriptor(idx, remaining, descMax, o');
    ModAdd(idx + o, o' - o, descMax);
    var r := (idx + o) % descMax;
    ModBelow(r + (o' - o), descMax);
  }

  /** How many transfers a request takes: one for the rest of the ring, then one per lap. */
  lemma {:induction false} TransferCount(idx: nat, remaining: nat, descMax: nat)
    requires idx < descMax
    ensures |Windows(idx, remaining, descMax)|
         == if remaining == 0 then 0
            else if remaining <= descMax - idx then 1
            else 1 + (remaining - (descMax - idx) + descMax - 1) / descMax
    decreases remaining
  {
    if remaining > 0 {
      var n := Take(idx, remaining, descMax);
      var next := NextIdx(idx, n, descMax);
      TransferCount(next, remaining - n, descMax);
      if remaining - n > 0 {
        assert next == 0 by {
          LapEnds(descMax);
        }
        Laps(remaining - n, descMax);
      }
    }
  }

  lemma {:induction false} LapEnds(descMax: nat)
    requires descMax > 0
    ensures Phase(descMax, descMax) == 0
  {
    assert Phase(descMax, descMax) == Phase(0, descMax);
  }

  /** Rounding up: a first lap and the laps of the rest. */
  lemma {:induction false} Laps(rest: nat, d: nat)
    requires d > 0 && rest > 0
    ensures (rest + d - 1) / d == if rest <= d then 1 else 1 + (rest - d + d - 1) / d
  {
    if rest <= d {
      DivModUnique(rest + d - 1, d, 1, rest - 1);
    } else {
      var m := rest - 1;
      DivIdentity(m, d);
      MulDistributes(d, m / d, 1);
      DivModUnique(rest + d - 1, d, m / d + 1, m % d);
    }
  }

  /** The two tfer slots of a request suffice exactly for this many descriptors. */
  lemma {:induction false} TwoTransfersSuffice(idx: nat, remaining: nat, descMax: nat)
    requires idx < descMax
    ensures |Windows(idx, remaining, descMax)| <= 2 <==> remaining <= 2 * descMax - idx
  {
    TransferCount(idx, remaining, descMax);
    var over := remaining - (descMax - idx);
    if over > descMax {
      var m := over - 1;
      DivStepDown(m, descMax);
    } else if over > 0 {
      DivModUnique(over + descMax - 1, descMax, 1, over - 1);
    }
  }

  lemma {:induction false} DivStepDown(m: nat, d: nat)
    requires d > 0 && m >= d
    ensures (m + d) / d >= 2
  {
    QuotientNotLess(d, (m + d) / d, (m + d) % d, 2, m - d);
  }
}
