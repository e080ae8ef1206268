/** The video sender of tools/pcie_xdma_transfer: frames in order through three slots of card memory. */
module Frames {
  import opened Words
  import opened Memory

  const BUF_STEP := 0x2000000
  const FIRST_BUF_ADDR := [0x810000000, 0x816000000, 0x81c000000, 0x822000000,
                           0x428000000, 0x42e000000, 0x434000000, 0x43a000000]

  type Frame = seq<Byte>

  datatype Phase = Idle | Writing

  /**
   * One channel: g_send_count, the card's memory, the frames pending (by send number, oldest
   * first), and as history what each signalled and each consumed frame contained.
   */
  datatype Channel = Channel(
    base: nat, size: nat,
    count: nat, phase: Phase,
    card: Storage, pending: seq<nat>,
    sent: seq<Frame>, consumed: seq<Frame>)

  datatype Step =
    | Ready                        // wait_fpga_ready saw a value other than 3
    | WriteByte(i: nat, v: Byte)   // one byte of the DMA write to the current slot
    | Signal                       // set_fpga_wait, then g_send_count++
    | GiveUp                       // the write failed: neither
    | Consume                      // the card takes the oldest signalled frame

  function SlotAddr(base: nat, n: nat): nat {
    base + n % 3 * BUF_STEP
  }

  function Content(card: Storage, a: nat, size: nat): Frame {
    seq<Byte>(size, i requires 0 <= i < size => Peek(card, a + i))
  }

  function ReadyReg(s: Channel): nat {
    |s.pending|
  }

  predicate Enabled(s: Channel, st: Step) {
    match st
    case Ready => s.phase == Idle && ReadyReg(s) != 3
    case WriteByte(i, _) => s.phase == Writing && i < s.size
    case Signal => s.phase == Writing
    case GiveUp => s.phase == Writing
    case Consume => s.pending != []
  }

  function Next(s: Channel, st: Step): Channel
    requires Enabled(s, st)
  {
    match st
    case Ready => s.(phase := Writing)
    case WriteByte(i, v) => s.(card := s.card[SlotAddr(s.base, s.count) + i := v])
    case Signal =>
      s.(phase := Idle, count := s.count + 1, pending := s.pending + [s.count],
         sent := s.sent + [Content(s.card, SlotAddr(s.base, s.count), s.size)])
    case GiveUp => s.(phase := Idle)
    case Consume =>
      s.(pending := s.pending[1..],
         consumed := s.consumed + [Content(s.card, SlotAddr(s.base, s.pending[0]), s.size)])
  }

  /** The frames pending are the last ones sent, and each still lies untouched in its slot. */
  ghost predicate Invariant(s: Channel) {
    && s.size <= BUF_STEP
    && |s.pending| <= (if s.phase == Writing then 2 else 3)
    && |s.sent| == s.count >= |s.pending|
    && (forall j | 0 <= j < |s.pending| ::
         && s.pending[j] == s.count - |s.pending| + j
         && Content(s.card, SlotAddr(s.base, s.pending[j]), s.size) == s.sent[s.pending[j]])
    && s.consumed == s.sent[..s.count - |s.pending|]
  }

  ghost predicate Initial(s: Channel) {
    && s.size <= BUF_STEP && s.count == 0 && s.phase == Idle
    && s.pending == [] && s.sent == [] && s.consumed == []
  }

  /** The slot being written is none of those pending. */
  lemma {:induction false} WritesFreeSlot(s: Channel, j: nat)
    requires Invariant(s) && s.phase == Writing && j < |s.pending|
    ensures SlotAddr(s.base, s.count) + s.size <= SlotAddr(s.base, s.pending[j])
         || SlotAddr(s.base, s.pending[j]) + s.size <= SlotAddr(s.base, s.count)
  {
    assert s.pending[j] % 3 != s.count % 3;
  }

  lemma {:induction false} WriteKeeps(s: Channel, i: nat, v: Byte)
    requires Invariant(s) && Enabled(s, WriteByte(i, v))
    ensures Invariant(Next(s, WriteByte(i, v)))
  {
    var s' := Next(s, WriteByte(i, v));
    forall j | 0 <= j < |s.pending|
      ensures Content(s'.card, SlotAddr(s.base, s.pending[j]), s.size)
           == Content(s.card, SlotAddr(s.base, s.pending[j]), s.size)
    {
      WritesFreeSlot(s, j);
      ContentElsewhere(s.card, SlotAddr(s.base, s.pending[j]), s.size, SlotAddr(s.base, s.count) + i, v);
    }
  }

  lemma {:induction false} PeekElsewhere(card: Storage, x: int, t: int, v: Byte)
    requires x != t
    ensures Peek(card[t := v], x) == Peek(card, x)
  {
    assert x in card[t := v] <==> x in card;
  }

  lemma {:induction false} ContentElsewhere(card: Storage, a: nat, size: nat, t: nat, v: Byte)
    requires !(a <= t < a + size)
    ensures Content(card[t := v], a, size) == Content(card, a, size)
  {
    var l, r := Content(card[t := v], a, size), Content(card, a, size);
    forall i | 0 <= i < size
      ensures l[i] == r[i]
    {
      PeekElsewhere(card, a + i, t, v);
    }
  }

  lemma {:induction false} NextKeeps(s: Channel, st: Step)
    requires Invariant(s) && Enabled(s, st)
    ensures Invariant(Next(s, st))
  {
    match st
    case WriteByte(i, v) => WriteKeeps(s, i, v);
    case Consume =>
      var s' := Next(s, st);
      assert s.pending[0] == s.count - |s.pending|;
      assert s.sent[..s.count - |s'.pending|] == s.sent[..s.count - |s.pending|] + [s.sent[s.pending[0]]];
    case Signal =>
      var s' := Next(s, st);
      assert s'.sent[..s.count - |s.pending|] == s.sent[..s.count - |s.pending|];
    case _ =>
  }

  ghost predicate IsRun(ss: seq<Channel>, steps: seq<Step>) {
    && |ss| == |steps| + 1
    && forall i | 0 <= i < |steps| :: Enabled(ss[i], steps[i]) && ss[i + 1] == Next(ss[i], steps[i])
  }

  lemma {:induction false} RunKeeps(ss: seq<Channel>, steps: seq<Step>, i: nat)
    requires IsRun(ss, steps) && Invariant(ss[0]) && i < |ss|
    ensures Invariant(ss[i])
    decreases i
  {
    if i > 0 {
      RunKeeps(ss, steps, i - 1);
      NextKeeps(ss[i - 1], steps[i - 1]);
    }
  }

  /**
   * On every run, however sending, failing and consuming interleave: what the card has consumed
   * is, frame by frame and byte by byte, what was signalled first, in order; and no byte is ever
   * written into a slot that is still pending.
   */
  lemma {:induction false} FramesArriveInOrder(ss: seq<Channel>, steps: seq<Step>, i: nat)
    requires IsRun(ss, steps) && Initial(ss[0]) && i < |ss|
    ensures ss[i].consumed <= ss[i].sent
    ensures |ss[i].sent| == |ss[i].consumed| + ReadyReg(ss[i]) && ReadyReg(ss[i]) <= 3
    ensures i < |steps| && steps[i].WriteByte? ==> forall j | 0 <= j < |ss[i].pending| ::
      var a, p := SlotAddr(ss[i].base, ss[i].count) + steps[i].i, SlotAddr(ss[i].base, ss[i].pending[j]);
      !(p <= a < p + ss[i].size)
  {
    RunKeeps(ss, steps, i);
    if i < |steps| && steps[i].WriteByte? {
      forall j | 0 <= j < |ss[i].pending|
        ensures var a, p := SlotAddr(ss[i].base, ss[i].count) + steps[i].i, SlotAddr(ss[i].base, ss[i].pending[j]);
          !(p <= a < p + ss[i].size)
      {
        WritesFreeSlot(ss[i], j);
      }
    }
  }

  /** Two frames of this size, at these addresses, share no byte. */
  ghost predicate Apart(a: nat, b: nat, size: nat) {
    a + size <= b || b + size <= a
  }

  /** No two slots, of one channel or of two, share a byte when they hold frames of this size. */
  ghost predicate SlotsApart(size: nat) {
    forall c: nat, n: nat, c': nat, n': nat | c < 8 && c' < 8 && (c != c' || n % 3 != n' % 3) ::
      Apart(SlotAddr(FIRST_BUF_ADDR[c], n), SlotAddr(FIRST_BUF_ADDR[c'], n'), size)
  }

  lemma {:induction false} SlotsWithinStep(c: nat, n: nat, c': nat, n': nat, size: nat)
    requires c < 8 && c' < 8 && (c != c' || n % 3 != n' % 3) && size <= BUF_STEP
    ensures Apart(SlotAddr(FIRST_BUF_ADDR[c], n), SlotAddr(FIRST_BUF_ADDR[c'], n'), size)
  {
    assert FIRST_BUF_ADDR[c] == if c < 4 then 0x810000000 + c * 0x6000000 else 0x428000000 + (c - 4) * 0x6000000;
    assert FIRST_BUF_ADDR[c'] == if c' < 4 then 0x810000000 + c' * 0x6000000 else 0x428000000 + (c' - 4) * 0x6000000;
  }

  /**
   * The slots of all eight channels are disjoint exactly for frames up to the step: with one byte
   * more, a slot runs into the next one.
   */
  lemma {:induction false} ChannelSlotsDisjoint(size: nat)
    ensures SlotsApart(size) <==> size <= BUF_STEP
  {
    if size <= BUF_STEP {
      forall c: nat, n: nat, c': nat, n': nat | c < 8 && c' < 8 && (c != c' || n % 3 != n' % 3)
        ensures Apart(SlotAddr(FIRST_BUF_ADDR[c], n), SlotAddr(FIRST_BUF_ADDR[c'], n'), size)
      {
        SlotsWithinStep(c, n, c', n', size);
      }
    } else {
      assert !Apart(SlotAddr(FIRST_BUF_ADDR[0], 0), SlotAddr(FIRST_BUF_ADDR[0], 1), size);
    }
  }

  // ---------------------------------------------------------------------------------------
  // The sender

  ghost predicate Reaches(s: Channel, t: Channel) {
    exists ss, steps :: IsRun(ss, steps) && ss[0] == s && ss[|ss| - 1] == t
  }

  lemma {:induction false} ReachesSelf(s: Channel)
    ensures Reaches(s, s)
  {
    assert IsRun([s], []);
  }

  lemma {:induction false} ReachesNext(s: Channel, m: Channel, st: Step)
    requires Reaches(s, m) && Enabled(m, st)
    ensures Reaches(s, Next(m, st))
  {
    var ss, steps :| IsRun(ss, steps) && ss[0] == s && ss[|ss| - 1] == m;
    assert IsRun(ss + [Next(m, st)], steps + [st]);
  }

  lemma {:induction false} ReachesKeeps(s: Channel, t: Channel)
    requires Reaches(s, t) && Invariant(s)
    ensures Invariant(t)
  {
    var ss, steps :| IsRun(ss, steps) && ss[0] == s && ss[|ss| - 1] == t;
    RunKeeps(ss, steps, |ss| - 1);
  }

  datatype Outcome = Sent | Failed | StillWaiting

  function Sum(taken: seq<nat>): nat {
    if taken == [] then 0 else Sum(taken[..|taken| - 1]) + taken[|taken| - 1]
  }

  lemma {:induction false} SumStep(taken: seq<nat>, i: nat)
    requires i < |taken|
    ensures Sum(taken[..i + 1]) == Sum(taken[..i]) + taken[i]
  {
    assert taken[..i + 1][..i] == taken[..i];
  }

  /** How many of `pending` frames are left when up to n have been taken. */
  function Left(pending: nat, n: nat): nat {
    if n <= pending then pending - n else 0
  }

  /** What poll i reads when taken[j] frames leave the card before poll j. */
  function RegisterAt(pending: nat, taken: seq<nat>, i: nat): nat
    requires i < |taken|
  {
    Left(pending, Sum(taken[..i + 1]))
  }

  /** The sender's globals and the card behind them; the card acts between any two of its steps. */
  class Sender {
    const base: nat
    const size: nat
    var sendCount: nat
    var phase: Phase
    var card: Storage
    var pending: seq<nat>
    ghost var sent: seq<Frame>
    ghost var consumed: seq<Frame>

    constructor (base: nat, size: nat)
      requires size <= BUF_STEP
      ensures Initial(View())
    {
      this.base, this.size := base, size;
      sendCount, phase, card, pending := 0, Idle, map[], [];
      sent, consumed := [], [];
    }

    ghost function View(): Channel
      reads this
    {
      Channel(base, size, sendCount, phase, card, pending, sent, consumed)
    }

    /** The card takes up to n frames. */
    method CardTakes(n: nat, ghost start: Channel)
      requires Reaches(start, View())
      modifies `pending, `consumed
      ensures Reaches(start, View())
      ensures |pending| == if n <= |old(pending)| then |old(pending)| - n else 0
    {
      for i := 0 to n
        invariant Reaches(start, View()) && |pending| == Left(|old(pending)|, i)
      {
        if pending != [] {
          ReachesNext(start, View(), Consume);
          consumed := consumed + [Content(card, SlotAddr(base, pending[0]), size)];
          pending := pending[1..];
        }
      }
    }

    /** wait_fpga_ready: taken[i] frames leave the card before poll i; it ends when not 3 are left. */
    method WaitReady(taken: seq<nat>, ghost start: Channel) returns (ready: bool)
      requires Reaches(start, View()) && phase == Idle
      modifies `pending, `consumed, `phase
      ensures Reaches(start, View())
      ensures phase == if ready then Writing else Idle
      ensures ready <==> exists i | 0 <= i < |taken| :: RegisterAt(|old(pending)|, taken, i) != 3
    {
      for i := 0 to |taken|
        invariant Reaches(start, View()) && phase == Idle
        invariant |pending| == Left(|old(pending)|, Sum(taken[..i]))
        invariant forall j | 0 <= j < i :: RegisterAt(|old(pending)|, taken, j) == 3
      {
        CardTakes(taken[i], start);
        SumStep(taken, i);
        assert RegisterAt(|old(pending)|, taken, i) == |pending|;
        if |pending| != 3 {
          ReachesNext(start, View(), Ready);
          phase := Writing;
          return true;
        }
      }
      ready := false;
    }

    /** write_from_buffer, as far as it got: the first n bytes, the card taking frames meanwhile. */
    method WriteFrame(frame: Frame, n: nat, taken: nat -> nat, ghost start: Channel)
      requires Reaches(start, View()) && phase == Writing && n <= |frame| == size
      modifies `card, `pending, `consumed
      ensures Reaches(start, View())
      ensures Content(card, SlotAddr(base, sendCount), size)[..n] == frame[..n]
    {
      var a := SlotAddr(base, sendCount);
      for i := 0 to n
        invariant Reaches(start, View())
        invariant forall k | 0 <= k < i :: Peek(card, a + k) == frame[k]
      {
        CardTakes(taken(i), start);
        ReachesNext(start, View(), WriteByte(i, frame[i]));
        card := card[a + i := frame[i]];
      }
    }

    /**
     * test_dma for one frame.  rc is the result of the write and n how many bytes it stored; a
     * failed write leaves the count, and with it the slot, for the next attempt.
     */
    method TestDma(frame: Frame, polls: seq<nat>, rc: int, n: nat, during: nat -> nat, after: nat)
      returns (r: Outcome)
      requires Invariant(View()) && phase == Idle && |frame| == size
      requires n <= size && (rc >= 0 ==> rc == n)
      modifies this
      ensures Invariant(View()) && phase == Idle && Reaches(old(View()), View())
      ensures r == StillWaiting <==> forall i | 0 <= i < |polls| :: RegisterAt(|old(pending)|, polls, i) == 3
      ensures r != StillWaiting ==> (r == Sent <==> rc >= 0)
      ensures r == Sent ==>
        && sendCount == old(sendCount) + 1 && |sent| == |old(sent)| + 1 && old(sent) <= sent
        && |sent[|old(sent)|]| == size && sent[|old(sent)|][..rc] == frame[..rc]
        && pending != [] && pending[|pending| - 1] == old(sendCount)
      ensures r != Sent ==> sendCount == old(sendCount) && sent == old(sent)
    {
      ghost var start := View();
      ReachesSelf(start);
      var ready := WaitReady(polls, start);
      if !ready {
        ReachesKeeps(start, View());
        return StillWaiting;
      }
      WriteFrame(frame, n, during, start);
      if rc < 0 {
        ReachesNext(start, View(), GiveUp);
        phase := Idle;
        ReachesKeeps(start, View());
        return Failed;
      }
      CardTakes(after, start);
      ReachesNext(start, View(), Signal);
      sent := sent + [Content(card, SlotAddr(base, sendCount), size)];
      pending := pending + [sendCount];
      sendCount := sendCount + 1;
      phase := Idle;
      ReachesKeeps(start, View());
      r := Sent;
    }
  }
}
