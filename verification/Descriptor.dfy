/** struct xdma_desc, its control word, and the run of descriptors one transfer writes. */
module Descriptors {
  import opened Words

  const DESC_SIZE := 32
  const MAX_ADJ_BLOCK := 64
  const PAGE_SIZE := 4096

  const DESC_MAGIC: bv32 := 0xAD4B0000
  const LS_BYTE_MASK: bv32 := 0xFF
  const STOPPED: bv32 := 0x01
  const COMPLETED: bv32 := 0x02
  const EOP: bv32 := 0x10

  datatype Desc = Desc(
    control: bv32,
    bytes: U32,
    srcLo: U32, srcHi: U32,
    dstLo: U32, dstHi: U32,
    nextLo: U32, nextHi: U32)
  {
    /** The fields as the hardware reads them. */
    function Src(): U64 { Join64(srcHi, srcLo) }
    function Dst(): U64 { Join64(dstHi, dstLo) }
    function Next(): U64 { Join64(nextHi, nextLo) }
    predicate Stops() { control & STOPPED != 0 }
    function Adjacent(): nat { Adj(control) }
  }

  function Magic(c: bv32): bv32 {
    c >> 16
  }

  function Flags(c: bv32): bv32 {
    c & LS_BYTE_MASK
  }

  /** Bits 8..13: how many further descriptors lie contiguously after the next one. */
  function AdjBits(c: bv32): bv6 {
    ((c >> 8) & 0x3f) as bv6
  }

  function Adj(c: bv32): (n: nat)
    ensures n < 64
  {
    AdjBits(c) as int
  }

  /** xdma_desc_control_set: a field outside the low byte is refused (-EINVAL) and the word kept. */
  function SetControl(c: bv32, field: bv32): bv32 {
    if field & !LS_BYTE_MASK != 0 then c else (c & !LS_BYTE_MASK) | field
  }

  /** xdma_desc_adjacent: the mask 0xf0ff keeps bits 12..15, which overlap the field. */
  function SetAdjacent(c: bv32, adj: bv6): bv32 {
    (c & 0x0000f0ff) | (0xAD4B0000 | ((adj as bv32) << 8))
  }

  /**
   * xdma_get_next_adj: of `remaining` descriptors starting at the one whose low address word
   * is nextLo, how many follow it inside its aligned block of 64.
   */
  function NextAdj(remaining: nat, nextLo: U32): (n: nat)
    ensures n < MAX_ADJ_BLOCK
    ensures remaining >= 1 ==> n < remaining
  {
    if remaining <= 1 then 0
    else
      var nextIndex := ((nextLo % PAGE_SIZE) / DESC_SIZE) % MAX_ADJ_BLOCK;
      Min(MAX_ADJ_BLOCK - nextIndex - 1, remaining - 1)
  }

  /** The control word one descriptor ends up with, by the stores of transfer_init in order. */
  function ControlWord(last: bool, eopFlush: bool, adj: nat): bv32
    requires adj < MAX_ADJ_BLOCK
  {
    var c := if last then SetControl(DESC_MAGIC, STOPPED | EOP | COMPLETED)
             else if eopFlush then SetControl(DESC_MAGIC, COMPLETED)
             else DESC_MAGIC;
    SetAdjacent(c, adj as bv6)
  }

  /** A field inside the low byte replaces it and nothing else; any other field changes nothing. */
  lemma {:induction false} SetControlDecodes(c: bv32, field: bv32)
    ensures field < 0x100 ==>
      Flags(SetControl(c, field)) == field && SetControl(c, field) & 0xffffff00 == c & 0xffffff00
    ensures field >= 0x100 ==> SetControl(c, field) == c
  {
  }

  lemma {:induction false} SetAdjacentDecodes(c: bv32, adj: bv6)
    requires c & 0x0000ff00 == 0
    ensures AdjBits(SetAdjacent(c, adj)) == adj
    ensures Magic(SetAdjacent(c, adj)) == 0xAD4B
    ensures Flags(SetAdjacent(c, adj)) == Flags(c)
    ensures SetAdjacent(c, adj) & STOPPED == c & STOPPED
    ensures SetAdjacent(c, adj) & 0x0000c000 == 0
  {
  }

  /** Every word transfer_init composes decodes to the fields it was composed from. */
  lemma {:induction false} ControlWordDecodes(last: bool, eopFlush: bool, adj: nat)
    requires adj < MAX_ADJ_BLOCK
    ensures var c := ControlWord(last, eopFlush, adj);
      && Magic(c) == 0xAD4B
      && Adj(c) == adj
      && (c & STOPPED != 0 <==> last) && (c & 0x01 != 0 <==> last)
      && Flags(c) == (if last then 0x13 else if eopFlush then 0x02 else 0)
  {
    var c := if last then SetControl(DESC_MAGIC, STOPPED | EOP | COMPLETED)
             else if eopFlush then SetControl(DESC_MAGIC, COMPLETED)
             else DESC_MAGIC;
    SetAdjacentDecodes(c, adj as bv6);
  }

  /** Without a cleared field the composition is wrong: stale bits 12 and 13 survive the mask. */
  lemma {:induction false} StaleAdjacencySurvives()
    ensures Adj(SetAdjacent(SetAdjacent(DESC_MAGIC, 63), 0)) == 48
  {
    assert AdjBits(SetAdjacent(SetAdjacent(DESC_MAGIC, 63), 0)) == 48;
  }

  /** Re-composing is exact exactly when the old word has bits 12 and 13 inside the new ones. */
  lemma {:induction false} SetAdjacentExact(c: bv32, adj: bv6)
    ensures AdjBits(SetAdjacent(c, adj)) == adj <==> (c & 0x3000) & !((adj as bv32) << 8) == 0
  {
  }
}
