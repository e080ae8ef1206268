/** xdma_init_request: cutting a mapped scatter list into software descriptors. */
module Requests {
  import opened Words
  import opened Memory

  /** One scatter entry cut into pieces of at most blen bytes (the inner `while (tlen)`). */
  function Pieces(e: Extent, blen: U32): seq<Extent>
    requires blen > 0
    decreases e.len
  {
    if e.len == 0 then []
    else if e.len > blen then
      [Extent(e.addr, blen)] + Pieces(Extent(Wrap64(e.addr + blen), e.len - blen), blen)
    else [e]
  }

  function AllPieces(sg: seq<Extent>, blen: U32): seq<Extent>
    requires blen > 0
  {
    if sg == [] then []
    else AllPieces(sg[..|sg| - 1], blen) + Pieces(sg[|sg| - 1], blen)
  }

  ghost predicate ValidPieces(ps: seq<Extent>, blen: U32) {
    forall i | 0 <= i < |ps| :: 0 < ps[i].len <= blen
  }

  /** Cutting one entry keeps its bytes in order. */
  lemma {:induction false} PiecesTile(e: Extent, blen: U32)
    requires blen > 0
    ensures HostBytes(Pieces(e, blen)) == Span(e.addr, e.len)
    decreases e.len
  {
    if e.len > blen {
      var head, tail := Extent(e.addr, blen), Extent(Wrap64(e.addr + blen), e.len - blen);
      PiecesTile(tail, blen);
      assert HostBytes(Pieces(e, blen)) == HostBytes([head]) + HostBytes(Pieces(tail, blen)) by {
        HostBytesConcat([head], Pieces(tail, blen));
      }
      HostBytesOne(head);
      SpanSplit(e.addr, blen, e.len - blen);
    } else if e.len > 0 {
      HostBytesOne(e);
    }
  }

  lemma {:induction false} PiecesValid(e: Extent, blen: U32)
    requires blen > 0
    ensures ValidPieces(Pieces(e, blen), blen)
    decreases e.len
  {
    if e.len > blen {
      PiecesValid(Extent(Wrap64(e.addr + blen), e.len - blen), blen);
    }
  }

  /** All pieces but the last have this length. */
  ghost predicate FullBefore(ps: seq<Extent>, blen: U32) {
    forall k | 0 <= k < |ps| - 1 :: ps[k].len == blen
  }

  /** A piece is shorter than blen only if it is the last of its entry. */
  lemma {:induction false} PiecesFull(e: Extent, blen: U32)
    requires blen > 0
    ensures FullBefore(Pieces(e, blen), blen)
    decreases e.len
  {
    if e.len > blen {
      var rest := Pieces(Extent(Wrap64(e.addr + blen), e.len - blen), blen);
      PiecesFull(Extent(Wrap64(e.addr + blen), e.len - blen), blen);
      var ps := [Extent(e.addr, blen)] + rest;
      assert forall k | 1 <= k < |ps| :: ps[k] == rest[k - 1];
    }
  }

  lemma {:induction false} HostBytesOne(e: Extent)
    ensures HostBytes([e]) == Span(e.addr, e.len)
  {
    assert [e][..0] == [];
    assert HostBytes([]) + Span(e.addr, e.len) == Span(e.addr, e.len);
  }

  /** The pieces of a whole scatter list carry exactly its bytes, in its order. */
  lemma {:induction false} AllPiecesTile(sg: seq<Extent>, blen: U32)
    requires blen > 0
    ensures HostBytes(AllPieces(sg, blen)) == HostBytes(sg)
    ensures TotalLen(AllPieces(sg, blen)) == TotalLen(sg)
    ensures ValidPieces(AllPieces(sg, blen), blen)
  {
    if sg != [] {
      var front, e := sg[..|sg| - 1], sg[|sg| - 1];
      AllPiecesTile(front, blen);
      PiecesTile(e, blen);
      PiecesValid(e, blen);
      HostBytesConcat(AllPieces(front, blen), Pieces(e, blen));
    }
  }

  /** The share of the sizing pass that one scatter entry adds to `extra`. */
  function ExtraFor(len: U32, blen: U32): nat
    requires blen > 0
  {
    if len > blen then Quotient(Wrap32(len + blen - 1), blen) else 0
  }

  function Extra(sg: seq<Extent>, blen: U32): nat
    requires blen > 0
  {
    if sg == [] then 0 else Extra(sg[..|sg| - 1], blen) + ExtraFor(sg[|sg| - 1].len, blen)
  }

  /** No 32-bit overflow in the rounding-up division of the sizing pass. */
  ghost predicate Sizable(sg: seq<Extent>, blen: U32) {
    forall i | 0 <= i < |sg| :: sg[i].len > blen ==> sg[i].len + blen - 1 < TWO32
  }

  lemma {:induction false} DivStep(x: nat, d: nat)
    requires d > 0
    ensures (x + d) / d == x / d + 1
  {
    MulDistributes(d, x / d, 1);
    DivModUnique(x + d, d, x / d + 1, x % d);
  }

  lemma {:induction false} PieceCount(e: Extent, blen: U32)
    requires blen > 0
    ensures |Pieces(e, blen)| == (e.len + blen - 1) / blen
    decreases e.len
  {
    if e.len > blen {
      var rest := Extent(Wrap64(e.addr + blen), e.len - blen);
      PieceCount(rest, blen);
      DivStep(e.len - 1, blen);
    } else if e.len > 0 {
      DivStep(e.len - 1, blen);
      DivModUnique(e.len - 1, blen, 0, e.len - 1);
    } else {
      DivModUnique(blen - 1, blen, 0, blen - 1);
    }
  }

  lemma {:induction false} ExtraCoversEntry(e: Extent, blen: U32)
    requires blen > 0 && (e.len > blen ==> e.len + blen - 1 < TWO32)
    ensures 1 + ExtraFor(e.len, blen) == |Pieces(e, blen)| + if 0 < e.len <= blen then 0 else 1
  {
    if e.len > blen {
      PieceCount(e, blen);
      assert Wrap32(e.len + blen - 1) == e.len + blen - 1;
    }
  }

  /** The entries that are empty, or longer than one piece. */
  function Unsized(sg: seq<Extent>, blen: U32): nat {
    if sg == [] then 0
    else Unsized(sg[..|sg| - 1], blen) + if 0 < sg[|sg| - 1].len <= blen then 0 else 1
  }

  /** The sizing pass allocates exactly one software descriptor too many for each of these. */
  lemma {:induction false} SizingBound(sg: seq<Extent>, blen: U32)
    requires blen > 0 && Sizable(sg, blen)
    ensures |sg| + Extra(sg, blen) == |AllPieces(sg, blen)| + Unsized(sg, blen)
  {
    if sg != [] {
      SizingBound(sg[..|sg| - 1], blen);
      ExtraCoversEntry(sg[|sg| - 1], blen);
    }
  }

  lemma {:induction false} AllPiecesMonotone(sg: seq<Extent>, i: nat, blen: U32)
    requires blen > 0 && i <= |sg|
    ensures |AllPieces(sg[..i], blen)| <= |AllPieces(sg, blen)|
    decreases |sg|
  {
    if i < |sg| {
      AllPiecesMonotone(sg[..|sg| - 1], i, blen);
      assert sg[..|sg| - 1][..i] == sg[..i];
    } else {
      assert sg[..i] == sg;
    }
  }

  /** struct xdma_request_cb: the cursors the submit loop moves. */
  class RequestCb {
    const sdesc: array<Extent>
    const swDescCnt: nat
    const totalLen: U32
    var epAddr: U64
    var swDescIdx: nat

    ghost predicate Valid()
      reads this
    {
      swDescIdx <= swDescCnt <= sdesc.Length
    }

    ghost function Descs(): seq<Extent>
      reads this, sdesc
      requires swDescCnt <= sdesc.Length
    {
      sdesc[..swDescCnt]
    }

    constructor (sdesc: array<Extent>, cnt: nat, total: U32, ep: U64)
      ensures this.sdesc == sdesc && swDescCnt == cnt && totalLen == total
      ensures epAddr == ep && swDescIdx == 0
    {
      this.sdesc := sdesc;
      swDescCnt := cnt;
      totalLen := total;
      epAddr := ep;
      swDescIdx := 0;
    }
  }

  /** The sizing pass: scatter entries plus the extra pieces of the long ones. */
  method SizeRequest(sg: seq<Extent>, blen: U32) returns (max: nat)
    requires blen > 0
    ensures max == |sg| + Extra(sg, blen)
  {
    var extra := 0;
    for i := 0 to |sg|
      invariant extra == Extra(sg[..i], blen)
    {
      assert sg[..i + 1][..i] == sg[..i];
      if sg[i].len > blen {
        extra := extra + Wrap32(sg[i].len + blen - 1) / blen;
      }
    }
    assert sg[..|sg|] == sg;
    max := |sg| + extra;
  }

  /** The inner `while (tlen)` of the second pass: stores the pieces of one entry from j on. */
  method CutEntry(buf: array<Extent>, start: nat, e: Extent, blen: U32) returns (j: nat)
    requires blen > 0 && start + |Pieces(e, blen)| <= buf.Length
    modifies buf
    ensures j == start + |Pieces(e, blen)|
    ensures buf[..j] == old(buf[..start]) + Pieces(e, blen)
  {
    var tlen: U32 := e.len;
    var addr: U64 := e.addr;
    ghost var done := [];
    j := start;
    while tlen > 0
      invariant start <= j <= buf.Length && |done| == j - start
      invariant done + Pieces(Extent(addr, tlen), blen) == Pieces(e, blen)
      invariant buf[..start] == old(buf[..start]) && buf[start..j] == done
      decreases tlen
    {
      ghost var rest := Extent(addr, tlen);
      if tlen > blen {
        buf[j] := Extent(addr, blen);
        addr := Wrap64(addr + blen);
        tlen := tlen - blen;
      } else {
        buf[j] := Extent(addr, tlen);
        tlen := 0;
      }
      NextPiece(done, rest, buf[j], Extent(addr, tlen), blen);
      done := done + [buf[j]];
      j := j + 1;
    }
    assert buf[..j] == buf[..start] + buf[start..j];
  }

  /** The first piece of what is left of an entry. */
  lemma {:induction false} NextPiece(done: seq<Extent>, e: Extent, p: Extent, rest: Extent, blen: U32)
    requires blen > 0 && e.len > 0
    requires e.len > blen ==> p == Extent(e.addr, blen) && rest == Extent(Wrap64(e.addr + blen), e.len - blen)
    requires e.len <= blen ==> p == e && rest.len == 0
    ensures done + [p] + Pieces(rest, blen) == done + Pieces(e, blen)
  {
    assert Pieces(e, blen) == [p] + Pieces(rest, blen);
    assert done + ([p] + Pieces(rest, blen)) == done + [p] + Pieces(rest, blen);
  }

  lemma {:induction false} AllPiecesStep(sg: seq<Extent>, i: nat, blen: U32)
    requires blen > 0 && i < |sg|
    ensures AllPieces(sg[..i + 1], blen) == AllPieces(sg[..i], blen) + Pieces(sg[i], blen)
    ensures |AllPieces(sg[..i + 1], blen)| <= |AllPieces(sg, blen)|
  {
    assert sg[..i + 1][..i] == sg[..i];
    AllPiecesMonotone(sg, i + 1, blen);
  }

  /**
   * xdma_init_request.  The array is allocated from the sizing pass and filled by the
   * second pass, every store being checked against its length.  `overflow` is the source's
   * final test `j > max`, after which it would give up.
   */
  method InitRequest(sg: seq<Extent>, ep: U64, blen: U32) returns (overflow: bool, req: RequestCb)
    requires blen > 0 && Sizable(sg, blen)
    ensures !overflow
    ensures fresh(req) && fresh(req.sdesc) && req.Valid()
    ensures req.sdesc.Length == |sg| + Extra(sg, blen)
    ensures req.epAddr == ep && req.swDescIdx == 0
    ensures req.Descs() == AllPieces(sg, blen)
    ensures req.totalLen == Wrap32(TotalLen(sg))
  {
    var max := SizeRequest(sg, blen);
    var buf := new Extent[max](_ => Extent(0, 0));
    var total: U32 := 0;
    var i, j := 0, 0;
    SizingBound(sg, blen);
    while i < |sg|
      invariant i <= |sg|
      invariant j == |AllPieces(sg[..i], blen)| <= buf.Length
      invariant buf[..j] == AllPieces(sg[..i], blen)
      invariant total == Wrap32(TotalLen(sg[..i]))
    {
      AllPiecesStep(sg, i, blen);
      TotalLenTake(sg, i);
      WrapAdd32(TotalLen(sg[..i]), sg[i].len);
      total := Wrap32(total + sg[i].len);
      j := CutEntry(buf, j, sg[i], blen);
      i := i + 1;
    }
    assert sg[..i] == sg;
    overflow := j > max;
    req := new RequestCb(buf, j, total, ep);
  }
}
