/**
 * Host and card memory, and what it means to move bytes between them.
 *
 * A DMA engine has no notion of a request: all it does is move single bytes, one after another.
 * The reference for every transfer is therefore a sequence of moves, and two transfers do the same
 * if their moves are the same sequence.
 */
module Memory {
  import opened Words

  datatype Direction = ToDevice | FromDevice

  /** Byte-addressed storage; an address never written reads as zero. */
  type Storage = map<int, Byte>

  datatype World = World(host: Storage, card: Storage)

  datatype Move = Move(host: U64, card: U64)

  /** A contiguous stretch of host bus addresses: a scatter entry or a piece of one. */
  datatype Extent = Extent(addr: U64, len: U32)

  function Peek(m: Storage, a: int): Byte {
    if a in m then m[a] else 0
  }

  function MoveByte(w: World, dir: Direction, m: Move): World {
    match dir
    case ToDevice => w.(card := w.card[m.card := Peek(w.host, m.host)])
    case FromDevice => w.(host := w.host[m.host := Peek(w.card, m.card)])
  }

  function Apply(w: World, dir: Direction, moves: seq<Move>): World {
    if moves == [] then w
    else MoveByte(Apply(w, dir, moves[..|moves| - 1]), dir, moves[|moves| - 1])
  }

  lemma {:induction false} ApplyConcat(w: World, dir: Direction, a: seq<Move>, b: seq<Move>)
    ensures Apply(w, dir, a + b) == Apply(Apply(w, dir, a), dir, b)
    decreases |b|
  {
    if b == [] {
      assert a + b == a;
    } else {
      assert (a + b)[..|a + b| - 1] == a + b[..|b| - 1];
      ApplyConcat(w, dir, a, b[..|b| - 1]);
    }
  }

  /** The bus addresses of an extent, in order. */
  function Span(a: U64, n: nat): (s: seq<U64>)
    ensures |s| == n
  {
    seq<U64>(n, i requires 0 <= i < n => Wrap64(a + i))
  }

  lemma {:induction false} SpanSplit(a: U64, m: nat, n: nat)
    ensures Span(a, m + n) == Span(a, m) + Span(Wrap64(a + m), n)
  {
    var whole, parts := Span(a, m + n), Span(a, m) + Span(Wrap64(a + m), n);
    forall i | 0 <= i < m + n
      ensures whole[i] == parts[i]
    {
      if i >= m {
        WrapAdd(a + m, i - m);
      }
    }
  }

  function TotalLen(es: seq<Extent>): nat {
    if es == [] then 0 else TotalLen(es[..|es| - 1]) + es[|es| - 1].len
  }

  lemma {:induction false} TotalLenConcat(a: seq<Extent>, b: seq<Extent>)
    ensures TotalLen(a + b) == TotalLen(a) + TotalLen(b)
    decreases |b|
  {
    if b == [] {
      assert a + b == a;
    } else {
      assert (a + b)[..|a + b| - 1] == a + b[..|b| - 1];
      TotalLenConcat(a, b[..|b| - 1]);
    }
  }

  lemma {:induction false} TotalLenTake(es: seq<Extent>, k: nat)
    requires k < |es|
    ensures TotalLen(es[..k + 1]) == TotalLen(es[..k]) + es[k].len
  {
    assert es[..k + 1][..k] == es[..k];
  }

  lemma {:induction false} TotalLenMonotone(es: seq<Extent>, i: nat, j: nat)
    requires i <= j <= |es|
    ensures TotalLen(es[..i]) <= TotalLen(es[..j])
    decreases j
  {
    if i < j {
      TotalLenMonotone(es, i, j - 1);
      TotalLenTake(es, j - 1);
    }
  }

  /** The host bytes of a scatter list, concatenated in order. */
  function HostBytes(es: seq<Extent>): (s: seq<U64>)
    ensures |s| == TotalLen(es)
  {
    if es == [] then []
    else HostBytes(es[..|es| - 1]) + Span(es[|es| - 1].addr, es[|es| - 1].len)
  }

  lemma {:induction false} HostBytesConcat(a: seq<Extent>, b: seq<Extent>)
    ensures HostBytes(a + b) == HostBytes(a) + HostBytes(b)
    decreases |b|
  {
    if b == [] {
      assert a + b == a;
    } else {
      assert (a + b)[..|a + b| - 1] == a + b[..|b| - 1];
      HostBytesConcat(a, b[..|b| - 1]);
    }
  }

  /** Byte o of the request meets card address ep + o. */
  function FlatMoves(host: seq<U64>, ep: U64): (ms: seq<Move>)
    ensures |ms| == |host|
  {
    seq<Move>(|host|, i requires 0 <= i < |host| => Move(host[i], Wrap64(ep + i)))
  }

  /** One flat copy between a list of host bytes and [ep, ep + |host|). */
  function FlatCopy(w: World, dir: Direction, host: seq<U64>, ep: U64): World {
    Apply(w, dir, FlatMoves(host, ep))
  }

  lemma {:induction false} FlatMovesConcat(a: seq<U64>, b: seq<U64>, ep: U64)
    ensures FlatMoves(a + b, ep) == FlatMoves(a, ep) + FlatMoves(b, Wrap64(ep + |a|))
  {
    var whole, parts := FlatMoves(a + b, ep), FlatMoves(a, ep) + FlatMoves(b, Wrap64(ep + |a|));
    forall i | 0 <= i < |a + b|
      ensures whole[i] == parts[i]
    {
      if i >= |a| {
        WrapAdd(ep + |a|, i - |a|);
      }
    }
  }

  /** What a flat copy to the card means, address by address: no other byte changes. */
  lemma {:induction false} FlatCopyToDevice(w: World, host: seq<U64>, ep: U64)
    requires |host| <= TWO64
    ensures var r := FlatCopy(w, ToDevice, host, ep);
      && r.host == w.host
      && (forall o | 0 <= o < |host| ::
            && Peek(r.card, Wrap64(ep + o)) == Peek(w.host, host[o])
            && Wrap64(ep + o) in r.card && (host[o] in w.host ==> r.card[Wrap64(ep + o)] == w.host[host[o]]))
      && (forall a: int | a !in Span(ep, |host|) :: Peek(r.card, a) == Peek(w.card, a))
    decreases |host|
  {
    if host != [] {
      var n := |host| - 1;
      var front := host[..n];
      FlatCopyToDevice(w, front, ep);
      assert FlatMoves(host, ep)[..n] == FlatMoves(front, ep);
      var f := FlatCopy(w, ToDevice, front, ep);
      var r := FlatCopy(w, ToDevice, host, ep);
      var target := Wrap64(ep + n);
      assert r == MoveByte(f, ToDevice, Move(host[n], target));
      forall o | 0 <= o < |host|
        ensures Peek(r.card, Wrap64(ep + o)) == Peek(w.host, host[o])
        ensures Wrap64(ep + o) in r.card && (host[o] in w.host ==> r.card[Wrap64(ep + o)] == w.host[host[o]])
      {
        if o < n {
          WrapDistinct(ep, o, n);
          assert Peek(f.card, Wrap64(ep + o)) == Peek(w.host, front[o]);
        }
      }
      forall a: int | a !in Span(ep, |host|)
        ensures Peek(r.card, a) == Peek(w.card, a)
      {
        assert Span(ep, |host|)[n] == target;
        assert Span(ep, n) == Span(ep, |host|)[..n];
      }
    }
  }

  /** And from the card, when the host bytes are distinct. */
  lemma {:induction false} FlatCopyFromDevice(w: World, host: seq<U64>, ep: U64)
    requires forall i, j | 0 <= i < j < |host| :: host[i] != host[j]
    ensures var r := FlatCopy(w, FromDevice, host, ep);
      && r.card == w.card
      && (forall o | 0 <= o < |host| :: Peek(r.host, host[o]) == Peek(w.card, Wrap64(ep + o)))
      && (forall a: int | a !in host :: Peek(r.host, a) == Peek(w.host, a))
    decreases |host|
  {
    if host != [] {
      var n := |host| - 1;
      var front := host[..n];
      FlatCopyFromDevice(w, front, ep);
      assert FlatMoves(host, ep)[..n] == FlatMoves(front, ep);
      var f := FlatCopy(w, FromDevice, front, ep);
      var r := FlatCopy(w, FromDevice, host, ep);
      assert r == MoveByte(f, FromDevice, Move(host[n], Wrap64(ep + n)));
      forall o | 0 <= o < |host|
        ensures Peek(r.host, host[o]) == Peek(w.card, Wrap64(ep + o))
      {
        if o < n {
          assert Peek(f.host, front[o]) == Peek(w.card, Wrap64(ep + o));
        }
      }
    }
  }

  // ---------------------------------------------------------------------------------------
  // Single bytes of a scatter list

  lemma {:induction false} TotalLenSplit(sg: seq<Extent>, s: nat)
    requires s < |sg|
    ensures TotalLen(sg[..s]) + sg[s].len <= TotalLen(sg)
  {
    TotalLenTake(sg, s);
    TotalLenMonotone(sg, s + 1, |sg|);
    assert sg[..|sg|] == sg;
  }

  lemma {:induction false} HostBytesSplit(sg: seq<Extent>, s: nat)
    requires s < |sg|
    ensures HostBytes(sg) == HostBytes(sg[..s]) + Span(sg[s].addr, sg[s].len) + HostBytes(sg[s + 1..])
  {
    var head, tail := sg[..s + 1], sg[s + 1..];
    assert HostBytes(sg) == HostBytes(head) + HostBytes(tail) by {
      assert sg == head + tail;
      HostBytesConcat(head, tail);
    }
    assert HostBytes(head) == HostBytes(sg[..s]) + Span(sg[s].addr, sg[s].len) by {
      LastBytes(head);
      assert head[..s] == sg[..s];
    }
  }

  lemma {:induction false} LastBytes(es: seq<Extent>)
    requires es != []
    ensures HostBytes(es) == HostBytes(es[..|es| - 1]) + Span(es[|es| - 1].addr, es[|es| - 1].len)
  {
  }

  /** Where byte x of scatter entry s stands in the request. */
  lemma {:induction false} HostByteAt(sg: seq<Extent>, s: nat, x: nat)
    requires s < |sg| && x < sg[s].len
    ensures TotalLen(sg[..s]) + sg[s].len <= TotalLen(sg)
    ensures HostBytes(sg)[TotalLen(sg[..s]) + x] == Span(sg[s].addr, sg[s].len)[x]
  {
    TotalLenSplit(sg, s);
    HostBytesSplit(sg, s);
  }

  /** The host address byte x of entry s lies at. */
  function EntryByte(sg: seq<Extent>, s: nat, x: nat): U64
    requires s < |sg|
  {
    Wrap64(sg[s].addr + x)
  }

  lemma {:induction false} EntryByteInRequest(sg: seq<Extent>, s: nat, x: nat)
    requires s < |sg| && x < sg[s].len
    ensures TotalLen(sg[..s]) + x < TotalLen(sg)
    ensures HostBytes(sg)[TotalLen(sg[..s]) + x] == EntryByte(sg, s, x)
  {
    HostByteAt(sg, s, x);
  }
}
