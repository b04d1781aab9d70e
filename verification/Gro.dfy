/** Splitting a coalesced buffer into datagrams, and the coalescing it undoes. */
module Gro {
  import opened Common

  /** Cuts `data` every `size` bytes; the last piece may be short, none is empty. */
  function Split(data: seq<Byte>, size: nat): seq<seq<Byte>>
    requires size > 0
    decreases |data|
  {
    if data == [] then []
    else if |data| <= size then [data]
    else [data[..size]] + Split(data[size..], size)
  }

  function Concat(pieces: seq<seq<Byte>>): seq<Byte> {
    if pieces == [] then [] else pieces[0] + Concat(pieces[1..])
  }

  /** What the kernel may coalesce: every datagram of size `size`, except that the
      last may be shorter, though not empty. */
  predicate Coalescible(pieces: seq<seq<Byte>>, size: nat) {
    forall i | 0 <= i < |pieces| ::
      if i + 1 < |pieces| then |pieces[i]| == size else 0 < |pieces[i]| <= size
  }

  /** Number of pieces, from the length alone. */
  function PieceCount(len: nat, size: nat): nat
    requires size > 0
    decreases len
  {
    if len == 0 then 0 else if len <= size then 1 else 1 + PieceCount(len - size, size)
  }

  lemma {:induction false} PieceCountIsCeiling(len: nat, size: nat)
    requires size > 0
    ensures PieceCount(len, size) == (len + size - 1) / size
    decreases len
  {
    if len > size {
      PieceCountIsCeiling(len - size, size);
      AddOneMultiple(len - 1, size);
    } else if len > 0 {
      AddOneMultiple(len - 1, size);
      assert (len - 1) / size == 0;
    }
  }

  lemma {:induction false} AddOneMultiple(x: nat, size: nat)
    requires size > 0
    ensures (x + size) / size == x / size + 1
  {
    var q, r := x / size, x % size;
    assert x + size == (q + 1) * size + r;
    QuotientIs(x + size, size, q + 1, r);
  }

  lemma {:induction false} QuotientIs(x: int, size: nat, q: int, r: nat)
    requires size > 0 && r < size && x == q * size + r
    ensures x / size == q
  {
    var d := x / size - q;
    assert x == (x / size) * size + x % size;
    assert d * size == r - x % size;
    assert d >= 1 ==> d * size >= size;
    assert d <= -1 ==> (-d) * size >= size;
  }

  lemma {:induction false} SplitCount(data: seq<Byte>, size: nat)
    requires size > 0
    ensures |Split(data, size)| == PieceCount(|data|, size)
    decreases |data|
  {
    if |data| > size {
      SplitCount(data[size..], size);
    }
  }

  /** Splitting loses nothing and yields only what could have been coalesced. */
  lemma {:induction false} CoalescingInvertsSplit(data: seq<Byte>, size: nat)
    requires size > 0
    ensures Concat(Split(data, size)) == data
    ensures Coalescible(Split(data, size), size)
    decreases |data|
  {
    if |data| > size {
      var rest := Split(data[size..], size);
      CoalescingInvertsSplit(data[size..], size);
      assert ([data[..size]] + rest)[1..] == rest;
      assert rest != [];
    }
  }

  /** Cut off after `n` pieces, as at the capacity, it keeps the first `n` segment sizes. */
  lemma {:induction false} TruncatedSplitIsPrefix(data: seq<Byte>, size: nat, n: nat)
    requires size > 0
    ensures Concat(Take(Split(data, size), n)) == Take(data, n * size)
  {
    TruncatedSplit(data, size, n);
    SumIsProduct(size, n);
  }

  /** `size` added up `n` times. */
  function Sum(size: nat, n: nat): nat {
    if n == 0 then 0 else size + Sum(size, n - 1)
  }

  lemma {:induction false} SumIsProduct(size: nat, n: nat)
    ensures Sum(size, n) == n * size
  {
    if n > 0 {
      SumIsProduct(size, n - 1);
    }
  }

  lemma {:induction false} TruncatedSplit(data: seq<Byte>, size: nat, n: nat)
    requires size > 0
    ensures Concat(Take(Split(data, size), n)) == Take(data, Sum(size, n))
    decreases |data|
  {
    if n == 0 {
      assert Take(Split(data, size), 0) == [];
    } else if |data| <= size {
      CoalescingInvertsSplit(data, size);
      assert Take(data, Sum(size, n)) == data;
    } else {
      TruncatedSplit(data[size..], size, n - 1);
      ConcatOfTake(data[..size], Split(data[size..], size), n);
      TakePast(data, size, Sum(size, n - 1));
    }
  }

  lemma {:induction false} ConcatOfTake(head: seq<Byte>, rest: seq<seq<Byte>>, n: nat)
    requires n > 0
    ensures Concat(Take([head] + rest, n)) == head + Concat(Take(rest, n - 1))
  {
    assert Take([head] + rest, n) == [head] + Take(rest, n - 1);
    assert ([head] + Take(rest, n - 1))[1..] == Take(rest, n - 1);
  }

  lemma {:induction false} TakePast(data: seq<Byte>, a: nat, b: nat)
    requires a <= |data|
    ensures Take(data, a + b) == data[..a] + Take(data[a..], b)
  {
  }

  /** Splitting at the segment size gives back the datagrams that were coalesced,
      and gives back nothing else: the size rule is exact. */
  lemma {:induction false} SplitInvertsCoalescing(pieces: seq<seq<Byte>>, size: nat)
    requires size > 0
    ensures Coalescible(pieces, size) <==> Split(Concat(pieces), size) == pieces
  {
    if Coalescible(pieces, size) {
      SplitOfConcat(pieces, size);
    } else {
      CoalescingInvertsSplit(Concat(pieces), size);
    }
  }

  lemma {:induction false} SplitOfConcat(pieces: seq<seq<Byte>>, size: nat)
    requires size > 0 && Coalescible(pieces, size)
    ensures Split(Concat(pieces), size) == pieces
  {
    if |pieces| == 1 {
      assert Concat(pieces[1..]) == [];
      assert Concat(pieces) == pieces[0];
    } else if |pieces| > 1 {
      var rest := pieces[1..];
      forall i | 0 <= i < |rest|
        ensures if i + 1 < |rest| then |rest[i]| == size else 0 < |rest[i]| <= size
      {
        assert rest[i] == pieces[i + 1];
      }
      SplitOfConcat(rest, size);
      assert |pieces[0]| == size;
      assert rest[0] != [] && Concat(rest) == rest[0] + Concat(rest[1..]);
      var all := Concat(pieces);
      assert all[..size] == pieces[0] && all[size..] == Concat(rest);
      assert pieces == [pieces[0]] + rest;
    }
  }

  /** No piece is empty or longer than the segment size or the data. */
  lemma {:induction false} PiecesAreShort(data: seq<Byte>, size: nat)
    requires size > 0
    ensures forall k | 0 <= k < |Split(data, size)| :: 0 < |Split(data, size)[k]| <= Min(size, |data|)
    decreases |data|
  {
    if |data| > size {
      PiecesAreShort(data[size..], size);
    }
  }
}
