/** Data cut into cluster-sized blocks, the last one padded with zeros. */
module DataBlocks {
  import opened Bytes

  function Needed(size: nat, block: nat): nat
    requires block > 0
  {
    (size + block - 1) / block
  }

  /** Bytes in `n` blocks. */
  function Span(n: nat, block: nat): nat {
    n * block
  }

  /** Block `i` of the data, padded with zeros. */
  function DataBlock(data: seq<byte>, block: nat, i: nat): (r: seq<byte>)
    ensures |r| == block
  {
    var lo := Span(i, block);
    if lo >= |data| then Fill(0, block)
    else if lo + block <= |data| then data[lo..lo + block]
    else data[lo..] + Fill(0, block - (|data| - lo))
  }

  function PaddedFrom(data: seq<byte>, block: nat, i: nat, n: nat): seq<byte>
    requires i <= n
    decreases n - i
  {
    if i == n then [] else DataBlock(data, block, i) + PaddedFrom(data, block, i + 1, n)
  }

  lemma {:induction false} FillJoin(b: byte, m: nat, n: nat)
    ensures Fill(b, m) + Fill(b, n) == Fill(b, m + n)
  {
  }

  lemma {:induction false} SpanStep(i: nat, n: nat, block: nat)
    requires i < n
    ensures Span(i + 1, block) == Span(i, block) + block <= Span(n, block) && Span(0, block) == 0
  {
    assert (i + 1) * block <= n * block;
  }

  /** A block that ends inside the data, or the one the data ends in. */
  lemma {:induction false} DataBlockShape(data: seq<byte>, block: nat, i: nat)
    requires Span(i, block) <= |data|
    ensures var lo := Span(i, block);
            && (lo + block <= |data| ==> DataBlock(data, block, i) + data[lo + block..] == data[lo..])
            && (lo + block > |data| ==> DataBlock(data, block, i) == data[lo..] + Fill(0, lo + block - |data|))
  {
    hide Span;
    var lo := Span(i, block);
    assert lo == |data| ==> data[lo..] == [];
  }

  lemma {:induction false} PaddedInside(data: seq<byte>, lo: nat, hi: nat, room: nat, block: seq<byte>, rest: seq<byte>)
    requires lo <= hi <= |data| && block + data[hi..] == data[lo..] && rest == data[hi..] + Fill(0, room)
    ensures block + rest == data[lo..] + Fill(0, room)
  {
    hide Fill;
    ConcatAssoc(block, data[hi..], Fill(0, room));
  }

  lemma {:induction false} PaddedPast(data: seq<byte>, lo: nat, m: nat, n: nat, block: seq<byte>, rest: seq<byte>)
    requires lo <= |data| && block == data[lo..] + Fill(0, m) && rest == Fill(0, n)
    ensures block + rest == data[lo..] + Fill(0, m + n)
  {
    FillJoin(0, m, n);
    hide Fill;
    ConcatAssoc(data[lo..], Fill(0, m), Fill(0, n));
  }

  lemma {:induction false} PaddedIsData(data: seq<byte>, block: nat, i: nat, n: nat)
    requires i <= n && |data| <= Span(n, block) && Span(i, block) <= |data|
    ensures PaddedFrom(data, block, i, n) == data[Span(i, block)..] + Fill(0, Span(n, block) - |data|)
    decreases n - i
  {
    hide DataBlock, Fill, Span;
    if i < n {
      SpanStep(i, n, block);
      DataBlockShape(data, block, i);
      var lo, hi, end := Span(i, block), Span(i + 1, block), Span(n, block);
      var first, rest := DataBlock(data, block, i), PaddedFrom(data, block, i + 1, n);
      if hi <= |data| {
        PaddedIsData(data, block, i + 1, n);
        PaddedInside(data, lo, hi, end - |data|, first, rest);
      } else {
        PaddingOnly(data, block, i + 1, n);
        PaddedPast(data, lo, hi - |data|, end - hi, first, rest);
      }
    } else {
      assert data[Span(i, block)..] == [] && Fill(0, 0) == [];
    }
  }

  lemma {:induction false} PaddingOnly(data: seq<byte>, block: nat, i: nat, n: nat)
    requires i <= n && |data| <= Span(i, block)
    ensures Span(i, block) <= Span(n, block)
    ensures PaddedFrom(data, block, i, n) == Fill(0, Span(n, block) - Span(i, block))
    decreases n - i
  {
    hide Span;
    if i < n {
      SpanStep(i, n, block);
      PaddingOnly(data, block, i + 1, n);
      FillJoin(0, block, Span(n, block) - Span(i + 1, block));
    }
  }

  lemma {:induction false} NeededCovers(size: nat, block: nat)
    requires block > 0
    ensures size <= Span(Needed(size, block), block) && Span(0, block) == 0
    ensures Needed(size, block) == 0 <==> size == 0
  {
    var x := size + block - 1;
    assert x == x / block * block + x % block;
    assert x / block == 0 ==> x == x % block;
  }
}
