/** Where the blocks of a device start, and which block an address lies in. */
module BlockMath {
  import opened Rounding

  function Start(k: nat, bs: nat): nat { k * bs }

  function Index(x: nat, bs: nat): nat
    requires bs > 0
  {
    x / bs
  }

  /** Bytes in block `k` of a device of `size` bytes; the last block may be short. */
  function BlockLen(size: nat, bs: nat, k: nat): (n: nat)
    ensures n <= bs && (Start(k, bs) <= size ==> Start(k, bs) + n <= size)
  {
    if size <= Start(k, bs) then 0
    else if bs <= size - Start(k, bs) then bs else size - Start(k, bs)
  }

  /** Distributing one factor, so that the rest of the arithmetic is linear. */
  lemma StartAdd(k: nat, d: nat, bs: nat)
    ensures Start(k + d, bs) == Start(k, bs) + Start(d, bs)
    ensures d > 0 ==> Start(d, bs) >= bs
  {
  }

  lemma StartZero(bs: nat)
    ensures Start(0, bs) == 0
  {
  }

  lemma StartStep(k: nat, bs: nat)
    ensures Start(k + 1, bs) == Start(k, bs) + bs
  {
  }

  lemma StartMonotone(j: nat, k: nat, bs: nat)
    requires j < k
    ensures Start(j, bs) + bs <= Start(k, bs)
  {
    hide Start;
    StartAdd(j, k - j, bs);
  }

  lemma DivStart(x: nat, bs: nat)
    requires bs > 0
    ensures Start(Index(x, bs), bs) <= x < Start(Index(x, bs), bs) + bs
  {
  }

  lemma IndexStart(x: nat, k: nat, bs: nat)
    requires bs > 0
    ensures Index(x, bs) == k <==> Start(k, bs) <= x < Start(k, bs) + bs
  {
    hide Start, Index;
    DivStart(x, bs);
    var q := Index(x, bs);
    if q < k { StartMonotone(q, k, bs); }
    if k < q { StartMonotone(k, q, bs); }
  }

  // ----- byte ranges over blocks -----

  /** The last block that `len > 0` bytes at `offset` touch. */
  function LastBlock(offset: nat, len: nat, bs: nat): nat
    requires bs > 0 && len > 0
  {
    Index(offset + len - 1, bs)
  }

  /** How many of the bytes at `offset` lie before block `k`. */
  function Before(k: nat, bs: nat, offset: nat, len: nat): nat {
    if Start(k, bs) <= offset then 0
    else if Start(k, bs) <= offset + len then Start(k, bs) - offset
    else len
  }

  /** Where block `k` and a byte range meet: position in the block, position in the range, length. */
  function BlockSpan(k: nat, bs: nat, offset: nat, len: nat): (span: (nat, nat, nat))
    requires bs > 0 && len > 0 && Index(offset, bs) <= k <= LastBlock(offset, len, bs)
    ensures span.1 == Before(k, bs, offset, len) && span.1 + span.2 == Before(k + 1, bs, offset, len)
    ensures Start(k, bs) + span.0 == offset + span.1 && span.0 + span.2 <= bs && span.2 > 0
  {
    SpanFacts(k, bs, offset, len);
    var start := Start(k, bs);
    var from := if offset < start then start else offset;
    var to := if offset + len < start + bs then offset + len else start + bs;
    (from - start, from - offset, to - from)
  }

  lemma SpanFacts(k: nat, bs: nat, offset: nat, len: nat)
    requires bs > 0 && len > 0 && Index(offset, bs) <= k <= LastBlock(offset, len, bs)
    ensures Start(k, bs) < offset + len && offset < Start(k, bs) + bs == Start(k + 1, bs)
  {
    hide Start, Index;
    var first, last := Index(offset, bs), LastBlock(offset, len, bs);
    DivStart(offset, bs);
    DivStart(offset + len - 1, bs);
    StartStep(k, bs);
    if first < k { StartMonotone(first, k, bs); }
    if k < last { StartMonotone(k, last, bs); }
  }

  /** A range within the device meets each of its blocks within the block. */
  lemma SpanInside(k: nat, bs: nat, offset: nat, len: nat, size: nat)
    requires bs > 0 && len > 0 && Index(offset, bs) <= k <= LastBlock(offset, len, bs) && offset + len <= size
    ensures var span := BlockSpan(k, bs, offset, len);
            Start(k, bs) < size && span.0 + span.2 <= BlockLen(size, bs, k)
  {
    SpanFacts(k, bs, offset, len);
  }

  /** An aligned range meets each of its blocks in full. */
  lemma SpanWhole(k: nat, bs: nat, offset: nat, len: nat, size: nat)
    requires bs > 0 && len > 0 && Index(offset, bs) <= k <= LastBlock(offset, len, bs) && offset + len <= size
    requires offset % bs == 0 && len % bs == 0
    ensures var span := BlockSpan(k, bs, offset, len);
            span.0 == 0 && span.2 == BlockLen(size, bs, k)
  {
    hide Start, Index, LastBlock, BlockSpan, BlockLen, Before;
    ExactStart(offset, bs);
    ExactStart(len, bs);
    SpanOfBlocks(k, bs, offset / bs, len / bs, size);
  }

  lemma ExactStart(n: nat, bs: nat)
    requires bs > 0 && n % bs == 0
    ensures n == Start(n / bs, bs)
  {
  }

  /** On a device of whole blocks every block is whole. */
  lemma WholeBlock(k: nat, bs: nat, size: nat)
    requires bs > 0 && size % bs == 0 && Start(k, bs) < size
    ensures BlockLen(size, bs, k) == bs && Start(k, bs) % bs == 0 && Start(k, bs) + bs <= size
  {
    var n := size / bs;
    ExactStart(size, bs);
    if n <= k { StartOrder(n, k, bs); } else { StartMonotone(k, n, bs); }
    MulMod(k, bs);
  }

  lemma StartWhole(k: nat, bs: nat)
    requires bs > 0
    ensures Start(k, bs) % bs == 0
  {
    MulMod(k, bs);
  }

  lemma StartOrder(j: nat, k: nat, bs: nat)
    requires j <= k
    ensures Start(j, bs) <= Start(k, bs)
  {
    StartAdd(j, k - j, bs);
  }

  lemma SpanOfBlocks(k: nat, bs: nat, first: nat, count: nat, size: nat)
    requires bs > 0 && Start(count, bs) > 0 && Start(first, bs) + Start(count, bs) <= size
    requires Index(Start(first, bs), bs) <= k <= LastBlock(Start(first, bs), Start(count, bs), bs)
    ensures var span := BlockSpan(k, bs, Start(first, bs), Start(count, bs));
            span.0 == 0 && span.2 == BlockLen(size, bs, k)
  {
    hide Start, Index;
    StartZero(bs);
    assert count > 0;
    StartAdd(first, count, bs);
    StartStep(first + count - 1, bs);
    IndexStart(Start(first, bs), first, bs);
    IndexStart(Start(first, bs) + Start(count, bs) - 1, first + count - 1, bs);
    if first < k { StartMonotone(first, k, bs); }
    StartStep(k, bs);
    if k + 1 < first + count { StartMonotone(k + 1, first + count, bs); }
  }

  /** The blocks from first to last cover the whole range. */
  lemma SpansCover(bs: nat, offset: nat, len: nat)
    requires bs > 0 && len > 0
    ensures Index(offset, bs) <= LastBlock(offset, len, bs)
    ensures Before(Index(offset, bs), bs, offset, len) == 0
    ensures Before(LastBlock(offset, len, bs) + 1, bs, offset, len) == len
  {
    hide Start, Index;
    var first, last := Index(offset, bs), LastBlock(offset, len, bs);
    DivStart(offset, bs);
    DivStart(offset + len - 1, bs);
    StartStep(last, bs);
    if last < first { StartMonotone(last, first, bs); }
  }
}
