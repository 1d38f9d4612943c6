/** Coalescing a sorted snapshot of dirty blocks into contiguous device writes of bounded size. */
module FlushRuns {
  import opened Prelude
  import opened BlockMath

  /** Upper bound on one coalesced write. */
  const MAX_COALESCE_BYTES: nat := 256 * 1024

  /** A dirty block as the flusher saw it: its number, its buffer and the bytes in it. */
  datatype Snap = Snap(idx: nat, arc: nat, data: seq<byte>)

  datatype FlushRun = FlushRun(start: nat, bytes: nat, blocks: seq<Snap>)

  function TotalLen(s: seq<Snap>): nat {
    if s == [] then 0 else TotalLen(s[..|s| - 1]) + |s[|s| - 1].data|
  }

  /** The bytes of all blocks of a run, in order. */
  function Joined(s: seq<Snap>): (b: seq<byte>)
    ensures |b| == TotalLen(s)
  {
    if s == [] then [] else Joined(s[..|s| - 1]) + s[|s| - 1].data
  }

  ghost function Concat(runs: seq<seq<Snap>>): seq<Snap> {
    if runs == [] then [] else Concat(runs[..|runs| - 1]) + runs[|runs| - 1]
  }

  ghost predicate Contiguous(s: seq<Snap>) {
    forall i, j :: 0 <= i < j < |s| ==> s[j].idx == s[i].idx + (j - i)
  }

  /** What one device write may carry: consecutive blocks within the cap; one block always may go alone. */
  ghost predicate Writable(s: seq<Snap>) {
    s != [] && Contiguous(s) && (|s| > 1 ==> TotalLen(s) <= MAX_COALESCE_BYTES)
  }

  /** `parts` cuts `snapshot` into writes. */
  ghost predicate Cuts(snapshot: seq<Snap>, parts: seq<seq<Snap>>) {
    Concat(parts) == snapshot && forall i :: 0 <= i < |parts| ==> Writable(parts[i])
  }

  /** No run could have taken the first block of the next one. */
  ghost predicate Greedy(parts: seq<seq<Snap>>) {
    forall i, j :: 0 <= i && j == i + 1 < |parts| && parts[j] != [] ==> !Writable(parts[i] + [parts[j][0]])
  }

  ghost function Parts(runs: seq<FlushRun>): seq<seq<Snap>> {
    seq(|runs|, i requires 0 <= i < |runs| => runs[i].blocks)
  }

  ghost predicate Described(run: FlushRun) {
    run.blocks != [] && run.start == run.blocks[0].idx && run.bytes == TotalLen(run.blocks)
  }

  /** Merges a snapshot into runs. */
  method MergeIntoRuns(snapshot: seq<Snap>) returns (runs: seq<FlushRun>)
    ensures Cuts(snapshot, Parts(runs)) && Greedy(Parts(runs))
    ensures forall i :: 0 <= i < |runs| ==> Described(runs[i])
  {
    hide Writable, Greedy, Cuts, TotalLen;
    NoParts();
    runs := [];
    assert snapshot[..0] == [] && Parts(runs) == [];
    for n := 0 to |snapshot|
      invariant Cuts(snapshot[..n], Parts(runs)) && Greedy(Parts(runs))
      invariant forall i :: 0 <= i < |runs| ==> Described(runs[i])
    {
      var b, last := snapshot[n], |runs| - 1;
      assert snapshot[..n + 1] == snapshot[..n] + [b];
      ghost var was := Parts(runs);
      assert |runs| > 0 ==> was[last] == runs[last].blocks;
      if |runs| > 0 && b.idx == runs[last].start + |runs[last].blocks| && runs[last].bytes + |b.data| <= MAX_COALESCE_BYTES {
        var run := runs[last];
        PartWritable(snapshot[..n], was, last);
        Grown(run.blocks, b);
        ExtendLast(snapshot[..n], was, b);
        runs := runs[last := FlushRun(run.start, run.bytes + |b.data|, run.blocks + [b])];
        assert Parts(runs) == was[last := was[last] + [b]];
      } else {
        if |runs| > 0 { NotGrown(runs[last].blocks, b); }
        StartNew(snapshot[..n], was, b);
        runs := runs + [FlushRun(b.idx, |b.data|, [b])];
        assert Parts(runs) == was + [[b]];
        OneBlock(b);
      }
    }
    assert snapshot[..|snapshot|] == snapshot;
  }

  lemma NoParts()
    ensures Cuts([], []) && Greedy([])
  {
  }

  lemma OneBlock(b: Snap)
    ensures TotalLen([b]) == |b.data|
  {
    assert [b][..0] == [];
  }

  lemma PartWritable(snapshot: seq<Snap>, parts: seq<seq<Snap>>, i: nat)
    requires Cuts(snapshot, parts) && i < |parts|
    ensures Writable(parts[i])
  {
  }

  lemma TotalSnoc(s: seq<Snap>, b: Snap)
    ensures TotalLen(s + [b]) == TotalLen(s) + |b.data|
  {
    assert (s + [b])[..|s|] == s;
  }

  lemma Grown(s: seq<Snap>, b: Snap)
    requires Writable(s) && b.idx == s[0].idx + |s| && TotalLen(s) + |b.data| <= MAX_COALESCE_BYTES
    ensures Writable(s + [b]) && TotalLen(s + [b]) == TotalLen(s) + |b.data|
  {
    TotalSnoc(s, b);
  }

  lemma NotGrown(s: seq<Snap>, b: Snap)
    requires s != []
    requires b.idx != s[0].idx + |s| || TotalLen(s) + |b.data| > MAX_COALESCE_BYTES
    ensures !Writable(s + [b])
  {
    TotalSnoc(s, b);
    if Contiguous(s + [b]) { assert (s + [b])[|s|].idx == (s + [b])[0].idx + |s|; }
  }

  lemma ConcatSnoc(parts: seq<seq<Snap>>, p: seq<Snap>)
    ensures Concat(parts + [p]) == Concat(parts) + p
  {
    assert (parts + [p])[..|parts|] == parts;
  }

  lemma ExtendLast(snapshot: seq<Snap>, parts: seq<seq<Snap>>, b: Snap)
    requires Cuts(snapshot, parts) && Greedy(parts) && parts != []
    requires Writable(parts[|parts| - 1] + [b])
    ensures var parts' := parts[|parts| - 1 := parts[|parts| - 1] + [b]];
            Cuts(snapshot + [b], parts') && Greedy(parts')
  {
    hide Writable;
    var last := |parts| - 1;
    var parts' := parts[last := parts[last] + [b]];
    ConcatSnoc(parts[..last], parts[last] + [b]);
    assert parts' == parts[..last] + [parts[last] + [b]];
    assert Writable(parts[last]);
    assert parts[last] != [] by { assert Writable(parts[last]); NonEmpty(parts[last]); }
  }

  lemma InSequence(s: seq<Snap>)
    requires Writable(s)
    ensures Contiguous(s)
  {
  }

  lemma NonEmpty(s: seq<Snap>)
    requires Writable(s)
    ensures s != []
  {
  }

  lemma StartNew(snapshot: seq<Snap>, parts: seq<seq<Snap>>, b: Snap)
    requires Cuts(snapshot, parts) && Greedy(parts)
    requires parts != [] ==> !Writable(parts[|parts| - 1] + [b])
    ensures Cuts(snapshot + [b], parts + [[b]]) && Greedy(parts + [[b]])
  {
    ConcatSnoc(parts, [b]);
    assert Writable([b]);
  }

  // ----- no way of cutting the snapshot needs fewer writes -----

  /** How many blocks the first `j` parts hold. */
  ghost function End(parts: seq<seq<Snap>>, j: nat): nat
    requires j <= |parts|
  {
    if j == 0 then 0 else End(parts, j - 1) + |parts[j - 1]|
  }

  /** Part `j` is the stretch of the snapshot between two ends. */
  lemma {:induction false} PartAt(parts: seq<seq<Snap>>, j: nat)
    requires j < |parts|
    ensures End(parts, j) + |parts[j]| == End(parts, j + 1) <= |Concat(parts)|
    ensures parts[j] == Concat(parts)[End(parts, j)..End(parts, j + 1)]
    ensures j + 1 == |parts| ==> End(parts, j + 1) == |Concat(parts)|
    decreases |parts|
  {
    var init := parts[..|parts| - 1];
    if j < |parts| - 1 {
      PartAt(init, j);
      EndPrefix(parts, |parts| - 1, j);
      EndPrefix(parts, |parts| - 1, j + 1);
    } else {
      EndPrefix(parts, |parts| - 1, j);
      EndAll(init);
    }
  }

  lemma {:induction false} EndPrefix(parts: seq<seq<Snap>>, n: nat, j: nat)
    requires j <= n <= |parts|
    ensures End(parts[..n], j) == End(parts, j)
  {
    if j > 0 { EndPrefix(parts, n, j - 1); }
  }

  lemma {:induction false} EndAll(parts: seq<seq<Snap>>)
    ensures End(parts, |parts|) == |Concat(parts)|
    decreases |parts|
  {
    if parts != [] {
      EndAll(parts[..|parts| - 1]);
      EndPrefix(parts, |parts| - 1, |parts| - 1);
    }
  }

  /** A stretch of a write is a write. */
  lemma {:induction false} SubWritable(s: seq<Snap>, a: nat, b: nat)
    requires Writable(s) && a < b <= |s|
    ensures Writable(s[a..b])
  {
    SubTotal(s, a, b);
  }

  lemma {:induction false} SubTotal(s: seq<Snap>, a: nat, b: nat)
    requires a <= b <= |s|
    ensures TotalLen(s[a..b]) <= TotalLen(s)
    decreases |s|
  {
    if b < |s| {
      SubTotal(s[..|s| - 1], a, b);
      assert s[..|s| - 1][a..b] == s[a..b];
    } else if a < b {
      SubTotal(s[..|s| - 1], a, b - 1);
      assert s[a..b] == s[..|s| - 1][a..b - 1] + [s[b - 1]];
      TotalSnoc(s[..|s| - 1][a..b - 1], s[b - 1]);
    }
  }

  /** Whatever lies within one part can be one write. */
  lemma Reaches(snapshot: seq<Snap>, parts: seq<seq<Snap>>, i: nat, a: nat, b: nat)
    requires Cuts(snapshot, parts) && i < |parts| && End(parts, i) <= a < b <= End(parts, i + 1)
    ensures b <= |snapshot| && Writable(snapshot[a..b])
  {
    hide Writable, Greedy, Cuts, Concat;
    Concatenated(snapshot, parts);
    PartAt(parts, i);
    PartWritable(snapshot, parts, i);
    var o := End(parts, i);
    SubWritable(parts[i], a - o, b - o);
    SliceOfSlice(snapshot, o, End(parts, i + 1), a, b);
  }

  lemma SliceOfSlice(s: seq<Snap>, from: nat, to: nat, a: nat, b: nat)
    requires from <= a <= b <= to <= |s|
    ensures s[from..to][a - from..b - from] == s[a..b]
  {
    var l, r := s[from..to][a - from..b - from], s[a..b];
    forall i | 0 <= i < |l| ensures l[i] == r[i] {
      assert s[from..to][a - from + i] == s[a + i];
    }
  }

  /** A greedy part and the block after it cannot be one write. */
  lemma GreedyStops(snapshot: seq<Snap>, parts: seq<seq<Snap>>, i: nat)
    requires Cuts(snapshot, parts) && Greedy(parts) && i + 1 < |parts|
    ensures End(parts, i) < End(parts, i + 1) < |snapshot|
    ensures !Writable(snapshot[End(parts, i)..End(parts, i + 1) + 1])
  {
    hide Writable, Contiguous, Cuts, Concat, End;
    Concatenated(snapshot, parts);
    PartAt(parts, i);
    PartAt(parts, i + 1);
    PartWritable(snapshot, parts, i);
    PartWritable(snapshot, parts, i + 1);
    NonEmpty(parts[i]);
    NonEmpty(parts[i + 1]);
    var from, to := End(parts, i), End(parts, i + 1);
    assert parts[i + 1][0] == snapshot[to];
    assert parts[i] + [parts[i + 1][0]] == snapshot[from..to + 1];
  }

  /** After the same number of writes the greedy cut is never behind. */
  lemma {:induction false} StaysAhead(snapshot: seq<Snap>, mine: seq<seq<Snap>>, other: seq<seq<Snap>>, j: nat)
    requires Cuts(snapshot, mine) && Greedy(mine) && Cuts(snapshot, other)
    requires j <= |mine| && j <= |other|
    ensures End(mine, j) >= End(other, j)
  {
    hide Writable, Greedy, Cuts, Concat;
    if j > 0 {
      StaysAhead(snapshot, mine, other, j - 1);
      if End(mine, j) < End(other, j) {
        Within(snapshot, mine, other, j);
        GreedyStops(snapshot, mine, j - 1);
        Reaches(snapshot, other, j - 1, End(mine, j - 1), End(mine, j) + 1);
      }
    }
  }

  /** A cut that is behind has parts left. */
  lemma Within(snapshot: seq<Snap>, mine: seq<seq<Snap>>, other: seq<seq<Snap>>, j: nat)
    requires Cuts(snapshot, mine) && Cuts(snapshot, other)
    requires 0 < j <= |mine| && j <= |other| && End(mine, j) < End(other, j)
    ensures j < |mine|
  {
    PartAt(mine, j - 1);
    PartAt(other, j - 1);
  }

  /** Coalescing issues the fewest writes that any cut of the snapshot could. */
  lemma FewestWrites(snapshot: seq<Snap>, mine: seq<seq<Snap>>, other: seq<seq<Snap>>)
    requires Cuts(snapshot, mine) && Greedy(mine) && Cuts(snapshot, other)
    ensures |mine| <= |other|
  {
    if |mine| > |other| {
      StaysAhead(snapshot, mine, other, |other|);
      EndAll(other);
      PartAt(mine, |other|);
    }
  }

  // ----- full contiguous blocks -----

  ghost predicate FullBlocks(s: seq<Snap>, bs: nat) {
    forall i :: 0 <= i < |s| ==> |s[i].data| == bs
  }

  lemma {:induction false} FullTotal(s: seq<Snap>, bs: nat)
    requires FullBlocks(s, bs)
    ensures TotalLen(s) == Start(|s|, bs)
  {
    hide Start;
    if s == [] {
      StartZero(bs);
    } else {
      FullTotal(s[..|s| - 1], bs);
      StartStep(|s| - 1, bs);
    }
  }

  /** How many full blocks fit one write. */
  lemma FullWritable(s: seq<Snap>, bs: nat, per: nat)
    requires Contiguous(s) && FullBlocks(s, bs) && bs > 0 && per > 0 && Start(per, bs) == MAX_COALESCE_BYTES
    ensures Writable(s) <==> 0 < |s| <= per
  {
    hide Start;
    FullTotal(s, bs);
    if |s| > per { StartMonotone(per, |s|, bs); }
    if |s| < per { StartMonotone(|s|, per, bs); }
  }

  /** Every write but the last is full. */
  lemma FullRun(snapshot: seq<Snap>, parts: seq<seq<Snap>>, bs: nat, per: nat, j: nat)
    requires Cuts(snapshot, parts) && Greedy(parts) && Contiguous(snapshot) && FullBlocks(snapshot, bs)
    requires bs > 0 && per > 0 && Start(per, bs) == MAX_COALESCE_BYTES && j < |parts|
    ensures 0 < |parts[j]| <= per && (j + 1 < |parts| ==> |parts[j]| == per)
  {
    hide Writable, Greedy, Cuts, Concat, Start;
    Concatenated(snapshot, parts);
    PartAt(parts, j);
    PartWritable(snapshot, parts, j);
    FullWritable(parts[j], bs, per);
    if j + 1 < |parts| {
      GreedyStops(snapshot, parts, j);
      FullWritable(snapshot[End(parts, j)..End(parts, j + 1) + 1], bs, per);
    }
  }

  lemma Concatenated(snapshot: seq<Snap>, parts: seq<seq<Snap>>)
    requires Cuts(snapshot, parts)
    ensures Concat(parts) == snapshot
  {
  }

  lemma {:induction false} FullEnds(snapshot: seq<Snap>, parts: seq<seq<Snap>>, bs: nat, per: nat, j: nat)
    requires Cuts(snapshot, parts) && Greedy(parts) && Contiguous(snapshot) && FullBlocks(snapshot, bs)
    requires bs > 0 && per > 0 && Start(per, bs) == MAX_COALESCE_BYTES && j < |parts|
    ensures End(parts, j) == Start(j, per)
  {
    hide Writable, Greedy, Cuts, Concat, Start;
    if j == 0 {
      StartZero(per);
    } else {
      FullEnds(snapshot, parts, bs, per, j - 1);
      FullRun(snapshot, parts, bs, per, j - 1);
      StartStep(j - 1, per);
    }
  }

  /** `n` consecutive full blocks take the number of writes that `per` blocks a write allows, rounded up. */
  lemma FullWriteCount(snapshot: seq<Snap>, parts: seq<seq<Snap>>, bs: nat, per: nat)
    requires Cuts(snapshot, parts) && Greedy(parts) && Contiguous(snapshot) && FullBlocks(snapshot, bs)
    requires bs > 0 && per > 0 && per * bs == MAX_COALESCE_BYTES
    ensures |parts| == (|snapshot| + per - 1) / per
  {
    assert Start(per, bs) == MAX_COALESCE_BYTES;
    Concatenated(snapshot, parts);
    assert (|snapshot| + per - 1) / per == Index(|snapshot| + per - 1, per);
    hide Writable, Greedy, Cuts, Start, Index;
    var last: int := |parts| - 1;
    IndexStart(|snapshot| + per - 1, |parts|, per);
    if last < 0 {
      StartZero(per);
    } else {
      PartAt(parts, last);
      FullEnds(snapshot, parts, bs, per, last);
      FullRun(snapshot, parts, bs, per, last);
      StartStep(last, per);
    }
  }
}
