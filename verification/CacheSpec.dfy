/** The block cache on plain values: which byte a read sees, and what keeps it equal to a flat array. */
module CacheSpec {
  import opened Prelude
  import opened BlockMath
  import opened Device
  import opened Regions
  import opened FlushRuns

  /** A cached block without its place in a recency list. */
  datatype Image = Image(arc: nat, data: seq<byte>, dirty: bool)

  type Images = map<nat, Image>

  // ----- what the cached device holds -----

  /** Every resident block starts on the device and has its full length. */
  ghost predicate Sized(res: Images, size: nat, bs: nat) {
    forall k :: k in res ==> Start(k, bs) < size && |res[k].data| == BlockLen(size, bs, k)
  }

  /** The byte a read of address `x` sees: the resident block's, else the device's. */
  ghost function ByteOf(res: Images, inner: seq<byte>, bs: nat, x: nat): byte
    requires bs > 0 && Sized(res, |inner|, bs) && x < |inner|
  {
    var k := Index(x, bs);
    IndexStart(x, k, bs);
    if k in res then res[k].data[x - Start(k, bs)] else inner[x]
  }

  /** The flat array the cached device stands for. */
  ghost function Flat(res: Images, inner: seq<byte>, bs: nat): (flat: seq<byte>)
    requires bs > 0 && Sized(res, |inner|, bs)
    ensures |flat| == |inner|
    ensures forall x :: 0 <= x < |inner| ==> flat[x] == ByteOf(res, inner, bs, x)
  {
    seq(|inner|, x requires 0 <= x < |inner| => ByteOf(res, inner, bs, x))
  }

  /** Clean blocks hold what the device holds, except at addresses in `torn`. */
  ghost predicate Coherent(res: Images, inner: seq<byte>, bs: nat, torn: set<nat>) {
    && bs > 0 && Sized(res, |inner|, bs)
    && forall k :: k in res && !res[k].dirty ==> Matches(res[k].data, inner, Start(k, bs), torn)
  }

  ghost predicate Matches(data: seq<byte>, inner: seq<byte>, start: nat, torn: set<nat>) {
    && start + |data| <= |inner|
    && forall i :: 0 <= i < |data| && start + i !in torn ==> data[i] == inner[start + i]
  }

  /** Equal except at addresses in `torn`. */
  ghost predicate EqualOff(a: seq<byte>, b: seq<byte>, torn: set<nat>) {
    |a| == |b| && forall x :: 0 <= x < |a| && x !in torn ==> a[x] == b[x]
  }

  // ----- steps that leave the flat array alone -----

  /** Dropping a clean block. */
  lemma DropClean(res: Images, inner: seq<byte>, bs: nat, torn: set<nat>, k: nat)
    requires Coherent(res, inner, bs, torn) && k in res && !res[k].dirty
    ensures Coherent(res - {k}, inner, bs, torn)
    ensures EqualOff(Flat(res, inner, bs), Flat(res - {k}, inner, bs), torn)
  {
    hide Index;
    forall x | 0 <= x < |inner| && x !in torn
      ensures ByteOf(res, inner, bs, x) == ByteOf(res - {k}, inner, bs, x)
    {
      var j := Index(x, bs);
      IndexStart(x, j, bs);
      if j == k {
        assert Matches(res[k].data, inner, Start(k, bs), torn);
        var i := x - Start(k, bs);
        assert res[k].data[i] == inner[Start(k, bs) + i];
      }
    }
  }

  /** Loading a block from the device. */
  lemma LoadClean(res: Images, inner: seq<byte>, bs: nat, torn: set<nat>, k: nat, b: Image)
    requires Coherent(res, inner, bs, torn) && k !in res && Start(k, bs) < |inner|
    requires b.data == inner[Start(k, bs)..Start(k, bs) + BlockLen(|inner|, bs, k)]
    ensures Coherent(res[k := b], inner, bs, torn)
    ensures Flat(res[k := b], inner, bs) == Flat(res, inner, bs)
  {
    hide Index;
    var res' := res[k := b];
    assert Sized(res', |inner|, bs);
    forall x | 0 <= x < |inner| ensures ByteOf(res, inner, bs, x) == ByteOf(res', inner, bs, x) {
      var j := Index(x, bs);
      IndexStart(x, j, bs);
    }
  }

  /** A store that only touches addresses of dirty blocks is invisible. */
  lemma DirtyStore(res: Images, inner: seq<byte>, bs: nat, torn: set<nat>, offset: nat, b: seq<byte>)
    requires Coherent(res, inner, bs, torn) && offset + |b| <= |inner|
    requires forall x :: offset <= x < offset + |b| ==> Index(x, bs) in res && res[Index(x, bs)].dirty
    ensures var inner' := Splice(inner, offset, b);
            Coherent(res, inner', bs, torn) && Flat(res, inner', bs) == Flat(res, inner, bs)
  {
    hide Index;
    var inner' := Splice(inner, offset, b);
    forall x | 0 <= x < |inner| && (Index(x, bs) in res ==> !res[Index(x, bs)].dirty) ensures inner'[x] == inner[x] {
      SpliceAt(inner, offset, b, x);
    }
    forall x | 0 <= x < |inner| ensures ByteOf(res, inner, bs, x) == ByteOf(res, inner', bs, x) {
      IndexStart(x, Index(x, bs), bs);
    }
    forall j | j in res && !res[j].dirty ensures Matches(res[j].data, inner', Start(j, bs), torn) {
      assert Matches(res[j].data, inner, Start(j, bs), torn);
      forall i | 0 <= i < |res[j].data| && Start(j, bs) + i !in torn
        ensures res[j].data[i] == inner'[Start(j, bs) + i]
      {
        IndexStart(Start(j, bs) + i, j, bs);
      }
    }
  }

  /** Storing (part of) a resident dirty block on the device. */
  lemma WriteBack(res: Images, inner: seq<byte>, bs: nat, torn: set<nat>, k: nat, done: nat)
    requires Coherent(res, inner, bs, torn) && k in res && res[k].dirty && done <= |res[k].data|
    ensures Start(k, bs) + |res[k].data| <= |inner|
    ensures var inner' := Splice(inner, Start(k, bs), res[k].data[..done]);
            Coherent(res, inner', bs, torn) && Flat(res, inner', bs) == Flat(res, inner, bs)
    ensures done == |res[k].data| ==>
              Matches(res[k].data, Splice(inner, Start(k, bs), res[k].data[..done]), Start(k, bs), torn)
  {
    hide Index, Flat;
    var piece := res[k].data[..done];
    forall x | Start(k, bs) <= x < Start(k, bs) + |piece| ensures Index(x, bs) == k {
      IndexStart(x, k, bs);
    }
    DirtyStore(res, inner, bs, torn, Start(k, bs), piece);
    if done == |res[k].data| {
      assert piece == res[k].data;
      var inner' := Splice(inner, Start(k, bs), piece);
      forall i | 0 <= i < |piece| ensures inner'[Start(k, bs) + i] == piece[i] {
        SpliceAt(inner, Start(k, bs), piece, Start(k, bs) + i);
      }
    }
  }

  /** Marking a block clean whose bytes the device already holds. */
  lemma CleanMarked(res: Images, inner: seq<byte>, bs: nat, torn: set<nat>, k: nat)
    requires Coherent(res, inner, bs, torn) && k in res && Matches(res[k].data, inner, Start(k, bs), torn)
    ensures var res' := res[k := res[k].(dirty := false)];
            Coherent(res', inner, bs, torn) && Flat(res', inner, bs) == Flat(res, inner, bs)
  {
    var res' := res[k := res[k].(dirty := false)];
    forall x | 0 <= x < |inner| ensures ByteOf(res, inner, bs, x) == ByteOf(res', inner, bs, x) {
      var j := Index(x, bs);
    }
  }

  /** Storing a dirty block and dropping it. */
  lemma EvictDirty(res: Images, inner: seq<byte>, bs: nat, torn: set<nat>, k: nat)
    requires Coherent(res, inner, bs, torn) && k in res && res[k].dirty
    ensures Start(k, bs) + |res[k].data| <= |inner|
    ensures var inner' := Splice(inner, Start(k, bs), res[k].data);
            Coherent(res - {k}, inner', bs, torn) && EqualOff(Flat(res, inner, bs), Flat(res - {k}, inner', bs), torn)
  {
    hide Flat, Coherent, Sized, Splice, Matches, Start;
    StoreClean(res, inner, bs, torn, k);
    var cleaned := res[k := res[k].(dirty := false)];
    DropClean(cleaned, Splice(inner, Start(k, bs), res[k].data), bs, torn, k);
    assert cleaned - {k} == res - {k};
  }

  /** The device is unchanged where no block is resident. */
  ghost predicate SameOutside(res: Images, bs: nat, inner: seq<byte>, inner': seq<byte>)
    requires bs > 0
  {
    |inner'| == |inner| && forall x :: 0 <= x < |inner| && Index(x, bs) !in res ==> inner'[x] == inner[x]
  }

  lemma StoreInside(res: Images, inner: seq<byte>, bs: nat, torn: set<nat>, k: nat, b: seq<byte>)
    requires Coherent(res, inner, bs, torn) && k in res && |b| <= |res[k].data|
    ensures Start(k, bs) + |b| <= |inner| && SameOutside(res, bs, inner, Splice(inner, Start(k, bs), b))
  {
    hide Index;
    forall x | 0 <= x < |inner| && Index(x, bs) !in res ensures Splice(inner, Start(k, bs), b)[x] == inner[x] {
      IndexStart(x, k, bs);
      SpliceAt(inner, Start(k, bs), b, x);
    }
  }

  lemma SameBlock(res: Images, inner: seq<byte>, inner': seq<byte>, bs: nat, k: nat)
    requires bs > 0 && SameOutside(res, bs, inner, inner') && k !in res && Start(k, bs) < |inner|
    ensures var s, n := Start(k, bs), BlockLen(|inner|, bs, k); inner'[s..s + n] == inner[s..s + n]
  {
    hide Index;
    var s, n := Start(k, bs), BlockLen(|inner|, bs, k);
    var a, b := inner[s..s + n], inner'[s..s + n];
    forall i | 0 <= i < |a| ensures b[i] == a[i] {
      IndexStart(s + i, k, bs);
    }
  }

  // ----- reads -----

  /** A resident block's bytes are the flat array's. */
  lemma ResidentBytes(res: Images, inner: seq<byte>, bs: nat, torn: set<nat>, k: nat)
    requires Coherent(res, inner, bs, torn) && k in res
    ensures |res[k].data| == BlockLen(|inner|, bs, k)
    ensures Matches(res[k].data, Flat(res, inner, bs), Start(k, bs), {})
  {
    hide Index;
    var data, s := res[k].data, Start(k, bs);
    forall i | 0 <= i < |data| ensures data[i] == Flat(res, inner, bs)[s + i] {
      IndexStart(s + i, k, bs);
    }
  }

  /** So are the device's, where no block is resident. */
  lemma DeviceBytes(res: Images, inner: seq<byte>, bs: nat, torn: set<nat>, k: nat)
    requires Coherent(res, inner, bs, torn) && k !in res && Start(k, bs) < |inner|
    ensures var s, len := Start(k, bs), BlockLen(|inner|, bs, k);
            Matches(inner[s..s + len], Flat(res, inner, bs), s, {})
  {
    hide Index;
    var s := Start(k, bs);
    var data := inner[s..s + BlockLen(|inner|, bs, k)];
    forall i | 0 <= i < |data| ensures data[i] == Flat(res, inner, bs)[s + i] {
      IndexStart(s + i, k, bs);
    }
  }

  lemma MatchesPart(data: seq<byte>, flat: seq<byte>, start: nat, torn: set<nat>, at: nat, n: nat)
    requires Matches(data, flat, start, torn) && at + n <= |data|
    ensures Matches(data[at..at + n], flat, start + at, torn)
  {
    var piece := data[at..at + n];
    forall i | 0 <= i < |piece| && start + at + i !in torn ensures piece[i] == flat[start + at + i] {
      assert data[at + i] == flat[start + (at + i)];
    }
  }

  lemma MatchesEqual(data: seq<byte>, a: seq<byte>, b: seq<byte>, start: nat, torn: set<nat>)
    requires (Matches(data, a, start, torn) || Matches(data, a, start, {})) && EqualOff(b, a, torn)
    ensures Matches(data, b, start, torn)
  {
  }

  /** Appending what matches keeps matching. */
  lemma MatchesExtend(bytes: seq<byte>, flat: seq<byte>, offset: nat, torn: set<nat>, done: nat, piece: seq<byte>)
    requires done + |piece| <= |bytes|
    requires Matches(bytes[..done], flat, offset, torn) && Matches(piece, flat, offset + done, torn)
    ensures Matches(Splice(bytes, done, piece)[..done + |piece|], flat, offset, torn)
  {
    var r := Splice(bytes, done, piece)[..done + |piece|];
    assert r == bytes[..done] + piece;
    forall i | 0 <= i < |r| && offset + i !in torn ensures r[i] == flat[offset + i] {
      if i < done { assert bytes[..done][i] == flat[offset + i]; }
      else { assert piece[i - done] == flat[offset + done + (i - done)]; }
    }
  }

  lemma MatchesNothing(data: seq<byte>, flat: seq<byte>, start: nat, torn: set<nat>)
    requires data == [] && start <= |flat|
    ensures Matches(data, flat, start, torn)
  {
  }

  lemma EqualOffSame(a: seq<byte>, torn: set<nat>)
    ensures EqualOff(a, a, torn)
  {
  }

  lemma EqualOffSymmetric(a: seq<byte>, b: seq<byte>, torn: set<nat>)
    requires EqualOff(a, b, torn)
    ensures EqualOff(b, a, torn)
  {
  }

  lemma EqualOffTrans(a: seq<byte>, b: seq<byte>, c: seq<byte>, torn: set<nat>)
    requires EqualOff(a, b, torn) && EqualOff(b, c, torn)
    ensures EqualOff(a, c, torn)
  {
  }

  // ----- writes -----

  /** Rewriting part of a resident block rewrites that part of the flat array. */
  lemma WriteResident(res: Images, inner: seq<byte>, bs: nat, torn: set<nat>, k: nat, at: nat, piece: seq<byte>, b: Image)
    requires Coherent(res, inner, bs, torn) && k in res && at + |piece| <= |res[k].data|
    requires b.data == Splice(res[k].data, at, piece)
    requires b.dirty || (!res[k].dirty && Start(k, bs) + at + |piece| <= |inner| &&
                         inner[Start(k, bs) + at..Start(k, bs) + at + |piece|] == piece)
    ensures Start(k, bs) + at + |piece| <= |inner|
    ensures Coherent(res[k := b], inner, bs, if b.dirty then torn else torn - Range(Start(k, bs) + at, |piece|))
    ensures Flat(res[k := b], inner, bs) == Splice(Flat(res, inner, bs), Start(k, bs) + at, piece)
  {
    hide Index;
    var res', s := res[k := b], Start(k, bs);
    RewrittenFlat(res, inner, bs, k, at, piece, b);
    hide Flat, Splice;
    if !b.dirty {
      var torn' := torn - Range(s + at, |piece|);
      WriteMatches(res[k].data, inner, s, torn, at, piece);
      forall j | j in res' && !res'[j].dirty ensures Matches(res'[j].data, inner, Start(j, bs), torn') {
        if j != k {
          if j < k { StartMonotone(j, k, bs); } else { StartMonotone(k, j, bs); }
          assert Matches(res[j].data, inner, Start(j, bs), torn);
        }
      }
    }
  }

  lemma RewrittenFlat(res: Images, inner: seq<byte>, bs: nat, k: nat, at: nat, piece: seq<byte>, b: Image)
    requires bs > 0 && Sized(res, |inner|, bs) && k in res && at + |piece| <= |res[k].data|
    requires b.data == Splice(res[k].data, at, piece)
    ensures Sized(res[k := b], |inner|, bs) && Start(k, bs) + at + |piece| <= |inner|
    ensures Flat(res[k := b], inner, bs) == Splice(Flat(res, inner, bs), Start(k, bs) + at, piece)
  {
    hide Index;
    var res', s := res[k := b], Start(k, bs);
    forall x | 0 <= x < |inner|
      ensures Flat(res', inner, bs)[x] == Splice(Flat(res, inner, bs), s + at, piece)[x]
    {
      var j := Index(x, bs);
      IndexStart(x, j, bs);
      IndexStart(x, k, bs);
      SpliceAt(Flat(res, inner, bs), s + at, piece, x);
      if j == k { SpliceAt(res[k].data, at, piece, x - s); }
    }
  }

  lemma WriteMatches(data: seq<byte>, inner: seq<byte>, start: nat, torn: set<nat>, at: nat, piece: seq<byte>)
    requires Matches(data, inner, start, torn) && at + |piece| <= |data|
    requires inner[start + at..start + at + |piece|] == piece
    ensures Matches(Splice(data, at, piece), inner, start, torn - Range(start + at, |piece|))
  {
    var data', torn' := Splice(data, at, piece), torn - Range(start + at, |piece|);
    forall i | 0 <= i < |data'| && start + i !in torn' ensures data'[i] == inner[start + i] {
      SpliceAt(data, at, piece, i);
      if at <= i < at + |piece| {
        assert inner[start + at..start + at + |piece|][i - at] == inner[start + i];
      }
    }
  }

  /** A write that misses: the block is the device's with the piece stored over it. */
  lemma WriteFresh(res: Images, inner: seq<byte>, bs: nat, torn: set<nat>, k: nat, at: nat, piece: seq<byte>, b: Image)
    requires Coherent(res, inner, bs, torn) && k !in res && at + |piece| <= BlockLen(|inner|, bs, k)
    requires Start(k, bs) < |inner|
    requires b.data == Splice(inner[Start(k, bs)..Start(k, bs) + BlockLen(|inner|, bs, k)], at, piece)
    requires b.dirty || inner[Start(k, bs) + at..Start(k, bs) + at + |piece|] == piece
    ensures Coherent(res[k := b], inner, bs, if b.dirty then torn else torn - Range(Start(k, bs) + at, |piece|))
    ensures Flat(res[k := b], inner, bs) == Splice(Flat(res, inner, bs), Start(k, bs) + at, piece)
  {
    hide Flat, Coherent, Sized, Splice;
    var loaded := Image(0, inner[Start(k, bs)..Start(k, bs) + BlockLen(|inner|, bs, k)], false);
    LoadClean(res, inner, bs, torn, k, loaded);
    WriteResident(res[k := loaded], inner, bs, torn, k, at, piece, b);
    assert res[k := loaded][k := b] == res[k := b];
  }

  /** Bytes stored on the device behind the cache's back are torn until the cache has them too. */
  lemma WriteThrough(res: Images, inner: seq<byte>, bs: nat, torn: set<nat>, offset: nat, b: seq<byte>, done: nat)
    requires Coherent(res, inner, bs, torn) && done <= |b| && (done > 0 ==> offset + |b| <= |inner|)
    ensures var inner', torn' := Splice(inner, offset, b[..done]), torn + Range(offset, |b|);
            Coherent(res, inner', bs, torn') && EqualOff(Flat(res, inner', bs), Flat(res, inner, bs), torn')
  {
    hide Index;
    var inner', torn' := Splice(inner, offset, b[..done]), torn + Range(offset, |b|);
    forall x | 0 <= x < |inner| && x !in torn' ensures inner'[x] == inner[x] {
      SpliceAt(inner, offset, b[..done], x);
    }
    forall k | k in res && !res[k].dirty ensures Matches(res[k].data, inner', Start(k, bs), torn') {
      assert Matches(res[k].data, inner, Start(k, bs), torn);
    }
    forall x | 0 <= x < |inner| && x !in torn' ensures Flat(res, inner', bs)[x] == Flat(res, inner, bs)[x] {
      IndexStart(x, Index(x, bs), bs);
    }
  }

  /** The same store on both sides settles the bytes it covers. */
  lemma EqualOffSplice(a: seq<byte>, b: seq<byte>, torn: set<nat>, offset: nat, piece: seq<byte>)
    requires EqualOff(a, b, torn) && offset + |piece| <= |a|
    ensures EqualOff(Splice(a, offset, piece), Splice(b, offset, piece), torn - Range(offset, |piece|))
  {
    var torn' := torn - Range(offset, |piece|);
    forall x | 0 <= x < |a| && x !in torn'
      ensures Splice(a, offset, piece)[x] == Splice(b, offset, piece)[x]
    {
      SpliceAt(a, offset, piece, x);
      SpliceAt(b, offset, piece, x);
    }
  }

  lemma PartOf(s: seq<byte>, offset: nat, b: seq<byte>, at: nat, n: nat)
    requires offset + |b| <= |s| && s[offset..offset + |b|] == b && at + n <= |b|
    ensures s[offset + at..offset + at + n] == b[at..at + n]
  {
    var x, y := s[offset + at..offset + at + n], b[at..at + n];
    forall i | 0 <= i < |x| ensures x[i] == y[i] {
      assert s[offset..offset + |b|][at + i] == b[at + i];
    }
  }

  /** Part of what was stored. */
  lemma SplicePart(s: seq<byte>, offset: nat, b: seq<byte>, at: nat, n: nat)
    requires offset + |b| <= |s| && at + n <= |b|
    ensures Splice(s, offset, b)[offset + at..offset + at + n] == b[at..at + n]
  {
  }

  /** One more piece of a store, on both sides. */
  lemma EqualOffExtend(flat: seq<byte>, a: seq<byte>, a': seq<byte>, torn: set<nat>, offset: nat, b: seq<byte>, p: nat, n: nat)
    requires p + n <= |b| && offset + |b| <= |flat| == |a|
    requires EqualOff(Splice(flat, offset, b[..p]), a, torn)
    requires EqualOff(Splice(a, offset + p, b[p..p + n]), a', torn - Range(offset + p, n))
    ensures EqualOff(Splice(flat, offset, b[..p + n]), a', torn - Range(offset + p, n))
  {
    hide Splice, EqualOff, Range;
    EqualOffSplice(Splice(flat, offset, b[..p]), a, torn, offset + p, b[p..p + n]);
    SpliceExtend(flat, offset, b[..p], b[p..p + n]);
    assert b[..p] + b[p..p + n] == b[..p + n];
    EqualOffTrans(Splice(flat, offset, b[..p + n]), Splice(a, offset + p, b[p..p + n]), a', torn - Range(offset + p, n));
  }

  lemma SpliceWhole(a: seq<byte>, b: seq<byte>, piece: seq<byte>)
    requires |a| == |b| == |piece|
    ensures Splice(a, 0, piece) == Splice(b, 0, piece)
  {
  }

  /** When nothing is dirty or torn, the device is the flat array. */
  lemma AllClean(res: Images, inner: seq<byte>, bs: nat, torn: set<nat>)
    requires Coherent(res, inner, bs, torn) && forall k :: k in res ==> !res[k].dirty
    ensures EqualOff(Flat(res, inner, bs), inner, torn)
  {
    hide Index;
    forall x | 0 <= x < |inner| && x !in torn ensures ByteOf(res, inner, bs, x) == inner[x] {
      var k := Index(x, bs);
      IndexStart(x, k, bs);
      if k in res {
        assert Matches(res[k].data, inner, Start(k, bs), torn);
        var i := x - Start(k, bs);
        assert res[k].data[i] == inner[Start(k, bs) + i];
      }
    }
  }

  // ----- flushing runs of blocks -----

  /** Every snapped block is still resident and dirty, in the same buffer with the same bytes. */
  ghost predicate Snapped(res: Images, blocks: seq<Snap>) {
    forall i :: 0 <= i < |blocks| ==>
      blocks[i].idx in res && res[blocks[i].idx] == Image(blocks[i].arc, blocks[i].data, true)
  }

  ghost predicate Numbered(blocks: seq<Snap>, start: nat) {
    forall i :: 0 <= i < |blocks| ==> blocks[i].idx == start + i
  }

  /** Marks the blocks of a run clean. */
  ghost function CleanAll(res: Images, blocks: seq<Snap>): (r: Images)
    ensures r.Keys == res.Keys
  {
    if blocks == [] then res
    else
      var r, k := CleanAll(res, blocks[..|blocks| - 1]), blocks[|blocks| - 1].idx;
      if k in r then r[k := r[k].(dirty := false)] else r
  }

  lemma {:induction false} CleanAllAt(res: Images, blocks: seq<Snap>, k: nat)
    requires k in res
    ensures (exists i :: 0 <= i < |blocks| && blocks[i].idx == k) ==> CleanAll(res, blocks)[k] == res[k].(dirty := false)
    ensures (forall i :: 0 <= i < |blocks| ==> blocks[i].idx != k) ==> CleanAll(res, blocks)[k] == res[k]
  {
    if blocks != [] {
      var init := blocks[..|blocks| - 1];
      CleanAllAt(res, init, k);
      if i :| 0 <= i < |blocks| && blocks[i].idx == k && blocks[|blocks| - 1].idx != k {
        assert init[i].idx == k;
      }
    }
  }

  /** All blocks of a run but the last are full, so the run's bytes line up with its addresses. */
  lemma {:induction false} RunLength(res: Images, size: nat, bs: nat, start: nat, blocks: seq<Snap>)
    requires bs > 0 && Sized(res, size, bs) && Snapped(res, blocks) && Numbered(blocks, start) && blocks != []
    ensures Start(start, bs) + TotalLen(blocks[..|blocks| - 1]) == Start(start + |blocks| - 1, bs)
  {
    hide Start;
    if |blocks| > 1 {
      var init := blocks[..|blocks| - 1];
      RunLength(res, size, bs, start, init);
      var k := start + |blocks| - 2;
      assert blocks[|blocks| - 1].idx == k + 1;
      assert init[|init| - 1].idx == k;
      StartStep(k, bs);
    }
  }

  /** Addresses of a run lie in its blocks. */
  lemma RunCovers(res: Images, size: nat, bs: nat, start: nat, blocks: seq<Snap>, x: nat)
    requires bs > 0 && Sized(res, size, bs) && Snapped(res, blocks) && Numbered(blocks, start)
    requires Start(start, bs) <= x < Start(start, bs) + TotalLen(blocks)
    ensures Index(x, bs) in res && res[Index(x, bs)].dirty
  {
    hide Start, Index;
    var k, last := Index(x, bs), start + |blocks| - 1;
    RunLength(res, size, bs, start, blocks);
    assert blocks[|blocks| - 1].idx == last;
    IndexStart(x, k, bs);
    if k < start { StartMonotone(k, start, bs); }
    if last < k { StartMonotone(last, k, bs); }
    assert blocks[k - start].idx == k;
  }

  /** Storing any prefix of a run of dirty blocks is invisible. */
  lemma RunPrefix(res: Images, inner: seq<byte>, bs: nat, torn: set<nat>, start: nat, blocks: seq<Snap>, done: nat)
    requires Coherent(res, inner, bs, torn) && Snapped(res, blocks) && Numbered(blocks, start)
    requires done <= TotalLen(blocks)
    ensures blocks != [] ==> Start(start, bs) + TotalLen(blocks) <= |inner|
    ensures blocks != [] ==>
              var inner' := Splice(inner, Start(start, bs), Joined(blocks)[..done]);
              Coherent(res, inner', bs, torn) && Flat(res, inner', bs) == Flat(res, inner, bs)
  {
    hide Index, Flat, Splice;
    if blocks != [] {
      RunLength(res, |inner|, bs, start, blocks);
      forall x | Start(start, bs) <= x < Start(start, bs) + done ensures Index(x, bs) in res && res[Index(x, bs)].dirty {
        RunCovers(res, |inner|, bs, start, blocks, x);
      }
      DirtyStore(res, inner, bs, torn, Start(start, bs), Joined(blocks)[..done]);
    }
  }

  /** Storing a whole run in one write makes all its blocks clean. */
  lemma {:induction false} RunStored(res: Images, inner: seq<byte>, bs: nat, torn: set<nat>, start: nat, blocks: seq<Snap>)
    requires Coherent(res, inner, bs, torn) && Snapped(res, blocks) && Numbered(blocks, start)
    ensures blocks != [] ==> Start(start, bs) + TotalLen(blocks) <= |inner|
    ensures var inner' := Splice(inner, Start(start, bs), Joined(blocks));
            Coherent(CleanAll(res, blocks), inner', bs, torn) && Flat(CleanAll(res, blocks), inner', bs) == Flat(res, inner, bs)
  {
    if blocks == [] {
      SpliceNothing(inner, Start(start, bs));
    } else {
      RunLength(res, |inner|, bs, start, blocks);
      hide Flat, Coherent, Sized, Splice, Start;
      var init, b := blocks[..|blocks| - 1], blocks[|blocks| - 1];
      RunStored(res, inner, bs, torn, start, init);
      CleanAllAt(res, init, b.idx);
      RunStep(CleanAll(res, init), inner, bs, torn, Start(start, bs), Joined(init), b.idx);
    }
  }

  /** One more block at the end of a run. */
  lemma RunStep(res: Images, inner: seq<byte>, bs: nat, torn: set<nat>, at: nat, done: seq<byte>, k: nat)
    requires done == [] || at + |done| <= |inner|
    requires Coherent(res, Splice(inner, at, done), bs, torn) && k in res && res[k].dirty && Start(k, bs) == at + |done|
    ensures at + |done| + |res[k].data| <= |inner|
    ensures var res', inner' := res[k := res[k].(dirty := false)], Splice(inner, at, done + res[k].data);
            Coherent(res', inner', bs, torn) && Flat(res', inner', bs) == Flat(res, Splice(inner, at, done), bs)
  {
    hide Flat, Coherent, Splice, Start;
    StoreClean(res, Splice(inner, at, done), bs, torn, k);
    SpliceExtend(inner, at, done, res[k].data);
  }

  /** Storing a dirty block and marking it clean. */
  lemma StoreClean(res: Images, inner: seq<byte>, bs: nat, torn: set<nat>, k: nat)
    requires Coherent(res, inner, bs, torn) && k in res && res[k].dirty
    ensures Start(k, bs) + |res[k].data| <= |inner|
    ensures var res', inner' := res[k := res[k].(dirty := false)], Splice(inner, Start(k, bs), res[k].data);
            Coherent(res', inner', bs, torn) && Flat(res', inner', bs) == Flat(res, inner, bs)
  {
    hide Flat, Coherent, Sized, Splice, Matches, Start;
    WriteBack(res, inner, bs, torn, k, |res[k].data|);
    assert res[k].data[..|res[k].data|] == res[k].data;
    CleanMarked(res, Splice(inner, Start(k, bs), res[k].data), bs, torn, k);
  }

  // ----- flushing a snapshot -----

  ghost predicate Ascending(s: seq<Snap>) {
    forall i, j :: 0 <= i < j < |s| ==> s[i].idx < s[j].idx
  }

  ghost predicate Holds(s: seq<Snap>, k: nat) {
    exists i :: 0 <= i < |s| && s[i].idx == k
  }

  /** `s` is the dirty blocks, in order. */
  ghost predicate IsSnapshot(res: Images, s: seq<Snap>) {
    Ascending(s) && Snapped(res, s) && forall k :: k in res && res[k].dirty ==> Holds(s, k)
  }

  /** `s` holds the least of the dirty blocks `all`, and `todo` the rest. */
  ghost predicate Selected(res: Images, all: set<nat>, todo: set<nat>, s: seq<Snap>) {
    && todo <= all && Ascending(s) && Snapped(res, s)
    && (forall k :: k in all ==> k in todo || Holds(s, k))
    && (forall i, k :: 0 <= i < |s| && k in todo ==> s[i].idx < k)
  }

  lemma SelectNext(res: Images, all: set<nat>, todo: set<nat>, s: seq<Snap>, b: Snap)
    requires Selected(res, all, todo, s) && b.idx in todo && forall j :: j in todo ==> b.idx <= j
    requires b.idx in res && res[b.idx] == Image(b.arc, b.data, true)
    ensures Selected(res, all, todo - {b.idx}, s + [b])
  {
    var w := s + [b];
    forall k | k in all ensures k in todo - {b.idx} || Holds(w, k) {
      if k == b.idx {
        assert w[|s|].idx == k;
      } else if Holds(s, k) {
        var i :| 0 <= i < |s| && s[i].idx == k;
        assert w[i].idx == k;
      }
    }
    assert Snapped(res, w);
    forall i, k | 0 <= i < |w| && k in todo - {b.idx} ensures w[i].idx < k {
      if i == |s| { assert b.idx <= k; }
    }
  }

  /** Same blocks with the same bytes; some dirty blocks may have become clean. */
  ghost predicate Cleaner(res: Images, res': Images) {
    && res'.Keys == res.Keys
    && forall k :: k in res ==> res'[k] == res[k] || res'[k] == res[k].(dirty := false)
  }

  ghost predicate Cleaned(res: Images, blocks: seq<Snap>) {
    forall i :: 0 <= i < |blocks| ==> blocks[i].idx in res && !res[blocks[i].idx].dirty
  }

  /** Parts before `n` are clean or, if their write failed, untouched; the rest are untouched. */
  ghost predicate Flushed(res: Images, parts: seq<seq<Snap>>, stored: seq<bool>) {
    && |stored| <= |parts|
    && forall i :: 0 <= i < |parts| ==>
         if i < |stored| && stored[i] then Cleaned(res, parts[i]) else Snapped(res, parts[i])
  }

  /** Parts of an ascending snapshot share no block. */
  lemma PartsApart(snapshot: seq<Snap>, parts: seq<seq<Snap>>, a: nat, b: nat, i: nat, j: nat)
    requires Ascending(snapshot) && Concat(parts) == snapshot
    requires a < b < |parts| && i < |parts[a]| && j < |parts[b]|
    ensures parts[a][i].idx != parts[b][j].idx
  {
    PartAt(parts, a);
    PartAt(parts, b);
    EndMonotone(parts, a + 1, b);
    assert parts[a][i] == snapshot[End(parts, a) + i];
    assert parts[b][j] == snapshot[End(parts, b) + j];
  }

  lemma {:induction false} EndMonotone(parts: seq<seq<Snap>>, a: nat, b: nat)
    requires a <= b <= |parts|
    ensures End(parts, a) <= End(parts, b)
  {
    if a < b { EndMonotone(parts, a, b - 1); }
  }

  /** Before the first write every part is as snapped. */
  lemma FlushStart(res: Images, snapshot: seq<Snap>, parts: seq<seq<Snap>>)
    requires IsSnapshot(res, snapshot) && Concat(parts) == snapshot
    ensures Flushed(res, parts, [])
  {
    forall a | 0 <= a < |parts| ensures Snapped(res, parts[a]) {
      PartAt(parts, a);
      forall i | 0 <= i < |parts[a]|
        ensures parts[a][i].idx in res && res[parts[a][i].idx] == Image(parts[a][i].arc, parts[a][i].data, true)
      {
        assert parts[a][i] == snapshot[End(parts, a) + i];
      }
    }
  }

  lemma FlushFailed(res: Images, parts: seq<seq<Snap>>, stored: seq<bool>)
    requires Flushed(res, parts, stored) && |stored| < |parts|
    ensures Flushed(res, parts, stored + [false])
  {
    hide Cleaned, Snapped;
  }

  lemma NextPart(res: Images, parts: seq<seq<Snap>>, stored: seq<bool>)
    requires Flushed(res, parts, stored) && |stored| < |parts|
    ensures Snapped(res, parts[|stored|])
  {
  }

  ghost predicate AllStored(stored: seq<bool>) {
    forall i :: 0 <= i < |stored| ==> stored[i]
  }

  lemma AllStoredSnoc(s: seq<bool>, b: bool)
    ensures AllStored(s + [b]) <==> AllStored(s) && b
  {
    var w := s + [b];
    if AllStored(w) {
      assert w[|s|];
      forall i | 0 <= i < |s| ensures s[i] { assert w[i]; }
    }
  }

  lemma NothingDirty(res: Images)
    requires forall k :: k in res ==> !res[k].dirty
    ensures IsSnapshot(res, Concat([])) && Flushed(res, [], []) && Cleaner(res, res)
  {
  }

  lemma InOrder(res: Images, s: seq<Snap>)
    requires IsSnapshot(res, s)
    ensures Ascending(s)
  {
  }

  lemma CleanerSame(res: Images)
    ensures Cleaner(res, res)
  {
  }

  lemma CleanerTrans(a: Images, b: Images, c: Images)
    requires Cleaner(a, b) && Cleaner(b, c)
    ensures Cleaner(a, c)
  {
    assert forall k :: k in a <==> k in a.Keys;
  }

  /** Cleaning one part leaves the others alone. */
  lemma FlushPart(res: Images, snapshot: seq<Snap>, parts: seq<seq<Snap>>, stored: seq<bool>)
    requires Ascending(snapshot) && Concat(parts) == snapshot && |stored| < |parts| && Flushed(res, parts, stored)
    ensures Flushed(CleanAll(res, parts[|stored|]), parts, stored + [true])
    ensures Cleaner(res, CleanAll(res, parts[|stored|]))
  {
    var n := |stored|;
    var res' := CleanAll(res, parts[n]);
    forall a | 0 <= a < |parts|
      ensures if a < n + 1 && (stored + [true])[a] then Cleaned(res', parts[a]) else Snapped(res', parts[a])
    {
      forall i | 0 <= i < |parts[a]|
        ensures parts[a][i].idx in res
        ensures a == n ==> !res'[parts[a][i].idx].dirty
        ensures a != n ==> res'[parts[a][i].idx] == res[parts[a][i].idx]
      {
        FlushPartAt(res, snapshot, parts, n, a, i);
      }
    }
    forall k | k in res ensures res'[k] == res[k] || res'[k] == res[k].(dirty := false) {
      CleanAllAt(res, parts[n], k);
    }
  }

  lemma FlushPartAt(res: Images, snapshot: seq<Snap>, parts: seq<seq<Snap>>, n: nat, a: nat, i: nat)
    requires Ascending(snapshot) && Concat(parts) == snapshot && n < |parts| && a < |parts| && i < |parts[a]|
    requires parts[a][i].idx in res
    ensures a == n ==> !CleanAll(res, parts[n])[parts[a][i].idx].dirty
    ensures a != n ==> CleanAll(res, parts[n])[parts[a][i].idx] == res[parts[a][i].idx]
  {
    var k := parts[a][i].idx;
    CleanAllAt(res, parts[n], k);
    forall j | 0 <= j < |parts[n]| && a != n ensures parts[n][j].idx != k {
      if a < n { PartsApart(snapshot, parts, a, n, i, j); } else { PartsApart(snapshot, parts, n, a, j, i); }
    }
  }

  /** Once every part is stored nothing is dirty. */
  lemma AllFlushed(res: Images, res': Images, snapshot: seq<Snap>, parts: seq<seq<Snap>>, stored: seq<bool>)
    requires IsSnapshot(res, snapshot) && Concat(parts) == snapshot && Cleaner(res, res')
    requires Flushed(res', parts, stored) && |stored| == |parts| && AllStored(stored)
    ensures forall k :: k in res' ==> !res'[k].dirty
  {
    forall k | k in res' ensures !res'[k].dirty {
      if res[k].dirty {
        assert Holds(snapshot, k);
        var i :| 0 <= i < |snapshot| && snapshot[i].idx == k;
        var a, j := Locate(parts, i);
        assert stored[a];
      }
    }
  }

  lemma {:induction false} Locate(parts: seq<seq<Snap>>, i: nat) returns (a: nat, j: nat)
    requires i < |Concat(parts)|
    ensures a < |parts| && j < |parts[a]| && parts[a][j] == Concat(parts)[i]
    decreases |parts|
  {
    var init := parts[..|parts| - 1];
    if i < |Concat(init)| {
      a, j := Locate(init, i);
    } else {
      a, j := |parts| - 1, i - |Concat(init)|;
    }
  }

  // ----- the writes of a flush, in any order -----

  /** Each part is a run of snapped dirty blocks. */
  ghost predicate Runs(res: Images, parts: seq<seq<Snap>>) {
    forall a :: 0 <= a < |parts| ==> IsRun(res, parts[a])
  }

  ghost predicate IsRun(res: Images, blocks: seq<Snap>) {
    blocks != [] && Numbered(blocks, blocks[0].idx) && Snapped(res, blocks)
  }

  ghost predicate InParts(parts: seq<seq<Snap>>, k: nat) {
    exists a :: 0 <= a < |parts| && Holds(parts[a], k)
  }

  /** The device after each run was written with one write, in this order. */
  ghost function StoreRuns(res: Images, inner: seq<byte>, bs: nat, parts: seq<seq<Snap>>): (r: seq<byte>)
    requires bs > 0 && Sized(res, |inner|, bs) && Runs(res, parts)
    ensures |r| == |inner|
  {
    if parts == [] then inner
    else
      var last := parts[|parts| - 1];
      RunFits(res, |inner|, bs, last);
      Splice(StoreRuns(res, inner, bs, parts[..|parts| - 1]), Start(last[0].idx, bs), Joined(last))
  }

  lemma RunFits(res: Images, size: nat, bs: nat, blocks: seq<Snap>)
    requires bs > 0 && Sized(res, size, bs) && IsRun(res, blocks)
    ensures Start(blocks[0].idx, bs) + TotalLen(blocks) <= size
  {
    hide Start;
    RunLength(res, size, bs, blocks[0].idx, blocks);
    assert blocks[|blocks| - 1].idx == blocks[0].idx + |blocks| - 1;
  }

  /** On a device of whole blocks a run is whole blocks. */
  lemma RunOfBlocks(res: Images, size: nat, bs: nat, start: nat, blocks: seq<Snap>)
    requires bs > 0 && Sized(res, size, bs) && size % bs == 0 && blocks != []
    requires Numbered(blocks, start) && Snapped(res, blocks)
    ensures TotalLen(blocks) % bs == 0 && Start(start, bs) % bs == 0 && Start(start, bs) + TotalLen(blocks) <= size
  {
    hide Start;
    var n := |blocks|;
    RunLength(res, size, bs, start, blocks);
    assert blocks[n - 1].idx == start + n - 1 && blocks[0].idx == start;
    WholeBlock(start + n - 1, bs, size);
    WholeBlock(start, bs, size);
    StartStep(start + n - 1, bs);
    StartAdd(start, n, bs);
    assert TotalLen(blocks) == Start(n, bs);
    StartWhole(n, bs);
  }

  /** A run's bytes are its blocks' bytes at their own addresses. */
  lemma {:induction false} RunByte(res: Images, size: nat, bs: nat, start: nat, blocks: seq<Snap>, x: nat)
    requires bs > 0 && Sized(res, size, bs) && Snapped(res, blocks) && Numbered(blocks, start)
    requires Start(start, bs) <= x < Start(start, bs) + TotalLen(blocks)
    ensures Holds(blocks, Index(x, bs)) && Index(x, bs) in res
    ensures var k := Index(x, bs);
            Start(k, bs) <= x < Start(k, bs) + |res[k].data| && Joined(blocks)[x - Start(start, bs)] == res[k].data[x - Start(k, bs)]
  {
    hide Start, Index;
    var init, b := blocks[..|blocks| - 1], blocks[|blocks| - 1];
    RunLength(res, size, bs, start, blocks);
    if x < Start(start, bs) + TotalLen(init) {
      RunByte(res, size, bs, start, init, x);
      var i :| 0 <= i < |init| && init[i].idx == Index(x, bs);
      assert blocks[i].idx == Index(x, bs);
    } else {
      assert b.idx == start + |blocks| - 1;
      IndexStart(x, b.idx, bs);
      assert blocks[|blocks| - 1].idx == Index(x, bs);
    }
  }

  /** An address in one of a run's blocks is in the run. */
  lemma RunHits(res: Images, size: nat, bs: nat, blocks: seq<Snap>, x: nat)
    requires bs > 0 && Sized(res, size, bs) && IsRun(res, blocks) && x < size && Holds(blocks, Index(x, bs))
    ensures Start(blocks[0].idx, bs) <= x < Start(blocks[0].idx, bs) + TotalLen(blocks)
  {
    hide Start, Index;
    var k, start, last := Index(x, bs), blocks[0].idx, blocks[0].idx + |blocks| - 1;
    var i :| 0 <= i < |blocks| && blocks[i].idx == k;
    IndexStart(x, k, bs);
    RunLength(res, size, bs, start, blocks);
    assert blocks[|blocks| - 1].idx == last;
    if start < k { StartMonotone(start, k, bs); }
    if k < last { StartMonotone(k, last, bs); }
  }

  /** After the writes each address of a flushed block holds that block's byte, every other address what it held. */
  lemma {:induction false} StoreRunsAt(res: Images, inner: seq<byte>, bs: nat, parts: seq<seq<Snap>>, x: nat)
    requires bs > 0 && Sized(res, |inner|, bs) && Runs(res, parts) && x < |inner|
    ensures var k := Index(x, bs);
            if InParts(parts, k)
            then k in res && Start(k, bs) <= x < Start(k, bs) + |res[k].data| &&
                 StoreRuns(res, inner, bs, parts)[x] == res[k].data[x - Start(k, bs)]
            else StoreRuns(res, inner, bs, parts)[x] == inner[x]
  {
    hide Start, Index, Sized, Snapped, Numbered;
    if parts != [] {
      var init, last := parts[..|parts| - 1], parts[|parts| - 1];
      StoreRunsAt(res, inner, bs, init, x);
      var at := Start(last[0].idx, bs);
      RunFits(res, |inner|, bs, last);
      SpliceAt(StoreRuns(res, inner, bs, init), at, Joined(last), x);
      InPartsLast(parts, Index(x, bs));
      if at <= x < at + TotalLen(last) { RunByte(res, |inner|, bs, last[0].idx, last, x); }
      if Holds(last, Index(x, bs)) { RunHits(res, |inner|, bs, last, x); }
    }
  }

  lemma InPartsLast(parts: seq<seq<Snap>>, k: nat)
    requires parts != []
    ensures InParts(parts, k) <==> InParts(parts[..|parts| - 1], k) || Holds(parts[|parts| - 1], k)
  {
    hide Holds;
    var init := parts[..|parts| - 1];
    if InParts(init, k) {
      var a :| 0 <= a < |init| && Holds(init[a], k);
      assert Holds(parts[a], k);
    }
    if InParts(parts, k) {
      var a :| 0 <= a < |parts| && Holds(parts[a], k);
      assert a < |init| ==> Holds(init[a], k);
    }
  }

  /** However the blocks are grouped into runs and in whatever order the runs are written, the device ends the same:
      in particular a coalesced flush equals writing block by block. */
  lemma AnyGroupingAnyOrder(res: Images, inner: seq<byte>, bs: nat, parts: seq<seq<Snap>>, others: seq<seq<Snap>>)
    requires bs > 0 && Sized(res, |inner|, bs) && Runs(res, parts) && Runs(res, others)
    requires forall k :: InParts(parts, k) <==> InParts(others, k)
    ensures StoreRuns(res, inner, bs, parts) == StoreRuns(res, inner, bs, others)
  {
    hide Start, Index, InParts, Runs, Sized;
    forall x | 0 <= x < |inner|
      ensures StoreRuns(res, inner, bs, parts)[x] == StoreRuns(res, inner, bs, others)[x]
    {
      StoreRunsAt(res, inner, bs, parts, x);
      StoreRunsAt(res, inner, bs, others, x);
      assert InParts(parts, Index(x, bs)) <==> InParts(others, Index(x, bs));
    }
  }
}
