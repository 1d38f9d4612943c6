/** The block cache over a device: sharded residency, write-back or write-through, prefer-clean eviction.

    Whatever is resident, the cached device reads and writes like one flat array of bytes.
 */
module Caches {
  import opened Prelude
  import opened BlockMath
  import opened Regions
  import opened Device
  import opened Shards
  import opened Recency
  import opened FlushRuns
  import opened CacheSpec

  function ImageOf(b: Block): Image { Image(b.arc, b.data, b.dirty) }

  function ShardOf(k: nat, n: nat): (i: nat)
    requires n > 0
    ensures i < n
  {
    k % n
  }

  /** Shard `i` of `n` holds exactly the resident blocks that hash to it. */
  ghost predicate Mirror(blocks: Blocks, res: Images, n: nat, i: nat)
    requires n > 0
  {
    && (forall k :: k in blocks <==> k in res && ShardOf(k, n) == i)
    && (forall k :: k in blocks && k in res ==> res[k] == ImageOf(blocks[k]))
  }

  lemma MirrorSame(blocks: Blocks, blocks': Blocks, res: Images, n: nat, i: nat)
    requires n > 0 && Mirror(blocks, res, n, i) && SameContents(blocks, blocks')
    ensures Mirror(blocks', res, n, i) && |blocks'| == |blocks|
  {
    hide ShardOf;
    assert forall k :: k in blocks <==> k in blocks.Keys;
    assert |blocks'.Keys| == |blocks.Keys|;
  }

  lemma MirrorRemove(blocks: Blocks, blocks': Blocks, res: Images, n: nat, i: nat, k: nat)
    requires n > 0 && Mirror(blocks, res, n, i) && k in blocks && SameContents(blocks - {k}, blocks')
    ensures Mirror(blocks', res - {k}, n, i)
  {
    hide ShardOf;
    MirrorSame(blocks - {k}, blocks', res - {k}, n, i);
  }

  lemma MirrorPut(blocks: Blocks, blocks': Blocks, res: Images, n: nat, i: nat, k: nat, b: Block)
    requires n > 0 && Mirror(blocks, res, n, i) && ShardOf(k, n) == i && SameContents(blocks[k := b], blocks')
    ensures Mirror(blocks', res[k := ImageOf(b)], n, i)
  {
    hide ShardOf;
    MirrorSame(blocks[k := b], blocks', res[k := ImageOf(b)], n, i);
  }

  /** Changing a flag keeps the number of blocks. */
  lemma FlagPut(blocks: Blocks, blocks': Blocks, k: nat, d: bool)
    requires k in blocks && Shard.Reflagged(blocks, blocks', k, d)
    ensures SameContents(blocks[k := blocks[k].(dirty := d)], blocks') && |blocks'| == |blocks|
  {
    assert |blocks'.Keys| == |blocks.Keys|;
  }

  /** A change to a block of one shard does not concern the others. */
  lemma MirrorOther(blocks: Blocks, res: Images, res': Images, n: nat, i: nat, k: nat)
    requires n > 0 && Mirror(blocks, res, n, i) && ShardOf(k, n) != i
    requires res' - {k} == res - {k}
    ensures Mirror(blocks, res', n, i)
  {
    hide ShardOf;
    forall j | j != k ensures j in res <==> j in res' { assert j in res <==> j in res - {k}; assert j in res' <==> j in res' - {k}; }
    forall j | j != k && j in res && j in res' ensures res[j] == res'[j] { assert (res - {k})[j] == (res' - {k})[j]; }
  }

  /** What stays resident when a shard with these orders makes room for one block. */
  ghost function Kept(res: Images, o: Orders, cap: nat): Images {
    if AtCap(o, cap) && Victim(o).Some? then res - {Victim(o).value} else res
  }

  function RunStart(blocks: seq<Snap>): nat {
    if blocks == [] then 0 else blocks[0].idx
  }

  function Numbers(blocks: seq<Snap>): seq<nat> {
    seq(|blocks|, i requires 0 <= i < |blocks| => blocks[i].idx)
  }

  /** The blocks of the runs that were stored, in order. */
  ghost function StoredNumbers(parts: seq<seq<Snap>>, stored: seq<bool>): seq<nat>
    requires |stored| == |parts|
  {
    if parts == [] then []
    else
      var n := |parts| - 1;
      StoredNumbers(parts[..n], stored[..n]) + if stored[n] then Numbers(parts[n]) else []
  }

  lemma StoredSnoc(parts: seq<seq<Snap>>, n: nat, stored: seq<bool>, ok: bool)
    requires n < |parts| && |stored| == n
    ensures StoredNumbers(parts[..n + 1], stored + [ok]) ==
            StoredNumbers(parts[..n], stored) + if ok then Numbers(parts[n]) else []
  {
    assert parts[..n + 1][..n] == parts[..n] && (stored + [ok])[..n] == stored;
  }

  /** `stored` says which answers were successes, and `r` is the first error among them. */
  ghost predicate Tells(answers: seq<Result<(), DeviceError>>, r: Result<(), DeviceError>, stored: seq<bool>) {
    && |stored| == |answers| && (forall i :: 0 <= i < |answers| ==> stored[i] == answers[i].Ok?)
    && (r.Ok? <==> forall i :: 0 <= i < |answers| ==> answers[i].Ok?)
    && (r.Err? ==> exists i: nat :: IsFirstError(answers, i) && answers[i] == r)
  }

  lemma TellsMore(answers: seq<Result<(), DeviceError>>, r: Result<(), DeviceError>, stored: seq<bool>,
                  a: Result<(), DeviceError>)
    requires Tells(answers, r, stored)
    ensures Tells(answers + [a], if a.Err? && r.Ok? then a else r, stored + [a.Ok?])
  {
    var more := answers + [a];
    if r.Err? {
      var i: nat :| IsFirstError(answers, i) && answers[i] == r;
      assert IsFirstError(more, i) && more[i] == r;
    } else {
      assert a.Err? ==> IsFirstError(more, |answers|) && more[|answers|] == a;
    }
  }

  ghost predicate IsFirstError(answers: seq<Result<(), DeviceError>>, i: nat) {
    i < |answers| && answers[i].Err? && forall j :: 0 <= j < i ==> answers[j].Ok?
  }

  class CacheState {
    const inner: BlockDevice
    const blockSize: nat
    const writeback: bool
    const shards: seq<Shard>
    var nextArc: nat
    /** The resident blocks of all shards. */
    ghost var resident: Images
    /** Addresses whose device bytes a failed write-through left unknown to the cache. */
    ghost var torn: set<nat>

    ghost predicate ShardOk(i: nat)
      requires i < |shards|
      reads `resident, shards
    {
      && shards[i].Valid()
      && |shards[i].blocks| <= shards[i].cap
      && Mirror(shards[i].blocks, resident, |shards|, i)
    }

    /** The shards are distinct, within capacity, and together hold the resident blocks. */
    ghost predicate Backed()
      reads `resident, shards
    {
      && |shards| > 0
      && (forall i, j :: 0 <= i < j < |shards| ==> shards[i] != shards[j])
      && (forall i :: 0 <= i < |shards| ==> ShardOk(i))
    }

    ghost predicate Valid()
      reads `resident, `torn, shards, inner.live
    {
      && Backed()
      && inner.Valid() && blockSize == inner.alignment
      && Coherent(resident, inner.live[..], blockSize, torn)
      && (writeback ==> torn == {})
      && (!writeback ==> forall k :: k in resident ==> !resident[k].dirty)
    }

    /** The byte array the cached device stands for. */
    ghost function Contents(): seq<byte>
      requires Valid()
      reads `resident, `torn, shards, inner.live
    {
      Flat(resident, inner.live[..], blockSize)
    }

    constructor (inner: BlockDevice, writeback: bool, shards: seq<Shard>)
      requires inner.Valid() && |shards| > 0
      requires forall i, j :: 0 <= i < j < |shards| ==> shards[i] != shards[j]
      requires forall i :: 0 <= i < |shards| ==> shards[i].Valid() && shards[i].blocks == map[]
      ensures Valid() && Contents() == inner.live[..] && resident == map[] && torn == {}
      ensures this.inner == inner && this.writeback == writeback && this.shards == shards
    {
      this.inner, this.blockSize, this.writeback, this.shards := inner, inner.alignment, writeback, shards;
      nextArc := 0;
      resident, torn := map[], {};
      new;
      AllClean(resident, inner.live[..], blockSize, torn);
    }

    /** Shard `i`'s blocks, least recently used first. */
    ghost function OrdersOf(i: nat): Orders
      requires i < |shards|
      reads shards
    {
      Orders(shards[i].cleanOrder, shards[i].dirtyOrder)
    }

    ghost function AllOrders(): seq<Orders>
      reads shards
    {
      seq(|shards|, i requires 0 <= i < |shards| reads shards => OrdersOf(i))
    }

    ghost function Caps(): seq<nat> {
      seq(|shards|, i requires 0 <= i < |shards| => shards[i].cap)
    }

    lemma StartAccess(how: Access, first: nat)
      requires Backed()
      ensures Accessed(AllOrders(), AllOrders(), Caps(), how, first, first) && MostRecent(AllOrders(), first, first)
    {
      hide Recent, OfShard, Mirror, Shard.Valid;
      NoneAccessed(AllOrders(), Caps(), how, first);
      forall i | 0 <= i < |shards| ensures Foremost(AllOrders()[i], |shards|, i, first, first) {
        OrdersHold(i);
        assert Recent(OrdersOf(i), first, first);
      }
    }

    /** The orders after one more block of a request. */
    lemma NextAccess(start: seq<Orders>, how: Access, first: nat, k: nat)
      requires Backed() && Accessed(start, AllOrders(), Caps(), how, first, k) && first <= k
      ensures var i := ShardOf(k, |shards|);
              Accessed(start, AllOrders()[i := One(OrdersOf(i), shards[i].cap, how, k)], Caps(), how, first, k + 1)
    {
      NextAccessed(start, AllOrders(), Caps(), how, first, k);
    }

    lemma NoFlush()
      requires Backed()
      ensures AfterFlush(AllOrders(), AllOrders(), [])
    {
    }

    /** The orders after one more block was flushed. */
    lemma NextFlush(start: seq<Orders>, ks: seq<nat>, k: nat)
      requires Backed() && AfterFlush(start, AllOrders(), ks)
      ensures var i := ShardOf(k, |shards|); AfterFlush(start, AllOrders()[i := CleanOne(OrdersOf(i), k)], ks + [k])
    {
      hide CleanOne;
      NextFlushed(start, AllOrders(), ks, k);
    }

    /** Only shard `i` changed. */
    twostate lemma OneShard(i: nat)
      requires i < |shards| && forall j :: 0 <= j < |shards| && j != i ==> unchanged(shards[j])
      ensures AllOrders() == old(AllOrders())[i := OrdersOf(i)]
    {
    }

    /** The two orders of a shard list exactly its resident blocks. */
    lemma OrdersHold(i: nat)
      requires Backed() && i < |shards|
      ensures |shards[i].blocks| == |OrdersOf(i).clean| + |OrdersOf(i).dirty|
      ensures forall k :: k in OrdersOf(i).clean <==> k in resident && ShardOf(k, |shards|) == i && !resident[k].dirty
      ensures forall k :: k in OrdersOf(i).dirty <==> k in resident && ShardOf(k, |shards|) == i && resident[k].dirty
      ensures forall first: nat :: Recent(OrdersOf(i), first, first) && OfShard(OrdersOf(i), |shards|, i)
    {
      hide TwoLists, RecentTail;
      var sh := shards[i];
      assert ShardOk(i);
      Shard.Counted(sh.blocks, sh.CleanList(), sh.DirtyList());
      forall k
        ensures k in OrdersOf(i).clean <==> k in resident && ShardOf(k, |shards|) == i && !resident[k].dirty
        ensures k in OrdersOf(i).dirty <==> k in resident && ShardOf(k, |shards|) == i && resident[k].dirty
      {
        Shard.TouchCases(sh.blocks, sh.CleanList(), sh.DirtyList(), k);
      }
      forall first: nat ensures Recent(OrdersOf(i), first, first) {
        StartRecent(sh.cleanOrder, first);
        StartRecent(sh.dirtyOrder, first);
      }
    }

    /** An absent block joins its shard's clean order on a read. */
    lemma AbsentRead(k: nat)
      requires Backed() && k !in resident
      ensures var i := ShardOf(k, |shards|); var cap := shards[i].cap; var room := Roomy(OrdersOf(i), cap);
              ReadOne(OrdersOf(i), cap, k) == Orders(room.clean + [k], room.dirty)
    {
      hide Mirror, Shard.Valid, Recent, OfShard;
      OrdersHold(ShardOf(k, |shards|));
    }

    /** An absent block joins the order that its mode selects on a write. */
    lemma AbsentWrite(k: nat)
      requires Backed() && k !in resident
      ensures var i := ShardOf(k, |shards|); var cap := shards[i].cap; var room := Roomy(OrdersOf(i), cap);
              WriteOne(OrdersOf(i), cap, writeback, k) ==
                if writeback then Orders(room.clean, room.dirty + [k]) else Orders(room.clean + [k], room.dirty)
    {
      hide Mirror, Shard.Valid, Recent, OfShard;
      OrdersHold(ShardOf(k, |shards|));
    }

    /** The device completes every whole-block request, and consists of whole blocks. */
    ghost predicate Healthy()
      requires inner.Valid()
      reads inner`script
    {
      inner.Healthy() && inner.live.Length % inner.alignment == 0
    }

    /** Every block of such a device is whole, so the device takes it. */
    lemma BlockTaken(k: nat)
      requires inner.Valid() && blockSize == inner.alignment && inner.live.Length % blockSize == 0
      requires Start(k, blockSize) < inner.live.Length
      ensures BlockLen(inner.live.Length, blockSize, k) == blockSize
      ensures inner.Takes(Start(k, blockSize), BlockLen(inner.live.Length, blockSize, k))
    {
      WholeBlock(k, blockSize, inner.live.Length);
    }

    lemma ResidentTaken(k: nat)
      requires Valid() && k in resident && inner.live.Length % blockSize == 0
      ensures inner.Takes(Start(k, blockSize), |resident[k].data|)
    {
      BlockTaken(k);
    }

    // ----- one block at a time -----

    /** Re-establishes the mirror after shard `i` changed at block `k` only. */
    ghost method Remirror(i: nat, k: nat, res: Images)
      requires |shards| > 0 && i == ShardOf(k, |shards|)
      requires forall i, j :: 0 <= i < j < |shards| ==> shards[i] != shards[j]
      requires forall j :: 0 <= j < |shards| && j != i ==> ShardOk(j)
      requires shards[i].Valid() && |shards[i].blocks| <= shards[i].cap
      requires Mirror(shards[i].blocks, res, |shards|, i) && res - {k} == resident - {k}
      modifies `resident
      ensures Backed() && resident == res
    {
      hide Mirror, Shard.Valid;
      forall j | 0 <= j < |shards|
        ensures shards[j].Valid() && |shards[j].blocks| <= shards[j].cap && Mirror(shards[j].blocks, res, |shards|, j)
      {
        if j != i {
          assert ShardOk(j);
          MirrorOther(shards[j].blocks, resident, res, |shards|, j, k);
        }
      }
      resident := res;
    }

    /** Shards that did not change still hold their blocks. */
    twostate lemma OthersOk(i: nat)
      requires old(Backed()) && i < |shards| && resident == old(resident)
      requires forall j :: 0 <= j < |shards| && j != i ==> unchanged(shards[j])
      ensures forall j :: 0 <= j < |shards| && j != i ==> ShardOk(j)
    {
      hide Mirror, Shard.Valid;
      forall j | 0 <= j < |shards| && j != i ensures ShardOk(j) {
        assert old(ShardOk(j));
      }
    }

    /** Drops resident block `k`. */
    method Drop(k: nat)
      requires Backed() && k in resident
      modifies shards[ShardOf(k, |shards|)], `resident
      ensures Backed() && resident == old(resident) - {k}
      ensures var sh := shards[ShardOf(k, |shards|)];
              && sh.cleanOrder == Without(old(sh.cleanOrder), k) && sh.dirtyOrder == Without(old(sh.dirtyOrder), k)
              && |sh.blocks| == |old(sh.blocks)| - 1
    {
      hide Mirror, Shard.Valid, Without;
      var i := ShardOf(k, |shards|);
      assert ShardOk(i);
      assert k in shards[i].blocks by { InShard(shards[i].blocks, resident, |shards|, i, k); }
      ghost var was := shards[i].blocks;
      shards[i].RemoveBlock(k);
      assert |shards[i].blocks.Keys| == |was.Keys| - 1;
      MirrorRemove(was, shards[i].blocks, resident, |shards|, i, k);
      OthersOk(i);
      Remirror(i, k, resident - {k});
    }

    /** Inserts block `k`. */
    method Put(k: nat, arc: nat, data: seq<byte>, d: bool)
      requires Backed() && k !in resident
      requires |shards[ShardOf(k, |shards|)].blocks| < shards[ShardOf(k, |shards|)].cap
      modifies shards[ShardOf(k, |shards|)], `resident
      ensures Backed() && resident == old(resident)[k := Image(arc, data, d)]
      ensures var sh := shards[ShardOf(k, |shards|)];
              && sh.cleanOrder == (if d then old(sh.cleanOrder) else old(sh.cleanOrder) + [k])
              && sh.dirtyOrder == (if d then old(sh.dirtyOrder) + [k] else old(sh.dirtyOrder))
    {
      hide Mirror, Shard.Valid, SameContents;
      var i := ShardOf(k, |shards|);
      assert ShardOk(i);
      assert k !in shards[i].blocks by { InShard(shards[i].blocks, resident, |shards|, i, k); }
      ghost var was := shards[i].blocks;
      ghost var b := Block(arc, data, d, None, None);
      shards[i].InsertBlock(k, arc, data, d);
      assert |shards[i].blocks.Keys| == |was.Keys| + 1;
      MirrorPut(was, shards[i].blocks, resident, |shards|, i, k, b);
      OthersOk(i);
      Remirror(i, k, resident[k := ImageOf(b)]);
    }

    /** Records a read of block `k`. */
    method Use(k: nat)
      requires Backed()
      modifies shards[ShardOf(k, |shards|)], `resident
      ensures Backed() && resident == old(resident)
      ensures var sh := shards[ShardOf(k, |shards|)];
              && sh.cleanOrder == Shard.Used(old(sh.cleanOrder), k) && sh.dirtyOrder == Shard.Used(old(sh.dirtyOrder), k)
    {
      hide Mirror, Shard.Valid, Shard.Used, SameContents;
      var i := ShardOf(k, |shards|);
      assert ShardOk(i);
      ghost var was := shards[i].blocks;
      shards[i].Touch(k);
      MirrorSame(was, shards[i].blocks, resident, |shards|, i);
      OthersOk(i);
      Remirror(i, k, resident);
    }

    /** Stores new bytes in resident block `k`, which becomes dirty in write-back mode. */
    method Rewrite(k: nat, data: seq<byte>)
      requires Backed() && k in resident
      modifies shards[ShardOf(k, |shards|)], `resident
      ensures Backed()
      ensures var i := ShardOf(k, |shards|);
              OrdersOf(i) == WriteOne(old(OrdersOf(i)), shards[i].cap, writeback, k)
      ensures var was := old(resident)[k]; resident == old(resident)[k := Image(was.arc, data, was.dirty || writeback)]
    {
      hide Mirror, Shard.Valid, Shard.Used, Without, SameContents, Shard.Reflagged;
      var i := ShardOf(k, |shards|);
      assert ShardOk(i);
      InShard(shards[i].blocks, resident, |shards|, i, k);
      OrdersHold(i);
      ghost var was := shards[i].blocks;
      ghost var b := was[k].(data := data, dirty := was[k].dirty || writeback);
      shards[i].Overwrite(k, data);
      ghost var mid := shards[i].blocks;
      shards[i].TouchOnWrite(k, writeback);
      FlagPut(mid, shards[i].blocks, k, b.dirty);
      assert mid[k := mid[k].(dirty := b.dirty)] == was[k := b];
      MirrorPut(was, shards[i].blocks, resident, |shards|, i, k, b);
      OthersOk(i);
      Remirror(i, k, resident[k := ImageOf(b)]);
    }

    /** Clears the dirty flag of resident block `k`. */
    method Clean(k: nat)
      requires Backed() && k in resident
      modifies shards[ShardOf(k, |shards|)], `resident
      ensures Backed() && resident == old(resident)[k := old(resident)[k].(dirty := false)]
      ensures var i := ShardOf(k, |shards|); AllOrders() == old(AllOrders())[i := CleanOne(old(OrdersOf(i)), k)]
    {
      hide Mirror, Shard.Valid, Without, SameContents, Shard.Reflagged;
      var i := ShardOf(k, |shards|);
      assert ShardOk(i);
      InShard(shards[i].blocks, resident, |shards|, i, k);
      ghost var was := shards[i].blocks;
      ghost var b := was[k].(dirty := false);
      shards[i].MarkClean(k);
      FlagPut(was, shards[i].blocks, k, false);
      MirrorPut(was, shards[i].blocks, resident, |shards|, i, k, b);
      OthersOk(i);
      OneShard(i);
      Remirror(i, k, resident[k := ImageOf(b)]);
    }

    // ----- eviction -----

    /** Reads block `k` from the device. */
    method LoadFromInner(k: nat) returns (r: Result<seq<byte>, DeviceError>)
      requires inner.Valid() && blockSize == inner.alignment && Start(k, blockSize) < inner.live.Length
      modifies inner`script
      ensures var start := Start(k, blockSize);
              r.Ok? ==> r.value == inner.live[start..start + BlockLen(inner.live.Length, blockSize, k)]
      ensures r.Ok? ==> |r.value| == BlockLen(inner.live.Length, blockSize, k)
      ensures old(Healthy()) ==> r.Ok? && Healthy()
    {
      hide Start, BlockLen, BlockDevice.Healthy, Deliver;
      if Healthy() { BlockTaken(k); }
      var len := BlockLen(inner.live.Length, blockSize, k);
      var buf := new byte[len];
      var step, _ := inner.PreadExactAt(buf, Start(k, blockSize));
      if step.Err? {
        return Err(step.error);
      }
      r := Ok(buf[..]);
    }

    /** What evicting from full shard `i` does: the least recently used clean block goes; without one, the least
        recently used dirty block goes once it is stored, and stays, most recent, if it cannot be. */
    twostate predicate Evicted(i: nat, ok: bool)
      requires i < |shards|
      reads `resident, shards, inner.live
    {
      var sh := shards[i];
      var clean, dirty := old(sh.cleanOrder), old(sh.dirtyOrder);
      if clean != [] then
        && ok && resident == old(resident) - {clean[0]} && inner.live[..] == old(inner.live[..])
        && sh.cleanOrder == clean[1..] && sh.dirtyOrder == dirty
      else
        && dirty != [] && dirty[0] in old(resident) && old(resident)[dirty[0]].dirty && sh.cleanOrder == []
        && var v, b := dirty[0], old(resident)[dirty[0]];
           if ok then
             && Start(v, blockSize) + |b.data| <= |old(inner.live[..])|
             && inner.live[..] == Splice(old(inner.live[..]), Start(v, blockSize), b.data)
             && resident == old(resident) - {v} && sh.dirtyOrder == dirty[1..]
           else
             resident == old(resident) && sh.dirtyOrder == dirty[1..] + [v]
    }

    /** The heads of shard `i`'s lists. */
    lemma Heads(i: nat)
      requires Backed() && i < |shards|
      ensures var sh := shards[i];
              && sh.cleanHead == (if sh.cleanOrder == [] then None else Some(sh.cleanOrder[0]))
              && sh.dirtyHead == (if sh.dirtyOrder == [] then None else Some(sh.dirtyOrder[0]))
              && (sh.cleanOrder != [] ==> HeadOk(sh.cleanOrder, sh.dirtyOrder, i, false))
              && (sh.dirtyOrder != [] ==> HeadOk(sh.dirtyOrder, sh.cleanOrder, i, true))
              && (sh.cleanOrder == [] && sh.dirtyOrder == [] ==> sh.blocks == map[])
    {
      var sh := shards[i];
      assert ShardOk(i);
      if sh.cleanOrder != [] {
        assert LinkAt(sh.blocks, false, sh.cleanOrder, 0);
        Shard.TouchCases(sh.blocks, sh.CleanList(), sh.DirtyList(), sh.cleanOrder[0]);
      }
      if sh.dirtyOrder != [] {
        assert LinkAt(sh.blocks, true, sh.dirtyOrder, 0);
        Shard.TouchCases(sh.blocks, sh.CleanList(), sh.DirtyList(), sh.dirtyOrder[0]);
      }
    }

    ghost predicate HeadOk(order: seq<nat>, others: seq<nat>, i: nat, d: bool)
      requires |shards| > 0 && order != []
      reads `resident
    {
      && ShardOf(order[0], |shards|) == i
      && order[0] in resident && resident[order[0]].dirty == d
      && Without(order, order[0]) == order[1..] && Without(others, order[0]) == others
    }

    /** Makes room for one block in full shard `i`. */
    method EvictOne(i: nat) returns (r: Result<(), DeviceError>)
      requires Valid() && i < |shards| && |shards[i].blocks| >= shards[i].cap
      modifies shards[i], inner.live, inner`script, `resident
      ensures Valid() && Evicted(i, r.Ok?) && EqualOff(old(Contents()), Contents(), torn)
      ensures SameOutside(old(resident), blockSize, old(inner.live[..]), inner.live[..])
      ensures r.Ok? ==> |shards[i].blocks| < shards[i].cap
      ensures old(Healthy()) ==> r.Ok? && Healthy()
    {
      var sh := shards[i];
      assert ShardOk(i) && sh.cap > 0;
      hide Mirror, Shard.Valid, Coherent, Flat, Without;
      Heads(i);
      if sh.cleanHead.Some? {
        DropClean(resident, inner.live[..], blockSize, torn, sh.cleanHead.value);
        Drop(sh.cleanHead.value);
        return Ok(());
      }
      assert sh.dirtyHead.Some?;
      r := EvictLruDirty(i);
    }

    /** Stores and drops the least recently used dirty block; a block that cannot be stored is put back. */
    method EvictLruDirty(i: nat) returns (r: Result<(), DeviceError>)
      requires Valid() && i < |shards| && shards[i].cleanOrder == [] && shards[i].dirtyOrder != []
      modifies shards[i], inner.live, inner`script, `resident
      ensures Valid() && Evicted(i, r.Ok?) && EqualOff(old(Contents()), Contents(), torn)
      ensures SameOutside(old(resident), blockSize, old(inner.live[..]), inner.live[..])
      ensures r.Ok? ==> |shards[i].blocks| < shards[i].cap
      ensures old(Healthy()) ==> r.Ok? && Healthy()
    {
      hide Mirror, Shard.Valid, Coherent, Flat, Without, Splice, Deliver, BlockDevice.Healthy;
      var sh := shards[i];
      assert ShardOk(i);
      Heads(i);
      InShard(sh.blocks, resident, |shards|, i, sh.dirtyHead.value);
      var v := sh.dirtyHead.value;
      var b := sh.blocks[v];
      EvictDirty(resident, inner.live[..], blockSize, torn, v);
      if Healthy() { ResidentTaken(v); }
      ghost var live, res := inner.live[..], resident;
      Drop(v);
      var stored, done := inner.PwriteAllAt(b.data, Start(v, blockSize));
      StoreInside(res, live, blockSize, torn, v, b.data[..done]);
      if stored.Err? {
        WriteBack(res, live, blockSize, torn, v, done);
        Put(v, b.arc, b.data, true);
        assert resident == res;
        return Err(stored.error);
      }
      assert b.data[..done] == b.data;
      r := Ok(());
    }

    /** Evicts until shard `i` has room; on an error nothing is lost. */
    method EvictIfFull(i: nat) returns (r: Result<(), DeviceError>)
      requires Valid() && i < |shards|
      modifies shards[i], inner.live, inner`script, `resident
      ensures Valid() && EqualOff(old(Contents()), Contents(), torn)
      ensures SameOutside(old(resident), blockSize, old(inner.live[..]), inner.live[..])
      ensures r.Ok? ==> |shards[i].blocks| < shards[i].cap
      ensures resident.Keys <= old(resident).Keys
      ensures !writeback ==> r.Ok? && inner.live[..] == old(inner.live[..])
      ensures if old(|shards[i].blocks|) < shards[i].cap
              then r.Ok? && resident == old(resident) && inner.live[..] == old(inner.live[..])
              else Evicted(i, r.Ok?)
      ensures var o := old(OrdersOf(i));
              r.Ok? ==> OrdersOf(i) == Roomy(o, shards[i].cap) && resident == Kept(old(resident), o, shards[i].cap)
      ensures r.Err? ==> resident == old(resident)
      ensures old(Healthy()) ==> r.Ok? && Healthy()
    {
      OrdersHold(i);
      hide Mirror, Shard.Valid, Coherent, Flat, Without;
      while |shards[i].blocks| >= shards[i].cap
        invariant Valid() && EqualOff(old(Contents()), Contents(), torn)
        invariant SameOutside(old(resident), blockSize, old(inner.live[..]), inner.live[..])
        invariant resident.Keys <= old(resident).Keys
        invariant !writeback ==> inner.live[..] == old(inner.live[..])
        invariant |shards[i].blocks| >= shards[i].cap ==> unchanged(this) && unchanged(inner.live) && unchanged(shards[i])
        invariant |shards[i].blocks| < shards[i].cap ==>
          if old(|shards[i].blocks|) < shards[i].cap
          then resident == old(resident) && inner.live[..] == old(inner.live[..]) && OrdersOf(i) == old(OrdersOf(i))
          else Evicted(i, true)
        invariant old(Healthy()) ==> Healthy()
        decreases |shards[i].blocks|
      {
        r := EvictOne(i);
        if r.Err? {
          return;
        }
      }
      r := Ok(());
    }

    // ----- reads -----

    /** `buf` with `piece` stored at `at`. */
    static method CopyInto(buf: array<byte>, at: nat, piece: seq<byte>)
      requires at + |piece| <= buf.Length
      modifies buf
      ensures buf[..] == Splice(old(buf[..]), at, piece)
    {
      forall i | 0 <= i < |piece| { buf[at + i] := piece[i]; }
      assert buf[..] == Splice(old(buf[..]), at, piece);
    }

    /** Makes block `k` resident and most recently used, and returns its bytes. */
    method ReadBlock(k: nat) returns (r: Result<seq<byte>, DeviceError>)
      requires Valid() && Start(k, blockSize) < inner.live.Length
      modifies shards[ShardOf(k, |shards|)], inner.live, inner`script, `resident, `nextArc
      ensures Valid() && EqualOff(old(Contents()), Contents(), torn)
      ensures r.Ok? ==> |r.value| == BlockLen(inner.live.Length, blockSize, k)
      ensures r.Ok? ==> Matches(r.value, old(Contents()), Start(k, blockSize), torn)
      ensures var i := ShardOf(k, |shards|);
              r.Ok? ==> k in resident &&
                        AllOrders() == old(AllOrders())[i := ReadOne(old(OrdersOf(i)), shards[i].cap, k)]
      ensures var i := ShardOf(k, |shards|);
              if k in old(resident) then r.Ok? && resident == old(resident)
              else if r.Ok? then
                resident == Kept(old(resident), old(OrdersOf(i)), shards[i].cap)[k := Image(old(nextArc), r.value, false)]
              else resident == old(resident)
      ensures old(Healthy()) ==> r.Ok? && Healthy()
    {
      hide Mirror, Shard.Valid, Coherent, Flat, Without, Shard.Used, BlockLen, Matches, EqualOff;
      var i := ShardOf(k, |shards|);
      assert ShardOk(i);
      InShard(shards[i].blocks, resident, |shards|, i, k);
      if k in shards[i].blocks {
        r := Ok(shards[i].blocks[k].data);
        OrdersHold(i);
        ResidentBytes(resident, inner.live[..], blockSize, torn, k);
        EqualOffSame(Contents(), torn);
        MatchesEqual(r.value, Contents(), Contents(), Start(k, blockSize), torn);
        Use(k);
        OneShard(i);
        return;
      }
      r := MissBlock(k);
      OneShard(i);
    }

    /** Loads absent block `k`, makes room for it and inserts it clean. */
    method MissBlock(k: nat) returns (r: Result<seq<byte>, DeviceError>)
      requires Valid() && Start(k, blockSize) < inner.live.Length && k !in resident
      modifies shards[ShardOf(k, |shards|)], inner.live, inner`script, `resident, `nextArc
      ensures Valid() && EqualOff(old(Contents()), Contents(), torn)
      ensures r.Ok? ==> |r.value| == BlockLen(inner.live.Length, blockSize, k)
      ensures r.Ok? ==> Matches(r.value, old(Contents()), Start(k, blockSize), torn)
      ensures var i := ShardOf(k, |shards|);
              r.Ok? ==> OrdersOf(i) == ReadOne(old(OrdersOf(i)), shards[i].cap, k)
      ensures var i := ShardOf(k, |shards|);
              resident == if r.Err? then old(resident)
                          else Kept(old(resident), old(OrdersOf(i)), shards[i].cap)[k := Image(old(nextArc), r.value, false)]
      ensures old(Healthy()) ==> r.Ok? && Healthy()
    {
      hide Mirror, Shard.Valid, Coherent, Flat, CacheState.Evicted, SameOutside, BlockLen, Matches, EqualOff;
      hide Roomy, Kept, ReadOne, CacheState.Healthy;
      AbsentRead(k);
      DeviceBytes(resident, inner.live[..], blockSize, torn, k);
      EqualOffSame(Contents(), torn);
      var loaded := LoadFromInner(k);
      if loaded.Err? {
        return loaded;
      }
      MatchesEqual(loaded.value, Contents(), Contents(), Start(k, blockSize), torn);
      var room := EvictIfFull(ShardOf(k, |shards|));
      if room.Err? {
        return Err(room.error);
      }
      SameBlock(old(resident), old(inner.live[..]), inner.live[..], blockSize, k);
      PutLoaded(k, loaded.value);
      r := loaded;
    }

    /** Inserts a block just loaded into a shard with room. */
    method PutLoaded(k: nat, data: seq<byte>)
      requires Valid() && Start(k, blockSize) < inner.live.Length && k !in resident
      requires |shards[ShardOf(k, |shards|)].blocks| < shards[ShardOf(k, |shards|)].cap
      requires var start := Start(k, blockSize);
               data == inner.live[start..start + BlockLen(inner.live.Length, blockSize, k)]
      modifies shards[ShardOf(k, |shards|)], `resident, `nextArc
      ensures Valid() && Contents() == old(Contents()) && resident == old(resident)[k := Image(old(nextArc), data, false)]
      ensures var i := ShardOf(k, |shards|);
              OrdersOf(i) == Orders(old(OrdersOf(i)).clean + [k], old(OrdersOf(i)).dirty)
    {
      hide Mirror, Shard.Valid, Coherent, Flat, BlockLen;
      LoadClean(resident, inner.live[..], blockSize, torn, k, Image(nextArc, data, false));
      Put(k, nextArc, data, false);
      nextArc := nextArc + 1;
    }

    /** Reads the part of a request that lies in block `k`, where `c` is what the request should see. */
    method ReadInto(buf: array<byte>, k: nat, offset: nat, ghost c: seq<byte>) returns (r: Result<(), DeviceError>)
      requires Valid() && buf.Length > 0 && offset + buf.Length <= inner.live.Length && buf != inner.live
      requires Index(offset, blockSize) <= k <= LastBlock(offset, buf.Length, blockSize)
      requires EqualOff(c, Contents(), torn) && Before(k, blockSize, offset, buf.Length) <= buf.Length
      requires Matches(buf[..Before(k, blockSize, offset, buf.Length)], c, offset, torn)
      modifies buf, shards[ShardOf(k, |shards|)], inner.live, inner`script, `resident, `nextArc
      ensures Valid() && EqualOff(c, Contents(), torn) && Before(k + 1, blockSize, offset, buf.Length) <= buf.Length
      ensures r.Ok? ==> Matches(buf[..Before(k + 1, blockSize, offset, buf.Length)], c, offset, torn)
      ensures var i := ShardOf(k, |shards|);
              r.Ok? ==> AllOrders() == old(AllOrders())[i := ReadOne(old(OrdersOf(i)), shards[i].cap, k)]
      ensures old(Healthy()) ==> r.Ok? && Healthy()
    {
      hide Backed, Coherent, Flat, Matches, EqualOff, BlockSpan, Index, Start, BlockLen, Splice, LastBlock;
      hide ReadOne, CacheState.Healthy, Kept;
      var len := buf.Length;
      var (inBlock, inBuf, n) := BlockSpan(k, blockSize, offset, len);
      SpanInside(k, blockSize, offset, len, inner.live.Length);
      ghost var before := Contents();
      var b := ReadBlock(k);
      EqualOffTrans(c, before, Contents(), torn);
      if b.Err? {
        return Err(b.error);
      }
      var piece := b.value[inBlock..inBlock + n];
      MatchesPart(b.value, before, Start(k, blockSize), torn, inBlock, n);
      MatchesEqual(piece, before, c, offset + inBuf, torn);
      MatchesExtend(buf[..], c, offset, torn, inBuf, piece);
      assert buf[..][..inBuf] == buf[..inBuf];
      CopyInto(buf, inBuf, piece);
      assert buf[..][..inBuf + n] == buf[..inBuf + n];
      r := Ok(());
    }

    /** Reads through the cache. */
    method Pread(buf: array<byte>, offset: nat) returns (r: Result<nat, DeviceError>)
      requires Valid() && offset + buf.Length <= inner.live.Length && buf != inner.live
      modifies buf, shards, inner.live, inner`script, `resident, `nextArc
      ensures Valid() && EqualOff(old(Contents()), Contents(), torn)
      ensures r.Ok? ==> r.value == buf.Length && Matches(buf[..], old(Contents()), offset, torn)
      ensures buf.Length == 0 ==> AllOrders() == old(AllOrders()) && resident == old(resident)
      ensures r.Ok? && buf.Length > 0 ==>
                var first, end := Index(offset, blockSize), LastBlock(offset, buf.Length, blockSize) + 1;
                Accessed(old(AllOrders()), AllOrders(), Caps(), Read, first, end) && MostRecent(AllOrders(), first, end)
      ensures old(Healthy()) ==> r.Ok? && Healthy()
    {
      hide Backed, Coherent, Flat, Matches, EqualOff, BlockSpan, Index, Start, BlockLen, Splice, LastBlock;
      hide Accessed, ReadOne, CacheState.Healthy, CacheState.AllOrders, CacheState.Caps, Many, Before, MostRecent;
      StartAccess(Read, Index(offset, blockSize));
      var len, k := buf.Length, 0;
      if len == 0 {
        EqualOffSame(Contents(), torn);
        MatchesNothing(buf[..], Contents(), offset, torn);
        return Ok(0);
      }
      var last := LastBlock(offset, len, blockSize);
      k := Index(offset, blockSize);
      SpansCover(blockSize, offset, len);
      EqualOffSame(Contents(), torn);
      MatchesNothing(buf[..0], Contents(), offset, torn);
      while k <= last
        invariant Index(offset, blockSize) <= k <= last + 1 && Before(k, blockSize, offset, len) <= len
        invariant Valid() && EqualOff(old(Contents()), Contents(), torn)
        invariant Matches(buf[..Before(k, blockSize, offset, len)], old(Contents()), offset, torn)
        invariant Accessed(old(AllOrders()), AllOrders(), Caps(), Read, Index(offset, blockSize), k)
        invariant old(Healthy()) ==> Healthy()
      {
        NextAccess(old(AllOrders()), Read, Index(offset, blockSize), k);
        var step := ReadInto(buf, k, offset, old(Contents()));
        if step.Err? {
          return Err(step.error);
        }
        k := k + 1;
      }
      assert buf[..len] == buf[..];
      AccessedMostRecent(old(AllOrders()), AllOrders(), Caps(), Read, Index(offset, blockSize), k);
      r := Ok(len);
    }

    /** The bytes of block `k` without caching them. */
    method PeekBlock(k: nat) returns (r: Result<seq<byte>, DeviceError>)
      requires Valid() && Start(k, blockSize) < inner.live.Length
      modifies inner`script
      ensures r.Ok? ==> |r.value| == BlockLen(inner.live.Length, blockSize, k)
      ensures r.Ok? ==> Matches(r.value, Contents(), Start(k, blockSize), {})
      ensures old(Healthy()) ==> r.Ok? && Healthy()
    {
      hide Mirror, Shard.Valid, Coherent, Flat, Matches, Start, BlockLen, CacheState.Healthy;
      var i := ShardOf(k, |shards|);
      assert ShardOk(i);
      InShard(shards[i].blocks, resident, |shards|, i, k);
      if k in shards[i].blocks {
        ResidentBytes(resident, inner.live[..], blockSize, torn, k);
        return Ok(shards[i].blocks[k].data);
      }
      DeviceBytes(resident, inner.live[..], blockSize, torn, k);
      r := ReadNocache(k);
    }

    /** The next transfer of a healthy device moves some more whole blocks. */
    lemma NextStep(start: nat, len: nat, done: nat)
      requires inner.Valid() && inner.Healthy() && inner.Takes(start, len)
      requires done < len && Whole(done, inner.alignment)
      ensures inner.Takes(start + done, len - done) && Reliable(Rest(inner.script), inner.alignment)
      ensures var n := Moves(Head(inner.script), len - done);
              !Head(inner.script).Fails? && n > 0 && Whole(done + n, inner.alignment)
    {
      hide Reliable;
      WholeSum(done, len, inner.alignment);
      WholeSum(start, done, inner.alignment);
      ReliableStep(inner.script, len - done, inner.alignment);
      WholeSum(done, Moves(Head(inner.script), len - done), inner.alignment);
    }

    /** Reads block `k` from the device in as many transfers as it takes. */
    method ReadNocache(k: nat) returns (r: Result<seq<byte>, DeviceError>)
      requires inner.Valid() && blockSize == inner.alignment && Start(k, blockSize) < inner.live.Length
      modifies inner`script
      ensures var start := Start(k, blockSize);
              r.Ok? ==> r.value == inner.live[start..start + BlockLen(inner.live.Length, blockSize, k)]
      ensures r.Ok? ==> |r.value| == BlockLen(inner.live.Length, blockSize, k)
      ensures old(Healthy()) ==> r.Ok? && Healthy()
    {
      hide Start, BlockLen, BlockDevice.Aligned, Splice, Piece, Reliable, Whole, Moves, Head, Rest;
      if Healthy() { BlockTaken(k); }
      var start, len := Start(k, blockSize), BlockLen(inner.live.Length, blockSize, k);
      var block := new byte[len];
      var done := 0;
      ghost var was := block[..];
      NoPiece(was, inner.live[..], start);
      assert Whole(0, inner.alignment) by { ZeroWhole(inner.alignment); }
      while done < len
        invariant 0 <= done <= len
        invariant block[..] == Splice(was, 0, Piece(inner.live[..], start, done))
        invariant old(Healthy()) ==> Healthy() && Whole(done, inner.alignment)
        decreases len - done
      {
        if old(Healthy()) { NextStep(start, len, done); }
        var got := inner.Pread(block, done, start + done);
        if got.Err? {
          return Err(got.error);
        }
        if got.value == 0 {
          return Err(ShortRead(len, done, start));
        }
        NextPiece(was, done, inner.live[..], start, got.value);
        done := done + got.value;
      }
      WholePiece(was, inner.live[..], start);
      PieceIs(inner.live[..], start, len);
      r := Ok(block[..]);
    }

    /** Reads without changing what is resident or how recently it was used. */
    method PreadNocache(buf: array<byte>, offset: nat) returns (r: Result<nat, DeviceError>)
      requires Valid() && offset + buf.Length <= inner.live.Length && buf != inner.live
      modifies buf, inner`script
      ensures Valid() && Contents() == old(Contents())
      ensures r.Ok? ==> r.value == buf.Length && Matches(buf[..], Contents(), offset, {})
      ensures old(Healthy()) ==> r.Ok? && Healthy()
    {
      hide CacheState.Healthy, Backed, Coherent, Flat, Matches, EqualOff, BlockSpan, Index, Start, BlockLen, Splice, LastBlock;
      var len, k := buf.Length, 0;
      if len == 0 {
        MatchesNothing(buf[..], Contents(), offset, {});
        return Ok(0);
      }
      var last := LastBlock(offset, len, blockSize);
      k := Index(offset, blockSize);
      SpansCover(blockSize, offset, len);
      MatchesNothing(buf[..0], Contents(), offset, {});
      while k <= last
        invariant Index(offset, blockSize) <= k <= last + 1 && Before(k, blockSize, offset, len) <= len
        invariant Valid() && Contents() == old(Contents())
        invariant Matches(buf[..Before(k, blockSize, offset, len)], Contents(), offset, {})
        invariant old(Healthy()) ==> Healthy()
      {
        var (inBlock, inBuf, n) := BlockSpan(k, blockSize, offset, len);
        SpanInside(k, blockSize, offset, len, inner.live.Length);
        var b := PeekBlock(k);
        if b.Err? {
          return Err(b.error);
        }
        var piece := b.value[inBlock..inBlock + n];
        MatchesPart(b.value, Contents(), Start(k, blockSize), {}, inBlock, n);
        MatchesExtend(buf[..], Contents(), offset, {}, inBuf, piece);
        assert buf[..][..inBuf] == buf[..inBuf];
        CopyInto(buf, inBuf, piece);
        assert buf[..][..inBuf + n] == buf[..inBuf + n];
        k := k + 1;
      }
      assert buf[..len] == buf[..];
      r := Ok(len);
    }

    // ----- writes -----

    /** In write-through mode the device already has the piece, which is a whole block. */
    ghost predicate Through(k: nat, at: nat, piece: seq<byte>)
      requires Start(k, blockSize) < inner.live.Length && at + |piece| <= BlockLen(inner.live.Length, blockSize, k)
      reads inner.live
    {
      !writeback ==>
        && |piece| == BlockLen(inner.live.Length, blockSize, k)
        && inner.live[Start(k, blockSize) + at..Start(k, blockSize) + at + |piece|] == piece
    }

    /** Stores `piece` at position `at` of block `k`. */
    method WriteBlock(k: nat, at: nat, piece: seq<byte>) returns (r: Result<(), DeviceError>)
      requires Valid() && Start(k, blockSize) < inner.live.Length
      requires at + |piece| <= BlockLen(inner.live.Length, blockSize, k) && Through(k, at, piece)
      modifies shards[ShardOf(k, |shards|)], inner.live, inner`script, `resident, `nextArc, `torn
      ensures Valid() && (!writeback ==> r.Ok? && inner.live[..] == old(inner.live[..]))
      ensures r.Err? ==> torn == old(torn) && EqualOff(old(Contents()), Contents(), torn)
      ensures r.Ok? ==> torn == old(torn) - Range(Start(k, blockSize) + at, |piece|)
      ensures r.Ok? ==> EqualOff(Splice(old(Contents()), Start(k, blockSize) + at, piece), Contents(), torn)
      ensures var i := ShardOf(k, |shards|);
              r.Ok? ==> AllOrders() == old(AllOrders())[i := WriteOne(old(OrdersOf(i)), shards[i].cap, writeback, k)]
      ensures r.Ok? ==> k in resident && resident[k].dirty == writeback
      ensures old(Healthy()) ==> r.Ok? && Healthy()
    {
      hide Mirror, Shard.Valid, Coherent, Flat, BlockLen, EqualOff, Splice, Range, CacheState.Through;
      hide WriteOne, CacheState.Healthy;
      var i := ShardOf(k, |shards|);
      assert ShardOk(i);
      InShard(shards[i].blocks, resident, |shards|, i, k);
      if k in shards[i].blocks {
        EqualOffSame(Splice(Contents(), Start(k, blockSize) + at, piece), torn - Range(Start(k, blockSize) + at, |piece|));
        HitBlock(k, at, piece);
        OneShard(i);
        return Ok(());
      }
      r := FreshBlock(k, at, piece);
    }

    /** A write to an absent block: untouched bytes come from the device. */
    method FreshBlock(k: nat, at: nat, piece: seq<byte>) returns (r: Result<(), DeviceError>)
      requires Valid() && Start(k, blockSize) < inner.live.Length && k !in resident
      requires at + |piece| <= BlockLen(inner.live.Length, blockSize, k) && Through(k, at, piece)
      modifies shards[ShardOf(k, |shards|)], inner.live, inner`script, `resident, `nextArc, `torn
      ensures Valid() && (!writeback ==> r.Ok? && inner.live[..] == old(inner.live[..]))
      ensures r.Err? ==> torn == old(torn) && EqualOff(old(Contents()), Contents(), torn)
      ensures r.Ok? ==> torn == old(torn) - Range(Start(k, blockSize) + at, |piece|)
      ensures r.Ok? ==> EqualOff(Splice(old(Contents()), Start(k, blockSize) + at, piece), Contents(), torn)
      ensures var i := ShardOf(k, |shards|);
              r.Ok? ==> AllOrders() == old(AllOrders())[i := WriteOne(old(OrdersOf(i)), shards[i].cap, writeback, k)]
      ensures r.Ok? ==> k in resident && resident[k].dirty == writeback
      ensures old(Healthy()) ==> r.Ok? && Healthy()
    {
      hide Mirror, Shard.Valid, Coherent, Flat, BlockLen, EqualOff, Splice, Range, CacheState.Evicted, SameOutside;
      hide Kept, Roomy, WriteOne, CacheState.Healthy, CacheState.AllOrders, Victim, AtCap;
      AbsentWrite(k);
      var start, len := Start(k, blockSize), BlockLen(inner.live.Length, blockSize, k);
      var whole := at == 0 && |piece| == len;
      var base := seq(len, _ => 0);
      EqualOffSame(Contents(), torn);
      if writeback && !whole {
        var loaded := LoadFromInner(k);
        if loaded.Err? {
          return Err(loaded.error);
        }
        base := loaded.value;
      }
      r := EvictIfFull(ShardOf(k, |shards|));
      if r.Err? {
        return;
      }
      SameBlock(old(resident), old(inner.live[..]), inner.live[..], blockSize, k);
      if whole { SpliceWhole(base, inner.live[start..start + len], piece); }
      EqualOffSplice(old(Contents()), Contents(), torn, start + at, piece);
      PutWritten(k, at, piece, Splice(base, at, piece));
      OneShard(ShardOf(k, |shards|));
    }

    /** Inserts a written block into a shard with room. */
    method PutWritten(k: nat, at: nat, piece: seq<byte>, data: seq<byte>)
      requires Valid() && Start(k, blockSize) < inner.live.Length && k !in resident
      requires |shards[ShardOf(k, |shards|)].blocks| < shards[ShardOf(k, |shards|)].cap
      requires at + |piece| <= BlockLen(inner.live.Length, blockSize, k) && Through(k, at, piece)
      requires var start, len := Start(k, blockSize), BlockLen(inner.live.Length, blockSize, k);
               data == Splice(inner.live[start..start + len], at, piece)
      modifies shards[ShardOf(k, |shards|)], `resident, `nextArc, `torn
      ensures Valid() && torn == old(torn) - Range(Start(k, blockSize) + at, |piece|)
      ensures Contents() == Splice(old(Contents()), Start(k, blockSize) + at, piece)
      ensures resident == old(resident)[k := Image(old(nextArc), data, writeback)]
      ensures var i := ShardOf(k, |shards|); var o := old(OrdersOf(i));
              OrdersOf(i) == if writeback then Orders(o.clean, o.dirty + [k]) else Orders(o.clean + [k], o.dirty)
    {
      hide Mirror, Shard.Valid, Coherent, Flat, BlockLen, Splice, Range;
      assert writeback ==> torn - Range(Start(k, blockSize) + at, |piece|) == torn;
      WriteFresh(resident, inner.live[..], blockSize, torn, k, at, piece, Image(nextArc, data, writeback));
      Put(k, nextArc, data, writeback);
      nextArc := nextArc + 1;
      torn := torn - Range(Start(k, blockSize) + at, |piece|);
    }

    /** A write to a resident block. */
    method HitBlock(k: nat, at: nat, piece: seq<byte>)
      requires Valid() && k in resident && Start(k, blockSize) < inner.live.Length
      requires at + |piece| <= BlockLen(inner.live.Length, blockSize, k) && Through(k, at, piece)
      modifies shards[ShardOf(k, |shards|)], `resident, `torn
      ensures Valid() && torn == old(torn) - Range(Start(k, blockSize) + at, |piece|)
      ensures Contents() == Splice(old(Contents()), Start(k, blockSize) + at, piece)
      ensures resident.Keys == old(resident).Keys && resident[k].dirty == writeback
      ensures var i := ShardOf(k, |shards|);
              OrdersOf(i) == WriteOne(old(OrdersOf(i)), shards[i].cap, writeback, k)
    {
      hide Mirror, Shard.Valid, Coherent, Flat, BlockLen, Matches, Splice, Range;
      var i := ShardOf(k, |shards|);
      assert ShardOk(i);
      InShard(shards[i].blocks, resident, |shards|, i, k);
      ResidentBytes(resident, inner.live[..], blockSize, torn, k);
      var data := Splice(shards[i].blocks[k].data, at, piece);
      ghost var img := Image(resident[k].arc, data, resident[k].dirty || writeback);
      assert writeback ==> torn - Range(Start(k, blockSize) + at, |piece|) == torn;
      WriteResident(resident, inner.live[..], blockSize, torn, k, at, piece, img);
      Rewrite(k, data);
      torn := torn - Range(Start(k, blockSize) + at, |piece|);
    }

    /** Writes through the cache: `done` leading bytes of `b` were written. A failed write-through may also leave
        addresses of the request torn. */
    method Pwrite(b: seq<byte>, offset: nat) returns (r: Result<nat, DeviceError>, ghost done: nat)
      requires Valid() && (writeback ==> offset + |b| <= inner.live.Length)
      modifies shards, inner.live, inner`script, `resident, `nextArc, `torn
      ensures Valid() && done <= |b| && (r.Ok? ==> r.value == done == |b|)
      ensures done > 0 ==> offset + |b| <= inner.live.Length
      ensures EqualOff(Splice(old(Contents()), offset, b[..done]), Contents(), torn)
      ensures r.Ok? ==> torn == old(torn) - Range(offset, |b|)
      ensures r.Ok? && !writeback ==> inner.live[..] == Splice(old(inner.live[..]), offset, b)
      ensures r.Err? ==> old(torn) <= torn <= old(torn) + Range(offset, |b|)
      ensures b == [] ==> AllOrders() == old(AllOrders()) && resident == old(resident)
      ensures r.Ok? && b != [] ==>
                var first, end := Index(offset, blockSize), LastBlock(offset, |b|, blockSize) + 1;
                && Accessed(old(AllOrders()), AllOrders(), Caps(), Write(writeback), first, end)
                && MostRecent(AllOrders(), first, end)
      ensures old(Healthy()) && (writeback || inner.Takes(offset, |b|)) ==> r.Ok? && Healthy()
    {
      hide Backed, Coherent, Flat, EqualOff, Splice, Accessed, Index, LastBlock, CacheState.Healthy, MostRecent;
      done := 0;
      SpliceNothing(Contents(), offset);
      assert b[..0] == [];
      EqualOffSame(Contents(), torn);
      if b == [] {
        SpliceNothing(inner.live[..], offset);
        return Ok(0), 0;
      }
      if !writeback {
        var stored := StoreThrough(b, offset);
        if stored.Err? {
          return Err(stored.error), 0;
        }
        SplicePart(old(inner.live[..]), offset, b, 0, |b|);
      }
      ghost var c, t := Contents(), torn;
      r, done := WriteBlocks(b, offset);
      if r.Ok? {
        assert b[..done] == b;
        EqualOffSplice(old(Contents()), c, t, offset, b);
        EqualOffTrans(Splice(old(Contents()), offset, b), Splice(c, offset, b), Contents(), torn);
      }
    }

    /** Stores the part of `b` that lies in block `k`. `c` and `t` are the contents and the torn addresses when the
        request began. */
    method WriteFrom(b: seq<byte>, k: nat, offset: nat, ghost c: seq<byte>, ghost t: set<nat>)
      returns (r: Result<(), DeviceError>)
      requires Valid() && b != [] && offset + |b| <= inner.live.Length == |c|
      requires !writeback ==> inner.Aligned(offset, |b|) && inner.live[offset..offset + |b|] == b
      requires Index(offset, blockSize) <= k <= LastBlock(offset, |b|, blockSize)
      requires Before(k, blockSize, offset, |b|) <= |b| && torn == t - Range(offset, Before(k, blockSize, offset, |b|))
      requires EqualOff(Splice(c, offset, b[..Before(k, blockSize, offset, |b|)]), Contents(), torn)
      modifies shards[ShardOf(k, |shards|)], inner.live, inner`script, `resident, `nextArc, `torn
      ensures Valid() && Before(k + 1, blockSize, offset, |b|) <= |b|
      ensures !writeback ==> r.Ok? && inner.live[..] == old(inner.live[..])
      ensures var n := Before(if r.Ok? then k + 1 else k, blockSize, offset, |b|);
              torn == t - Range(offset, n) && EqualOff(Splice(c, offset, b[..n]), Contents(), torn)
      ensures var i := ShardOf(k, |shards|);
              r.Ok? ==> AllOrders() == old(AllOrders())[i := WriteOne(old(OrdersOf(i)), shards[i].cap, writeback, k)]
      ensures old(Healthy()) ==> r.Ok? && Healthy()
    {
      hide Backed, Coherent, Flat, EqualOff, Splice, BlockSpan, Index, Start, BlockLen, LastBlock;
      hide WriteOne, CacheState.Healthy;
      var (inBlock, inBuf, n) := BlockSpan(k, blockSize, offset, |b|);
      SpanInside(k, blockSize, offset, |b|, inner.live.Length);
      var piece := b[inBuf..inBuf + n];
      if !writeback {
        SpanWhole(k, blockSize, offset, |b|, inner.live.Length);
        PartOf(inner.live[..], offset, b, inBuf, n);
      }
      ghost var before, was := Contents(), torn;
      r := WriteBlock(k, inBlock, piece);
      if r.Err? {
        EqualOffTrans(Splice(c, offset, b[..inBuf]), before, Contents(), torn);
        return;
      }
      EqualOffExtend(c, before, Contents(), was, offset, b, inBuf, n);
    }

    /** Stores `b` block by block; in write-through mode the device has it already. */
    method WriteBlocks(b: seq<byte>, offset: nat) returns (r: Result<nat, DeviceError>, ghost done: nat)
      requires Valid() && b != [] && offset + |b| <= inner.live.Length
      requires !writeback ==> inner.Aligned(offset, |b|) && inner.live[offset..offset + |b|] == b
      modifies shards, inner.live, inner`script, `resident, `nextArc, `torn
      ensures Valid() && done <= |b| && (r.Ok? ==> r.value == done == |b|)
      ensures torn == old(torn) - Range(offset, done)
      ensures EqualOff(Splice(old(Contents()), offset, b[..done]), Contents(), torn)
      ensures !writeback ==> r.Ok? && inner.live[..] == old(inner.live[..])
      ensures r.Ok? ==>
                var first, end := Index(offset, blockSize), LastBlock(offset, |b|, blockSize) + 1;
                && Accessed(old(AllOrders()), AllOrders(), Caps(), Write(writeback), first, end)
                && MostRecent(AllOrders(), first, end)
      ensures old(Healthy()) ==> r.Ok? && Healthy()
    {
      hide Backed, Coherent, Flat, EqualOff, Splice, BlockSpan, Index, Start, BlockLen, LastBlock;
      hide Accessed, WriteOne, CacheState.Healthy, CacheState.AllOrders, CacheState.Caps, Many, Before, MostRecent;
      StartAccess(Write(writeback), Index(offset, blockSize));
      var len, last, k := |b|, LastBlock(offset, |b|, blockSize), Index(offset, blockSize);
      SpansCover(blockSize, offset, len);
      SpliceNothing(Contents(), offset);
      assert b[..0] == [];
      EqualOffSame(Contents(), torn);
      while k <= last
        invariant Index(offset, blockSize) <= k <= last + 1 && Before(k, blockSize, offset, len) <= len
        invariant Valid() && torn == old(torn) - Range(offset, Before(k, blockSize, offset, len))
        invariant EqualOff(Splice(old(Contents()), offset, b[..Before(k, blockSize, offset, len)]), Contents(), torn)
        invariant !writeback ==> inner.live[..] == old(inner.live[..])
        invariant Accessed(old(AllOrders()), AllOrders(), Caps(), Write(writeback), Index(offset, blockSize), k)
        invariant old(Healthy()) ==> Healthy()
      {
        NextAccess(old(AllOrders()), Write(writeback), Index(offset, blockSize), k);
        var step := WriteFrom(b, k, offset, old(Contents()), old(torn));
        if step.Err? {
          return Err(step.error), Before(k, blockSize, offset, len);
        }
        k := k + 1;
      }
      assert b[..len] == b;
      AccessedMostRecent(old(AllOrders()), AllOrders(), Caps(), Write(writeback), Index(offset, blockSize), k);
      r, done := Ok(len), len;
    }

    /** The device takes the bytes first; the cache does not know them yet. */
    method StoreThrough(b: seq<byte>, offset: nat) returns (r: Result<(), DeviceError>)
      requires Valid() && !writeback && b != []
      modifies inner.live, inner`script, `torn
      ensures Valid() && EqualOff(old(Contents()), Contents(), torn)
      ensures r.Ok? ==> offset + |b| <= inner.live.Length && inner.Aligned(offset, |b|)
      ensures r.Ok? ==> inner.live[..] == Splice(old(inner.live[..]), offset, b) && torn == old(torn) + Range(offset, |b|)
      ensures r.Err? ==> torn == old(torn) || torn == old(torn) + Range(offset, |b|)
      ensures old(Healthy()) && inner.Takes(offset, |b|) ==> r.Ok? && Healthy()
    {
      hide Deliver, Reliable;
      hide Coherent, Flat, EqualOff, Splice, Range;
      ghost var n;
      r, n := inner.PwriteAllAt(b, offset);
      WriteThrough(resident, old(inner.live[..]), blockSize, torn, offset, b, n);
      torn := torn + Range(offset, |b|);
      EqualOffSymmetric(Contents(), old(Contents()), torn);
      assert r.Ok? ==> b[..n] == b;
    }

    // ----- flushing -----

    /** What the device has left of its script once these runs were attempted, whatever became of them. */
    ghost function ScriptAfter(script: seq<Transfer>, parts: seq<seq<Snap>>): seq<Transfer>
      requires inner.Valid()
    {
      if parts == [] then script
      else
        var n := |parts| - 1;
        inner.Request(ScriptAfter(script, parts[..n]), Start(RunStart(parts[n]), blockSize), TotalLen(parts[n])).rest
    }

    /** What the write of each run returns. */
    ghost function Answers(script: seq<Transfer>, parts: seq<seq<Snap>>): (a: seq<Result<(), DeviceError>>)
      requires inner.Valid()
      ensures |a| == |parts|
    {
      if parts == [] then []
      else
        var n := |parts| - 1;
        Answers(script, parts[..n]) +
        [inner.WriteAnswer(ScriptAfter(script, parts[..n]), Start(RunStart(parts[n]), blockSize), TotalLen(parts[n]))]
    }

    /** On a healthy device a run of dirty blocks is whole blocks. */
    lemma RunTaken(run: FlushRun)
      requires Valid() && Described(run) && Numbered(run.blocks, run.start) && Snapped(resident, run.blocks)
      requires inner.live.Length % blockSize == 0
      ensures inner.Takes(Start(run.start, blockSize), TotalLen(run.blocks))
    {
      hide Backed;
      RunOfBlocks(resident, inner.live.Length, blockSize, run.start, run.blocks);
    }

    /** Writes one run and marks its blocks clean; a failed write leaves them dirty. */
    method FlushOneRun(run: FlushRun) returns (r: Result<(), DeviceError>)
      requires Valid() && writeback && Described(run) && Contiguous(run.blocks) && Snapped(resident, run.blocks)
      modifies shards, inner.live, inner`script, `resident
      ensures Valid() && Contents() == old(Contents())
      ensures resident == if r.Ok? then CleanAll(old(resident), run.blocks) else old(resident)
      ensures AfterFlush(old(AllOrders()), AllOrders(), if r.Ok? then Numbers(run.blocks) else [])
      ensures var start, len := Start(run.start, blockSize), TotalLen(run.blocks);
              && r == inner.WriteAnswer(old(inner.script), start, len)
              && inner.script == inner.Request(old(inner.script), start, len).rest
      ensures old(Healthy()) ==> r.Ok? && Healthy()
    {
      hide Backed, Coherent, Flat, Splice, Snapped, Start, TotalLen, Deliver, BlockDevice.Healthy, AfterFlush;
      hide CacheState.AllOrders, BlockDevice.Takes;
      NoFlush();
      var buf := [];
      for i := 0 to |run.blocks|
        invariant buf == Joined(run.blocks[..i])
      {
        buf := buf + run.blocks[i].data;
        assert run.blocks[..i + 1][..i] == run.blocks[..i];
      }
      assert run.blocks[..|run.blocks|] == run.blocks;
      assert Numbered(run.blocks, run.start);
      if Healthy() { RunTaken(run); }
      ghost var live := inner.live[..];
      ghost var done;
      r, done := inner.PwriteAllAt(buf, Start(run.start, blockSize));
      RunPrefix(resident, live, blockSize, torn, run.start, run.blocks, done);
      if r.Ok? {
        RunStored(resident, live, blockSize, torn, run.start, run.blocks);
        assert buf[..done] == buf;
        ClearRun(run.blocks);
      }
    }

    /** Clears the dirty flag of each block that is still in the buffer that was written. */
    method ClearRun(blocks: seq<Snap>)
      requires Backed() && Snapped(resident, blocks)
      modifies shards, `resident
      ensures Backed() && resident == CleanAll(old(resident), blocks)
      ensures AfterFlush(old(AllOrders()), AllOrders(), Numbers(blocks))
    {
      hide Mirror, Shard.Valid, AfterFlush, CleanOne;
      NoFlush();
      assert Numbers(blocks[..0]) == [];
      for i := 0 to |blocks|
        invariant Backed() && resident == CleanAll(old(resident), blocks[..i])
        invariant AfterFlush(old(AllOrders()), AllOrders(), Numbers(blocks[..i]))
      {
        var k := blocks[i].idx;
        CleanAllAt(old(resident), blocks[..i], k);
        assert resident[k].arc == blocks[i].arc;
        assert ShardOk(ShardOf(k, |shards|));
        InShard(shards[ShardOf(k, |shards|)].blocks, resident, |shards|, ShardOf(k, |shards|), k);
        var sh := shards[ShardOf(k, |shards|)];
        NextFlush(old(AllOrders()), Numbers(blocks[..i]), k);
        if k in sh.blocks && sh.blocks[k].arc == blocks[i].arc {
          Clean(k);
        }
        assert Numbers(blocks[..i + 1]) == Numbers(blocks[..i]) + [k];
        assert blocks[..i + 1][..i] == blocks[..i];
      }
      assert blocks[..|blocks|] == blocks;
    }

    /** The dirty blocks of all shards. */
    method DirtySet() returns (all: set<nat>)
      requires Backed()
      ensures forall k :: k in all <==> k in resident && resident[k].dirty
    {
      all := {};
      for i := 0 to |shards|
        invariant forall k :: k in all <==> k in resident && resident[k].dirty && ShardOf(k, |shards|) < i
      {
        assert ShardOk(i);
        DirtyHere(shards[i].blocks, resident, |shards|, i);
        hide ShardOf;
        all := all + shards[i].dirty;
      }
    }

    static lemma DirtyHere(blocks: Blocks, res: Images, n: nat, i: nat)
      requires n > 0 && Mirror(blocks, res, n, i)
      ensures forall k :: k in Shard.DirtyOf(blocks) <==> k in res && res[k].dirty && ShardOf(k, n) == i
    {
    }

    /** The dirty blocks sorted by number, each with the buffer it is in now. */
    method TakeSnapshot() returns (snapshot: seq<Snap>)
      requires Backed()
      ensures IsSnapshot(resident, snapshot)
    {
      var todo := DirtySet();
      ghost var all := todo;
      snapshot := [];
      while todo != {}
        invariant Selected(resident, all, todo, snapshot)
      {
        ghost var least := LeastNat(todo);
        var k :| k in todo && forall j :: j in todo ==> k <= j;
        hide Selected, Mirror, Shard.Valid, ShardOf;
        assert k in all by { SelectedOf(resident, all, todo, snapshot); }
        var i := ShardOf(k, |shards|);
        assert ShardOk(i);
        InShard(shards[i].blocks, resident, |shards|, i, k);
        var b := shards[i].blocks[k];
        SelectNext(resident, all, todo, snapshot, Snap(k, b.arc, b.data));
        snapshot := snapshot + [Snap(k, b.arc, b.data)];
        todo := todo - {k};
      }
    }

    static lemma SelectedOf(res: Images, all: set<nat>, todo: set<nat>, s: seq<Snap>)
      requires Selected(res, all, todo, s)
      ensures todo <= all
    {
    }

    /** Stores every dirty block, coalesced into runs; `stored` says which runs the device took. */
    method FlushAllDirty()
      returns (r: Result<(), DeviceError>, ghost parts: seq<seq<Snap>>, ghost stored: seq<bool>)
      requires Valid()
      modifies shards, inner.live, inner`script, `resident
      ensures Valid() && Contents() == old(Contents()) && Cleaner(old(resident), resident)
      ensures |stored| == |parts| && Flushed(resident, parts, stored) && IsSnapshot(old(resident), Concat(parts))
      ensures r.Ok? <==> AllStored(stored)
      ensures r.Ok? ==> forall k :: k in resident ==> !resident[k].dirty
      ensures Tells(Answers(old(inner.script), parts), r, stored)
      ensures inner.script == ScriptAfter(old(inner.script), parts)
      ensures AfterFlush(old(AllOrders()), AllOrders(), StoredNumbers(parts, stored))
      ensures old(Healthy()) ==> r.Ok? && Healthy()
    {
      hide Backed, Coherent, Flat, Snapped, Concat, IsSnapshot, Flushed, Cleaner, Greedy, Cuts;
      hide CacheState.Answers, CacheState.ScriptAfter, AfterFlush, Tells, CacheState.AllOrders, CacheState.Healthy;
      NoFlush();
      NothingAttempted(inner.script);
      if !writeback {
        NothingDirty(resident);
        return Ok(()), [], [];
      }
      var snapshot := TakeSnapshot();
      var runs := MergeIntoRuns(snapshot);
      parts := Parts(runs);
      Concatenated(snapshot, parts);
      FlushStart(resident, snapshot, parts);
      r, stored := FlushEach(runs, snapshot);
      if r.Ok? { AllFlushed(old(resident), resident, snapshot, parts, stored); }
    }

    /** Writes every run, whatever becomes of the others, and returns the first error. */
    method FlushEach(runs: seq<FlushRun>, ghost snapshot: seq<Snap>)
      returns (r: Result<(), DeviceError>, ghost stored: seq<bool>)
      requires Valid() && writeback && IsSnapshot(resident, snapshot) && Cuts(snapshot, Parts(runs))
      requires Flushed(resident, Parts(runs), []) && forall i :: 0 <= i < |runs| ==> Described(runs[i])
      modifies shards, inner.live, inner`script, `resident
      ensures Valid() && Contents() == old(Contents()) && Cleaner(old(resident), resident)
      ensures |stored| == |runs| && Flushed(resident, Parts(runs), stored)
      ensures r.Ok? <==> AllStored(stored)
      ensures Tells(Answers(old(inner.script), Parts(runs)), r, stored)
      ensures inner.script == ScriptAfter(old(inner.script), Parts(runs))
      ensures AfterFlush(old(AllOrders()), AllOrders(), StoredNumbers(Parts(runs), stored))
      ensures old(Healthy()) ==> r.Ok? && Healthy()
    {
      hide Backed, Coherent, Flat, Snapped, Concat, IsSnapshot, Flushed, Cleaner, Cuts, Described, Writable, Contiguous;
      hide CacheState.Answers, CacheState.ScriptAfter, AfterFlush, Tells, CacheState.AllOrders, CacheState.Healthy;
      hide StoredNumbers, BlockDevice.Request, BlockDevice.WriteAnswer, TotalLen;
      NoFlush();
      NothingAttempted(inner.script);
      ghost var parts := Parts(runs);
      assert parts[..0] == [];
      Concatenated(snapshot, parts);
      InOrder(resident, snapshot);
      CleanerSame(resident);
      stored, r := [], Ok(());
      for n := 0 to |runs|
        invariant Valid() && Contents() == old(Contents()) && Cleaner(old(resident), resident)
        invariant |stored| == n && Flushed(resident, parts, stored)
        invariant r.Ok? <==> AllStored(stored)
        invariant Tells(Answers(old(inner.script), parts[..n]), r, stored)
        invariant inner.script == ScriptAfter(old(inner.script), parts[..n])
        invariant AfterFlush(old(AllOrders()), AllOrders(), StoredNumbers(parts[..n], stored))
        invariant old(Healthy()) ==> r.Ok? && Healthy()
      {
        assert parts[n] == runs[n].blocks;
        NextAttempted(old(inner.script), parts, n, runs[n], r, stored);
        PartWritable(snapshot, parts, n);
        InSequence(parts[n]);
        NextPart(resident, parts, stored);
        ghost var before, orders := resident, AllOrders();
        var step := FlushOneRun(runs[n]);
        FlushedMore(old(AllOrders()), orders, AllOrders(), StoredNumbers(parts[..n], stored),
                    if step.Ok? then Numbers(parts[n]) else []);
        StoredSnoc(parts, n, stored, step.Ok?);
        if step.Ok? {
          FlushPart(before, snapshot, parts, stored);
          CleanerTrans(old(resident), before, resident);
        } else {
          FlushFailed(resident, parts, stored);
        }
        if step.Err? && r.Ok? {
          r := step;
        }
        AllStoredSnoc(stored, step.Ok?);
        stored := stored + [step.Ok?];
      }
      assert parts[..|runs|] == parts;
    }

    /** Makes every write so far durable: afterwards the device holds exactly the cached contents. */
    method Sync() returns (r: Result<(), DeviceError>)
      requires Valid()
      modifies shards, inner.live, inner.shadow, inner`script, `resident
      ensures Valid() && Contents() == old(Contents()) && Cleaner(old(resident), resident)
      ensures r.Ok? ==> EqualOff(Contents(), inner.live[..], torn)
      ensures r.Ok? && inner.shadow != null ==> inner.shadow[..] == inner.live[..]
      ensures r.Ok? && writeback ==> Contents() == inner.live[..]
      ensures r.Ok? ==> forall k :: k in resident ==> !resident[k].dirty
      ensures r.Err? && inner.shadow != null ==> inner.shadow[..] == old(inner.shadow[..])
      ensures old(Healthy()) ==> r.Ok? && Healthy()
    {
      hide Backed, Coherent, Flat, CacheState.Healthy, CacheState.Answers, CacheState.ScriptAfter, AfterFlush, Tells;
      ghost var parts, stored;
      r, parts, stored := FlushAllDirty();
      if r.Err? {
        return;
      }
      AllClean(resident, inner.live[..], blockSize, torn);
      inner.Sync();
    }

    lemma NothingAttempted(script: seq<Transfer>)
      requires inner.Valid()
      ensures ScriptAfter(script, []) == script && Answers(script, []) == [] && Tells([], Ok(()), [])
      ensures StoredNumbers([], []) == []
    {
    }

    /** One more run was attempted. */
    lemma NextAttempted(script: seq<Transfer>, parts: seq<seq<Snap>>, n: nat, run: FlushRun,
                        r: Result<(), DeviceError>, stored: seq<bool>)
      requires inner.Valid() && n < |parts| && Described(run) && run.blocks == parts[n]
      requires Tells(Answers(script, parts[..n]), r, stored)
      ensures var s, start, len := ScriptAfter(script, parts[..n]), Start(run.start, blockSize), TotalLen(run.blocks);
              var a := inner.WriteAnswer(s, start, len);
              && ScriptAfter(script, parts[..n + 1]) == inner.Request(s, start, len).rest
              && Answers(script, parts[..n + 1]) == Answers(script, parts[..n]) + [a]
              && Tells(Answers(script, parts[..n + 1]), if a.Err? && r.Ok? then a else r, stored + [a.Ok?])
    {
      hide Start, TotalLen, BlockDevice.Request, BlockDevice.WriteAnswer, Tells;
      assert parts[..n + 1][..n] == parts[..n];
      var s := ScriptAfter(script, parts[..n]);
      TellsMore(Answers(script, parts[..n]), r, stored,
                inner.WriteAnswer(s, Start(run.start, blockSize), TotalLen(run.blocks)));
    }

    static lemma InShard(blocks: Blocks, res: Images, n: nat, i: nat, k: nat)
      requires n > 0 && Mirror(blocks, res, n, i) && ShardOf(k, n) == i
      ensures k in blocks <==> k in res
      ensures k in blocks ==> res[k] == ImageOf(blocks[k])
    {
    }
  }
}
