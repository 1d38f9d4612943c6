/** One partition of the block cache: a map of blocks threaded by two intrusive recency lists.

    Links are block numbers stored in the blocks themselves. The lists refine two sequences, least recently
    used first: one of clean and one of dirty blocks.
 */
module Shards {
  import opened Prelude

  /** A cached block. `arc` is the identity of the shared buffer that holds `data`. */
  datatype Block = Block(arc: nat, data: seq<byte>, dirty: bool, lruPrev: Option<nat>, lruNext: Option<nat>)

  type Blocks = map<nat, Block>

  // ----- sequences -----

  ghost predicate Distinct(s: seq<nat>) {
    forall i, j :: 0 <= i < j < |s| ==> s[i] != s[j]
  }

  /** `s` without its (only) occurrence of `x`. */
  ghost function Without(s: seq<nat>, x: nat): seq<nat> {
    if s == [] then []
    else if s[0] == x then s[1..]
    else [s[0]] + Without(s[1..], x)
  }

  lemma {:induction false} WithoutAt(s: seq<nat>, i: nat)
    requires Distinct(s) && i < |s|
    ensures Without(s, s[i]) == s[..i] + s[i + 1..]
  {
    if i > 0 {
      assert s[1..][i - 1] == s[i];
      WithoutAt(s[1..], i - 1);
      assert s[1..][..i - 1] == s[1..i];
      assert s[1..][i..] == s[i + 1..];
    }
  }

  lemma {:induction false} WithoutAbsent(s: seq<nat>, x: nat)
    requires x !in s
    ensures Without(s, x) == s
  {
    if s != [] { WithoutAbsent(s[1..], x); }
  }

  ghost function SetOf(s: seq<nat>): set<nat> {
    set x | x in s
  }

  lemma {:induction false} CountOf(s: seq<nat>)
    requires Distinct(s)
    ensures |SetOf(s)| == |s|
  {
    if s != [] {
      var n := |s| - 1;
      CountOf(s[..n]);
      assert SetOf(s) == SetOf(s[..n]) + {s[n]} && s[n] !in s[..n];
    }
  }

  // ----- lists threaded through the blocks -----

  /** The blocks of `s`, in order, form a well-linked list of blocks whose dirty flag is `d`. */
  ghost predicate Linked(blocks: Blocks, d: bool, s: seq<nat>, head: Option<nat>, tail: Option<nat>) {
    && Distinct(s)
    && head == (if s == [] then None else Some(s[0]))
    && tail == (if s == [] then None else Some(s[|s| - 1]))
    && forall i :: 0 <= i < |s| ==> LinkAt(blocks, d, s, i)
  }

  ghost predicate LinkAt(blocks: Blocks, d: bool, s: seq<nat>, i: nat)
    requires i < |s|
  {
    && s[i] in blocks && blocks[s[i]].dirty == d
    && blocks[s[i]].lruPrev == (if i == 0 then None else Some(s[i - 1]))
    && blocks[s[i]].lruNext == (if i == |s| - 1 then None else Some(s[i + 1]))
  }

  /** Same blocks with the same contents; only links may differ. */
  ghost predicate SameContents(blocks: Blocks, blocks': Blocks) {
    && blocks.Keys == blocks'.Keys
    && forall k :: k in blocks ==> blocks'[k].arc == blocks[k].arc && blocks'[k].data == blocks[k].data &&
                                   blocks'[k].dirty == blocks[k].dirty
  }

  /** A list stays linked when none of its blocks changes. */
  lemma LinkedFrame(blocks: Blocks, blocks': Blocks, d: bool, s: seq<nat>, head: Option<nat>, tail: Option<nat>)
    requires Linked(blocks, d, s, head, tail)
    requires forall i :: 0 <= i < |s| ==> s[i] in blocks && s[i] in blocks' && blocks'[s[i]] == blocks[s[i]]
    ensures Linked(blocks', d, s, head, tail)
  {
    forall i | 0 <= i < |s| ensures LinkAt(blocks', d, s, i) { assert LinkAt(blocks, d, s, i); }
  }

  function WithNext(blocks: Blocks, at: Option<nat>, next: Option<nat>): Blocks {
    if at.Some? && at.value in blocks then blocks[at.value := blocks[at.value].(lruNext := next)] else blocks
  }

  function WithPrev(blocks: Blocks, at: Option<nat>, prev: Option<nat>): Blocks {
    if at.Some? && at.value in blocks then blocks[at.value := blocks[at.value].(lruPrev := prev)] else blocks
  }

  /** The blocks after `idx` was taken off its list. */
  function Detached(blocks: Blocks, idx: nat): Blocks
    requires idx in blocks
  {
    var b := blocks[idx];
    var cut := blocks[idx := b.(lruPrev := None, lruNext := None)];
    WithPrev(WithNext(cut, b.lruPrev, b.lruNext), b.lruNext, b.lruPrev)
  }

  lemma DetachLinked(blocks: Blocks, d: bool, s: seq<nat>, head: Option<nat>, tail: Option<nat>, i: nat)
    requires Linked(blocks, d, s, head, tail) && i < |s|
    ensures s[i] in blocks
    ensures var b := blocks[s[i]];
            Linked(Detached(blocks, s[i]), d, s[..i] + s[i + 1..],
                   if b.lruPrev.None? then b.lruNext else head, if b.lruNext.None? then b.lruPrev else tail)
  {
    assert LinkAt(blocks, d, s, i);
    var w, blocks' := s[..i] + s[i + 1..], Detached(blocks, s[i]);
    hide Detached;
    forall k | 0 <= k < |w| ensures LinkAt(blocks', d, w, k) {
      DetachLinkAt(blocks, d, s, i, k);
    }
  }

  /** Taking a block off its list changes only links, and only on that list. */
  lemma DetachElsewhere(blocks: Blocks, d: bool, s: seq<nat>, head: Option<nat>, tail: Option<nat>, i: nat)
    requires Linked(blocks, d, s, head, tail) && i < |s|
    ensures s[i] in blocks && SameContents(blocks, Detached(blocks, s[i]))
    ensures forall k :: k in blocks && k !in s ==> Detached(blocks, s[i])[k] == blocks[k]
    ensures Detached(blocks, s[i])[s[i]] == blocks[s[i]].(lruPrev := None, lruNext := None)
  {
    assert LinkAt(blocks, d, s, i);
    assert i > 0 ==> s[i - 1] in s;
    assert i + 1 < |s| ==> s[i + 1] in s;
  }

  lemma DetachLinkAt(blocks: Blocks, d: bool, s: seq<nat>, i: nat, k: nat)
    requires Distinct(s) && i < |s| && k < |s| - 1
    requires forall j :: 0 <= j < |s| ==> LinkAt(blocks, d, s, j)
    ensures s[i] in blocks && LinkAt(Detached(blocks, s[i]), d, s[..i] + s[i + 1..], k)
  {
    var w := s[..i] + s[i + 1..];
    assert LinkAt(blocks, d, s, i);
    var j := if k < i then k else k + 1;
    assert w[k] == s[j];
    assert LinkAt(blocks, d, s, j);
    assert k > 0 ==> w[k - 1] == s[if k - 1 < i then k - 1 else k];
    assert k + 1 < |w| ==> w[k + 1] == s[if k + 1 < i then k + 1 else k + 2];
  }

  /** The blocks after `idx` was appended behind `tail`. */
  function Attached(blocks: Blocks, idx: nat, tail: Option<nat>): Blocks
    requires idx in blocks
  {
    WithNext(blocks[idx := blocks[idx].(lruPrev := tail, lruNext := None)], tail, Some(idx))
  }

  lemma AttachLinked(blocks: Blocks, d: bool, s: seq<nat>, head: Option<nat>, tail: Option<nat>, idx: nat)
    requires Linked(blocks, d, s, head, tail)
    requires idx in blocks && idx !in s && blocks[idx].dirty == d
    ensures Linked(Attached(blocks, idx, tail), d, s + [idx], if tail.None? then Some(idx) else head, Some(idx))
    ensures SameContents(blocks, Attached(blocks, idx, tail))
  {
    var w, blocks' := s + [idx], Attached(blocks, idx, tail);
    if s != [] { assert LinkAt(blocks, d, s, |s| - 1); }
    forall k | 0 <= k < |w| ensures LinkAt(blocks', d, w, k) {
      if k < |s| { assert LinkAt(blocks, d, s, k); }
    }
  }

  // ----- the two lists of a shard -----

  /** `mine` lists the blocks whose dirty flag is `d` and `others` the rest; only `loose` blocks are on neither. */
  ghost predicate TwoLists(blocks: Blocks, d: bool, mine: List, others: List, loose: set<nat>) {
    && Linked(blocks, d, mine.order, mine.head, mine.tail)
    && Linked(blocks, !d, others.order, others.head, others.tail)
    && (forall k :: k in blocks ==> k in mine.order || k in others.order || k in loose)
    && (forall k :: k in loose ==> k !in mine.order && k !in others.order)
  }

  datatype List = List(order: seq<nat>, head: Option<nat>, tail: Option<nat>)

  lemma OnItsList(blocks: Blocks, d: bool, mine: List, others: List, loose: set<nat>, idx: nat) returns (i: nat)
    requires TwoLists(blocks, d, mine, others, loose)
    requires idx in blocks && idx !in loose && blocks[idx].dirty == d
    ensures i < |mine.order| && mine.order[i] == idx
    ensures idx !in others.order
  {
    forall j | 0 <= j < |others.order| ensures others.order[j] != idx {
      assert LinkAt(blocks, !d, others.order, j);
    }
    i :| 0 <= i < |mine.order| && mine.order[i] == idx;
  }

  lemma DistinctLists(blocks: Blocks, d: bool, mine: List, others: List, loose: set<nat>, k: nat)
    requires TwoLists(blocks, d, mine, others, loose) && k in mine.order
    ensures k !in others.order && k in blocks && blocks[k].dirty == d
  {
    var i :| 0 <= i < |mine.order| && mine.order[i] == k;
    assert LinkAt(blocks, d, mine.order, i);
    forall j | 0 <= j < |others.order| ensures others.order[j] != k {
      assert LinkAt(blocks, !d, others.order, j);
    }
  }

  /** Where a list's ends are once block `b` is off it. */
  function EndsWithout(l: List, b: Block): (Option<nat>, Option<nat>) {
    (if b.lruPrev.None? then b.lruNext else l.head, if b.lruNext.None? then b.lruPrev else l.tail)
  }

  lemma DetachTwo(blocks: Blocks, d: bool, mine: List, others: List, idx: nat)
    requires TwoLists(blocks, d, mine, others, {}) && idx in blocks && blocks[idx].dirty == d
    ensures var (head, tail) := EndsWithout(mine, blocks[idx]);
            TwoLists(Detached(blocks, idx), d, List(Without(mine.order, idx), head, tail), others, {idx})
    ensures SameContents(blocks, Detached(blocks, idx))
    ensures Without(others.order, idx) == others.order
  {
    var i := OnItsList(blocks, d, mine, others, {}, idx);
    var s := mine.order;
    WithoutAt(s, i);
    WithoutAbsent(others.order, idx);
    DetachLinked(blocks, d, s, mine.head, mine.tail, i);
    DetachElsewhere(blocks, d, s, mine.head, mine.tail, i);
    var w := s[..i] + s[i + 1..];
    forall k ensures k in w <==> k in s && k != idx {
      if k in s && k != idx {
        var j :| 0 <= j < |s| && s[j] == k;
        assert w[if j < i then j else j - 1] == k;
      }
    }
    hide Detached, Without;
    forall j | 0 <= j < |others.order|
      ensures others.order[j] in blocks && Detached(blocks, idx)[others.order[j]] == blocks[others.order[j]]
    {
      DistinctLists(blocks, !d, others, mine, {}, others.order[j]);
    }
    LinkedFrame(blocks, Detached(blocks, idx), !d, others.order, others.head, others.tail);
  }

  lemma AttachTwo(blocks: Blocks, d: bool, mine: List, others: List, idx: nat)
    requires TwoLists(blocks, d, mine, others, {idx}) && idx in blocks && blocks[idx].dirty == d
    ensures TwoLists(Attached(blocks, idx, mine.tail), d,
                     List(mine.order + [idx], if mine.tail.None? then Some(idx) else mine.head, Some(idx)), others, {})
    ensures SameContents(blocks, Attached(blocks, idx, mine.tail))
  {
    var s := mine.order;
    AttachLinked(blocks, d, s, mine.head, mine.tail, idx);
    forall j | 0 <= j < |others.order|
      ensures others.order[j] in blocks
      ensures Attached(blocks, idx, mine.tail)[others.order[j]] == blocks[others.order[j]]
    {
      DistinctLists(blocks, !d, others, mine, {idx}, others.order[j]);
      assert s != [] ==> s[|s| - 1] in s;
      assert others.order[j] in others.order;
    }
    LinkedFrame(blocks, Attached(blocks, idx, mine.tail), !d, others.order, others.head, others.tail);
  }

  lemma Flip(blocks: Blocks, d: bool, mine: List, others: List, loose: set<nat>)
    ensures TwoLists(blocks, d, mine, others, loose) <==> TwoLists(blocks, !d, others, mine, loose)
  {
    hide Linked;
  }

  /** Lists do not look at block contents. */
  lemma ContentsFree(blocks: Blocks, d: bool, mine: List, others: List, loose: set<nat>, idx: nat, b: Block)
    requires TwoLists(blocks, d, mine, others, loose) && idx in blocks
    requires b.lruPrev == blocks[idx].lruPrev && b.lruNext == blocks[idx].lruNext
    requires b.dirty == blocks[idx].dirty || idx in loose
    ensures TwoLists(blocks[idx := b], d, mine, others, loose)
  {
    Relinked(blocks, blocks[idx := b], d, mine.order, mine.head, mine.tail);
    Relinked(blocks, blocks[idx := b], !d, others.order, others.head, others.tail);
  }

  lemma Relinked(blocks: Blocks, blocks': Blocks, d: bool, s: seq<nat>, head: Option<nat>, tail: Option<nat>)
    requires Linked(blocks, d, s, head, tail)
    requires forall k :: k in s && k in blocks ==>
               k in blocks' && blocks'[k].dirty == blocks[k].dirty && blocks'[k].lruPrev == blocks[k].lruPrev &&
               blocks'[k].lruNext == blocks[k].lruNext
    ensures Linked(blocks', d, s, head, tail)
  {
    forall i | 0 <= i < |s| ensures LinkAt(blocks', d, s, i) { assert LinkAt(blocks, d, s, i); assert s[i] in s; }
  }

  /** Moving the last element to the end changes nothing. */
  lemma LastStays(s: seq<nat>)
    requires Distinct(s) && s != []
    ensures Without(s, s[|s| - 1]) + [s[|s| - 1]] == s
  {
    hide Without, Distinct;
    var n := |s| - 1;
    WithoutAt(s, n);
    assert s[..n] + s[n + 1..] == s[..n];
  }

  // ----- a shard -----

  class Shard {
    const cap: nat
    var blocks: Blocks
    /** The numbers of the dirty blocks, for the flusher. */
    var dirty: set<nat>
    var cleanHead: Option<nat>
    var cleanTail: Option<nat>
    var dirtyHead: Option<nat>
    var dirtyTail: Option<nat>
    /** Clean and dirty blocks, least recently used first. */
    ghost var cleanOrder: seq<nat>
    ghost var dirtyOrder: seq<nat>

    ghost function CleanList(): List
      reads this
    {
      List(cleanOrder, cleanHead, cleanTail)
    }

    ghost function DirtyList(): List
      reads this
    {
      List(dirtyOrder, dirtyHead, dirtyTail)
    }

    /** Both lists are well linked and hold every block except those in `loose`. */
    ghost predicate Threaded(loose: set<nat>)
      reads this
    {
      TwoLists(blocks, false, CleanList(), DirtyList(), loose)
    }

    /** The lists partition the resident blocks by dirty flag, and the worklist is the dirty set. */
    ghost predicate Valid()
      reads this
    {
      cap > 0 && Threaded({}) && dirty == DirtyOf(blocks)
    }

    static ghost function DirtyOf(blocks: Blocks): set<nat> {
      set k | k in blocks && blocks[k].dirty
    }

    constructor (cap: nat)
      requires cap > 0
      ensures Valid() && this.cap == cap && blocks == map[] && cleanOrder == [] && dirtyOrder == []
    {
      this.cap := cap;
      blocks := map[];
      dirty := {};
      cleanHead, cleanTail, dirtyHead, dirtyTail := None, None, None, None;
      cleanOrder, dirtyOrder := [], [];
    }

    /** Takes block `idx` off the list its dirty flag selects; absent blocks are left alone. */
    method Unlink(idx: nat)
      requires Threaded({})
      modifies this
      ensures Threaded(if idx in old(blocks) then {idx} else {})
      ensures SameContents(old(blocks), blocks) && dirty == old(dirty)
      ensures idx in blocks ==>
                cleanOrder == Without(old(cleanOrder), idx) && dirtyOrder == Without(old(dirtyOrder), idx)
      ensures idx !in old(blocks) ==> blocks == old(blocks) && cleanOrder == old(cleanOrder) && dirtyOrder == old(dirtyOrder)
    {
      hide TwoLists;
      if idx !in blocks {
        return;
      }
      var b := blocks[idx];
      Flip(blocks, false, CleanList(), DirtyList(), {});
      if b.dirty {
        DetachTwo(blocks, true, DirtyList(), CleanList(), idx);
      } else {
        DetachTwo(blocks, false, CleanList(), DirtyList(), idx);
      }
      blocks := blocks[idx := b.(lruPrev := None, lruNext := None)];
      blocks := WithNext(blocks, b.lruPrev, b.lruNext);
      if b.lruPrev.None? {
        if b.dirty { dirtyHead := b.lruNext; } else { cleanHead := b.lruNext; }
      }
      blocks := WithPrev(blocks, b.lruNext, b.lruPrev);
      if b.lruNext.None? {
        if b.dirty { dirtyTail := b.lruPrev; } else { cleanTail := b.lruPrev; }
      }
      cleanOrder, dirtyOrder := Without(cleanOrder, idx), Without(dirtyOrder, idx);
      Flip(blocks, false, CleanList(), DirtyList(), {idx});
    }

    /** Appends the unlinked block `idx` at the most recently used end of its list. */
    method PushBack(idx: nat)
      requires idx in blocks && Threaded({idx})
      modifies this
      ensures Threaded({}) && SameContents(old(blocks), blocks) && dirty == old(dirty)
      ensures cleanOrder == if blocks[idx].dirty then old(cleanOrder) else old(cleanOrder) + [idx]
      ensures dirtyOrder == if blocks[idx].dirty then old(dirtyOrder) + [idx] else old(dirtyOrder)
    {
      hide TwoLists;
      Flip(blocks, false, CleanList(), DirtyList(), {idx});
      var d := blocks[idx].dirty;
      var oldTail := if d then dirtyTail else cleanTail;
      if d {
        AttachTwo(blocks, true, DirtyList(), CleanList(), idx);
      } else {
        AttachTwo(blocks, false, CleanList(), DirtyList(), idx);
      }
      blocks := blocks[idx := blocks[idx].(lruPrev := oldTail, lruNext := None)];
      blocks := WithNext(blocks, oldTail, Some(idx));
      if d {
        if oldTail.None? { dirtyHead := Some(idx); }
        dirtyTail := Some(idx);
        dirtyOrder := dirtyOrder + [idx];
      } else {
        if oldTail.None? { cleanHead := Some(idx); }
        cleanTail := Some(idx);
        cleanOrder := cleanOrder + [idx];
      }
      Flip(blocks, false, CleanList(), DirtyList(), {});
    }

    /** `s` after block `idx` was used. */
    static ghost function Used(s: seq<nat>, idx: nat): seq<nat> {
      if idx in s then Without(s, idx) + [idx] else s
    }

    /** Records an access: moves block `idx` to the recent end of its list. */
    method Touch(idx: nat)
      requires Valid()
      modifies this
      ensures Valid() && SameContents(old(blocks), blocks) && dirty == old(dirty)
      ensures cleanOrder == Used(old(cleanOrder), idx) && dirtyOrder == Used(old(dirtyOrder), idx)
    {
      hide TwoLists, Without;
      TouchCases(blocks, CleanList(), DirtyList(), idx);
      if idx !in blocks || blocks[idx].lruNext.None? {
        return;
      }
      Unlink(idx);
      PushBack(idx);
    }

    /** Using the most recent block changes nothing; an absent block is on no list. */
    static lemma TouchCases(blocks: Blocks, clean: List, dirtyList: List, idx: nat)
      requires TwoLists(blocks, false, clean, dirtyList, {})
      ensures idx !in blocks ==> idx !in clean.order && idx !in dirtyList.order
      ensures idx in blocks && !blocks[idx].dirty ==> idx in clean.order && idx !in dirtyList.order
      ensures idx in blocks && blocks[idx].dirty ==> idx in dirtyList.order && idx !in clean.order
      ensures idx in blocks && blocks[idx].lruNext.None? ==>
                Used(clean.order, idx) == clean.order && Used(dirtyList.order, idx) == dirtyList.order
      ensures idx !in clean.order ==> Without(clean.order, idx) == clean.order
      ensures idx !in dirtyList.order ==> Without(dirtyList.order, idx) == dirtyList.order
    {
      Flip(blocks, false, clean, dirtyList, {});
      if idx in clean.order { DistinctLists(blocks, false, clean, dirtyList, {}, idx); }
      else { WithoutAbsent(clean.order, idx); }
      if idx in dirtyList.order { DistinctLists(blocks, true, dirtyList, clean, {}, idx); }
      else { WithoutAbsent(dirtyList.order, idx); }
      if idx in blocks && blocks[idx].lruNext.None? {
        if blocks[idx].dirty { IsLast(blocks, true, dirtyList, clean, idx); }
        else { IsLast(blocks, false, clean, dirtyList, idx); }
      }
    }

    /** The two lists together have one entry per block. */
    static lemma Counted(blocks: Blocks, clean: List, dirtyList: List)
      requires TwoLists(blocks, false, clean, dirtyList, {})
      ensures |blocks| == |clean.order| + |dirtyList.order|
      ensures Distinct(clean.order) && Distinct(dirtyList.order)
    {
      hide LinkAt;
      var c, d := SetOf(clean.order), SetOf(dirtyList.order);
      CountOf(clean.order);
      CountOf(dirtyList.order);
      forall k ensures k in c + d <==> k in blocks.Keys {
        TouchCases(blocks, clean, dirtyList, k);
      }
      forall k | k in c ensures k !in d { TouchCases(blocks, clean, dirtyList, k); }
      assert c + d == blocks.Keys && c !! d;
    }

    static lemma IsLast(blocks: Blocks, d: bool, mine: List, others: List, idx: nat)
      requires TwoLists(blocks, d, mine, others, {})
      requires idx in blocks && blocks[idx].dirty == d && blocks[idx].lruNext.None?
      ensures Used(mine.order, idx) == mine.order
    {
      var i := OnItsList(blocks, d, mine, others, {}, idx);
      assert LinkAt(blocks, d, mine.order, i);
      LastStays(mine.order);
    }

    /** `blocks` with block `idx` flagged `d`, links aside. */
    static ghost predicate Reflagged(blocks: Blocks, blocks': Blocks, idx: nat, d: bool) {
      && blocks'.Keys == blocks.Keys
      && forall k :: k in blocks ==>
           blocks'[k].arc == blocks[k].arc && blocks'[k].data == blocks[k].data &&
           blocks'[k].dirty == if k == idx then d else blocks[k].dirty
    }

    /** Records a write to resident block `idx`: in write-back mode a clean block becomes dirty. */
    method TouchOnWrite(idx: nat, writeback: bool)
      requires Valid() && idx in blocks
      modifies this
      ensures Valid()
      ensures var becomesDirty := writeback && !old(blocks)[idx].dirty;
              && Reflagged(old(blocks), blocks, idx, old(blocks)[idx].dirty || writeback)
              && cleanOrder == (if becomesDirty then Without(old(cleanOrder), idx) else Used(old(cleanOrder), idx))
              && dirtyOrder == (if becomesDirty then old(dirtyOrder) + [idx] else Used(old(dirtyOrder), idx))
    {
      hide TwoLists, Without;
      TouchCases(blocks, CleanList(), DirtyList(), idx);
      if writeback && !blocks[idx].dirty {
        Unlink(idx);
        SetFlag(idx, true);
        PushBack(idx);
      } else {
        Touch(idx);
      }
    }

    /** Flips the flag of an unlinked block and keeps the worklist in step. */
    method SetFlag(idx: nat, d: bool)
      requires idx in blocks && Threaded({idx}) && dirty == DirtyOf(blocks)
      modifies this
      ensures Threaded({idx}) && Reflagged(old(blocks), blocks, idx, d) && dirty == DirtyOf(blocks)
      ensures cleanOrder == old(cleanOrder) && dirtyOrder == old(dirtyOrder)
    {
      hide TwoLists;
      ContentsFree(blocks, false, CleanList(), DirtyList(), {idx}, idx, blocks[idx].(dirty := d));
      blocks := blocks[idx := blocks[idx].(dirty := d)];
      dirty := if d then dirty + {idx} else dirty - {idx};
    }

    /** A flushed block becomes clean and most recently used. */
    method MarkClean(idx: nat)
      requires Valid() && idx in blocks
      modifies this
      ensures Valid() && Reflagged(old(blocks), blocks, idx, false) && dirty == old(dirty) - {idx}
      ensures cleanOrder == Without(old(cleanOrder), idx) + [idx] && dirtyOrder == Without(old(dirtyOrder), idx)
    {
      hide TwoLists, Without;
      Unlink(idx);
      SetFlag(idx, false);
      PushBack(idx);
    }

    /** Adds a block at the most recently used end. */
    method InsertBlock(idx: nat, arc: nat, data: seq<byte>, d: bool)
      requires Valid() && idx !in blocks
      modifies this
      ensures Valid() && blocks.Keys == old(blocks).Keys + {idx}
      ensures SameContents(old(blocks)[idx := Block(arc, data, d, None, None)], blocks)
      ensures dirty == if d then old(dirty) + {idx} else old(dirty)
      ensures cleanOrder == if d then old(cleanOrder) else old(cleanOrder) + [idx]
      ensures dirtyOrder == if d then old(dirtyOrder) + [idx] else old(dirtyOrder)
    {
      NewLoose(blocks, CleanList(), DirtyList(), idx, Block(arc, data, d, None, None));
      hide TwoLists, Without;
      blocks := blocks[idx := Block(arc, data, d, None, None)];
      PushBack(idx);
      if d { dirty := dirty + {idx}; }
    }

    static lemma NewLoose(blocks: Blocks, clean: List, dirtyList: List, idx: nat, b: Block)
      requires TwoLists(blocks, false, clean, dirtyList, {}) && idx !in blocks
      ensures TwoLists(blocks[idx := b], false, clean, dirtyList, {idx})
    {
      TouchCases(blocks, clean, dirtyList, idx);
      Relinked(blocks, blocks[idx := b], false, clean.order, clean.head, clean.tail);
      Relinked(blocks, blocks[idx := b], true, dirtyList.order, dirtyList.head, dirtyList.tail);
    }

    /** Unlinks block `idx` and drops it. */
    method RemoveBlock(idx: nat)
      requires Valid() && idx in blocks
      modifies this
      ensures Valid() && blocks.Keys == old(blocks).Keys - {idx}
      ensures SameContents(old(blocks) - {idx}, blocks) && dirty == old(dirty) - {idx}
      ensures cleanOrder == Without(old(cleanOrder), idx) && dirtyOrder == Without(old(dirtyOrder), idx)
    {
      hide TwoLists, Without;
      Unlink(idx);
      LooseGone(blocks, CleanList(), DirtyList(), idx);
      blocks := blocks - {idx};
      dirty := dirty - {idx};
    }

    static lemma LooseGone(blocks: Blocks, clean: List, dirtyList: List, idx: nat)
      requires TwoLists(blocks, false, clean, dirtyList, {idx})
      ensures TwoLists(blocks - {idx}, false, clean, dirtyList, {})
    {
      Relinked(blocks, blocks - {idx}, false, clean.order, clean.head, clean.tail);
      Relinked(blocks, blocks - {idx}, true, dirtyList.order, dirtyList.head, dirtyList.tail);
    }

    /** Overwrites part of a resident block in place. */
    method Overwrite(idx: nat, data: seq<byte>)
      requires Valid() && idx in blocks
      modifies this
      ensures Valid() && blocks == old(blocks)[idx := old(blocks)[idx].(data := data)]
      ensures cleanOrder == old(cleanOrder) && dirtyOrder == old(dirtyOrder) && dirty == old(dirty)
    {
      hide TwoLists;
      ContentsFree(blocks, false, CleanList(), DirtyList(), {}, idx, blocks[idx].(data := data));
      blocks := blocks[idx := blocks[idx].(data := data)];
    }
  }
}
