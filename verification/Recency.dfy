/** Which blocks a shard keeps: the two recency orders on plain values, and what reads and writes do to them. */
module Recency {
  import opened Prelude
  import opened Shards

  /** The clean and the dirty blocks of a shard, least recently used first. */
  datatype Orders = Orders(clean: seq<nat>, dirty: seq<nat>)

  predicate AtCap(o: Orders, cap: nat) {
    |o.clean| + |o.dirty| >= cap
  }

  /** The block that makes room: the least recent clean one, else the least recent dirty one. */
  function Victim(o: Orders): Option<nat> {
    if o.clean != [] then Some(o.clean[0]) else if o.dirty != [] then Some(o.dirty[0]) else None
  }

  /** The orders once there is room for one more block. */
  function Roomy(o: Orders, cap: nat): Orders {
    if !AtCap(o, cap) || (o.clean == [] && o.dirty == []) then o
    else if o.clean != [] then Orders(o.clean[1..], o.dirty)
    else Orders([], o.dirty[1..])
  }

  /** A read of block `k`: a resident block becomes the most recent of its order, an absent one joins the clean order. */
  ghost function ReadOne(o: Orders, cap: nat, k: nat): Orders {
    if k in o.clean || k in o.dirty then Orders(Shard.Used(o.clean, k), Shard.Used(o.dirty, k))
    else Orders(Roomy(o, cap).clean + [k], Roomy(o, cap).dirty)
  }

  /** A write to block `k`, which in write-back mode becomes dirty. */
  ghost function WriteOne(o: Orders, cap: nat, writeback: bool, k: nat): Orders {
    if k in o.clean && writeback then Orders(Without(o.clean, k), o.dirty + [k])
    else if k in o.clean || k in o.dirty then Orders(Shard.Used(o.clean, k), Shard.Used(o.dirty, k))
    else
      var r := Roomy(o, cap);
      if writeback then Orders(r.clean, r.dirty + [k]) else Orders(r.clean + [k], r.dirty)
  }

  /** Block `k` was flushed. */
  ghost function CleanOne(o: Orders, k: nat): Orders {
    Orders(Without(o.clean, k) + [k], Without(o.dirty, k))
  }

  // ----- requests of many blocks -----

  /** What a request does to each block. */
  datatype Access = Read | Write(writeback: bool)

  ghost function One(o: Orders, cap: nat, how: Access, k: nat): Orders {
    match how
    case Read => ReadOne(o, cap, k)
    case Write(writeback) => WriteOne(o, cap, writeback, k)
  }

  /** The orders of shard `i` of `n` once blocks `first` up to but excluding `k` were accessed. */
  ghost function Many(o: Orders, cap: nat, how: Access, n: nat, i: nat, first: nat, k: nat): Orders
    requires n > 0
    decreases k
  {
    if k <= first then o
    else
      var before := Many(o, cap, how, n, i, first, k - 1);
      if (k - 1) % n == i then One(before, cap, how, k - 1) else before
  }

  /** The orders of all shards once blocks `first` up to but excluding `k` were accessed. */
  ghost predicate Accessed(start: seq<Orders>, now: seq<Orders>, caps: seq<nat>, how: Access, first: nat, k: nat) {
    && |start| == |now| == |caps| && |start| > 0
    && forall i :: 0 <= i < |start| ==> now[i] == Many(start[i], caps[i], how, |start|, i, first, k)
  }

  lemma NoneAccessed(start: seq<Orders>, caps: seq<nat>, how: Access, first: nat)
    requires |start| == |caps| > 0
    ensures Accessed(start, start, caps, how, first, first)
  {
  }

  lemma NextAccessed(start: seq<Orders>, now: seq<Orders>, caps: seq<nat>, how: Access, first: nat, k: nat)
    requires Accessed(start, now, caps, how, first, k) && first <= k
    ensures var i := k % |start|; Accessed(start, now[i := One(now[i], caps[i], how, k)], caps, how, first, k + 1)
  {
    hide One;
  }

  // ----- flushes -----

  /** The orders of shard `i` of `n` once the blocks `ks` were flushed, in this order. */
  ghost function CleanMany(o: Orders, n: nat, i: nat, ks: seq<nat>): Orders
    requires n > 0
  {
    if ks == [] then o
    else
      var m := |ks| - 1;
      var before := CleanMany(o, n, i, ks[..m]);
      if ks[m] % n == i then CleanOne(before, ks[m]) else before
  }

  ghost predicate AfterFlush(start: seq<Orders>, now: seq<Orders>, ks: seq<nat>) {
    |start| == |now| > 0 && forall i :: 0 <= i < |start| ==> now[i] == CleanMany(start[i], |start|, i, ks)
  }

  lemma NextFlushed(start: seq<Orders>, now: seq<Orders>, ks: seq<nat>, k: nat)
    requires AfterFlush(start, now, ks)
    ensures var i := k % |start|; AfterFlush(start, now[i := CleanOne(now[i], k)], ks + [k])
  {
    hide CleanOne;
    assert (ks + [k])[..|ks|] == ks;
  }

  lemma {:induction false} CleanManyMore(o: Orders, n: nat, i: nat, ks: seq<nat>, more: seq<nat>)
    requires n > 0
    ensures CleanMany(o, n, i, ks + more) == CleanMany(CleanMany(o, n, i, ks), n, i, more)
  {
    if more == [] {
      assert ks + more == ks;
    } else {
      var m := |more| - 1;
      CleanManyMore(o, n, i, ks, more[..m]);
      assert (ks + more)[..|ks| + m] == ks + more[..m];
    }
  }

  lemma FlushedMore(start: seq<Orders>, mid: seq<Orders>, now: seq<Orders>, ks: seq<nat>, more: seq<nat>)
    requires AfterFlush(start, mid, ks) && AfterFlush(mid, now, more)
    ensures AfterFlush(start, now, ks + more)
  {
    hide CleanMany;
    forall i | 0 <= i < |start| ensures now[i] == CleanMany(start[i], |start|, i, ks + more) {
      CleanManyMore(start[i], |start|, i, ks, more);
    }
  }

  /** The blocks of `ks` that lie in shard `i`. */
  function Here(ks: seq<nat>, n: nat, i: nat): seq<nat>
    requires n > 0
  {
    if ks == [] then []
    else
      var m := |ks| - 1;
      Here(ks[..m], n, i) + if ks[m] % n == i then [ks[m]] else []
  }

  /** Flushed blocks leave the dirty order and become the most recent clean ones, in the order they were flushed. */
  lemma {:induction false} FlushedMostRecent(o: Orders, n: nat, i: nat, ks: seq<nat>)
    requires n > 0 && Distinct(ks) && Distinct(o.dirty)
    requires forall x :: x in ks && x % n == i ==> x in o.dirty && x !in o.clean
    ensures var r := CleanMany(o, n, i, ks);
            && r.clean == o.clean + Here(ks, n, i) && Distinct(r.dirty)
            && forall x :: x in r.dirty <==> x in o.dirty && !(x in ks && x % n == i)
  {
    if ks != [] {
      var m := |ks| - 1;
      var k, init := ks[m], ks[..m];
      FlushedMostRecent(o, n, i, init);
      var before := CleanMany(o, n, i, init);
      assert ks == init + [k] && k !in init;
      if k % n == i {
        HereOnly(init, n, i);
        WithoutAbsent(before.clean, k);
        var p :| 0 <= p < |before.dirty| && before.dirty[p] == k;
        RemovedAt(before.dirty, p);
      }
    }
  }

  lemma {:induction false} HereOnly(ks: seq<nat>, n: nat, i: nat)
    requires n > 0
    ensures forall x :: x in Here(ks, n, i) <==> x in ks && x % n == i
  {
    if ks != [] {
      var m := |ks| - 1;
      HereOnly(ks[..m], n, i);
      assert ks == ks[..m] + [ks[m]];
    }
  }

  lemma RemovedAt(s: seq<nat>, p: nat)
    requires Distinct(s) && p < |s|
    ensures Distinct(Without(s, s[p])) && forall x :: x in Without(s, s[p]) <==> x in s && x != s[p]
  {
    KeepsOthers(s, s[p]);
    WithoutAt(s, p);
    StaysDistinct(s, p);
  }

  lemma StaysDistinct(s: seq<nat>, p: nat)
    requires Distinct(s) && p < |s|
    ensures Distinct(s[..p] + s[p + 1..]) && s[p] !in s[..p] + s[p + 1..]
  {
    var w := s[..p] + s[p + 1..];
    assert forall a :: 0 <= a < |w| ==> w[a] == if a < p then s[a] else s[a + 1];
  }

  // ----- the request's blocks end up most recent, in order -----

  /** From position `p` on, the order holds blocks of [first, k) in ascending order; before it, none of them. */
  ghost predicate TailAt(s: seq<nat>, first: nat, k: nat, p: nat) {
    && p <= |s|
    && (forall i :: 0 <= i < p ==> !(first <= s[i] < k))
    && (forall i :: p <= i < |s| ==> first <= s[i] < k)
    && (forall i, j :: p <= i < j < |s| ==> s[i] < s[j])
  }

  ghost predicate RecentTail(s: seq<nat>, first: nat, k: nat) {
    Distinct(s) && exists p :: TailAt(s, first, k, p)
  }

  lemma DropFirst(s: seq<nat>, first: nat, k: nat)
    requires RecentTail(s, first, k) && s != []
    ensures RecentTail(s[1..], first, k)
  {
    var p: nat :| TailAt(s, first, k, p);
    assert TailAt(s[1..], first, k, if p > 0 then p - 1 else 0);
  }

  /** Moving or adding block `k` to the end. */
  lemma AddLast(s: seq<nat>, first: nat, k: nat)
    requires RecentTail(s, first, k) && k !in s && first <= k
    ensures RecentTail(s + [k], first, k + 1)
  {
    var p: nat :| TailAt(s, first, k, p);
    assert TailAt(s + [k], first, k + 1, p);
  }

  lemma TakeOut(s: seq<nat>, first: nat, k: nat)
    requires RecentTail(s, first, k) && k in s
    ensures RecentTail(Without(s, k), first, k) && k !in Without(s, k)
    ensures forall x :: x in Without(s, k) ==> x in s
  {
    var p: nat :| TailAt(s, first, k, p);
    var i :| 0 <= i < |s| && s[i] == k;
    assert i < p;
    WithoutAt(s, i);
    WithoutTail(s, first, k, p, i);
  }

  lemma WithoutTail(s: seq<nat>, first: nat, k: nat, p: nat, i: nat)
    requires Distinct(s) && TailAt(s, first, k, p) && i < p && s[i] == k
    ensures var w := s[..i] + s[i + 1..]; Distinct(w) && TailAt(w, first, k, p - 1) && k !in w
    ensures forall x :: x in s[..i] + s[i + 1..] ==> x in s
  {
    var w := s[..i] + s[i + 1..];
    assert forall a :: 0 <= a < |w| ==> w[a] == if a < i then s[a] else s[a + 1];
  }

  /** An order without block `k` is as good for the next range. */
  lemma Longer(s: seq<nat>, first: nat, k: nat)
    requires RecentTail(s, first, k) && k !in s
    ensures RecentTail(s, first, k + 1)
  {
    var p: nat :| TailAt(s, first, k, p);
    assert TailAt(s, first, k + 1, p);
  }

  lemma UsedTail(s: seq<nat>, first: nat, k: nat)
    requires RecentTail(s, first, k) && first <= k
    ensures RecentTail(Shard.Used(s, k), first, k + 1)
    ensures forall x :: x in Shard.Used(s, k) <==> x in s
  {
    if k in s {
      TakeOut(s, first, k);
      AddLast(Without(s, k), first, k);
      KeepsOthers(s, k);
    } else {
      Longer(s, first, k);
    }
  }

  lemma {:induction false} KeepsOthers(s: seq<nat>, k: nat)
    ensures forall x :: x in s && x != k ==> x in Without(s, k)
    ensures forall x :: x in Without(s, k) ==> x in s
  {
    if s != [] && s[0] != k {
      KeepsOthers(s[1..], k);
      assert s == [s[0]] + s[1..];
    }
  }

  /** Both orders of a shard, with no block on both. */
  ghost predicate Recent(o: Orders, first: nat, k: nat) {
    && RecentTail(o.clean, first, k) && RecentTail(o.dirty, first, k)
    && forall x :: x in o.clean ==> x !in o.dirty
  }

  lemma RoomyRecent(o: Orders, cap: nat, first: nat, k: nat)
    requires Recent(o, first, k)
    ensures Recent(Roomy(o, cap), first, k)
    ensures forall x :: x in Roomy(o, cap).clean ==> x in o.clean
    ensures forall x :: x in Roomy(o, cap).dirty ==> x in o.dirty
  {
    hide RecentTail;
    if o.clean != [] { DropFirst(o.clean, first, k); }
    if o.dirty != [] { DropFirst(o.dirty, first, k); }
    NoneRecent(first, k);
  }

  lemma NoneRecent(first: nat, k: nat)
    ensures RecentTail([], first, k)
  {
    assert TailAt([], first, k, 0);
  }

  lemma OneRecent(o: Orders, cap: nat, how: Access, first: nat, k: nat)
    requires Recent(o, first, k) && first <= k
    ensures Recent(One(o, cap, how, k), first, k + 1)
    ensures k in One(o, cap, how, k).clean || k in One(o, cap, how, k).dirty
  {
    hide RecentTail, Without, Roomy;
    if k in o.clean || k in o.dirty {
      UsedTail(o.clean, first, k);
      UsedTail(o.dirty, first, k);
      if k in o.clean && how == Write(true) {
        TakeOut(o.clean, first, k);
        Longer(Without(o.clean, k), first, k);
        AddLast(o.dirty, first, k);
      }
    } else {
      var r := Roomy(o, cap);
      RoomyRecent(o, cap, first, k);
      AddLast(r.clean, first, k);
      AddLast(r.dirty, first, k);
      Longer(r.clean, first, k);
      Longer(r.dirty, first, k);
    }
  }

  lemma StartRecent(s: seq<nat>, first: nat)
    requires Distinct(s)
    ensures RecentTail(s, first, first)
  {
    assert TailAt(s, first, first, |s|);
  }

  /** Blocks of other shards do not occur. */
  lemma SkipRecent(s: seq<nat>, first: nat, k: nat, n: nat, i: nat)
    requires n > 0 && RecentTail(s, first, k) && k % n != i && forall x :: x in s ==> x % n == i
    ensures RecentTail(s, first, k + 1)
  {
    Longer(s, first, k);
  }

  ghost predicate OfShard(o: Orders, n: nat, i: nat)
    requires n > 0
  {
    forall x :: x in o.clean || x in o.dirty ==> x % n == i
  }

  lemma OneOfShard(o: Orders, cap: nat, how: Access, n: nat, i: nat, k: nat)
    requires n > 0 && OfShard(o, n, i) && k % n == i
    ensures OfShard(One(o, cap, how, k), n, i)
  {
    hide One;
    forall x | x in One(o, cap, how, k).clean || x in One(o, cap, how, k).dirty ensures x % n == i {
      OneHolds(o, cap, how, k, x);
    }
  }

  /** An access brings in no block but its own. */
  lemma OneHolds(o: Orders, cap: nat, how: Access, k: nat, x: nat)
    requires x in One(o, cap, how, k).clean || x in One(o, cap, how, k).dirty
    ensures x == k || x in o.clean || x in o.dirty
  {
    hide Without, Roomy;
    KeepsOthers(o.clean, k);
    KeepsOthers(o.dirty, k);
    RoomyHolds(o, cap, x);
  }

  lemma RoomyHolds(o: Orders, cap: nat, x: nat)
    ensures x in Roomy(o, cap).clean ==> x in o.clean
    ensures x in Roomy(o, cap).dirty ==> x in o.dirty
  {
  }

  /** Block `b` is the last of [first, k) in shard `i`. */
  ghost predicate IsLastOf(b: nat, n: nat, i: nat, first: nat, k: nat)
    requires n > 0
  {
    first <= b < k && b % n == i && forall c :: b < c < k ==> c % n != i
  }

  /** After a request, whatever was resident and however small the shard: in both orders of every shard the blocks of the
      request come last and in ascending order, and the request's last block in the shard is resident. */
  lemma {:induction false} RequestMostRecent(o: Orders, cap: nat, how: Access, n: nat, i: nat, first: nat, k: nat)
    requires n > 0 && first <= k && Recent(o, first, first) && OfShard(o, n, i)
    ensures Recent(Many(o, cap, how, n, i, first, k), first, k) && OfShard(Many(o, cap, how, n, i, first, k), n, i)
    ensures forall b :: IsLastOf(b, n, i, first, k) ==>
              b in Many(o, cap, how, n, i, first, k).clean || b in Many(o, cap, how, n, i, first, k).dirty
    decreases k
  {
    hide RecentTail, One;
    if first < k {
      RequestMostRecent(o, cap, how, n, i, first, k - 1);
      var before := Many(o, cap, how, n, i, first, k - 1);
      forall b | IsLastOf(b, n, i, first, k) && b != k - 1 ensures IsLastOf(b, n, i, first, k - 1) && (k - 1) % n != i {}
      if (k - 1) % n == i {
        OneRecent(before, cap, how, first, k - 1);
        OneOfShard(before, cap, how, n, i, k - 1);
      } else {
        SkipRecent(before.clean, first, k - 1, n, i);
        SkipRecent(before.dirty, first, k - 1, n, i);
      }
    }
  }

  /** In every shard the blocks of [first, k) come last in both orders, ascending, and the last of them is resident. */
  ghost predicate MostRecent(now: seq<Orders>, first: nat, k: nat) {
    |now| > 0 && forall i :: 0 <= i < |now| ==> Foremost(now[i], |now|, i, first, k)
  }

  ghost predicate Foremost(o: Orders, n: nat, i: nat, first: nat, k: nat)
    requires n > 0
  {
    Recent(o, first, k) && OfShard(o, n, i) && forall b :: IsLastOf(b, n, i, first, k) ==> b in o.clean || b in o.dirty
  }

  lemma AccessedMostRecent(start: seq<Orders>, now: seq<Orders>, caps: seq<nat>, how: Access, first: nat, k: nat)
    requires Accessed(start, now, caps, how, first, k) && first <= k && MostRecent(start, first, first)
    ensures MostRecent(now, first, k)
  {
    hide Recent, OfShard, IsLastOf, Many;
    forall i | 0 <= i < |now| ensures Foremost(now[i], |now|, i, first, k) {
      assert Foremost(start[i], |now|, i, first, first);
      RequestMostRecent(start[i], caps[i], how, |start|, i, first, k);
    }
  }

  // ----- least recently used, over any history -----

  /** What happens to a shard: a block is read, written or flushed. */
  datatype Event = Touch(how: Access, k: nat) | Flush(k: nat)

  ghost function Step(o: Orders, cap: nat, e: Event): Orders {
    match e
    case Touch(how, k) => One(o, cap, how, k)
    case Flush(k) => CleanOne(o, k)
  }

  ghost function History(cap: nat, es: seq<Event>): Orders {
    if es == [] then Orders([], []) else Step(History(cap, es[..|es| - 1]), cap, es[|es| - 1])
  }

  /** Only dirty blocks were flushed. */
  ghost predicate Proper(cap: nat, es: seq<Event>) {
    es == [] ||
    var n := |es| - 1;
    Proper(cap, es[..n]) && (es[n].Flush? ==> es[n].k in History(cap, es[..n]).dirty)
  }

  /** When block `k` was last read, written or flushed; -1 for never. */
  function LastUse(es: seq<Event>, k: nat): (n: int)
    ensures -1 <= n < |es|
  {
    if es == [] then -1 else if es[|es| - 1].k == k then |es| - 1 else LastUse(es[..|es| - 1], k)
  }

  /** Later entries were used later. */
  ghost predicate ByUse(s: seq<nat>, es: seq<Event>) {
    forall i, j :: 0 <= i < j < |s| ==> LastUse(es, s[i]) < LastUse(es, s[j])
  }

  ghost predicate UsedInOrder(o: Orders, es: seq<Event>) {
    && ByUse(o.clean, es) && ByUse(o.dirty, es) && Distinct(o.clean) && Distinct(o.dirty)
    && forall x :: x in o.clean ==> x !in o.dirty
  }

  lemma UseLater(s: seq<nat>, es: seq<Event>, e: Event)
    requires ByUse(s, es) && e.k !in s
    ensures ByUse(s, es + [e]) && ByUse(s + [e.k], es + [e])
  {
    assert (es + [e])[..|es|] == es;
    forall x | x in s ensures LastUse(es + [e], x) == LastUse(es, x) {}
    var t := s + [e.k];
    forall i, j | 0 <= i < j < |t| ensures LastUse(es + [e], t[i]) < LastUse(es + [e], t[j]) {
      assert t[i] == s[i] && s[i] in s;
      if j < |s| { assert t[j] == s[j] && s[j] in s; }
    }
  }

  lemma UseWithout(s: seq<nat>, es: seq<Event>, k: nat)
    requires ByUse(s, es) && Distinct(s) && k in s
    ensures ByUse(Without(s, k), es) && Distinct(Without(s, k)) && k !in Without(s, k)
    ensures forall x :: x in Without(s, k) <==> x in s && x != k
  {
    var p :| 0 <= p < |s| && s[p] == k;
    RemovedAt(s, p);
    WithoutAt(s, p);
    UseCut(s, es, p);
  }

  lemma UseCut(s: seq<nat>, es: seq<Event>, p: nat)
    requires ByUse(s, es) && p < |s|
    ensures ByUse(s[..p] + s[p + 1..], es)
  {
    var w := s[..p] + s[p + 1..];
    assert forall a :: 0 <= a < |w| ==> w[a] == if a < p then s[a] else s[a + 1];
  }

  lemma RoomyInOrder(o: Orders, cap: nat, es: seq<Event>)
    requires UsedInOrder(o, es)
    ensures UsedInOrder(Roomy(o, cap), es)
    ensures forall x :: x in Roomy(o, cap).clean ==> x in o.clean
    ensures forall x :: x in Roomy(o, cap).dirty ==> x in o.dirty
  {
  }

  lemma StepInOrder(o: Orders, cap: nat, es: seq<Event>, e: Event)
    requires UsedInOrder(o, es) && (e.Flush? ==> e.k in o.dirty)
    ensures UsedInOrder(Step(o, cap, e), es + [e])
  {
    hide ByUse, Without, Distinct, Roomy, LastUse;
    var k, clean, dirty := e.k, o.clean, o.dirty;
    if k in clean {
      UseWithout(clean, es, k);
      clean := Without(clean, k);
    }
    if k in dirty {
      UseWithout(dirty, es, k);
      dirty := Without(dirty, k);
    }
    var r := Roomy(o, cap);
    RoomyInOrder(o, cap, es);
    UseLater(clean, es, e);
    UseLater(dirty, es, e);
    LongerDistinct(clean, k);
    LongerDistinct(dirty, k);
    if k !in o.clean && k !in o.dirty {
      UseLater(r.clean, es, e);
      UseLater(r.dirty, es, e);
      LongerDistinct(r.clean, k);
      LongerDistinct(r.dirty, k);
    }
    if k !in o.clean { WithoutAbsent(o.clean, k); }
    if k !in o.dirty { WithoutAbsent(o.dirty, k); }
  }

  lemma LongerDistinct(s: seq<nat>, k: nat)
    requires Distinct(s) && k !in s
    ensures Distinct(s + [k])
  {
  }

  /** Whatever was read, written and flushed: each order is by last use, so the block that makes room was used before
      every other block of its order. */
  lemma {:induction false} LeastRecentlyUsed(cap: nat, es: seq<Event>)
    requires Proper(cap, es)
    ensures UsedInOrder(History(cap, es), es)
    ensures var o := History(cap, es);
            && (forall x :: x in o.clean ==> LastUse(es, Victim(o).value) <= LastUse(es, x))
            && (o.clean == [] ==> forall x :: x in o.dirty ==> LastUse(es, Victim(o).value) <= LastUse(es, x))
  {
    hide Step;
    if es != [] {
      var n := |es| - 1;
      LeastRecentlyUsed(cap, es[..n]);
      StepInOrder(History(cap, es[..n]), cap, es[..n], es[n]);
      assert es[..n] + [es[n]] == es;
    }
  }

  /** Accessing an absent block of a full shard drops exactly that block; with room, or on a hit, nothing is dropped. */
  lemma OnlyVictimLeaves(o: Orders, cap: nat, how: Access, k: nat, x: nat)
    requires Distinct(o.clean) && Distinct(o.dirty) && (forall y :: y in o.clean ==> y !in o.dirty)
    requires (x in o.clean || x in o.dirty) && x != k
    ensures var after := One(o, cap, how, k);
            x in after.clean || x in after.dirty <==>
              k in o.clean || k in o.dirty || !AtCap(o, cap) || Victim(o) != Some(x)
  {
    hide Without;
    KeepsOthers(o.clean, k);
    KeepsOthers(o.dirty, k);
    if o.clean != [] { assert o.clean == [o.clean[0]] + o.clean[1..]; }
    if o.dirty != [] { assert o.dirty == [o.dirty[0]] + o.dirty[1..]; }
  }
}
