/** What replaying redo entries means, and why recovery reconciliation does not depend on order. */
module AllocatorRecovery {
  import opened Prelude
  import opened Regions
  import opened Freelist
  import opened Redo
  import opened AllocatorSpec
  import opened HeaderCodec
  import opened AllocatorRuns

  // ----- one entry -----

  /** What an entry means for the set of free bytes. */
  ghost function Target(c: Config, free: set<nat>, op: RedoOp): set<nat>
    requires ValidConfig(c)
  {
    match Touch(c, op)
    case None => free
    case Some(r) => if op.AllocateRegion? then free - Range(r.offset, r.size) else free + Range(r.offset, r.size)
  }

  /** The extent an entry touches; none for entries of other stores and entries outside the data region. */
  ghost function Touch(c: Config, op: RedoOp): Option<Region>
    requires ValidConfig(c)
  {
    if op.OtherOp? || op.deviceId != c.redoDeviceId || !InData(c, op.offset, AlignReservation(c, op.size)) then None
    else Some(Region(op.offset, AlignReservation(c, op.size)))
  }

  /** An allocation overlaps at most one free region; a freed range is all free or not free at all. */
  ghost predicate Clean(c: Config, s: State, op: RedoOp)
    requires ValidConfig(c)
  {
    match Touch(c, op)
    case None => true
    case Some(r) =>
      if op.AllocateRegion? then AtMostOne(s.free, r.offset, r.offset + r.size)
      else Range(r.offset, r.size) <= Bytes(s.free) || Range(r.offset, r.size) !! Bytes(s.free)
  }

  ghost predicate AtMostOne(m: FreeMap, lo: nat, hi: nat) {
    forall p, q :: Overlaps(m, lo, hi, p) && Overlaps(m, lo, hi, q) ==> p == q
  }

  /** Carving one region removes the whole range exactly when no second region overlaps it. */
  lemma CarveExactIff(m: FreeMap, lo: nat, hi: nat)
    requires Canonical(m) && lo < hi
    ensures Bytes(CarveFirst(m, lo, hi)) == Bytes(m) - Range(lo, hi - lo) <==> AtMostOne(m, lo, hi)
  {
    if exists p :: Overlaps(m, lo, hi, p) {
      var f := FirstOverlap(m, lo, hi);
      if AtMostOne(m, lo, hi) {
        OnlyOverlap(m, lo, hi, f);
      } else {
        var p: nat, q: nat :| Overlaps(m, lo, hi, p) && Overlaps(m, lo, hi, q) && p != q;
        SecondStays(m, lo, hi, f, if p == f then q else p);
      }
    } else {
      NoneOverlaps(m, lo, hi);
      DisjointRange(m, lo, hi - lo);
    }
  }

  lemma OnlyOverlap(m: FreeMap, lo: nat, hi: nat, f: nat)
    requires Canonical(m) && lo < hi && AtMostOne(m, lo, hi) && IsFirstOverlap(m, lo, hi, f)
    ensures Bytes(m) - (Range(lo, hi - lo) * Range(f, m[f])) == Bytes(m) - Range(lo, hi - lo)
  {
    forall x | x in Bytes(m) && x in Range(lo, hi - lo) ensures x in Range(f, m[f]) {
      var o := Owner(m, x);
      assert Overlaps(m, lo, hi, o);
      InRange(f, m[f], x);
    }
  }

  lemma NoneOverlaps(m: FreeMap, lo: nat, hi: nat)
    requires forall p :: !Overlaps(m, lo, hi, p)
    ensures forall o :: o in m ==> o + m[o] <= lo || hi <= o
  {
    forall o | o in m ensures o + m[o] <= lo || hi <= o { assert !Overlaps(m, lo, hi, o); }
  }

  /** A second overlapping region keeps bytes of the range free. */
  lemma SecondStays(m: FreeMap, lo: nat, hi: nat, f: nat, p: nat)
    requires Canonical(m) && lo < hi && IsFirstOverlap(m, lo, hi, f) && Overlaps(m, lo, hi, p) && p != f
    ensures p in Range(lo, hi - lo) && p in Bytes(Cut(m, f, lo, hi))
    ensures f == FirstOverlap(m, lo, hi)
  {
    var g := FirstOverlap(m, lo, hi);
    assert Overlaps(m, lo, hi, g) && Overlaps(m, lo, hi, f);
    assert f < p;
    Owned(m, p, p);
    InRange(lo, hi - lo, p);
  }

  /** Replaying an entry has its intended effect on the free bytes exactly when it is clean. */
  lemma ReplayExactIff(c: Config, s: State, op: RedoOp)
    requires ValidConfig(c) && WellFormed(c, s)
    ensures Bytes(Replay(c, s, op).free) == Target(c, Bytes(s.free), op) <==> Clean(c, s, op)
  {
    hide AlignReservation, CarveFirst, AddRange;
    var t := Touch(c, op);
    if t.Some? {
      var r := t.value;
      InRange(r.offset, r.size, r.offset);
      if op.AllocateRegion? {
        CarveExactIff(s.free, r.offset, r.offset + r.size);
      }
    }
  }

  // ----- streams of entries -----

  ghost function TargetAll(c: Config, free: set<nat>, ops: seq<RedoOp>): set<nat>
    requires ValidConfig(c)
  {
    if ops == [] then free
    else Target(c, TargetAll(c, free, ops[..|ops| - 1]), ops[|ops| - 1])
  }

  ghost function TouchBytes(c: Config, op: RedoOp): set<nat>
    requires ValidConfig(c)
  {
    match Touch(c, op)
    case None => {}
    case Some(r) => Range(r.offset, r.size)
  }

  /** Every byte some entry touches. */
  ghost function Touched(c: Config, ops: seq<RedoOp>): set<nat>
    requires ValidConfig(c)
  {
    if ops == [] then {} else Touched(c, ops[..|ops| - 1]) + TouchBytes(c, ops[|ops| - 1])
  }

  /** A stream overwrites the bytes it touches and nothing else. */
  lemma {:induction false} TargetForm(c: Config, free: set<nat>, ops: seq<RedoOp>)
    requires ValidConfig(c)
    ensures TargetAll(c, free, ops) == (free - Touched(c, ops)) + TargetAll(c, {}, ops)
    ensures TargetAll(c, {}, ops) <= Touched(c, ops)
  {
    hide Touch, Range;
    if ops != [] {
      TargetForm(c, free, ops[..|ops| - 1]);
    }
  }

  lemma {:induction false} TargetConcat(c: Config, free: set<nat>, xs: seq<RedoOp>, ys: seq<RedoOp>)
    requires ValidConfig(c)
    ensures TargetAll(c, free, xs + ys) == TargetAll(c, TargetAll(c, free, xs), ys)
    ensures Touched(c, xs) <= Touched(c, xs + ys)
    decreases |ys|
  {
    hide Touch, Target;
    if ys == [] {
      assert xs + ys == xs;
    } else {
      var n := |ys| - 1;
      TargetConcat(c, free, xs, ys[..n]);
      assert (xs + ys)[..|xs| + n] == xs + ys[..n];
    }
  }

  /** Running a prefix first and then the whole stream is the same as running the whole stream. */
  lemma TargetRepeat(c: Config, free: set<nat>, xs: seq<RedoOp>, ys: seq<RedoOp>)
    requires ValidConfig(c)
    ensures TargetAll(c, TargetAll(c, free, xs), xs + ys) == TargetAll(c, free, xs + ys)
  {
    hide TargetAll, Touched;
    TargetForm(c, free, xs);
    TargetForm(c, free, xs + ys);
    TargetForm(c, TargetAll(c, free, xs), xs + ys);
    TargetConcat(c, free, xs, ys);
  }

  ghost predicate CleanAll(c: Config, s: State, ops: seq<RedoOp>)
    requires ValidConfig(c) && WellFormed(c, s)
  {
    ops == [] ||
    (CleanAll(c, s, ops[..|ops| - 1]) && Clean(c, ReplayAll(c, s, ops[..|ops| - 1]), ops[|ops| - 1]))
  }

  /** The high-water mark after replay: the largest end of any allocation, or the mark it started from. */
  ghost function Highest(c: Config, next: nat, ops: seq<RedoOp>): nat
    requires ValidConfig(c)
  {
    if ops == [] then next
    else
      var front := Highest(c, next, ops[..|ops| - 1]);
      match Touch(c, ops[|ops| - 1])
      case None => front
      case Some(r) => if ops[|ops| - 1].AllocateRegion? && front < r.offset + r.size then r.offset + r.size else front
  }

  /** Replay leaves the bytes it does not touch as they were. */
  lemma ReplayFrame(c: Config, s: State, op: RedoOp, x: nat)
    requires ValidConfig(c) && WellFormed(c, s) && x !in TouchBytes(c, op)
    ensures x in Bytes(Replay(c, s, op).free) <==> x in Bytes(s.free)
  {
    hide AlignReservation, CarveFirst, AddRange, Bytes;
    var t := Touch(c, op);
    if t.Some? && op.AllocateRegion? { CarveFirstBytes(s.free, t.value.offset, t.value.offset + t.value.size); }
  }

  lemma {:induction false} ReplayAllFrame(c: Config, s: State, ops: seq<RedoOp>, x: nat)
    requires ValidConfig(c) && WellFormed(c, s) && x !in Touched(c, ops)
    ensures x in Bytes(ReplayAll(c, s, ops).free) <==> x in Bytes(s.free)
  {
    hide Replay, Bytes, TouchBytes;
    if ops != [] {
      var n := |ops| - 1;
      ReplayAllFrame(c, s, ops[..n], x);
      ReplayFrame(c, ReplayAll(c, s, ops[..n]), ops[n], x);
    }
  }

  /** The high-water mark does not depend on what is free. */
  lemma {:induction false} ReplayMark(c: Config, s: State, ops: seq<RedoOp>)
    requires ValidConfig(c) && WellFormed(c, s)
    ensures ReplayAll(c, s, ops).next == Highest(c, s.next, ops)
  {
    if ops != [] {
      ReplayMark(c, s, ops[..|ops| - 1]);
      hide Canonical, Bytes, AlignReservation, AddRange, CarveFirst;
    }
  }

  /** A clean stream replays to its intended meaning. */
  lemma {:induction false} ReplayMeaning(c: Config, s: State, ops: seq<RedoOp>)
    requires ValidConfig(c) && WellFormed(c, s) && CleanAll(c, s, ops)
    ensures Bytes(ReplayAll(c, s, ops).free) == TargetAll(c, Bytes(s.free), ops)
    ensures ReplayAll(c, s, ops).next == Highest(c, s.next, ops)
  {
    ReplayMark(c, s, ops);
    hide Replay, Bytes, Clean, Target;
    if ops != [] {
      var n := |ops| - 1;
      ReplayMeaning(c, s, ops[..n]);
      ReplayExactIff(c, ReplayAll(c, s, ops[..n]), ops[n]);
    }
  }

  lemma {:induction false} HighestRepeat(c: Config, next: nat, xs: seq<RedoOp>, ys: seq<RedoOp>)
    requires ValidConfig(c)
    ensures Highest(c, Highest(c, next, xs), xs + ys) == Highest(c, next, xs + ys)
    ensures Highest(c, next, xs) <= Highest(c, next, xs + ys)
    decreases |xs| + |ys|, |ys|
  {
    hide Touch;
    if ys != [] {
      var n := |ys| - 1;
      HighestRepeat(c, next, xs, ys[..n]);
      assert (xs + ys)[..|xs| + n] == xs + ys[..n];
    } else {
      assert xs + ys == xs;
      HighestFixed(c, next, Highest(c, next, xs), xs);
    }
  }

  /** Starting at or above every end changes nothing. */
  lemma {:induction false} HighestFixed(c: Config, next: nat, top: nat, xs: seq<RedoOp>)
    requires ValidConfig(c) && Highest(c, next, xs) <= top
    ensures Highest(c, top, xs) == top
    ensures next <= Highest(c, next, xs)
  {
    hide Touch;
    if xs != [] {
      HighestFixed(c, next, top, xs[..|xs| - 1]);
    }
  }

  /** Replaying a stream onto the state after one of its prefixes gives the same result as replaying it from
      its start, provided both replays are clean. */
  lemma ReplayRepeat(c: Config, s: State, xs: seq<RedoOp>, ys: seq<RedoOp>)
    requires ValidConfig(c) && WellFormed(c, s) && CleanAll(c, s, xs) && CleanAll(c, s, xs + ys)
    requires CleanAll(c, ReplayAll(c, s, xs), xs + ys)
    ensures ReplayAll(c, ReplayAll(c, s, xs), xs + ys) == ReplayAll(c, s, xs + ys)
  {
    hide CleanAll, ReplayAll, TargetAll, Highest;
    var h := ReplayAll(c, s, xs);
    ReplayMeaning(c, s, xs);
    ReplayMeaning(c, s, xs + ys);
    ReplayMeaning(c, h, xs + ys);
    TargetRepeat(c, Bytes(s.free), xs, ys);
    HighestRepeat(c, s.next, xs, ys);
    CanonicalUnique(ReplayAll(c, h, xs + ys).free, ReplayAll(c, s, xs + ys).free);
  }

  // ----- reconciliation with the records found live -----

  /** Applies the reconciliation step to each record in turn. */
  ghost function ReclaimAll(c: Config, s: State, records: seq<Region>): (s': State)
    requires WellFormed(c, s)
    ensures WellFormed(c, s')
  {
    if records == [] then s
    else
      var n := |records| - 1;
      var mid := ReclaimAll(c, s, records[..n]);
      ReclaimKeeps(c, mid, records[n].offset, records[n].size);
      Reclaim(c, mid, records[n].offset, records[n].size)
  }

  ghost predicate Apart(records: seq<Region>) {
    forall i, j :: 0 <= i < j < |records| ==>
      Range(records[i].offset, records[i].size) !! Range(records[j].offset, records[j].size)
  }

  /** Byte `x` belongs to a record that lies wholly in free space. */
  ghost predicate Claims(free: set<nat>, records: seq<Region>, x: nat) {
    exists i :: 0 <= i < |records| &&
      Range(records[i].offset, records[i].size) <= free && x in Range(records[i].offset, records[i].size)
  }

  /** Reconciliation removes exactly the bytes of the records that lie wholly in free space. */
  lemma {:induction false} ReclaimAllBytes(c: Config, s: State, records: seq<Region>)
    requires WellFormed(c, s) && Apart(records)
    ensures ReclaimAll(c, s, records).next == s.next
    ensures forall x :: x in Bytes(ReclaimAll(c, s, records).free) <==>
              x in Bytes(s.free) && !Claims(Bytes(s.free), records, x)
    decreases |records|
  {
    hide Bytes, Canonical, Reclaim;
    if records != [] {
      var n := |records| - 1;
      var front, last := records[..n], records[n];
      ReclaimAllBytes(c, s, front);
      var mid := ReclaimAll(c, s, front);
      ReclaimKeeps(c, mid, last.offset, last.size);
      assert forall x :: x in Range(last.offset, last.size) ==> !Claims(Bytes(s.free), front, x);
      assert Reclaimable(mid, last.offset, last.size) <==> Reclaimable(s, last.offset, last.size);
      forall x ensures Claims(Bytes(s.free), records, x) <==>
                       Claims(Bytes(s.free), front, x) ||
                       (Range(last.offset, last.size) <= Bytes(s.free) && x in Range(last.offset, last.size))
      {
        ClaimsSnoc(Bytes(s.free), records, x);
      }
    }
  }

  lemma ClaimsSnoc(free: set<nat>, records: seq<Region>, x: nat)
    requires records != []
    ensures var last := records[|records| - 1];
            Claims(free, records, x) <==>
              Claims(free, records[..|records| - 1], x) ||
              (Range(last.offset, last.size) <= free && x in Range(last.offset, last.size))
  {
    hide Range;
    var n := |records| - 1;
    if Claims(free, records[..n], x) {
      var i :| 0 <= i < n && Range(records[..n][i].offset, records[..n][i].size) <= free &&
               x in Range(records[..n][i].offset, records[..n][i].size);
      assert records[i] == records[..n][i];
    }
    if Claims(free, records, x) {
      var i :| 0 <= i < |records| && Range(records[i].offset, records[i].size) <= free &&
               x in Range(records[i].offset, records[i].size);
      if i < n { assert records[..n][i] == records[i]; }
    }
  }

  /** The same disjoint records in any order leave the same free map. */
  lemma ReclaimAnyOrder(c: Config, s: State, xs: seq<Region>, ys: seq<Region>)
    requires WellFormed(c, s) && Apart(xs) && Apart(ys)
    requires forall r :: r in xs <==> r in ys
    ensures ReclaimAll(c, s, xs) == ReclaimAll(c, s, ys)
  {
    ReclaimAllBytes(c, s, xs);
    ReclaimAllBytes(c, s, ys);
    forall x ensures Claims(Bytes(s.free), xs, x) <==> Claims(Bytes(s.free), ys, x) {
      SameClaims(Bytes(s.free), xs, ys, x);
      SameClaims(Bytes(s.free), ys, xs, x);
    }
    hide Bytes, Claims, ReclaimAll;
    assert Bytes(ReclaimAll(c, s, xs).free) == Bytes(ReclaimAll(c, s, ys).free);
    CanonicalUnique(ReclaimAll(c, s, xs).free, ReclaimAll(c, s, ys).free);
  }

  lemma SameClaims(free: set<nat>, xs: seq<Region>, ys: seq<Region>, x: nat)
    requires forall r :: r in xs ==> r in ys
    ensures Claims(free, xs, x) ==> Claims(free, ys, x)
  {
    hide Range;
    if Claims(free, xs, x) {
      var i :| 0 <= i < |xs| && Range(xs[i].offset, xs[i].size) <= free && x in Range(xs[i].offset, xs[i].size);
      assert xs[i] in ys;
      var j :| 0 <= j < |ys| && ys[j] == xs[i];
    }
  }

  /** Reconciling twice is reconciling once. */
  lemma ReclaimTwice(c: Config, s: State, records: seq<Region>)
    requires WellFormed(c, s) && Apart(records)
    ensures ReclaimAll(c, ReclaimAll(c, s, records), records) == ReclaimAll(c, s, records)
  {
    var once := ReclaimAll(c, s, records);
    ReclaimAllBytes(c, s, records);
    ReclaimAllBytes(c, once, records);
    forall x | x in Bytes(once.free) ensures !Claims(Bytes(once.free), records, x) {
      NoSecondClaim(Bytes(s.free), Bytes(once.free), records, x);
    }
    hide Bytes, Claims, ReclaimAll;
    assert Bytes(ReclaimAll(c, once, records).free) == Bytes(once.free);
    CanonicalUnique(ReclaimAll(c, once, records).free, once.free);
  }

  lemma NoSecondClaim(before: set<nat>, after: set<nat>, records: seq<Region>, x: nat)
    requires forall y :: y in after <==> y in before && !Claims(before, records, y)
    requires x in after
    ensures !Claims(after, records, x)
  {
    hide Range;
    assert after <= before;
  }
}
