/** A fuzzy checkpoint samples its fence, then writes the allocator header while allocations go on. After a crash the
    entries since the fence are replayed over that later header. When that recovers the live state, and when not;
    and what it means for whole runs whose recoveries replay from a fence. */
module FuzzyCheckpoints {
  import opened Prelude
  import opened Regions
  import opened Freelist
  import opened Redo
  import opened AllocatorSpec
  import opened HeaderCodec
  import opened AllocatorRuns
  import opened AllocatorRecovery

  // ----- the entries a run journals -----

  /** An entry as the live path journals it: an allocation takes bytes that are not live, a free releases one live
      reservation whole. */
  ghost predicate Proper(c: Config, s: State, live: FreeMap, op: RedoOp)
    requires ValidConfig(c)
  {
    && Safe(c, s, live) && Clean(c, s, op) && !op.OtherOp? && op.deviceId == c.redoDeviceId
    && AlignReservation(c, op.size) == op.size
    && (op.size > 0 ==> InData(c, op.offset, op.size))
    && (op.AllocateRegion? ==> Range(op.offset, op.size) !! Bytes(live))
    && (op.FreeRegion? ==> op.offset in live && live[op.offset] == op.size)
  }

  /** Each entry is proper where it was journaled. */
  ghost predicate ProperAll(c: Config, s: State, live: FreeMap, ops: seq<RedoOp>)
    requires ValidConfig(c) && WellFormed(c, s)
  {
    && Safe(c, ReplayAll(c, s, ops), LiveAfter(live, ops))
    && (ops == [] ||
        var front := ops[..|ops| - 1];
        ProperAll(c, s, live, front) && Proper(c, ReplayAll(c, s, front), LiveAfter(live, front), ops[|ops| - 1]))
  }

  lemma ProperSnoc(c: Config, s: State, live: FreeMap, ops: seq<RedoOp>, op: RedoOp)
    requires ValidConfig(c) && WellFormed(c, s)
    ensures ProperAll(c, s, live, ops + [op]) <==>
            && Safe(c, ReplayAll(c, s, ops + [op]), LiveAfter(live, ops + [op]))
            && ProperAll(c, s, live, ops) && Proper(c, ReplayAll(c, s, ops), LiveAfter(live, ops), op)
  {
    assert (ops + [op])[..|ops|] == ops;
  }

  lemma {:induction false} ProperConcat(c: Config, s: State, live: FreeMap, xs: seq<RedoOp>, ys: seq<RedoOp>)
    requires ValidConfig(c) && WellFormed(c, s)
    requires ProperAll(c, s, live, xs) && ProperAll(c, ReplayAll(c, s, xs), LiveAfter(live, xs), ys)
    ensures ProperAll(c, s, live, xs + ys)
    decreases |ys|
  {
    hide Proper, Safe, WellFormed, ReplayAll, LiveAfter, ProperAll;
    if ys == [] {
      assert xs + ys == xs;
    } else {
      var front, last := ys[..|ys| - 1], ys[|ys| - 1];
      assert ys == front + [last];
      var mid, midLive := ReplayAll(c, s, xs), LiveAfter(live, xs);
      ProperSnoc(c, mid, midLive, front, last);
      ProperConcat(c, s, live, xs, front);
      ReplayAllConcat(c, s, xs, front);
      LiveConcat(live, xs, front);
      ReplayAllConcat(c, s, xs, ys);
      LiveConcat(live, xs, ys);
      ProperSnoc(c, s, live, xs + front, last);
      assert xs + ys == xs + front + [last];
    }
  }

  lemma {:induction false} ProperPrefix(c: Config, s: State, live: FreeMap, ops: seq<RedoOp>, m: nat)
    requires ValidConfig(c) && WellFormed(c, s) && ProperAll(c, s, live, ops) && m <= |ops|
    ensures ProperAll(c, s, live, ops[..m])
    ensures m < |ops| ==> Proper(c, ReplayAll(c, s, ops[..m]), LiveAfter(live, ops[..m]), ops[m])
    decreases |ops|
  {
    hide Proper, Safe, WellFormed, ReplayAll, LiveAfter;
    if m == |ops| {
      assert ops[..m] == ops;
    } else {
      var front := ops[..|ops| - 1];
      ProperPrefix(c, s, live, front, m);
      assert front[..m] == ops[..m];
    }
  }

  /** What an allocation journals. */
  lemma ReserveProper(c: Config, s: State, live: FreeMap, size: u64)
    requires ValidConfig(c) && Safe(c, s, live) && Reserve(c, s, AlignReservation(c, size)).Some?
    ensures var a := AlignReservation(c, size);
            Proper(c, s, live, AllocateRegion(Reserve(c, s, a).value.offset, a, c.redoDeviceId))
  {
    SafeParts(c, s, live);
    hide Safe, AlignReservation, Reserve, Bytes, Clean;
    var a := AlignReservation(c, size);
    AlignReservationIdempotent(c, size);
    ReserveClean(c, s, size);
    ReserveTakes(c, s, a);
    var r := Reserve(c, s, a).value;
    forall x | x in Range(r.offset, a) ensures x !in Bytes(live) {
      if x in Bytes(live) {
        var o := Owner(live, x);
        ReserveApart(c, s, live, a, o);
      }
    }
  }

  lemma ReserveClean(c: Config, s: State, size: u64)
    requires ValidConfig(c) && WellFormed(c, s) && Tight(s)
    requires Reserve(c, s, AlignReservation(c, size)).Some?
    ensures var a := AlignReservation(c, size);
            Clean(c, s, AllocateRegion(Reserve(c, s, a).value.offset, a, c.redoDeviceId))
  {
    AlignReservationIdempotent(c, size);
    hide AlignReservation, Place, AppendPoint;
    var a := AlignReservation(c, size);
    ReserveTakes(c, s, a);
    var r := Reserve(c, s, a).value;
    hide Reserve, Bytes;
  }

  lemma {:induction false} BatchProper(c: Config, s: State, live: FreeMap, sizes: seq<u64>)
    requires ValidConfig(c) && Safe(c, s, live)
    ensures WellFormed(c, s) && ProperAll(c, s, live, ReserveAll(c, s, sizes).ops)
    decreases |sizes|
  {
    SafeParts(c, s, live);
    ReplayBatch(c, s, live, sizes);
    LiveBatch(c, s, live, sizes);
    if sizes != [] {
      hide Safe, WellFormed, Proper, AlignReservation, Reserve, Tight, ReplayAll, LiveAfter, WithRegions;
      var n := |sizes| - 1;
      var b, b' := ReserveAll(c, s, sizes[..n]), ReserveAll(c, s, sizes);
      BatchProper(c, s, live, sizes[..n]);
      ReplayBatch(c, s, live, sizes[..n]);
      LiveBatch(c, s, live, sizes[..n]);
      if Reserve(c, b.state, AlignReservation(c, sizes[n])).Some? {
        ReserveProper(c, b.state, WithRegions(live, b.regions), sizes[n]);
        assert b'.ops[..|b.ops|] == b.ops;
      }
    }
  }

  /** What a free journals. */
  lemma FreeProper(c: Config, w: World, op: Op)
    requires ValidConfig(c) && Safe(c, w.state, w.live) && WellFormed(c, w.state) && op.Freeing? && Legal(c, w, op)
    ensures ProperAll(c, w.state, w.live, Entries(c, w.state, op))
    ensures var a := AlignReservation(c, op.size);
            && Releasable(c, w.state, op.offset, a)
            && ReplayAll(c, w.state, Entries(c, w.state, op)) == Release(c, w.state, op.offset, a)
            && LiveAfter(w.live, Entries(c, w.state, op)) == w.live - {op.offset}
  {
    hide Safe, WellFormed, AlignReservation, ReplayAll, LiveAfter, Release, Replay, Clean, Releasable, ProperAll;
    SafeRelease(c, w.state, w.live, op.offset);
    ReplayRelease(c, w.state, op.offset, op.size);
    AlignReservationIdempotent(c, op.size);
    FreeClean(c, w.state, op.offset, op.size);
    var e := Entries(c, w.state, op)[0];
    NothingLanded(c, w);
    ReplayAllSnoc(c, w.state, [], e);
    LiveSnoc(w.live, [], e);
    NoEntriesProper(c, w.state, w.live);
    ProperSnoc(c, w.state, w.live, [], e);
    assert [] + [e] == Entries(c, w.state, op);
  }

  lemma FreeClean(c: Config, s: State, offset: nat, size: u64)
    requires ValidConfig(c) && Releasable(c, s, offset, AlignReservation(c, size))
    ensures var a := AlignReservation(c, size);
            Clean(c, s, RedoOp.FreeRegion(offset, a, c.redoDeviceId)) && InData(c, offset, a)
  {
    AlignReservationIdempotent(c, size);
    hide AlignReservation, Bytes, Range;
  }

  lemma NoEntriesProper(c: Config, s: State, live: FreeMap)
    requires ValidConfig(c) && Safe(c, s, live)
    ensures WellFormed(c, s) && ProperAll(c, s, live, [])
    ensures ReplayAll(c, s, []) == s && LiveAfter(live, []) == live
  {
    SafeParts(c, s, live);
    hide Safe, WellFormed;
  }

  /** The part of the interrupted operation that landed is proper too. */
  lemma LandedProper(c: Config, w: World, op: Op, k: nat)
    requires ValidConfig(c) && Safe(c, w.state, w.live) && WellFormed(c, w.state) && Legal(c, w, op)
    requires (op.Allocating? || op.Freeing?) && k <= |Entries(c, w.state, op)|
    ensures ProperAll(c, w.state, w.live, Entries(c, w.state, op)[..k])
  {
    hide Safe, WellFormed, AlignReservation, ProperAll, Releasable, Release;
    if op.Allocating? {
      var j := BatchPrefix(c, w.state, op.sizes, k);
      BatchProper(c, w.state, w.live, op.sizes[..j]);
    } else {
      FreeProper(c, w, op);
      ProperPrefix(c, w.state, w.live, Entries(c, w.state, op), k);
    }
  }

  /** The log grows by entries that are proper and lead from the old state and live map to the new ones. */
  lemma StepEntries(c: Config, id: seq<byte>, crc: Checksum, w: World, op: Op) returns (e: seq<RedoOp>)
    requires ValidConfig(c) && |id| == ID_SIZE && Sound(c, id, crc, w) && Legal(c, w, op)
    ensures WellFormed(c, w.state)
    ensures var w' := Exec(c, id, crc, w, op);
            && w'.log.entries == w.log.entries + e && ProperAll(c, w.state, w.live, e)
            && ReplayAll(c, w.state, e) == w'.state && LiveAfter(w.live, e) == w'.live
  {
    hide Exec, Safe, WellFormed, ProperAll, ReplayAll, LiveAfter, Rebuilds, Legal;
    SafeParts(c, w.state, w.live);
    match op
    case Allocating(_, _) => e := AllocatingEntries(c, id, crc, w, op);
    case Freeing(_, _, _) => e := FreeingEntries(c, id, crc, w, op);
    case Restarting(k) => e := RestartingEntries(c, id, crc, w, k);
    case _ =>
      e := [];
      NoEntriesProper(c, w.state, w.live);
      NothingJournaled(c, id, crc, w, op);
  }

  lemma NothingJournaled(c: Config, id: seq<byte>, crc: Checksum, w: World, op: Op)
    requires ValidConfig(c) && |id| == ID_SIZE && !op.Allocating? && !op.Freeing? && !op.Restarting?
    ensures var w' := Exec(c, id, crc, w, op);
            w'.log.entries == w.log.entries + [] && w'.state == w.state && w'.live == w.live
  {
    hide WithHeader, WithPartOfHeader;
  }

  lemma FreeingEntries(c: Config, id: seq<byte>, crc: Checksum, w: World, op: Op) returns (e: seq<RedoOp>)
    requires ValidConfig(c) && |id| == ID_SIZE && Safe(c, w.state, w.live) && WellFormed(c, w.state)
    requires op.Freeing? && Legal(c, w, op)
    ensures var w' := Exec(c, id, crc, w, op);
            && w'.log.entries == w.log.entries + e && ProperAll(c, w.state, w.live, e)
            && ReplayAll(c, w.state, e) == w'.state && LiveAfter(w.live, e) == w'.live
  {
    hide Safe, WellFormed, ProperAll, ReplayAll, LiveAfter, AlignReservation, Release, Releasable;
    NoEntriesProper(c, w.state, w.live);
    FreeProper(c, w, op);
    e := if Accepts(w.log, op.fate) then Entries(c, w.state, op) else [];
  }

  lemma AllocatingEntries(c: Config, id: seq<byte>, crc: Checksum, w: World, op: Op) returns (e: seq<RedoOp>)
    requires ValidConfig(c) && |id| == ID_SIZE && Safe(c, w.state, w.live) && WellFormed(c, w.state) && op.Allocating?
    ensures var w' := Exec(c, id, crc, w, op);
            && w'.log.entries == w.log.entries + e && ProperAll(c, w.state, w.live, e)
            && ReplayAll(c, w.state, e) == w'.state && LiveAfter(w.live, e) == w'.live
  {
    hide Safe, WellFormed, ProperAll, ReplayAll, LiveAfter, ReserveAll, WithRegions;
    NoEntriesProper(c, w.state, w.live);
    BatchProper(c, w.state, w.live, op.sizes);
    ReplayBatch(c, w.state, w.live, op.sizes);
    LiveBatch(c, w.state, w.live, op.sizes);
    var b := ReserveAll(c, w.state, op.sizes);
    e := if b.ops == [] || Accepts(w.log, op.fate) then b.ops else [];
  }

  lemma RestartingEntries(c: Config, id: seq<byte>, crc: Checksum, w: World, k: nat) returns (e: seq<RedoOp>)
    requires ValidConfig(c) && |id| == ID_SIZE && Sound(c, id, crc, w) && Legal(c, w, Restarting(k))
    ensures WellFormed(c, w.state)
    ensures var w' := Exec(c, id, crc, w, Restarting(k));
            && w'.log.entries == w.log.entries + e && ProperAll(c, w.state, w.live, e)
            && ReplayAll(c, w.state, e) == w'.state && LiveAfter(w.live, e) == w'.live
  {
    hide Safe, WellFormed, ProperAll, ReplayAll, LiveAfter, Rebuilds, Restarted;
    RestartingSound(c, id, crc, w, k);
    e := w.log.torn[..k];
    if w.log.poisoned {
      var op :| Interrupted(c, w, op);
      LandedProper(c, w, op, k);
    } else {
      assert e == [];
      NoEntriesProper(c, w.state, w.live);
    }
  }

  /** Between two worlds of a run the log grows by proper entries, which say exactly how the state and the live
      reservations changed, crashes and restarts included. */
  lemma {:induction false} RunBetween(c: Config, id: seq<byte>, crc: Checksum, ws: seq<World>, ops: seq<Op>, i: nat, j: nat)
    requires ValidConfig(c) && c.deviceSize >= DATA_REGION_OFFSET && |id| == ID_SIZE
    requires IsRun(c, id, crc, ws, ops) && i <= j < |ws|
    ensures WellFormed(c, ws[i].state) && ws[i].log.entries <= ws[j].log.entries
    ensures var e := ws[j].log.entries[|ws[i].log.entries|..];
            && ProperAll(c, ws[i].state, ws[i].live, e)
            && ReplayAll(c, ws[i].state, e) == ws[j].state && LiveAfter(ws[i].live, e) == ws[j].live
    decreases j
  {
    hide Sound, Safe, WellFormed, Legal, Exec, ProperAll, ReplayAll, LiveAfter;
    RunSound(c, id, crc, ws, ops, i);
    SoundSafe(c, id, crc, ws[i]);
    if i == j {
      NoEntriesProper(c, ws[i].state, ws[i].live);
      assert ws[j].log.entries[|ws[i].log.entries|..] == [];
    } else {
      RunBetween(c, id, crc, ws, ops, i, j - 1);
      RunSound(c, id, crc, ws, ops, j - 1);
      assert Legal(c, ws[j - 1], ops[j - 1]);
      var e := StepEntries(c, id, crc, ws[j - 1], ops[j - 1]);
      var n, front := |ws[i].log.entries|, ws[j - 1].log.entries[|ws[i].log.entries|..];
      ProperConcat(c, ws[i].state, ws[i].live, front, e);
      ReplayAllConcat(c, ws[i].state, front, e);
      LiveConcat(ws[i].live, front, e);
      assert (ws[j - 1].log.entries + e)[n..] == front + e;
    }
  }

  lemma SoundSafe(c: Config, id: seq<byte>, crc: Checksum, w: World)
    requires ValidConfig(c) && Sound(c, id, crc, w)
    ensures Safe(c, w.state, w.live) && WellFormed(c, w.state)
  {
  }

  /** Entries of a run replay to their set-level meaning. */
  lemma {:induction false} ProperClean(c: Config, s: State, live: FreeMap, ops: seq<RedoOp>)
    requires ValidConfig(c) && WellFormed(c, s) && ProperAll(c, s, live, ops)
    ensures CleanAll(c, s, ops)
  {
    hide Safe, WellFormed, Clean, AlignReservation, ReplayAll, LiveAfter;
    if ops != [] { ProperClean(c, s, live, ops[..|ops| - 1]); }
  }

  /** Between two worlds of a run the free bytes and the high-water mark changed exactly as the journal says. */
  lemma JournalMeaning(c: Config, id: seq<byte>, crc: Checksum, ws: seq<World>, ops: seq<Op>, i: nat, j: nat)
    requires ValidConfig(c) && c.deviceSize >= DATA_REGION_OFFSET && |id| == ID_SIZE
    requires IsRun(c, id, crc, ws, ops) && i <= j < |ws|
    ensures ws[i].log.entries <= ws[j].log.entries
    ensures var e := ws[j].log.entries[|ws[i].log.entries|..];
            && Bytes(ws[j].state.free) == TargetAll(c, Bytes(ws[i].state.free), e)
            && ws[j].state.next == Highest(c, ws[i].state.next, e)
            && ws[j].live == LiveAfter(ws[i].live, e)
  {
    hide IsRun, WellFormed, ProperAll, ReplayAll, LiveAfter, Bytes, TargetAll, Highest, CleanAll;
    RunBetween(c, id, crc, ws, ops, i, j);
    var e := ws[j].log.entries[|ws[i].log.entries|..];
    ProperClean(c, ws[i].state, ws[i].live, e);
    ReplayMeaning(c, ws[i].state, e);
  }

  // ----- what entries touch -----

  lemma ProperTouch(c: Config, s: State, live: FreeMap, op: RedoOp)
    requires ValidConfig(c) && Proper(c, s, live, op)
    ensures TouchBytes(c, op) == Range(op.offset, op.size)
    ensures op.size > 0 ==> Touch(c, op) == Some(Region(op.offset, op.size))
    ensures op.FreeRegion? ==> op.size > 0
  {
    hide AlignReservation, Clean, Bytes;
    if op.FreeRegion? { assert LiveRegion(c, s, op.offset, live[op.offset]); }
  }

  lemma RangesApart(a: nat, m: nat, b: nat, n: nat)
    requires a + m <= b || b + n <= a
    ensures Range(a, m) !! Range(b, n)
  {
  }

  /** An entry leaves every live reservation alone except the one it frees. */
  lemma ProperApart(c: Config, s: State, live: FreeMap, op: RedoOp, o: nat)
    requires ValidConfig(c) && Proper(c, s, live, op) && o in live
    requires op.FreeRegion? ==> op.offset != o
    ensures TouchBytes(c, op) !! Range(o, live[o]) && o in LiveStep(live, op) && LiveStep(live, op)[o] == live[o]
  {
    ProperTouch(c, s, live, op);
    hide AlignReservation, Clean, TouchBytes;
    assert LiveRegion(c, s, o, live[o]);
    if op.FreeRegion? {
      RangesApart(op.offset, op.size, o, live[o]);
    } else {
      forall x | x in Range(o, live[o]) ensures x in Bytes(live) { Owned(live, o, x); }
      if op.size > 0 { InRange(op.offset, op.size, op.offset); InRange(o, live[o], o); }
    }
  }

  /** A reservation that is not freed stays live and untouched. */
  lemma {:induction false} StaysLive(c: Config, s: State, live: FreeMap, ops: seq<RedoOp>, o: nat)
    requires ValidConfig(c) && WellFormed(c, s) && ProperAll(c, s, live, ops) && o in live
    requires forall m :: 0 <= m < |ops| && ops[m].FreeRegion? ==> ops[m].offset != o
    ensures o in LiveAfter(live, ops) && LiveAfter(live, ops)[o] == live[o]
    ensures Range(o, live[o]) !! Touched(c, ops)
  {
    hide Proper, Safe, WellFormed, Range, TouchBytes, LiveStep;
    if ops != [] {
      var n := |ops| - 1;
      StaysLive(c, s, live, ops[..n], o);
      ProperApart(c, ReplayAll(c, s, ops[..n]), LiveAfter(live, ops[..n]), ops[n], o);
    }
  }

  /** A reservation that is freed is touched whole. */
  lemma {:induction false} FreedWhole(c: Config, s: State, live: FreeMap, ops: seq<RedoOp>, o: nat, m: nat)
    requires ValidConfig(c) && WellFormed(c, s) && ProperAll(c, s, live, ops) && o in live
    requires m < |ops| && ops[m].FreeRegion? && ops[m].offset == o
    ensures Range(o, live[o]) <= Touched(c, ops)
  {
    hide Safe, WellFormed, Range, TouchBytes, Clean, AlignReservation, ProperAll, ReplayAll, LiveAfter;
    var n := |ops| - 1;
    var front := ops[..n];
    ProperPrefix(c, s, live, ops, n);
    assert m < n ==> front[m] == ops[m];
    if k :| 0 <= k < n && front[k].FreeRegion? && front[k].offset == o {
      FreedWhole(c, s, live, front, o, k);
    } else {
      StaysLive(c, s, live, front, o);
      ProperTouch(c, ReplayAll(c, s, front), LiveAfter(live, front), ops[n]);
    }
  }

  /** A live reservation has been touched whole since the fence, or not at all. */
  lemma {:induction false} WholeOrNothing(c: Config, s: State, live: FreeMap, ops: seq<RedoOp>, o: nat)
    requires ValidConfig(c) && WellFormed(c, s) && ProperAll(c, s, live, ops) && o in LiveAfter(live, ops)
    ensures var r := Range(o, LiveAfter(live, ops)[o]); r <= Touched(c, ops) || r !! Touched(c, ops)
  {
    hide Safe, WellFormed, Range, TouchBytes, Clean, AlignReservation;
    if ops != [] {
      var n := |ops| - 1;
      var mid, before, op := ReplayAll(c, s, ops[..n]), LiveAfter(live, ops[..n]), ops[n];
      ProperTouch(c, mid, before, op);
      if o in before && (op.FreeRegion? ==> op.offset != o) {
        ProperApart(c, mid, before, op, o);
        WholeOrNothing(c, s, live, ops[..n], o);
      }
    }
  }

  // ----- replay over the later header -----

  /** Every allocation overlaps at most one free region where it is replayed. */
  ghost predicate OneRegionEach(c: Config, h: State, ops: seq<RedoOp>)
    requires ValidConfig(c) && WellFormed(c, h)
  {
    forall m :: 0 <= m < |ops| ==> OneRegionAt(c, h, ops, m)
  }

  ghost predicate OneRegionAt(c: Config, h: State, ops: seq<RedoOp>, m: nat)
    requires ValidConfig(c) && WellFormed(c, h) && m < |ops|
  {
    match Touch(c, ops[m])
    case None => true
    case Some(r) => ops[m].AllocateRegion? ==> AtMostOne(ReplayAll(c, h, ops[..m]).free, r.offset, r.offset + r.size)
  }

  /** How the replayed free bytes `p` follow the real ones `r`. Untouched bytes show the header `h`. A touched byte may
      be missing from `p` only if it is not free in the header, that is, if it was taken again before the header. */
  ghost predicate Tracks(p: set<nat>, r: set<nat>, touched: set<nat>, h: set<nat>) {
    && (forall x :: x !in touched ==> (x in p <==> x in h))
    && (forall x :: x in touched && x in p ==> x in r)
    && (forall x :: x in touched && x in r && x !in p ==> x !in h)
  }

  lemma TracksTaken(p: set<nat>, r: set<nat>, touched: set<nat>, h: set<nat>, range: set<nat>)
    requires Tracks(p, r, touched, h)
    ensures Tracks(p - range, r - range, touched + range, h)
  {
  }

  lemma TracksFreed(p: set<nat>, r: set<nat>, touched: set<nat>, h: set<nat>, range: set<nat>)
    requires Tracks(p, r, touched, h)
    ensures Tracks(p + range, r + range, touched + range, h)
  {
  }

  /** A free that finds part of its range free is skipped: the range was untouched, so it still shows the header. */
  lemma TracksSkipped(p: set<nat>, r: set<nat>, touched: set<nat>, h: set<nat>, range: set<nat>)
    requires Tracks(p, r, touched, h) && !(range !! p) && range !! r && (range <= touched || range !! touched)
    ensures Tracks(p, r + range, touched + range, h)
  {
    var y :| y in range && y in p;
    assert y !in touched;
  }

  lemma {:induction false} Window(c: Config, s: State, live: FreeMap, h: State, ops: seq<RedoOp>, m: nat)
    requires ValidConfig(c) && WellFormed(c, s) && WellFormed(c, h) && m <= |ops|
    requires ProperAll(c, s, live, ops) && OneRegionEach(c, h, ops)
    ensures Tracks(Bytes(ReplayAll(c, h, ops[..m]).free), Bytes(ReplayAll(c, s, ops[..m]).free),
                   Touched(c, ops[..m]), Bytes(h.free))
  {
    hide WellFormed, Proper, ProperAll, Bytes, Tracks, Replay;
    if m == 0 {
      assert ops[..0] == [];
      NothingTouched(Bytes(h.free), Bytes(s.free));
    } else {
      Window(c, s, live, h, ops, m - 1);
      ProperPrefix(c, s, live, ops, m - 1);
      assert ops[..m][..m - 1] == ops[..m - 1];
      assert OneRegionAt(c, h, ops, m - 1);
      ProperTouch(c, ReplayAll(c, s, ops[..m - 1]), LiveAfter(live, ops[..m - 1]), ops[m - 1]);
      WindowStep(c, s, live, h, ops[..m - 1], ops[m - 1]);
    }
  }

  lemma NothingTouched(h: set<nat>, r: set<nat>)
    ensures Tracks(h, r, {}, h)
  {
  }

  lemma WindowStep(c: Config, s: State, live: FreeMap, h: State, ops: seq<RedoOp>, op: RedoOp)
    requires ValidConfig(c) && WellFormed(c, s) && WellFormed(c, h)
    requires ProperAll(c, s, live, ops) && Proper(c, ReplayAll(c, s, ops), LiveAfter(live, ops), op)
    requires op.AllocateRegion? && op.size > 0 ==> AtMostOne(ReplayAll(c, h, ops).free, op.offset, op.offset + op.size)
    requires Tracks(Bytes(ReplayAll(c, h, ops).free), Bytes(ReplayAll(c, s, ops).free), Touched(c, ops), Bytes(h.free))
    ensures Tracks(Bytes(Replay(c, ReplayAll(c, h, ops), op).free), Bytes(Replay(c, ReplayAll(c, s, ops), op).free),
                   Touched(c, ops) + TouchBytes(c, op), Bytes(h.free))
  {
    hide WellFormed, ProperAll, Bytes, Tracks, Replay, Safe, Clean, AlignReservation;
    var mid, over := ReplayAll(c, s, ops), ReplayAll(c, h, ops);
    var p, r, t, range := Bytes(over.free), Bytes(mid.free), Touched(c, ops), Range(op.offset, op.size);
    ProperTouch(c, mid, LiveAfter(live, ops), op);
    ProperEffect(c, mid, LiveAfter(live, ops), op);
    ReplaysAs(c, over, op);
    if op.AllocateRegion? {
      TracksTaken(p, r, t, Bytes(h.free), range);
    } else {
      WholeOrNothing(c, s, live, ops, op.offset);
      FreedWasTaken(c, mid, LiveAfter(live, ops), op);
      if range !! p { TracksFreed(p, r, t, Bytes(h.free), range); } else { TracksSkipped(p, r, t, Bytes(h.free), range); }
    }
  }

  /** What replaying one entry does to the free bytes: it takes or frees its range, or a free is skipped. */
  lemma ReplaysAs(c: Config, s: State, op: RedoOp)
    requires ValidConfig(c) && WellFormed(c, s) && !op.OtherOp? && op.deviceId == c.redoDeviceId
    requires AlignReservation(c, op.size) == op.size && (op.size > 0 ==> InData(c, op.offset, op.size))
    ensures var range := Range(op.offset, op.size);
            && (op.AllocateRegion? && (op.size == 0 || AtMostOne(s.free, op.offset, op.offset + op.size)) ==>
                  Bytes(Replay(c, s, op).free) == Bytes(s.free) - range)
            && (op.FreeRegion? && op.size > 0 && range !! Bytes(s.free) ==>
                  Bytes(Replay(c, s, op).free) == Bytes(s.free) + range)
            && (op.FreeRegion? && !(range !! Bytes(s.free)) ==> Replay(c, s, op) == s)
  {
    hide AlignReservation, CarveFirst, AddRange, Bytes;
    if op.AllocateRegion? && op.size > 0 { CarveExactIff(s.free, op.offset, op.offset + op.size); }
  }

  /** A proper entry takes or frees exactly its range. */
  lemma ProperEffect(c: Config, s: State, live: FreeMap, op: RedoOp)
    requires ValidConfig(c) && WellFormed(c, s) && Proper(c, s, live, op)
    ensures var range := Range(op.offset, op.size);
            Bytes(Replay(c, s, op).free) == if op.AllocateRegion? then Bytes(s.free) - range else Bytes(s.free) + range
  {
    ProperTouch(c, s, live, op);
    ReplayExactIff(c, s, op);
    hide Bytes, Replay, Clean, AlignReservation, TouchBytes;
    if op.size == 0 { assert Range(op.offset, op.size) == {}; }
  }

  lemma FreedWasTaken(c: Config, s: State, live: FreeMap, op: RedoOp)
    requires ValidConfig(c) && Proper(c, s, live, op) && op.FreeRegion?
    ensures Range(op.offset, op.size) !! Bytes(s.free)
  {
    assert LiveRegion(c, s, op.offset, live[op.offset]);
  }

  /** Replaying the window over the header it led to changes nothing. */
  lemma WindowExact(c: Config, s: State, live: FreeMap, ops: seq<RedoOp>)
    requires ValidConfig(c) && WellFormed(c, s) && ProperAll(c, s, live, ops)
    requires OneRegionEach(c, ReplayAll(c, s, ops), ops)
    ensures ReplayAll(c, ReplayAll(c, s, ops), ops) == ReplayAll(c, s, ops)
  {
    var h := ReplayAll(c, s, ops);
    Window(c, s, live, h, ops, |ops|);
    assert ops[..|ops|] == ops;
    hide Bytes, ReplayAll, OneRegionEach, ProperAll, WellFormed;
    assert Bytes(ReplayAll(c, h, ops).free) == Bytes(h.free);
    ReplayMark(c, s, ops);
    ReplayMark(c, h, ops);
    HighestFixed(c, s.next, h.next, ops);
    SameState(c, ReplayAll(c, h, ops), h);
  }

  /** A fuzzy checkpoint samples its fence at `i` and writes the header later, at `j`. After a crash at `k` the
      entries from the fence on are replayed over that header. That recovers the live state whenever every allocation
      journaled between fence and header overlaps at most one free region when it is replayed. */
  lemma FuzzyRecovery(c: Config, id: seq<byte>, crc: Checksum, ws: seq<World>, ops: seq<Op>, i: nat, j: nat, k: nat)
    requires ValidConfig(c) && c.deviceSize >= DATA_REGION_OFFSET && |id| == ID_SIZE
    requires IsRun(c, id, crc, ws, ops) && i <= j <= k < |ws| && WellFormed(c, ws[j].state)
    requires |ws[i].log.entries| <= |ws[j].log.entries| && |ws[i].log.entries| <= |ws[k].log.entries|
    requires OneRegionEach(c, ws[j].state, ws[j].log.entries[|ws[i].log.entries|..])
    ensures ReplayAll(c, ws[j].state, ws[k].log.entries[|ws[i].log.entries|..]) == ws[k].state
  {
    hide WellFormed, IsRun, ProperAll, ReplayAll, LiveAfter, OneRegionEach;
    RunBetween(c, id, crc, ws, ops, i, j);
    RunBetween(c, id, crc, ws, ops, j, k);
    var n := |ws[i].log.entries|;
    var xs, ys := ws[j].log.entries[n..], ws[k].log.entries[|ws[j].log.entries|..];
    assert ws[k].log.entries[n..] == xs + ys;
    WindowExact(c, ws[i].state, ws[i].live, xs);
    ReplayAllConcat(c, ws[j].state, xs, ys);
  }

  // ----- an allocation over two free regions -----

  ghost predicate FreedAgain(ops: seq<RedoOp>, m: nat)
    requires m < |ops| && ops[m].AllocateRegion?
  {
    exists k :: m < k < |ops| && ops[k].FreeRegion? && ops[k].offset == ops[m].offset
  }

  lemma {:induction false} ProperSuffix(c: Config, s: State, live: FreeMap, ops: seq<RedoOp>, m: nat)
    requires ValidConfig(c) && WellFormed(c, s) && ProperAll(c, s, live, ops) && m <= |ops|
    ensures ProperAll(c, ReplayAll(c, s, ops[..m]), LiveAfter(live, ops[..m]), ops[m..])
    decreases |ops|
  {
    hide Proper, Safe, WellFormed, ReplayAll, LiveAfter, ProperAll;
    if m == |ops| {
      ProperPrefix(c, s, live, ops, m);
      assert ops[m..] == [];
      ProperSafe(c, s, live, ops[..m]);
      NoEntriesProper(c, ReplayAll(c, s, ops[..m]), LiveAfter(live, ops[..m]));
    } else {
      var front, last := ops[..|ops| - 1], ops[|ops| - 1];
      assert ops == front + [last] && front[..m] == ops[..m];
      ProperSnoc(c, s, live, front, last);
      ProperSuffix(c, s, live, front, m);
      var mid, midLive := ReplayAll(c, s, ops[..m]), LiveAfter(live, ops[..m]);
      assert front == ops[..m] + front[m..] && ops == ops[..m] + ops[m..] && ops[m..] == front[m..] + [last];
      ReplayAllConcat(c, s, ops[..m], front[m..]);
      LiveConcat(live, ops[..m], front[m..]);
      ReplayAllConcat(c, s, ops[..m], ops[m..]);
      LiveConcat(live, ops[..m], ops[m..]);
      ProperSnoc(c, mid, midLive, front[m..], last);
    }
  }

  lemma ProperSafe(c: Config, s: State, live: FreeMap, ops: seq<RedoOp>)
    requires ValidConfig(c) && WellFormed(c, s) && ProperAll(c, s, live, ops)
    ensures Safe(c, ReplayAll(c, s, ops), LiveAfter(live, ops))
  {
  }

  /** The bytes an entry touches and no later entry touches keep what the entry made of them. */
  lemma SettledByte(c: Config, h: State, ops: seq<RedoOp>, m: nat, x: nat)
    requires ValidConfig(c) && WellFormed(c, h) && m < |ops| && x !in Touched(c, ops[m + 1..])
    ensures x in Bytes(ReplayAll(c, h, ops).free) <==> x in Bytes(Replay(c, ReplayAll(c, h, ops[..m]), ops[m]).free)
  {
    hide Bytes, Replay, Touched, ReplayAll, WellFormed;
    var upTo := ReplayAll(c, h, ops[..m + 1]);
    assert ops[..m + 1] == ops[..m] + [ops[m]] && ops == ops[..m + 1] + ops[m + 1..];
    ReplayAllSnoc(c, h, ops[..m], ops[m]);
    ReplayAllConcat(c, h, ops[..m + 1], ops[m + 1..]);
    ReplayAllFrame(c, upTo, ops[m + 1..], x);
  }

  /** A new reservation that is not freed again is live at the end and its bytes are settled. */
  lemma KeptReservation(c: Config, s: State, live: FreeMap, ops: seq<RedoOp>, m: nat)
    requires ValidConfig(c) && WellFormed(c, s) && ProperAll(c, s, live, ops) && m < |ops|
    requires ops[m].AllocateRegion? && ops[m].size > 0 && !FreedAgain(ops, m)
    ensures ops[m].offset in LiveAfter(live, ops) && LiveAfter(live, ops)[ops[m].offset] == ops[m].size
    ensures Range(ops[m].offset, ops[m].size) !! Touched(c, ops[m + 1..])
  {
    hide Proper, Safe, WellFormed, ReplayAll, LiveAfter, ProperAll, Range, Touched;
    var o, later := ops[m].offset, ops[m + 1..];
    ProperSuffix(c, s, live, ops, m + 1);
    assert ops[..m + 1] == ops[..m] + [ops[m]] && ops == ops[..m + 1] + later;
    LiveSnoc(live, ops[..m], ops[m]);
    LiveConcat(live, ops[..m + 1], later);
    forall k | 0 <= k < |later| && later[k].FreeRegion? ensures later[k].offset != o { assert later[k] == ops[m + 1 + k]; }
    StaysLive(c, ReplayAll(c, s, ops[..m + 1]), LiveAfter(live, ops[..m + 1]), later, o);
  }

  /** An allocation replayed over two free regions, whose reservation is not freed again, leaves a live byte free. */
  lemma TwoRegionsLeak(c: Config, s: State, live: FreeMap, h: State, ops: seq<RedoOp>, m: nat) returns (x: nat)
    requires ValidConfig(c) && WellFormed(c, s) && WellFormed(c, h) && ProperAll(c, s, live, ops) && m < |ops|
    requires ops[m].AllocateRegion? && !OneRegionAt(c, h, ops, m) && !FreedAgain(ops, m)
    ensures x in Bytes(LiveAfter(live, ops)) && x in Bytes(ReplayAll(c, h, ops).free)
    ensures x !in Bytes(ReplayAll(c, s, ops).free)
    ensures Leaked(c, h, LiveAfter(live, ops), ops, ops[m].offset, x)
  {
    hide Bytes, ReplayAll, LiveAfter, ProperAll, Proper, Touched, WellFormed, Safe, OneRegionAt, FreedAgain;
    var o, n, over := ops[m].offset, ops[m].size, ReplayAll(c, h, ops[..m]);
    TwoRegions(c, s, live, h, ops, m);
    KeptReservation(c, s, live, ops, m);
    x := CarvedOnce(c, over, ops[m]);
    SettledByte(c, h, ops, m, x);
    InRange(o, n, x);
    InRange(o, n, o);
    SettledByte(c, h, ops, m, o);
    Owned(LiveAfter(live, ops), o, x);
    ProperSafe(c, s, live, ops);
    LiveByte(c, ReplayAll(c, s, ops), LiveAfter(live, ops), x);
  }

  lemma TwoRegions(c: Config, s: State, live: FreeMap, h: State, ops: seq<RedoOp>, m: nat)
    requires ValidConfig(c) && WellFormed(c, s) && WellFormed(c, h) && ProperAll(c, s, live, ops) && m < |ops|
    requires ops[m].AllocateRegion? && !OneRegionAt(c, h, ops, m)
    ensures ops[m].size > 0 && Touch(c, ops[m]) == Some(Region(ops[m].offset, ops[m].size))
    ensures !AtMostOne(ReplayAll(c, h, ops[..m]).free, ops[m].offset, ops[m].offset + ops[m].size)
  {
    hide ReplayAll, LiveAfter, ProperAll, WellFormed, Safe, Clean, AlignReservation, AtMostOne;
    ProperPrefix(c, s, live, ops, m);
    ProperTouch(c, ReplayAll(c, s, ops[..m]), LiveAfter(live, ops[..m]), ops[m]);
  }

  lemma CarvedOnce(c: Config, s: State, op: RedoOp) returns (x: nat)
    requires ValidConfig(c) && WellFormed(c, s) && op.AllocateRegion? && Touch(c, op) == Some(Region(op.offset, op.size))
    requires !AtMostOne(s.free, op.offset, op.offset + op.size)
    ensures x in Range(op.offset, op.size) && x in Bytes(Replay(c, s, op).free)
    ensures op.offset !in Bytes(Replay(c, s, op).free)
  {
    hide AlignReservation, Bytes;
    var lo, hi := op.offset, op.offset + op.size;
    var p: nat, q: nat :| Overlaps(s.free, lo, hi, p) && Overlaps(s.free, lo, hi, q) && p != q;
    var f := FirstOverlap(s.free, lo, hi);
    x := if p == f then q else p;
    SecondStays(s.free, lo, hi, f, x);
    FirstByteTaken(s.free, lo, hi);
  }

  /** Carving always takes the first byte of the range. */
  lemma FirstByteTaken(m: FreeMap, lo: nat, hi: nat)
    requires Canonical(m) && lo < hi
    ensures lo !in Bytes(CarveFirst(m, lo, hi))
  {
    CarveFirstBytes(m, lo, hi);
    if lo in Bytes(m) {
      var p := Owner(m, lo);
      assert Overlaps(m, lo, hi, p);
      var f := FirstOverlap(m, lo, hi);
      assert Overlaps(m, lo, hi, f) && f == p;
      hide Bytes, Canonical;
      InRange(lo, hi - lo, lo);
      InRange(p, m[p], lo);
    }
  }

  /** Byte `x` of the live reservation at `o` is free after replay, but the reservation's first byte is not. */
  ghost predicate Leaked(c: Config, h: State, live: FreeMap, ops: seq<RedoOp>, o: nat, x: nat)
    requires ValidConfig(c) && WellFormed(c, h)
  {
    var free := Bytes(ReplayAll(c, h, ops).free);
    o in live && x in Range(o, live[o]) && x in free && o !in free && o in Range(o, live[o])
  }

  /** In a run: replayed over the header of `j`, an allocation over two free regions whose reservation is still live at
      `k` leaves one of its bytes free, so recovery differs from the live state. */
  lemma FuzzyLeavesLiveFree(c: Config, id: seq<byte>, crc: Checksum, ws: seq<World>, ops: seq<Op>,
                            i: nat, j: nat, k: nat, m: nat)
    returns (x: nat)
    requires ValidConfig(c) && c.deviceSize >= DATA_REGION_OFFSET && |id| == ID_SIZE
    requires IsRun(c, id, crc, ws, ops) && i <= j <= k < |ws| && WellFormed(c, ws[j].state)
    requires |ws[i].log.entries| <= |ws[k].log.entries|
    requires var e := ws[k].log.entries[|ws[i].log.entries|..];
             m < |e| && e[m].AllocateRegion? && !OneRegionAt(c, ws[j].state, e, m) && !FreedAgain(e, m)
    ensures var replayed := ReplayAll(c, ws[j].state, ws[k].log.entries[|ws[i].log.entries|..]);
            x in Bytes(ws[k].live) && x in Bytes(replayed.free) && replayed != ws[k].state
    ensures var e := ws[k].log.entries[|ws[i].log.entries|..];
            Leaked(c, ws[j].state, ws[k].live, e, e[m].offset, x)
  {
    hide WellFormed, IsRun, ProperAll, ReplayAll, LiveAfter, OneRegionAt, FreedAgain, Bytes, Leaked;
    RunBetween(c, id, crc, ws, ops, i, k);
    x := TwoRegionsLeak(c, ws[i].state, ws[i].live, ws[j].state, ws[k].log.entries[|ws[i].log.entries|..], m);
  }

  /** The records are live reservations, each at most once. */
  ghost predicate LiveRecords(live: FreeMap, records: seq<Region>) {
    && Apart(records)
    && forall i :: 0 <= i < |records| ==> records[i].offset in live && records[i].size == live[records[i].offset]
  }

  /** Reconciling with the live records cannot repair the leak: the record does not lie wholly in free space, so it is
      left alone, and no other record holds the byte. */
  lemma LeakStays(c: Config, s: State, live: FreeMap, h: State, ops: seq<RedoOp>, o: nat, x: nat, records: seq<Region>)
    requires ValidConfig(c) && WellFormed(c, h) && Safe(c, s, live) && Leaked(c, h, live, ops, o, x)
    requires LiveRecords(live, records)
    ensures x in Bytes(ReclaimAll(c, ReplayAll(c, h, ops), records).free)
  {
    hide Bytes, ReplayAll, Canonical, ReclaimAll;
    var free := Bytes(ReplayAll(c, h, ops).free);
    ReclaimAllBytes(c, ReplayAll(c, h, ops), records);
    forall i | 0 <= i < |records|
      ensures !(Range(records[i].offset, records[i].size) <= free && x in Range(records[i].offset, records[i].size))
    {
      var r := records[i];
      if r.offset != o { OtherRecord(c, s, live, o, r.offset); }
    }
  }

  lemma OtherRecord(c: Config, s: State, live: FreeMap, o: nat, p: nat)
    requires ValidConfig(c) && Safe(c, s, live) && o in live && p in live && o != p
    ensures Range(o, live[o]) !! Range(p, live[p])
  {
    RangesApart(o, live[o], p, live[p]);
  }

  /** In a run: whatever live records recovery reconciles with, in whatever order, the leaked byte stays free. */
  lemma ReconcileCannotRepair(c: Config, id: seq<byte>, crc: Checksum, ws: seq<World>, ops: seq<Op>,
                              i: nat, j: nat, k: nat, m: nat, records: seq<Region>)
    returns (x: nat)
    requires ValidConfig(c) && c.deviceSize >= DATA_REGION_OFFSET && |id| == ID_SIZE
    requires IsRun(c, id, crc, ws, ops) && i <= j <= k < |ws| && WellFormed(c, ws[j].state)
    requires |ws[i].log.entries| <= |ws[k].log.entries|
    requires var e := ws[k].log.entries[|ws[i].log.entries|..];
             m < |e| && e[m].AllocateRegion? && !OneRegionAt(c, ws[j].state, e, m) && !FreedAgain(e, m)
    requires LiveRecords(ws[k].live, records)
    ensures var replayed := ReplayAll(c, ws[j].state, ws[k].log.entries[|ws[i].log.entries|..]);
            x in Bytes(ws[k].live) && x in Bytes(ReclaimAll(c, replayed, records).free)
  {
    hide WellFormed, IsRun, ReplayAll, OneRegionAt, FreedAgain, Bytes, Leaked, Safe, Sound, ReclaimAll, LiveRecords;
    x := FuzzyLeavesLiveFree(c, id, crc, ws, ops, i, j, k, m);
    RunSound(c, id, crc, ws, ops, k);
    SoundSafe(c, id, crc, ws[k]);
    var e := ws[k].log.entries[|ws[i].log.entries|..];
    LeakStays(c, ws[k].state, ws[k].live, ws[j].state, e, e[m].offset, x, records);
  }

  // ----- exactly when -----

  /** An entry whose replay does not matter or comes out right. An allocation: it overlaps at most one free region, or
      its reservation is freed again. A free: its range overlaps no free region, or whatever of it no later entry
      touches is free already. */
  ghost predicate Lasts(c: Config, h: State, ops: seq<RedoOp>, m: nat)
    requires ValidConfig(c) && WellFormed(c, h) && m < |ops|
  {
    var over := ReplayAll(c, h, ops[..m]);
    match Touch(c, ops[m])
    case None => true
    case Some(r) =>
      if ops[m].AllocateRegion? then OneRegionAt(c, h, ops, m) || FreedAgain(ops, m)
      else Releasable(c, over, r.offset, r.size) ||
           Range(r.offset, r.size) - Touched(c, ops[m + 1..]) <= Bytes(over.free)
  }

  /** The last entry that touches a byte. */
  lemma {:induction false} LastTouch(c: Config, ops: seq<RedoOp>, x: nat) returns (m: nat)
    requires ValidConfig(c) && x in Touched(c, ops)
    ensures m < |ops| && x in TouchBytes(c, ops[m]) && x !in Touched(c, ops[m + 1..])
  {
    hide TouchBytes;
    var n := |ops| - 1;
    if x in TouchBytes(c, ops[n]) {
      m := n;
      assert ops[m + 1..] == [];
    } else {
      m := LastTouch(c, ops[..n], x);
      assert ops[m + 1..][..n - m - 1] == ops[..n][m + 1..];
    }
  }

  lemma FreedAgainTouched(c: Config, s: State, live: FreeMap, ops: seq<RedoOp>, m: nat)
    requires ValidConfig(c) && WellFormed(c, s) && ProperAll(c, s, live, ops) && m < |ops|
    requires ops[m].AllocateRegion? && ops[m].size > 0 && FreedAgain(ops, m)
    ensures Range(ops[m].offset, ops[m].size) <= Touched(c, ops[m + 1..])
  {
    hide Proper, Safe, WellFormed, ReplayAll, LiveAfter, ProperAll, Range, Touched;
    ProperSuffix(c, s, live, ops, m + 1);
    assert ops[..m + 1] == ops[..m] + [ops[m]];
    LiveSnoc(live, ops[..m], ops[m]);
    var k :| m < k < |ops| && ops[k].FreeRegion? && ops[k].offset == ops[m].offset;
    assert ops[m + 1..][k - m - 1] == ops[k];
    FreedWhole(c, ReplayAll(c, s, ops[..m + 1]), LiveAfter(live, ops[..m + 1]), ops[m + 1..], ops[m].offset, k - m - 1);
  }

  /** If every entry lasts, every byte ends as in the live state. */
  lemma LastsExact(c: Config, s: State, live: FreeMap, h: State, ops: seq<RedoOp>, x: nat)
    requires ValidConfig(c) && WellFormed(c, s) && WellFormed(c, h) && ProperAll(c, s, live, ops)
    requires forall m :: 0 <= m < |ops| ==> Lasts(c, h, ops, m)
    requires x !in Touched(c, ops) ==> (x in Bytes(h.free) <==> x in Bytes(s.free))
    ensures x in Bytes(ReplayAll(c, h, ops).free) <==> x in Bytes(ReplayAll(c, s, ops).free)
  {
    hide Bytes, Touched, Proper, ProperAll, WellFormed, ReplayAll, LiveAfter;
    if x !in Touched(c, ops) {
      ReplayAllFrame(c, h, ops, x);
      ReplayAllFrame(c, s, ops, x);
    } else {
      var m := LastTouch(c, ops, x);
      SettledByte(c, h, ops, m, x);
      SettledByte(c, s, ops, m, x);
      assert Lasts(c, h, ops, m);
      LastByte(c, s, live, h, ops, m, x);
    }
  }

  lemma LastByte(c: Config, s: State, live: FreeMap, h: State, ops: seq<RedoOp>, m: nat, x: nat)
    requires ValidConfig(c) && WellFormed(c, s) && WellFormed(c, h) && ProperAll(c, s, live, ops) && m < |ops|
    requires Lasts(c, h, ops, m) && x in TouchBytes(c, ops[m]) && x !in Touched(c, ops[m + 1..])
    ensures x in Bytes(Replay(c, ReplayAll(c, h, ops[..m]), ops[m]).free) <==>
            x in Bytes(Replay(c, ReplayAll(c, s, ops[..m]), ops[m]).free)
  {
    hide Bytes, Touched, ProperAll, WellFormed, ReplayAll, LiveAfter, Replay, Safe, Clean, AlignReservation;
    var mid, over, op := ReplayAll(c, s, ops[..m]), ReplayAll(c, h, ops[..m]), ops[m];
    ProperPrefix(c, s, live, ops, m);
    ProperTouch(c, mid, LiveAfter(live, ops[..m]), op);
    ProperEffect(c, mid, LiveAfter(live, ops[..m]), op);
    ReplaysAs(c, over, op);
    if op.AllocateRegion? && FreedAgain(ops, m) && op.size > 0 { FreedAgainTouched(c, s, live, ops, m); }
  }

  /** If every byte ends as in the live state, every entry lasts. */
  lemma ExactLasts(c: Config, s: State, live: FreeMap, h: State, ops: seq<RedoOp>, m: nat)
    requires ValidConfig(c) && WellFormed(c, s) && WellFormed(c, h) && ProperAll(c, s, live, ops) && m < |ops|
    requires Bytes(ReplayAll(c, h, ops).free) == Bytes(ReplayAll(c, s, ops).free)
    ensures Lasts(c, h, ops, m)
  {
    hide Bytes, Touched, ProperAll, WellFormed, ReplayAll, LiveAfter, Replay, Safe, Clean, AlignReservation;
    var mid, over, op := ReplayAll(c, s, ops[..m]), ReplayAll(c, h, ops[..m]), ops[m];
    ProperPrefix(c, s, live, ops, m);
    ProperTouch(c, mid, LiveAfter(live, ops[..m]), op);
    if op.AllocateRegion? {
      if !OneRegionAt(c, h, ops, m) && !FreedAgain(ops, m) {
        var x := TwoRegionsLeak(c, s, live, h, ops, m);
      }
    } else if !Releasable(c, over, op.offset, op.size) {
      ProperEffect(c, mid, LiveAfter(live, ops[..m]), op);
      ReplaysAs(c, over, op);
      forall x | x in Range(op.offset, op.size) - Touched(c, ops[m + 1..]) ensures x in Bytes(over.free) {
        SettledByte(c, h, ops, m, x);
        SettledByte(c, s, ops, m, x);
      }
    }
  }

  /** Exactly when replay over a later header recovers the live state: every entry since the fence lasts. */
  lemma FuzzyExactIff(c: Config, id: seq<byte>, crc: Checksum, ws: seq<World>, ops: seq<Op>, i: nat, j: nat, k: nat)
    requires ValidConfig(c) && c.deviceSize >= DATA_REGION_OFFSET && |id| == ID_SIZE
    requires IsRun(c, id, crc, ws, ops) && i <= j <= k < |ws| && WellFormed(c, ws[j].state)
    requires |ws[i].log.entries| <= |ws[k].log.entries|
    ensures var e := ws[k].log.entries[|ws[i].log.entries|..];
            ReplayAll(c, ws[j].state, e) == ws[k].state <==> forall m :: 0 <= m < |e| ==> Lasts(c, ws[j].state, e, m)
  {
    hide WellFormed, IsRun, ProperAll, ReplayAll, LiveAfter, Lasts, Bytes, Touched;
    RunBetween(c, id, crc, ws, ops, i, j);
    RunBetween(c, id, crc, ws, ops, i, k);
    RunBetween(c, id, crc, ws, ops, j, k);
    var n := |ws[i].log.entries|;
    var e, xs, ys := ws[k].log.entries[n..], ws[j].log.entries[n..], ws[k].log.entries[|ws[j].log.entries|..];
    assert e == xs + ys;
    WindowIff(c, ws[i].state, ws[i].live, xs, ys);
  }

  lemma WindowIff(c: Config, s: State, live: FreeMap, xs: seq<RedoOp>, ys: seq<RedoOp>)
    requires ValidConfig(c) && WellFormed(c, s) && ProperAll(c, s, live, xs + ys)
    ensures var h, e := ReplayAll(c, s, xs), xs + ys;
            ReplayAll(c, h, e) == ReplayAll(c, s, e) <==> forall m :: 0 <= m < |e| ==> Lasts(c, h, e, m)
  {
    hide WellFormed, ProperAll, ReplayAll, LiveAfter, Lasts, Bytes, Touched;
    var h, e := ReplayAll(c, s, xs), xs + ys;
    if ReplayAll(c, h, e) == ReplayAll(c, s, e) {
      forall m | 0 <= m < |e| ensures Lasts(c, h, e, m) { ExactLasts(c, s, live, h, e, m); }
    }
    if forall m :: 0 <= m < |e| ==> Lasts(c, h, e, m) {
      forall x ensures x in Bytes(ReplayAll(c, h, e).free) <==> x in Bytes(ReplayAll(c, s, e).free) {
        TargetConcat(c, {}, xs, ys);
        if x !in Touched(c, e) { ReplayAllFrame(c, s, xs, x); }
        LastsExact(c, s, live, h, e, x);
      }
      SameMark(c, s, xs, ys);
      SameState(c, ReplayAll(c, h, e), ReplayAll(c, s, e));
    }
  }

  lemma SameMark(c: Config, s: State, xs: seq<RedoOp>, ys: seq<RedoOp>)
    requires ValidConfig(c) && WellFormed(c, s)
    ensures ReplayAll(c, ReplayAll(c, s, xs), xs + ys).next == ReplayAll(c, s, xs + ys).next
  {
    hide ReplayAll, Highest, WellFormed;
    ReplayMark(c, s, xs);
    ReplayMark(c, s, xs + ys);
    ReplayMark(c, ReplayAll(c, s, xs), xs + ys);
    HighestRepeat(c, s.next, xs, ys);
  }

  /** A state is its free bytes and its mark. */
  lemma SameState(c: Config, a: State, b: State)
    requires WellFormed(c, a) && WellFormed(c, b) && Bytes(a.free) == Bytes(b.free) && a.next == b.next
    ensures a == b
  {
    CanonicalUnique(a.free, b.free);
  }

  // ----- restarting from the fence -----

  /** Where the header fields of a world come from. */
  lemma HeaderFields(c: Config, id: seq<byte>, crc: Checksum, w: World, op: Op)
    requires ValidConfig(c) && |id| == ID_SIZE
    ensures var w' := Exec(c, id, crc, w, op);
            && (|| (w'.written == w.written && w'.mark == w.mark)
                || (w'.written == w.state && w'.mark == |w.log.entries|)
                || (w'.written == w.synced && w'.mark == w.syncedMark))
            && (|| (w'.synced == w.synced && w'.syncedMark == w.syncedMark)
                || (w'.synced == w.written && w'.syncedMark == w.mark))
  {
    hide WithHeader, WithPartOfHeader, ReserveAll, Booted, WellFormed, ReplayAll, LiveAfter, AlignReservation;
  }

  /** The header on the device and the durable one each describe an earlier world of the run. */
  lemma {:induction false} HeaderFrom(c: Config, id: seq<byte>, crc: Checksum, ws: seq<World>, ops: seq<Op>, k: nat)
    returns (w: nat, j: nat)
    requires ValidConfig(c) && |id| == ID_SIZE && IsRun(c, id, crc, ws, ops) && k < |ws|
    ensures w <= k && ws[k].written == ws[w].state && ws[k].mark == |ws[w].log.entries|
    ensures j <= k && ws[k].synced == ws[j].state && ws[k].syncedMark == |ws[j].log.entries|
  {
    hide Exec, Legal;
    if k == 0 {
      w, j := 0, 0;
    } else {
      w, j := HeaderFrom(c, id, crc, ws, ops, k - 1);
      assert Legal(c, ws[k - 1], ops[k - 1]);
      HeaderFields(c, id, crc, ws[k - 1], ops[k - 1]);
      var w0, j0 := w, j;
      w := if ws[k].written == ws[w0].state && ws[k].mark == |ws[w0].log.entries| then w0
           else if ws[k].written == ws[j0].state && ws[k].mark == |ws[j0].log.entries| then j0 else k - 1;
      j := if ws[k].synced == ws[j0].state && ws[k].syncedMark == |ws[j0].log.entries| then j0 else w0;
    }
  }

  /** The entries a restart finds from log position `n` on, `t` of them from a failed flush. */
  ghost function OnDisk(w: World, n: nat, t: nat): seq<RedoOp>
    requires n <= |w.log.entries| && t <= |w.log.torn|
  {
    w.log.entries[n..] + w.log.torn[..t]
  }

  /** Recovery as the store performs it: boot the durable header and replay from the fence `n`, which was sampled
      before that header was written. */
  ghost function FenceRestarted(c: Config, crc: Checksum, w: World, n: nat, t: nat): World
    requires ValidConfig(c) && n <= |w.log.entries| && t <= |w.log.torn|
  {
    var boot := Booted(c, crc, w.durable);
    if boot.None? || !WellFormed(c, boot.value) then w
    else
      var landed := w.log.torn[..t];
      World(ReplayAll(c, boot.value, OnDisk(w, n, t)), LiveAfter(w.live, landed), Log(w.log.entries + landed, [], false),
            w.durable, w.durable, w.synced, w.syncedMark, true, w.synced, w.syncedMark, true)
  }

  /** Every entry from the fence on lasts when replayed over the durable header. */
  ghost predicate FenceLasts(c: Config, crc: Checksum, w: World, n: nat, t: nat)
    requires ValidConfig(c) && n <= |w.log.entries| && t <= |w.log.torn|
  {
    var boot := Booted(c, crc, w.durable);
    && boot.Some? && WellFormed(c, boot.value)
    && forall m :: 0 <= m < |OnDisk(w, n, t)| ==> Lasts(c, boot.value, OnDisk(w, n, t), m)
  }

  /** What a restart finds on disk is proper from any earlier point of the run. */
  lemma DiskProper(c: Config, id: seq<byte>, crc: Checksum, ws: seq<World>, ops: seq<Op>, i: nat, k: nat, t: nat)
    requires ValidConfig(c) && c.deviceSize >= DATA_REGION_OFFSET && |id| == ID_SIZE
    requires IsRun(c, id, crc, ws, ops) && i <= k < |ws| && t <= |ws[k].log.torn|
    ensures |ws[i].log.entries| <= |ws[k].log.entries| && WellFormed(c, ws[i].state) && WellFormed(c, ws[k].state)
    ensures var e := OnDisk(ws[k], |ws[i].log.entries|, t);
            ProperAll(c, ws[i].state, ws[i].live, e) &&
            ReplayAll(c, ws[i].state, e) == ReplayAll(c, ws[k].state, ws[k].log.torn[..t]) &&
            LiveAfter(ws[i].live, e) == LiveAfter(ws[k].live, ws[k].log.torn[..t])
  {
    hide IsRun, WellFormed, Safe, ProperAll, ReplayAll, LiveAfter, Rebuilds, Legal, Entries;
    RunBetween(c, id, crc, ws, ops, i, k);
    RunSound(c, id, crc, ws, ops, k);
    SoundSafe(c, id, crc, ws[k]);
    var w, landed := ws[k], ws[k].log.torn[..t];
    if w.log.poisoned {
      var op :| Interrupted(c, w, op);
      LandedProper(c, w, op, t);
    } else {
      assert landed == [];
      NoEntriesProper(c, w.state, w.live);
    }
    var front := w.log.entries[|ws[i].log.entries|..];
    ProperConcat(c, ws[i].state, ws[i].live, front, landed);
    ReplayAllConcat(c, ws[i].state, front, landed);
    LiveConcat(ws[i].live, front, landed);
  }

  /** Two worlds with the same log length have the same state and the same live reservations. */
  lemma SameLength(c: Config, id: seq<byte>, crc: Checksum, ws: seq<World>, ops: seq<Op>, j: nat, i: nat)
    requires ValidConfig(c) && c.deviceSize >= DATA_REGION_OFFSET && |id| == ID_SIZE
    requires IsRun(c, id, crc, ws, ops) && j <= i < |ws| && |ws[i].log.entries| <= |ws[j].log.entries|
    ensures |ws[i].log.entries| == |ws[j].log.entries| && ws[i].state == ws[j].state
  {
    hide IsRun, WellFormed, ProperAll, LiveAfter, Safe;
    RunBetween(c, id, crc, ws, ops, j, i);
    assert ws[i].log.entries[|ws[j].log.entries|..] == [];
  }

  /** The durable header is what the entries between fence and header made of the state at the fence. */
  lemma HeaderAfterFence(c: Config, id: seq<byte>, crc: Checksum, ws: seq<World>, ops: seq<Op>, i: nat, k: nat)
    requires ValidConfig(c) && c.deviceSize >= DATA_REGION_OFFSET && |id| == ID_SIZE
    requires IsRun(c, id, crc, ws, ops) && i <= k < |ws| && ws[k].syncedWhole
    requires |ws[i].log.entries| <= ws[k].syncedMark
    ensures ws[k].syncedMark <= |ws[k].log.entries| && WellFormed(c, ws[i].state)
    ensures WellFormed(c, ws[k].synced) && Booted(c, crc, ws[k].durable) == Some(ws[k].synced)
    ensures ws[k].synced == ReplayAll(c, ws[i].state, ws[k].log.entries[|ws[i].log.entries|..ws[k].syncedMark])
  {
    hide IsRun, WellFormed, ProperAll, ReplayAll, LiveAfter, Safe, Booted;
    RunSound(c, id, crc, ws, ops, k);
    RunBetween(c, id, crc, ws, ops, i, k);
    var w, j := HeaderFrom(c, id, crc, ws, ops, k);
    var n, mark := |ws[i].log.entries|, ws[k].syncedMark;
    RunBetween(c, id, crc, ws, ops, j, k);
    if i <= j {
      RunBetween(c, id, crc, ws, ops, i, j);
      assert ws[j].log.entries[n..] == ws[k].log.entries[n..mark];
    } else {
      SameLength(c, id, crc, ws, ops, j, i);
      assert ws[k].log.entries[n..mark] == [];
      NoReplay(c, ws[i].state);
    }
  }

  lemma NoReplay(c: Config, s: State)
    requires ValidConfig(c) && WellFormed(c, s)
    ensures ReplayAll(c, s, []) == s
  {
  }

  /** Crash safety from the fence. Sample the fence at `i`, make any later header durable, crash at `k` with `t` entries
      of a failed flush on disk. Booting that header and replaying from the fence gives the live state, advanced by
      those entries, exactly when every replayed entry lasts. */
  lemma FenceRestart(c: Config, id: seq<byte>, crc: Checksum, ws: seq<World>, ops: seq<Op>, i: nat, k: nat, t: nat)
    requires ValidConfig(c) && c.deviceSize >= DATA_REGION_OFFSET && |id| == ID_SIZE
    requires IsRun(c, id, crc, ws, ops) && i <= k < |ws| && ws[k].syncedWhole
    requires |ws[i].log.entries| <= ws[k].syncedMark && t <= |ws[k].log.torn|
    ensures |ws[i].log.entries| <= |ws[k].log.entries| && WellFormed(c, ws[k].state)
    ensures var boot := Booted(c, crc, ws[k].durable);
            && boot.Some? && WellFormed(c, boot.value)
            && (FenceLasts(c, crc, ws[k], |ws[i].log.entries|, t) <==>
                ReplayAll(c, boot.value, OnDisk(ws[k], |ws[i].log.entries|, t)) ==
                  ReplayAll(c, ws[k].state, ws[k].log.torn[..t]))
  {
    hide IsRun, WellFormed, ProperAll, ReplayAll, LiveAfter, Lasts, Booted;
    HeaderAfterFence(c, id, crc, ws, ops, i, k);
    DiskProper(c, id, crc, ws, ops, i, k, t);
    var n, mark, entries := |ws[i].log.entries|, ws[k].syncedMark, ws[k].log.entries;
    var xs, ys := entries[n..mark], entries[mark..] + ws[k].log.torn[..t];
    assert OnDisk(ws[k], n, t) == xs + ys;
    WindowIff(c, ws[i].state, ws[i].live, xs, ys);
  }

  /** It does whenever every allocation between fence and header overlaps at most one free region where it is replayed;
      in particular when nothing was journaled in between, as under a blocking checkpoint. */
  lemma FenceRestartRight(c: Config, id: seq<byte>, crc: Checksum, ws: seq<World>, ops: seq<Op>, i: nat, k: nat, t: nat)
    requires ValidConfig(c) && c.deviceSize >= DATA_REGION_OFFSET && |id| == ID_SIZE
    requires IsRun(c, id, crc, ws, ops) && i <= k < |ws| && ws[k].syncedWhole
    requires |ws[i].log.entries| <= ws[k].syncedMark <= |ws[k].log.entries| && t <= |ws[k].log.torn|
    requires WellFormed(c, ws[k].synced)
    requires OneRegionEach(c, ws[k].synced, ws[k].log.entries[|ws[i].log.entries|..ws[k].syncedMark])
    ensures FenceLasts(c, crc, ws[k], |ws[i].log.entries|, t)
  {
    hide IsRun, WellFormed, ProperAll, ReplayAll, LiveAfter, Lasts, Booted, OneRegionEach, Safe, Rebuilds;
    HeaderAfterFence(c, id, crc, ws, ops, i, k);
    DiskProper(c, id, crc, ws, ops, i, k, t);
    FenceRestart(c, id, crc, ws, ops, i, k, t);
    var n, mark, entries := |ws[i].log.entries|, ws[k].syncedMark, ws[k].log.entries;
    var xs, ys := entries[n..mark], entries[mark..] + ws[k].log.torn[..t];
    var e := OnDisk(ws[k], n, t);
    assert e == xs + ys && e[..|xs|] == xs;
    ProperPrefix(c, ws[i].state, ws[i].live, e, |xs|);
    WindowExact(c, ws[i].state, ws[i].live, xs);
    ReplayAllConcat(c, ws[k].synced, xs, ys);
    ReplayAllConcat(c, ws[i].state, xs, ys);
  }

  /** Under the condition the store comes back as the restart of a run does. */
  lemma FenceRestartIs(c: Config, id: seq<byte>, crc: Checksum, ws: seq<World>, ops: seq<Op>, i: nat, k: nat, t: nat)
    requires ValidConfig(c) && c.deviceSize >= DATA_REGION_OFFSET && |id| == ID_SIZE
    requires IsRun(c, id, crc, ws, ops) && i <= k < |ws| && ws[k].syncedWhole
    requires |ws[i].log.entries| <= ws[k].syncedMark && t <= |ws[k].log.torn|
    requires |ws[i].log.entries| <= |ws[k].log.entries| && FenceLasts(c, crc, ws[k], |ws[i].log.entries|, t)
    ensures FenceRestarted(c, crc, ws[k], |ws[i].log.entries|, t) == Exec(c, id, crc, ws[k], Restarting(t))
  {
    hide IsRun, WellFormed, ReplayAll, LiveAfter, Booted, Safe, FenceLasts, OnDisk;
    FenceRestart(c, id, crc, ws, ops, i, k, t);
    RunSound(c, id, crc, ws, ops, k);
    SoundSafe(c, id, crc, ws[k]);
    RestartIs(c, crc, ws[k], t);
  }

  /** An allocation from the fence on that overlaps two free regions of the durable header's replay, and whose
      reservation is still live, leaves a live byte free after the restart. */
  lemma FenceRestartUnsafe(c: Config, id: seq<byte>, crc: Checksum, ws: seq<World>, ops: seq<Op>,
                           i: nat, k: nat, t: nat, m: nat)
    returns (x: nat)
    requires ValidConfig(c) && c.deviceSize >= DATA_REGION_OFFSET && |id| == ID_SIZE
    requires IsRun(c, id, crc, ws, ops) && i <= k < |ws| && ws[k].syncedWhole
    requires |ws[i].log.entries| <= ws[k].syncedMark && |ws[i].log.entries| <= |ws[k].log.entries|
    requires t <= |ws[k].log.torn| && WellFormed(c, ws[k].synced)
    requires var e := OnDisk(ws[k], |ws[i].log.entries|, t);
             m < |e| && e[m].AllocateRegion? && !OneRegionAt(c, ws[k].synced, e, m) && !FreedAgain(e, m)
    ensures var w := FenceRestarted(c, crc, ws[k], |ws[i].log.entries|, t);
            x in Bytes(w.live) && x in Bytes(w.state.free) && !Safe(c, w.state, w.live)
  {
    hide WellFormed, IsRun, ProperAll, ReplayAll, LiveAfter, OneRegionAt, FreedAgain, Bytes, Leaked, OnDisk, Booted, Safe;
    HeaderAfterFence(c, id, crc, ws, ops, i, k);
    DiskProper(c, id, crc, ws, ops, i, k, t);
    x := TwoRegionsLeak(c, ws[i].state, ws[i].live, ws[k].synced, OnDisk(ws[k], |ws[i].log.entries|, t), m);
    var w := FenceRestarted(c, crc, ws[k], |ws[i].log.entries|, t);
    NotSafe(c, w.state, w.live, x);
  }

  lemma NotSafe(c: Config, s: State, live: FreeMap, x: nat)
    requires ValidConfig(c) && x in Bytes(live) && x in Bytes(s.free)
    ensures !Safe(c, s, live)
  {
    if Safe(c, s, live) { LiveByte(c, s, live, x); }
  }

  // ----- runs whose restarts replay from a fence -----

  /** One step of a store whose restarts replay from the fence sampled at world `fences[m]`. */
  ghost predicate FenceStep(c: Config, id: seq<byte>, crc: Checksum, ws: seq<World>, ops: seq<Op>, fences: seq<nat>, m: nat)
    requires ValidConfig(c) && |id| == ID_SIZE && m < |ops| == |fences| && |ws| == |ops| + 1
  {
    && Legal(c, ws[m], ops[m])
    && if ops[m].Restarting? then
         && fences[m] <= m
         && var n := |ws[fences[m]].log.entries|;
            && n <= ws[m].syncedMark && n <= |ws[m].log.entries| && FenceLasts(c, crc, ws[m], n, ops[m].torn)
            && ws[m + 1] == FenceRestarted(c, crc, ws[m], n, ops[m].torn)
       else ws[m + 1] == Exec(c, id, crc, ws[m], ops[m])
  }

  ghost predicate IsFenceRun(c: Config, id: seq<byte>, crc: Checksum, ws: seq<World>, ops: seq<Op>, fences: seq<nat>)
    requires ValidConfig(c) && |id| == ID_SIZE
  {
    && |ws| == |ops| + 1 && |fences| == |ops| && ws[0] == Fresh(c)
    && forall m :: 0 <= m < |ops| ==> FenceStep(c, id, crc, ws, ops, fences, m)
  }

  lemma {:induction false} FencePrefix(c: Config, id: seq<byte>, crc: Checksum, ws: seq<World>, ops: seq<Op>,
                                       fences: seq<nat>, k: nat)
    requires ValidConfig(c) && c.deviceSize >= DATA_REGION_OFFSET && |id| == ID_SIZE
    requires IsFenceRun(c, id, crc, ws, ops, fences) && k <= |ops|
    ensures IsRun(c, id, crc, ws[..k + 1], ops[..k])
  {
    hide Exec, Legal, FenceLasts, FenceRestarted, Fresh;
    if k > 0 {
      FencePrefix(c, id, crc, ws, ops, fences, k - 1);
      var front, steps := ws[..k], ops[..k - 1];
      assert FenceStep(c, id, crc, ws, ops, fences, k - 1);
      if ops[k - 1].Restarting? {
        RestartLegal(c, ws[k - 1], ops[k - 1].torn);
        FenceRestartIs(c, id, crc, front, steps, fences[k - 1], k - 1, ops[k - 1].torn);
      }
      forall m | 0 <= m < k
        ensures Legal(c, ws[..k + 1][m], ops[..k][m]) && ws[..k + 1][m + 1] == Exec(c, id, crc, ws[..k + 1][m], ops[..k][m])
      {
        if m < k - 1 { assert front[m] == ws[m] && front[m + 1] == ws[m + 1] && steps[m] == ops[m]; }
      }
    }
  }

  lemma RestartLegal(c: Config, w: World, t: nat)
    requires ValidConfig(c) && Legal(c, w, Restarting(t))
    ensures w.syncedWhole && t <= |w.log.torn|
  {
  }

  /** Allocation safety and rebuildability in every world of every run, across any number of crashes whose recoveries
      replay from a fence, as long as the entries each of them replays last. */
  lemma FenceRunSound(c: Config, id: seq<byte>, crc: Checksum, ws: seq<World>, ops: seq<Op>, fences: seq<nat>, k: nat)
    requires ValidConfig(c) && c.deviceSize >= DATA_REGION_OFFSET && |id| == ID_SIZE
    requires IsFenceRun(c, id, crc, ws, ops, fences) && k < |ws|
    ensures IsRun(c, id, crc, ws, ops) && Sound(c, id, crc, ws[k])
  {
    FencePrefix(c, id, crc, ws, ops, fences, |ops|);
    assert ws[..|ops| + 1] == ws && ops[..|ops|] == ops;
    hide IsFenceRun, Sound, IsRun;
    RunSound(c, id, crc, ws, ops, k);
  }
}
