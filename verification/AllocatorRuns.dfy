/** Whole runs of the allocator: what every step keeps, and what a crash at any point recovers to. */
module AllocatorRuns {
  import opened Prelude
  import opened Rounding
  import opened Regions
  import opened Freelist
  import opened Redo
  import opened AllocatorSpec
  import opened Device
  import opened HeaderCodec

  // ----- allocation safety -----

  /** Live reservations never overlap each other or free space, lie below the high-water mark and obey
      the placement rule. Without packing, free and live bytes together fill the used part of the device. */
  ghost predicate Safe(c: Config, s: State, live: FreeMap)
    requires ValidConfig(c)
  {
    && WellFormed(c, s) && Tight(s) && Granular(c, s)
    && (forall o :: o in live ==> LiveRegion(c, s, o, live[o]))
    && (forall a, b :: a in live && b in live && a < b ==> a + live[a] <= b)
    && (!c.packed ==> Range(DATA_REGION_OFFSET, s.next - DATA_REGION_OFFSET) <= Bytes(s.free) + Bytes(live))
  }

  ghost predicate LiveRegion(c: Config, s: State, offset: nat, size: nat)
    requires ValidConfig(c)
  {
    && size > 0 && DATA_REGION_OFFSET <= offset && offset + size <= s.next
    && offset % Unit(c) == 0 && size % Unit(c) == 0 && Place(c, size)(offset)
    && Range(offset, size) !! Bytes(s.free)
  }

  ghost function WithRegion(live: FreeMap, offset: nat, size: nat): FreeMap {
    if size > 0 then live[offset := size] else live
  }

  lemma BytesWith(m: FreeMap, o: nat, size: nat)
    requires o !in m
    ensures Bytes(m[o := size]) == Bytes(m) + Range(o, size)
  {
    var m' := m[o := size];
    forall x ensures x in Bytes(m') <==> x in Bytes(m) || x in Range(o, size) {
      if x in Bytes(m') {
        var p := Owner(m', x);
        if p == o { InRange(o, size, x); } else { Owned(m, p, x); }
      } else if x in Bytes(m) {
        var p := Owner(m, x);
        Owned(m', p, x);
      } else if x in Range(o, size) {
        Owned(m', o, x);
      }
    }
  }

  /** A fresh reservation is apart from every live one. */
  lemma ReserveApart(c: Config, s: State, live: FreeMap, a: nat, o: nat)
    requires ValidConfig(c) && Safe(c, s, live) && Reserve(c, s, a).Some? && a > 0 && o in live
    ensures var r := Reserve(c, s, a).value; o + live[o] <= r.offset || r.offset + a <= o
  {
    hide Canonical, Granular, Place, Inside;
    ReserveTakes(c, s, a);
    var r := Reserve(c, s, a).value;
    hide Reserve;
    assert LiveRegion(c, s, o, live[o]);
    if o < r.offset + a && r.offset < o + live[o] {
      var x := if o < r.offset then r.offset else o;
      InRange(o, live[o], x);
      InRange(r.offset, a, x);
    }
  }

  lemma SafeReserve(c: Config, s: State, live: FreeMap, a: nat)
    requires ValidConfig(c) && Safe(c, s, live) && a % Unit(c) == 0 && Reserve(c, s, a).Some?
    ensures var r := Reserve(c, s, a).value; Safe(c, r.state, WithRegion(live, r.offset, a))
  {
    ReserveTakes(c, s, a);
    ReserveTight(c, s, a);
    ReserveGranular(c, s, a);
    var r := Reserve(c, s, a).value;
    var live' := WithRegion(live, r.offset, a);
    forall o | o in live && a > 0 ensures o + live[o] <= r.offset || r.offset + a <= o {
      ReserveApart(c, s, live, a, o);
    }
    hide Reserve, Canonical, Granular, Place, Inside, Bytes;
    forall o | o in live' ensures LiveRegion(c, r.state, o, live'[o]) {
      if o in live { assert LiveRegion(c, s, o, live[o]); }
    }
    assert a > 0 ==> r.offset !in live by {
      if r.offset in live { assert LiveRegion(c, s, r.offset, live[r.offset]); }
    }
    if !c.packed { SafeReserveFills(c, s, live, a); }
  }

  /** Without packing a reservation leaves no gap behind. */
  lemma SafeReserveFills(c: Config, s: State, live: FreeMap, a: nat)
    requires ValidConfig(c) && Safe(c, s, live) && !c.packed && Reserve(c, s, a).Some?
    requires a > 0 ==> Reserve(c, s, a).value.offset !in live
    ensures var r := Reserve(c, s, a).value;
            Range(DATA_REGION_OFFSET, r.state.next - DATA_REGION_OFFSET) <=
              Bytes(r.state.free) + Bytes(WithRegion(live, r.offset, a))
  {
    ReserveTakes(c, s, a);
    ReserveTight(c, s, a);
    var r := Reserve(c, s, a).value;
    assert r.undo.FromHighWater? ==> r.offset == s.next;
    hide Reserve, Canonical, Granular, Place, Inside, Bytes, LiveRegion;
    if a > 0 { BytesWith(live, r.offset, a); }
    forall x | x in Range(DATA_REGION_OFFSET, r.state.next - DATA_REGION_OFFSET)
      ensures x in Bytes(r.state.free) + Bytes(WithRegion(live, r.offset, a))
    {
      if x < s.next { InRange(DATA_REGION_OFFSET, s.next - DATA_REGION_OFFSET, x); }
      else { InRange(r.offset, a, x); }
    }
  }

  lemma SafeRelease(c: Config, s: State, live: FreeMap, o: nat)
    requires ValidConfig(c) && Safe(c, s, live) && o in live
    ensures Releasable(c, s, o, live[o])
    ensures Safe(c, Release(c, s, o, live[o]), live - {o})
  {
    assert LiveRegion(c, s, o, live[o]);
    hide Canonical, Granular, Place, Inside, Bytes, AddRange, LiveRegion, Range;
    var size := live[o];
    ReleaseKeeps(c, s, o, size);
    ReleaseGranular(c, s, o, size);
    var s', live' := Release(c, s, o, size), live - {o};
    forall p | p in live' ensures LiveRegion(c, s', p, live'[p]) {
      ReleaseApart(c, s, live, o, p);
    }
    ReleaseFills(c, s, live, o);
  }

  lemma ReleaseFills(c: Config, s: State, live: FreeMap, o: nat)
    requires WellFormed(c, s) && o in live && Releasable(c, s, o, live[o])
    ensures Bytes(Release(c, s, o, live[o]).free) + Bytes(live - {o}) == Bytes(s.free) + Bytes(live)
  {
    hide Canonical, Inside, Bytes, AddRange, Range;
    BytesWith(live - {o}, o, live[o]);
    assert (live - {o})[o := live[o]] == live;
  }

  /** Releasing one reservation leaves the others live. */
  lemma ReleaseApart(c: Config, s: State, live: FreeMap, o: nat, p: nat)
    requires ValidConfig(c) && Safe(c, s, live) && o in live && p in live && o != p
    requires Releasable(c, s, o, live[o])
    ensures LiveRegion(c, Release(c, s, o, live[o]), p, live[p])
  {
    assert LiveRegion(c, s, p, live[p]) && LiveRegion(c, s, o, live[o]);
    hide Canonical, Granular, Place, Inside, Bytes, AddRange;
    assert o + live[o] <= p || p + live[p] <= o;
    assert Range(p, live[p]) !! Range(o, live[o]);
  }

  /** Bytes in use are exactly the high-water extent minus the free bytes, when nothing is skipped. */
  lemma UsedBytesExact(c: Config, s: State, live: FreeMap)
    requires ValidConfig(c) && Safe(c, s, live) && !c.packed
    ensures |Bytes(live)| == s.next - DATA_REGION_OFFSET - |Bytes(s.free)|
  {
    hide Canonical, Granular, Place, Inside, Bytes, LiveRegion;
    var all := Range(DATA_REGION_OFFSET, s.next - DATA_REGION_OFFSET);
    forall x | x in Bytes(live) ensures x in all && x !in Bytes(s.free) { LiveByte(c, s, live, x); }
    forall x | x in Bytes(s.free) ensures x in all {
      TightBytes(s, x);
      InRange(DATA_REGION_OFFSET, s.next - DATA_REGION_OFFSET, x);
    }
    assert all == Bytes(s.free) + Bytes(live);
    RangeSize(DATA_REGION_OFFSET, s.next - DATA_REGION_OFFSET);
  }

  lemma LiveByte(c: Config, s: State, live: FreeMap, x: nat)
    requires ValidConfig(c) && Safe(c, s, live) && x in Bytes(live)
    ensures DATA_REGION_OFFSET <= x < s.next && x !in Bytes(s.free)
    ensures x in Range(DATA_REGION_OFFSET, s.next - DATA_REGION_OFFSET)
  {
    var o := Owner(live, x);
    hide Canonical, Granular, Place, Inside, Bytes;
    assert LiveRegion(c, s, o, live[o]);
    InRange(o, live[o], x);
    InRange(DATA_REGION_OFFSET, s.next - DATA_REGION_OFFSET, x);
  }

  // ----- replay follows the live path -----

  /** Redo entries applied in order. However corrupt the stream, the free map stays sorted, disjoint and
      free of adjacent regions. */
  ghost function ReplayAll(c: Config, s: State, ops: seq<RedoOp>): (s': State)
    requires ValidConfig(c) && WellFormed(c, s)
    ensures WellFormed(c, s')
  {
    if ops == [] then s
    else
      var n := |ops| - 1;
      var mid := ReplayAll(c, s, ops[..n]);
      ReplayKeeps(c, mid, ops[n]);
      Replay(c, mid, ops[n])
  }

  lemma ReplayAllSnoc(c: Config, s: State, ops: seq<RedoOp>, op: RedoOp)
    requires ValidConfig(c) && WellFormed(c, s)
    ensures ReplayAll(c, s, ops + [op]) == Replay(c, ReplayAll(c, s, ops), op)
  {
    assert (ops + [op])[..|ops|] == ops;
  }

  lemma {:induction false} ReplayAllConcat(c: Config, s: State, xs: seq<RedoOp>, ys: seq<RedoOp>)
    requires ValidConfig(c) && WellFormed(c, s)
    ensures ReplayAll(c, s, xs + ys) == ReplayAll(c, ReplayAll(c, s, xs), ys)
    decreases |ys|
  {
    hide Replay, WellFormed;
    if ys == [] {
      assert xs + ys == xs;
    } else {
      var n := |ys| - 1;
      ReplayAllConcat(c, s, xs, ys[..n]);
      assert (xs + ys)[..|xs| + n] == xs + ys[..n];
    }
  }

  /** Replaying the entry of a reservation repeats the reservation. */
  lemma ReplayReserve(c: Config, s: State, size: u64)
    requires ValidConfig(c) && WellFormed(c, s) && Tight(s)
    requires Reserve(c, s, AlignReservation(c, size)).Some?
    ensures var a := AlignReservation(c, size);
            var r := Reserve(c, s, a).value;
            Replay(c, s, AllocateRegion(r.offset, a, c.redoDeviceId)) == r.state
  {
    hide AlignReservation, Canonical, Bytes, CarveFirst, Place, Inside, AppendPoint;
    var a := AlignReservation(c, size);
    AlignReservationIdempotent(c, size);
    ReserveTakes(c, s, a);
    ReserveTight(c, s, a);
    var r := Reserve(c, s, a).value;
    if a == 0 {
      ReserveNothing(c, s);
    } else if r.undo.FromFreelist? {
      ReplayHead(s.free, r.offset, a);
    } else {
      NothingAbove(s, r.offset, r.offset + a);
    }
  }

  lemma NothingAbove(s: State, lo: nat, hi: nat)
    requires Canonical(s.free) && Tight(s) && s.next <= lo < hi
    ensures CarveFirst(s.free, lo, hi) == s.free
  {
    hide Canonical, Bytes;
    assert forall p :: !Overlaps(s.free, lo, hi, p);
  }

  lemma ReserveNothing(c: Config, s: State)
    requires ValidConfig(c) && WellFormed(c, s) && Reserve(c, s, 0).Some?
    ensures Reserve(c, s, 0).value.state == s
  {
    var r := Reserve(c, s, 0).value;
    if r.undo.FromFreelist? {
      assert TakeHead(s.free, r.offset, 0) == s.free;
    } else if c.packed {
      assert s.next % c.alignment <= c.alignment;
    }
  }

  lemma ReplayHead(m: FreeMap, o: nat, a: nat)
    requires Canonical(m) && o in m && 0 < a <= m[o]
    ensures CarveFirst(m, o, o + a) == TakeHead(m, o, a)
  {
    assert Overlaps(m, o, o + a, o);
    var f := FirstOverlap(m, o, o + a);
    assert Overlaps(m, o, o + a, f);
    assert f == o;
  }

  /** A batch keeps the allocator safe, and its entries replay to the state it left. */
  lemma {:induction false} ReplayBatch(c: Config, s: State, live: FreeMap, sizes: seq<u64>)
    requires ValidConfig(c) && Safe(c, s, live)
    ensures var b := ReserveAll(c, s, sizes);
            && Safe(c, b.state, WithRegions(live, b.regions))
            && ReplayAll(c, s, b.ops) == b.state
    decreases |sizes|
  {
    SafeParts(c, s, live);
    hide Safe, Reserve, Replay, AlignReservation, WellFormed, Tight, ReserveNext;
    if sizes != [] {
      var n := |sizes| - 1;
      var b := ReserveAll(c, s, sizes[..n]);
      ReplayBatch(c, s, live, sizes[..n]);
      ReplayNext(c, s, live, b, sizes[n]);
    }
  }

  lemma ReplayNext(c: Config, s: State, live: FreeMap, b: Batch, size: u64)
    requires ValidConfig(c) && WellFormed(c, s)
    requires Safe(c, b.state, WithRegions(live, b.regions)) && ReplayAll(c, s, b.ops) == b.state
    ensures var b' := ReserveNext(c, b, size);
            && Safe(c, b'.state, WithRegions(live, b'.regions))
            && ReplayAll(c, s, b'.ops) == b'.state
  {
    hide Safe, Reserve, Replay, AlignReservation, WellFormed, Tight, WithRegion, ReplayAll;
    var a := AlignReservation(c, size);
    var b' := ReserveNext(c, b, size);
    assert b'.regions[..|b.regions|] == b.regions;
    SafeParts(c, b.state, WithRegions(live, b.regions));
    if Reserve(c, b.state, a).Some? {
      ReservationHolds(c, size);
      SafeReserve(c, b.state, WithRegions(live, b.regions), a);
      ReplayReserve(c, b.state, size);
      ReplayAllSnoc(c, s, b.ops, b'.ops[|b.ops|]);
    }
  }

  lemma SafeParts(c: Config, s: State, live: FreeMap)
    requires ValidConfig(c) && Safe(c, s, live)
    ensures WellFormed(c, s) && Tight(s) && Granular(c, s)
  {
  }

  /** The live map after the reserved regions of a batch joined it. */
  ghost function WithRegions(live: FreeMap, regions: seq<Option<Region>>): FreeMap {
    if regions == [] then live
    else
      var n := |regions| - 1;
      var m := WithRegions(live, regions[..n]);
      match regions[n]
      case None => m
      case Some(r) => WithRegion(m, r.offset, r.size)
  }

  /** Replaying the entry of a release repeats the release. */
  lemma ReplayRelease(c: Config, s: State, offset: nat, size: u64)
    requires ValidConfig(c) && WellFormed(c, s) && Releasable(c, s, offset, AlignReservation(c, size))
    ensures var a := AlignReservation(c, size);
            Replay(c, s, RedoOp.FreeRegion(offset, a, c.redoDeviceId)) == Release(c, s, offset, a)
  {
    AlignReservationIdempotent(c, size);
    hide AlignReservation, WellFormed, Release;
  }

  // ----- what the journal says is live -----

  ghost function LiveStep(live: FreeMap, op: RedoOp): FreeMap {
    match op
    case AllocateRegion(offset, size, _) => WithRegion(live, offset, size)
    case FreeRegion(offset, _, _) => live - {offset}
    case OtherOp => live
  }

  /** The live reservations after the entries took effect. */
  ghost function LiveAfter(live: FreeMap, ops: seq<RedoOp>): FreeMap {
    if ops == [] then live else LiveStep(LiveAfter(live, ops[..|ops| - 1]), ops[|ops| - 1])
  }

  lemma LiveSnoc(live: FreeMap, ops: seq<RedoOp>, op: RedoOp)
    ensures LiveAfter(live, ops + [op]) == LiveStep(LiveAfter(live, ops), op)
  {
    assert (ops + [op])[..|ops|] == ops;
  }

  lemma {:induction false} LiveConcat(live: FreeMap, xs: seq<RedoOp>, ys: seq<RedoOp>)
    ensures LiveAfter(live, xs + ys) == LiveAfter(LiveAfter(live, xs), ys)
    decreases |ys|
  {
    hide LiveStep;
    if ys == [] {
      assert xs + ys == xs;
    } else {
      var n := |ys| - 1;
      LiveConcat(live, xs, ys[..n]);
      assert (xs + ys)[..|xs| + n] == xs + ys[..n];
    }
  }

  /** The entries of a batch say what the batch made live. */
  lemma {:induction false} LiveBatch(c: Config, s: State, live: FreeMap, sizes: seq<u64>)
    requires ValidConfig(c)
    ensures var b := ReserveAll(c, s, sizes); LiveAfter(live, b.ops) == WithRegions(live, b.regions)
    decreases |sizes|
  {
    hide ReserveNext, LiveAfter, WithRegions;
    if sizes == [] {
      assert LiveAfter(live, []) == live && WithRegions(live, []) == live by { NoneLive(live); }
    } else {
      var n := |sizes| - 1;
      LiveBatch(c, s, live, sizes[..n]);
      LiveNext(c, live, ReserveAll(c, s, sizes[..n]), sizes[n]);
    }
  }

  lemma NoneLive(live: FreeMap)
    ensures LiveAfter(live, []) == live && WithRegions(live, []) == live
  {
  }

  lemma LiveNext(c: Config, live: FreeMap, b: Batch, size: u64)
    requires ValidConfig(c) && LiveAfter(live, b.ops) == WithRegions(live, b.regions)
    ensures var b' := ReserveNext(c, b, size); LiveAfter(live, b'.ops) == WithRegions(live, b'.regions)
  {
    hide Reserve, AlignReservation, WithRegion, LiveAfter;
    var b', a := ReserveNext(c, b, size), AlignReservation(c, size);
    assert b'.regions[..|b.regions|] == b.regions;
    if Reserve(c, b.state, a).Some? { LiveSnoc(live, b.ops, b'.ops[|b.ops|]); }
  }

  // ----- runs with crashes -----

  /** Memory, log and device of a running store. `written` is the state the header in `device` describes and
      `mark` the log length when it was written, as long as `whole` says that no header write has failed
      part-way since; `synced`, `syncedMark` and `syncedWhole` say the same of `durable`. */
  datatype World = World(
    state: State,
    live: FreeMap,
    log: Log,
    device: seq<byte>,
    durable: seq<byte>,
    written: State,
    mark: nat,
    whole: bool,
    synced: State,
    syncedMark: nat,
    syncedWhole: bool)

  datatype Op =
    | Allocating(sizes: seq<u64>, fate: Fate)
    | Freeing(offset: nat, size: u64, fate: Fate)
    | Storing(offset: nat, data: seq<byte>)
    | WritingHeader
    | TearingHeader(count: nat)  // a header write fails after `count` bytes
    | Syncing
    | Restarting(torn: nat)      // power fails with `torn` entries of a failed flush on disk, and the store recovers

  /** Only live reservations are freed or written to. A store restarts from a header that was written whole. */
  ghost predicate Legal(c: Config, w: World, op: Op)
    requires ValidConfig(c)
  {
    match op
    case Freeing(offset, size, _) => offset in w.live && AlignReservation(c, size) == w.live[offset]
    case Storing(offset, data) => offset in w.live && |data| <= w.live[offset]
    case Restarting(k) => k <= |w.log.torn| && w.syncedWhole
    case _ => true
  }

  /** The redo entries the operation journals. */
  ghost function Entries(c: Config, s: State, op: Op): seq<RedoOp>
    requires ValidConfig(c)
  {
    match op
    case Allocating(sizes, _) => ReserveAll(c, s, sizes).ops
    case Freeing(offset, size, _) => [RedoOp.FreeRegion(offset, AlignReservation(c, size), c.redoDeviceId)]
    case _ => []
  }

  /** One step. A flush the log does not accept leaves memory as it was. */
  ghost function Exec(c: Config, id: seq<byte>, crc: Checksum, w: World, op: Op): World
    requires ValidConfig(c) && |id| == ID_SIZE
  {
    match op
    case Allocating(sizes, fate) =>
      var b := ReserveAll(c, w.state, sizes);
      var w' := if b.ops == [] then w else w.(log := Append(w.log, b.ops, fate));
      if b.ops == [] || Accepts(w.log, fate) then w'.(state := b.state, live := WithRegions(w.live, b.regions))
      else w'
    case Freeing(offset, size, fate) =>
      var a := AlignReservation(c, size);
      var w' := w.(log := Append(w.log, Entries(c, w.state, op), fate));
      if !(WellFormed(c, w.state) && Releasable(c, w.state, offset, a)) then w
      else if !Accepts(w.log, fate) then w'
      else w'.(state := Release(c, w.state, offset, a), live := w.live - {offset})
    case Storing(offset, data) =>
      if offset + |data| <= |w.device| then w.(device := Splice(w.device, offset, data)) else w
    case WritingHeader =>
      if !Persistable(w.state) then w
      else w.(device := WithHeader(w.device, c, w.state, id, crc), written := w.state, mark := |w.log.entries|,
              whole := true)
    case TearingHeader(count) =>
      if !Persistable(w.state) then w
      else w.(device := WithPartOfHeader(w.device, c, w.state, id, crc, count), whole := false)
    case Syncing =>
      w.(durable := w.device, synced := w.written, syncedMark := w.mark, syncedWhole := w.whole)
    case Restarting(k) => Restarted(c, crc, w, k)
  }

  /** The device after the first `count` bytes of a header write. */
  ghost function WithPartOfHeader(d: seq<byte>, c: Config, s: State, id: seq<byte>, crc: Checksum, count: nat): seq<byte>
    requires ValidConfig(c) && |id| == ID_SIZE
  {
    var b := Padded(Encode(HeaderOf(c, s, id), crc), c.alignment);
    if count <= |b| <= |d| then Splice(d, 0, b[..count]) else d
  }

  /** Power loss and recovery: memory is rebuilt from the durable header and the entries on disk since it was written.
      The code replays from an earlier fence; `FuzzyCheckpoints` says when that comes to the same. */
  ghost function Restarted(c: Config, crc: Checksum, w: World, k: nat): World
    requires ValidConfig(c)
  {
    var boot := Booted(c, crc, w.durable);
    if k > |w.log.torn| || w.syncedMark > |w.log.entries| || boot.None? || !WellFormed(c, boot.value) then w
    else
      var landed := w.log.torn[..k];
      var entries := w.log.entries + landed;
      World(ReplayAll(c, boot.value, entries[w.syncedMark..]), LiveAfter(w.live, landed), Log(entries, [], false),
            w.durable, w.durable, w.synced, w.syncedMark, true, w.synced, w.syncedMark, true)
  }

  /** The state a reboot starts from: the header's, or a fresh one on a device that never had a header. */
  ghost function Booted(c: Config, crc: Checksum, d: seq<byte>): Option<State>
    requires ValidConfig(c)
  {
    match Decode(d, c.alignment, crc)
    case Ok(h) => if h.packed == c.packed then Some(FromHeader(h)) else None
    case Err(e) => if e.NoPersistedState? then Some(INITIAL) else None
  }

  /** Booting `d` and replaying the entries from `mark` on leads to `state`. */
  ghost predicate Rebuilds(c: Config, crc: Checksum, d: seq<byte>, log: Log, header: State, mark: nat, state: State)
    requires ValidConfig(c)
  {
    && WellFormed(c, header) && Booted(c, crc, d) == Some(header)
    && mark <= |log.entries| && ReplayAll(c, header, log.entries[mark..]) == state
  }

  /** What every step keeps. */
  ghost predicate Sound(c: Config, id: seq<byte>, crc: Checksum, w: World)
    requires ValidConfig(c)
  {
    && Safe(c, w.state, w.live)
    && |w.device| == |w.durable| == c.deviceSize >= DATA_REGION_OFFSET
    && (w.whole ==> Rebuilds(c, crc, w.device, w.log, w.written, w.mark, w.state))
    && (w.syncedWhole ==> Rebuilds(c, crc, w.durable, w.log, w.synced, w.syncedMark, w.state))
    && (!w.log.poisoned ==> w.log.torn == [])
    && (w.log.poisoned ==> exists op :: Interrupted(c, w, op))
  }

  /** The torn entries are those of this operation, which left memory as it was. */
  ghost predicate Interrupted(c: Config, w: World, op: Op)
    requires ValidConfig(c)
  {
    (op.Allocating? || op.Freeing?) && Legal(c, w, op) && w.log.torn == Entries(c, w.state, op)
  }

  lemma StoreInside(c: Config, w: World, op: Op)
    requires ValidConfig(c) && Safe(c, w.state, w.live) && |w.device| == c.deviceSize >= DATA_REGION_OFFSET
    requires op.Storing? && Legal(c, w, op)
    ensures DATA_REGION_OFFSET <= op.offset && op.offset + |op.data| <= |w.device|
  {
    assert LiveRegion(c, w.state, op.offset, w.live[op.offset]);
  }

  ghost function Fresh(c: Config): World {
    World(INITIAL, map[], Log([], [], false), Zeros(c.deviceSize), Zeros(c.deviceSize), INITIAL, 0, true, INITIAL, 0, true)
  }

  lemma FreshSound(c: Config, id: seq<byte>, crc: Checksum)
    requires ValidConfig(c) && c.deviceSize >= DATA_REGION_OFFSET
    ensures Sound(c, id, crc, Fresh(c))
  {
    InitialWellFormed(c);
    AlignmentBounded(c);
    FreshMeansZero(Zeros(c.deviceSize), c.alignment, crc);
  }

  /** Appending durable entries moves both rebuild points along with the state. */
  lemma RebuildsAppend(c: Config, crc: Checksum, d: seq<byte>, log: Log, header: State, mark: nat, state: State,
                       entries: seq<RedoOp>, state': State)
    requires ValidConfig(c) && Rebuilds(c, crc, d, log, header, mark, state) && WellFormed(c, state)
    requires ReplayAll(c, state, entries) == state'
    ensures Rebuilds(c, crc, d, log.(entries := log.entries + entries), header, mark, state')
  {
    hide WellFormed, Booted, ReplayAll;
    assert (log.entries + entries)[mark..] == log.entries[mark..] + entries;
    ReplayAllConcat(c, header, log.entries[mark..], entries);
  }

  lemma BootedLocal(c: Config, crc: Checksum, d: seq<byte>, d': seq<byte>)
    requires ValidConfig(c) && |d| == |d'| >= DATA_REGION_OFFSET
    requires d[..DATA_REGION_OFFSET] == d'[..DATA_REGION_OFFSET]
    ensures Booted(c, crc, d) == Booted(c, crc, d')
  {
    DecodeLocal(d, d', c.alignment, crc);
  }

  lemma AllocatingSound(c: Config, id: seq<byte>, crc: Checksum, w: World, op: Op)
    requires ValidConfig(c) && |id| == ID_SIZE && Sound(c, id, crc, w) && op.Allocating?
    ensures Sound(c, id, crc, Exec(c, id, crc, w, op))
  {
    SafeParts(c, w.state, w.live);
    ReplayBatch(c, w.state, w.live, op.sizes);
    var b := ReserveAll(c, w.state, op.sizes);
    hide Safe, WellFormed, Booted, ReserveAll, WithRegions;
    var w' := Exec(c, id, crc, w, op);
    if b.ops == [] {
      assert b.state == w.state;
      if w.log.poisoned {
        SameLive(c, w.state, w.live, op.sizes);
        assert w' == w;
      }
    } else if Accepts(w.log, op.fate) {
      if w.whole { RebuildsAppend(c, crc, w.device, w.log, w.written, w.mark, w.state, b.ops, b.state); }
      if w.syncedWhole { RebuildsAppend(c, crc, w.durable, w.log, w.synced, w.syncedMark, w.state, b.ops, b.state); }
    } else if !w.log.poisoned && op.fate.FlushFails? {
      assert Interrupted(c, w', op);
    } else {
      assert w' == w;
    }
  }

  /** A batch in which nothing fitted leaves the live reservations alone. */
  lemma {:induction false} SameLive(c: Config, s: State, live: FreeMap, sizes: seq<u64>)
    requires ValidConfig(c) && ReserveAll(c, s, sizes).ops == []
    ensures WithRegions(live, ReserveAll(c, s, sizes).regions) == live
    ensures ReserveAll(c, s, sizes).state == s
    decreases |sizes|
  {
    if sizes != [] {
      hide Reserve, AlignReservation;
      var n := |sizes| - 1;
      var b, b' := ReserveAll(c, s, sizes[..n]), ReserveAll(c, s, sizes);
      SameLive(c, s, live, sizes[..n]);
      assert b'.regions[..|b.regions|] == b.regions;
    }
  }

  lemma FreeingSound(c: Config, id: seq<byte>, crc: Checksum, w: World, op: Op)
    requires ValidConfig(c) && |id| == ID_SIZE && Sound(c, id, crc, w) && op.Freeing? && Legal(c, w, op)
    ensures Sound(c, id, crc, Exec(c, id, crc, w, op))
  {
    SafeParts(c, w.state, w.live);
    SafeRelease(c, w.state, w.live, op.offset);
    hide Safe, WellFormed, Booted, Releasable, AlignReservation;
    var w' := Exec(c, id, crc, w, op);
    if Accepts(w.log, op.fate) {
      ReplayRelease(c, w.state, op.offset, op.size);
      var e := Entries(c, w.state, op);
      ReplayAllSnoc(c, w.state, [], e[0]);
      assert [] + [e[0]] == e;
      if w.whole { RebuildsAppend(c, crc, w.device, w.log, w.written, w.mark, w.state, e, w'.state); }
      if w.syncedWhole { RebuildsAppend(c, crc, w.durable, w.log, w.synced, w.syncedMark, w.state, e, w'.state); }
    } else if !w.log.poisoned && op.fate.FlushFails? {
      assert Interrupted(c, w', op);
    } else {
      assert w' == w;
    }
  }

  lemma StoringSound(c: Config, id: seq<byte>, crc: Checksum, w: World, op: Op)
    requires ValidConfig(c) && |id| == ID_SIZE && Sound(c, id, crc, w) && op.Storing? && Legal(c, w, op)
    ensures Sound(c, id, crc, Exec(c, id, crc, w, op))
  {
    StoreInside(c, w, op);
    var w' := Exec(c, id, crc, w, op);
    hide Safe, WellFormed, Booted;
    assert w'.device[..DATA_REGION_OFFSET] == w.device[..DATA_REGION_OFFSET];
    BootedLocal(c, crc, w.device, w'.device);
    PoisonStays(c, w, w');
  }

  /** The in-flight operation stays the same while state and live reservations do. */
  lemma PoisonStays(c: Config, w: World, w': World)
    requires ValidConfig(c) && w'.state == w.state && w'.live == w.live && w'.log == w.log
    requires w.log.poisoned ==> exists op :: Interrupted(c, w, op)
    ensures w'.log.poisoned ==> exists op :: Interrupted(c, w', op)
  {
    hide AlignReservation;
    if w.log.poisoned {
      var op :| Interrupted(c, w, op);
      assert Interrupted(c, w', op);
    }
  }

  lemma WritingHeaderSound(c: Config, id: seq<byte>, crc: Checksum, w: World)
    requires ValidConfig(c) && |id| == ID_SIZE && Sound(c, id, crc, w)
    ensures Sound(c, id, crc, Exec(c, id, crc, w, WritingHeader))
  {
    SafeParts(c, w.state, w.live);
    var w' := Exec(c, id, crc, w, WritingHeader);
    hide Safe, WellFormed;
    if Persistable(w.state) {
      PersistRecover(c, w.state, id, crc, w.device, w'.device);
      assert w.log.entries[|w.log.entries|..] == [];
    }
    hide Booted;
    PoisonStays(c, w, w');
  }

  lemma SyncingSound(c: Config, id: seq<byte>, crc: Checksum, w: World)
    requires ValidConfig(c) && |id| == ID_SIZE && Sound(c, id, crc, w)
    ensures Sound(c, id, crc, Exec(c, id, crc, w, Syncing))
  {
    hide Safe, WellFormed, Booted;
    PoisonStays(c, w, Exec(c, id, crc, w, Syncing));
  }

  lemma TearingHeaderSound(c: Config, id: seq<byte>, crc: Checksum, w: World, op: Op)
    requires ValidConfig(c) && |id| == ID_SIZE && Sound(c, id, crc, w) && op.TearingHeader?
    ensures Sound(c, id, crc, Exec(c, id, crc, w, op))
  {
    hide Safe, WellFormed, Booted, Encode, Padded;
    PoisonStays(c, w, Exec(c, id, crc, w, op));
  }

  /** Whatever part of the operation in flight landed, the reservations it left live are safe. */
  lemma LandedSafe(c: Config, w: World, op: Op, k: nat)
    requires ValidConfig(c) && Safe(c, w.state, w.live) && WellFormed(c, w.state) && Legal(c, w, op)
    requires k <= |Entries(c, w.state, op)|
    ensures var e := Entries(c, w.state, op)[..k]; Safe(c, ReplayAll(c, w.state, e), LiveAfter(w.live, e))
  {
    hide Safe, WellFormed, AlignReservation, Releasable;
    var e := Entries(c, w.state, op);
    if op.Allocating? {
      var j := BatchPrefix(c, w.state, op.sizes, k);
      ReplayBatch(c, w.state, w.live, op.sizes[..j]);
      LiveBatch(c, w.state, w.live, op.sizes[..j]);
    } else if op.Freeing? && k == 1 {
      SafeRelease(c, w.state, w.live, op.offset);
      ReplayRelease(c, w.state, op.offset, op.size);
      ReplayAllSnoc(c, w.state, [], e[0]);
      LiveSnoc(w.live, [], e[0]);
      assert [] + [e[0]] == e[..k];
    } else {
      assert e[..k] == [];
    }
  }

  /** A restart advances the state by the entries that landed. */
  lemma RestartIs(c: Config, crc: Checksum, w: World, k: nat)
    requires ValidConfig(c) && WellFormed(c, w.state) && k <= |w.log.torn|
    requires Rebuilds(c, crc, w.durable, w.log, w.synced, w.syncedMark, w.state)
    ensures var landed := w.log.torn[..k];
            Restarted(c, crc, w, k) ==
              World(ReplayAll(c, w.state, landed), LiveAfter(w.live, landed), Log(w.log.entries + landed, [], false),
                    w.durable, w.durable, w.synced, w.syncedMark, true, w.synced, w.syncedMark, true)
    ensures var w' := Restarted(c, crc, w, k);
            Rebuilds(c, crc, w'.durable, w'.log, w'.synced, w'.syncedMark, w'.state)
  {
    hide WellFormed, Booted, ReplayAll, LiveAfter;
    var landed := w.log.torn[..k];
    ReplayAllConcat(c, w.synced, w.log.entries[w.syncedMark..], landed);
    assert (w.log.entries + landed)[w.syncedMark..] == w.log.entries[w.syncedMark..] + landed;
  }

  /** A restart leaves a sound store whose live reservations are those the entries on disk describe. */
  lemma RestartingSound(c: Config, id: seq<byte>, crc: Checksum, w: World, k: nat)
    requires ValidConfig(c) && |id| == ID_SIZE && Sound(c, id, crc, w) && Legal(c, w, Restarting(k))
    ensures var w', landed := Exec(c, id, crc, w, Restarting(k)), w.log.torn[..k];
            && Sound(c, id, crc, w') && WellFormed(c, w.state) && w'.log.entries == w.log.entries + landed
            && w'.state == ReplayAll(c, w.state, landed) && w'.live == LiveAfter(w.live, landed)
  {
    hide Safe, WellFormed, Booted, ReplayAll, LiveAfter, Entries, Rebuilds, Restarted;
    SafeParts(c, w.state, w.live);
    RestartIs(c, crc, w, k);
    if w.log.poisoned {
      var op :| Interrupted(c, w, op);
      LandedSafe(c, w, op, k);
    } else {
      assert w.log.torn[..k] == [];
      NothingLanded(c, w);
    }
  }

  lemma NothingLanded(c: Config, w: World)
    requires ValidConfig(c) && WellFormed(c, w.state)
    ensures ReplayAll(c, w.state, []) == w.state && LiveAfter(w.live, []) == w.live
  {
  }

  /** Every legal step keeps the world sound. */
  lemma ExecSound(c: Config, id: seq<byte>, crc: Checksum, w: World, op: Op)
    requires ValidConfig(c) && |id| == ID_SIZE && Sound(c, id, crc, w) && Legal(c, w, op)
    ensures Sound(c, id, crc, Exec(c, id, crc, w, op))
  {
    match op
    case Allocating(_, _) => AllocatingSound(c, id, crc, w, op);
    case Freeing(_, _, _) => FreeingSound(c, id, crc, w, op);
    case Storing(_, _) => StoringSound(c, id, crc, w, op);
    case WritingHeader => WritingHeaderSound(c, id, crc, w);
    case TearingHeader(_) => TearingHeaderSound(c, id, crc, w, op);
    case Syncing => SyncingSound(c, id, crc, w);
    case Restarting(k) => RestartingSound(c, id, crc, w, k);
  }

  /** A run: each world follows from the one before by a legal operation. */
  ghost predicate IsRun(c: Config, id: seq<byte>, crc: Checksum, ws: seq<World>, ops: seq<Op>)
    requires ValidConfig(c) && |id| == ID_SIZE
  {
    && |ws| == |ops| + 1 && ws[0] == Fresh(c)
    && forall i :: 0 <= i < |ops| ==> Legal(c, ws[i], ops[i]) && ws[i + 1] == Exec(c, id, crc, ws[i], ops[i])
  }

  /** Every world of every run is sound: in particular no two live reservations ever overlap. */
  lemma {:induction false} RunSound(c: Config, id: seq<byte>, crc: Checksum, ws: seq<World>, ops: seq<Op>, i: nat)
    requires ValidConfig(c) && c.deviceSize >= DATA_REGION_OFFSET && |id| == ID_SIZE
    requires IsRun(c, id, crc, ws, ops) && i < |ws|
    ensures Sound(c, id, crc, ws[i])
  {
    hide Sound, Legal, Exec;
    if i == 0 {
      FreshSound(c, id, crc);
    } else {
      RunSound(c, id, crc, ws, ops, i - 1);
      assert Legal(c, ws[i - 1], ops[i - 1]);
      ExecSound(c, id, crc, ws[i - 1], ops[i - 1]);
    }
  }

  /** `s'` is what `op` makes of `s` once `k` of its entries took effect. */
  ghost predicate Midway(c: Config, s: State, op: Op, k: nat, s': State)
    requires ValidConfig(c) && WellFormed(c, s)
  {
    match op
    case Allocating(sizes, _) => exists j :: AfterSome(c, s, sizes, j, k, s')
    case Freeing(offset, size, _) =>
      var a := AlignReservation(c, size);
      if k == 0 then s' == s else Releasable(c, s, offset, a) && s' == Release(c, s, offset, a)
    case _ => s' == s
  }

  ghost predicate AfterSome(c: Config, s: State, sizes: seq<u64>, j: nat, k: nat, s': State)
    requires ValidConfig(c)
  {
    j <= |sizes| && |ReserveAll(c, s, sizes[..j]).ops| == k && ReserveAll(c, s, sizes[..j]).state == s'
  }

  /** The first `k` entries of a batch are the entries of some prefix of its requests. */
  lemma {:induction false} BatchPrefix(c: Config, s: State, sizes: seq<u64>, k: nat) returns (j: nat)
    requires ValidConfig(c) && k <= |ReserveAll(c, s, sizes).ops|
    ensures j <= |sizes| && ReserveAll(c, s, sizes[..j]).ops == ReserveAll(c, s, sizes).ops[..k]
    decreases |sizes|
  {
    hide Reserve, AlignReservation;
    var ops := ReserveAll(c, s, sizes).ops;
    if k == |ops| {
      j := |sizes|;
      assert sizes[..j] == sizes && ops[..k] == ops;
    } else {
      var n := |sizes| - 1;
      var front := ReserveAll(c, s, sizes[..n]).ops;
      assert ops[..|front|] == front;
      j := BatchPrefix(c, s, sizes[..n], k);
      assert sizes[..n][..j] == sizes[..j];
      assert front[..k] == ops[..k];
    }
  }

  /** Entries of the operation in flight that reached the disk take effect one by one. */
  lemma InFlight(c: Config, w: World, op: Op, k: nat)
    requires ValidConfig(c) && Safe(c, w.state, w.live) && Legal(c, w, op) && WellFormed(c, w.state)
    requires k <= |Entries(c, w.state, op)|
    ensures Midway(c, w.state, op, k, ReplayAll(c, w.state, Entries(c, w.state, op)[..k]))
  {
    hide Safe, WellFormed, AlignReservation, Releasable;
    var e := Entries(c, w.state, op);
    if op.Allocating? {
      var j := BatchPrefix(c, w.state, op.sizes, k);
      ReplayBatch(c, w.state, w.live, op.sizes[..j]);
      assert AfterSome(c, w.state, op.sizes, j, k, ReplayAll(c, w.state, e[..k]));
    } else if op.Freeing? && k == 1 {
      SafeRelease(c, w.state, w.live, op.offset);
      ReplayRelease(c, w.state, op.offset, op.size);
      ReplayAllSnoc(c, w.state, [], e[0]);
      assert [] + [e[0]] == e[..k];
    } else {
      assert e[..k] == [];
    }
  }

  /** Crash safety. Take any run, crash at any point, with any operation in flight of which `k` entries
      reached the disk. Booting from the durable header and replaying the log from where it was written gives
      exactly the live state, advanced by those `k` entries. */
  lemma CrashRecovery(c: Config, id: seq<byte>, crc: Checksum, ws: seq<World>, ops: seq<Op>, i: nat, op: Op, k: nat)
    requires ValidConfig(c) && c.deviceSize >= DATA_REGION_OFFSET && |id| == ID_SIZE
    requires IsRun(c, id, crc, ws, ops) && i < |ws|
    requires ws[i].syncedWhole && Legal(c, ws[i], op) && k <= |Entries(c, ws[i].state, op)|
    ensures var w := ws[i];
            var boot := Booted(c, crc, w.durable);
            && WellFormed(c, w.state) && boot.Some? && WellFormed(c, boot.value)
            && w.syncedMark <= |w.log.entries|
            && ReplayAll(c, boot.value, w.log.entries[w.syncedMark..]) == w.state
            && Midway(c, w.state, op, k,
                      ReplayAll(c, boot.value, w.log.entries[w.syncedMark..] + Entries(c, w.state, op)[..k]))
  {
    RunSound(c, id, crc, ws, ops, i);
    var w := ws[i];
    SafeParts(c, w.state, w.live);
    hide WellFormed, Safe, Booted, ReplayAll, Midway, Legal, Entries, IsRun;
    InFlight(c, w, op, k);
    ReplayAllConcat(c, w.synced, w.log.entries[w.syncedMark..], Entries(c, w.state, op)[..k]);
  }

  /** The same after a failed flush: whatever prefix of the torn batch is on disk, recovery ends in the live
      state advanced by that prefix. */
  lemma TornRecovery(c: Config, id: seq<byte>, crc: Checksum, ws: seq<World>, ops: seq<Op>, i: nat, k: nat)
    requires ValidConfig(c) && c.deviceSize >= DATA_REGION_OFFSET && |id| == ID_SIZE
    requires IsRun(c, id, crc, ws, ops) && i < |ws|
    requires ws[i].syncedWhole && ws[i].log.poisoned && k <= |ws[i].log.torn|
    ensures var w := ws[i];
            var boot := Booted(c, crc, w.durable);
            && WellFormed(c, w.state) && boot.Some? && WellFormed(c, boot.value)
            && w.syncedMark <= |w.log.entries|
            && exists op :: Interrupted(c, w, op) &&
                 Midway(c, w.state, op, k,
                        ReplayAll(c, boot.value, w.log.entries[w.syncedMark..] + w.log.torn[..k]))
  {
    RunSound(c, id, crc, ws, ops, i);
    var w := ws[i];
    var op :| Interrupted(c, w, op);
    CrashRecovery(c, id, crc, ws, ops, i, op, k);
  }

  // ----- header writes that fail part-way -----

  /** Only a failed header write tears the device's header, and only a sync can make that durable. */
  lemma HeaderStep(c: Config, id: seq<byte>, crc: Checksum, w: World, op: Op)
    requires ValidConfig(c) && |id| == ID_SIZE
    ensures var w' := Exec(c, id, crc, w, op);
            && (w.whole && !w'.whole ==> op.TearingHeader?)
            && (w.syncedWhole && !w'.syncedWhole ==> op.Syncing? && !w.whole)
  {
    hide WithPartOfHeader, WithHeader, ReserveAll, Booted, WellFormed, ReplayAll, LiveAfter;
  }

  lemma FreshWhole(c: Config)
    ensures Fresh(c).whole && Fresh(c).syncedWhole
  {
  }

  lemma {:induction false} NotWhole(c: Config, id: seq<byte>, crc: Checksum, ws: seq<World>, ops: seq<Op>, i: nat)
    returns (p: nat)
    requires ValidConfig(c) && |id| == ID_SIZE && IsRun(c, id, crc, ws, ops) && i < |ws| && !ws[i].whole
    ensures p < i && ops[p].TearingHeader? && forall m :: p < m <= i ==> !ws[m].whole
  {
    hide Exec, Legal, Fresh;
    assert i == 0 ==> ws[0] == Fresh(c);
    if i > 0 { assert Legal(c, ws[i - 1], ops[i - 1]); HeaderStep(c, id, crc, ws[i - 1], ops[i - 1]); }
    FreshWhole(c);
    if !ws[i - 1].whole {
      p := NotWhole(c, id, crc, ws, ops, i - 1);
    } else {
      p := i - 1;
    }
  }

  /** The durable header is whole unless a sync fell between a failed header write and the next successful one:
      otherwise there were a failed write `p` and a later sync `q` with no whole header in between. */
  lemma {:induction false} TornSync(c: Config, id: seq<byte>, crc: Checksum, ws: seq<World>, ops: seq<Op>, i: nat)
    returns (p: nat, q: nat)
    requires ValidConfig(c) && |id| == ID_SIZE && IsRun(c, id, crc, ws, ops) && i < |ws| && !ws[i].syncedWhole
    ensures p < q < i && ops[p].TearingHeader? && ops[q].Syncing? && forall m :: p < m <= q ==> !ws[m].whole
  {
    hide Exec, Legal, Fresh;
    assert i == 0 ==> ws[0] == Fresh(c);
    if i > 0 { assert Legal(c, ws[i - 1], ops[i - 1]); HeaderStep(c, id, crc, ws[i - 1], ops[i - 1]); }
    FreshWhole(c);
    if !ws[i - 1].syncedWhole {
      p, q := TornSync(c, id, crc, ws, ops, i - 1);
    } else {
      q := i - 1;
      p := NotWhole(c, id, crc, ws, ops, q);
    }
  }

  /** Such a sync can make the store unrecoverable: on every fresh device a header write that stops between the magic
      number and the version leaves, once synced, a header that recovery refuses. */
  lemma TornHeaderRefused(c: Config, id: seq<byte>, crc: Checksum, count: nat)
    requires ValidConfig(c) && c.deviceSize >= DATA_REGION_OFFSET && |id| == ID_SIZE && 8 <= count <= 40
    ensures var w := Exec(c, id, crc, Exec(c, id, crc, Fresh(c), TearingHeader(count)), Syncing);
            !w.syncedWhole && Booted(c, crc, w.durable).None?
  {
    hide RoundUp, Decode, Encode, Padded, Splice, Zeros, HeaderOf;
    AlignmentBounded(c);
    var h := HeaderOf(c, INITIAL, id);
    HeaderBelowData(c, INITIAL, id, crc);
    FreshHeaderId(c, id);
    TornBytes(h, c.alignment, crc, c.deviceSize, count);
  }

  lemma FreshHeaderId(c: Config, id: seq<byte>)
    requires ValidConfig(c) && |id| == ID_SIZE
    ensures |HeaderOf(c, INITIAL, id).deviceId| == ID_SIZE && Persistable(INITIAL)
    ensures Fresh(c).device == Zeros(c.deviceSize) && Fresh(c).state == INITIAL
  {
  }

  /** The magic number without the rest of the fixed fields is refused. */
  lemma TornBytes(h: Header, alignment: nat, crc: Checksum, size: nat, count: nat)
    requires |h.deviceId| == ID_SIZE && FREELIST_OFFSET <= alignment <= size && 8 <= count <= 40
    requires |Padded(Encode(h, crc), alignment)| <= size
    ensures count <= |Padded(Encode(h, crc), alignment)|
    ensures Decode(Splice(Zeros(size), 0, Padded(Encode(h, crc), alignment)[..count]), alignment, crc) ==
            Err(UnsupportedVersion(0))
  {
    hide RoundUp, Decode, LittleEndian, EntryBytes;
    RoundUpBounds(|Encode(h, crc)|, alignment);
    var b := Padded(Encode(h, crc), alignment)[..count];
    var d := Splice(Zeros(size), 0, b);
    FixedSlices(h);
    assert b[..8] == Fixed(h)[0..8];
    assert d[0..8] == b[..8];
    assert d[40..44] == Zeros(4);
    MagicOnly(d, alignment, crc);
  }

  // ----- the records themselves -----

  /** The bytes at `offset` are `data`. */
  ghost predicate Has(d: seq<byte>, offset: nat, data: seq<byte>) {
    offset + |data| <= |d| && d[offset..offset + |data|] == data
  }

  /** A store that misses the range leaves its bytes alone. */
  lemma HasElsewhere(d: seq<byte>, offset: nat, data: seq<byte>, at: nat, b: seq<byte>)
    requires Has(d, offset, data) && at + |b| <= |d| && (at + |b| <= offset || offset + |data| <= at)
    ensures Has(Splice(d, at, b), offset, data)
  {
    var d' := Splice(d, at, b);
    forall i | 0 <= i < |data| ensures d'[offset + i] == data[i] {
      SpliceAt(d, at, b, offset + i);
      assert d[offset..offset + |data|][i] == data[i];
    }
  }

  lemma HasStored(d: seq<byte>, offset: nat, data: seq<byte>)
    requires offset + |data| <= |d|
    ensures Has(Splice(d, offset, data), offset, data)
  {
  }

  /** No step but a store to the record itself, or a crash, changes a live record's bytes: allocations, frees, stores to
      other records and header writes, whole or torn, miss them. */
  lemma RecordKept(c: Config, id: seq<byte>, crc: Checksum, w: World, op: Op, o: nat, data: seq<byte>)
    requires ValidConfig(c) && |id| == ID_SIZE && Sound(c, id, crc, w) && Legal(c, w, op) && !op.Restarting?
    requires o in w.live && |data| <= w.live[o] && Has(w.device, o, data)
    ensures var w' := Exec(c, id, crc, w, op);
            Has(w'.device, o, if op.Storing? && op.offset == o then op.data else data)
  {
    hide Splice, Encode, RoundUp, ReserveAll, Append, Release, Releasable, WellFormed, Has;
    LiveInData(c, w, o);
    match op
    case Storing(offset, b) =>
      StoreInside(c, w, op);
      if offset == o { HasStored(w.device, o, b); } else { HasElsewhere(w.device, o, data, offset, b); }
    case WritingHeader =>
      if Persistable(w.state) { HeaderMisses(c, id, crc, w, o, data, |HeaderBytes(c, id, crc, w)|); }
    case TearingHeader(count) =>
      if Persistable(w.state) && count <= |HeaderBytes(c, id, crc, w)| { HeaderMisses(c, id, crc, w, o, data, count); }
    case _ =>
  }

  lemma LiveInData(c: Config, w: World, o: nat)
    requires ValidConfig(c) && Safe(c, w.state, w.live) && o in w.live
    ensures DATA_REGION_OFFSET <= o
    ensures forall p :: p in w.live && p != o ==> p + w.live[p] <= o || o + w.live[o] <= p
  {
  }

  ghost function HeaderBytes(c: Config, id: seq<byte>, crc: Checksum, w: World): seq<byte>
    requires ValidConfig(c) && |id| == ID_SIZE
  {
    Padded(Encode(HeaderOf(c, w.state, id), crc), c.alignment)
  }

  lemma HeaderMisses(c: Config, id: seq<byte>, crc: Checksum, w: World, o: nat, data: seq<byte>, count: nat)
    requires ValidConfig(c) && |id| == ID_SIZE && Persistable(w.state) && |w.device| >= DATA_REGION_OFFSET
    requires DATA_REGION_OFFSET <= o && Has(w.device, o, data) && count <= |HeaderBytes(c, id, crc, w)|
    ensures |HeaderBytes(c, id, crc, w)| <= |w.device|
    ensures Has(Splice(w.device, 0, HeaderBytes(c, id, crc, w)[..count]), o, data)
    ensures HeaderBytes(c, id, crc, w)[..|HeaderBytes(c, id, crc, w)|] == HeaderBytes(c, id, crc, w)
  {
    hide Splice, Encode, RoundUp, Has, SortedList, Padded;
    HeaderBelowData(c, w.state, id, crc);
    HasElsewhere(w.device, o, data, 0, HeaderBytes(c, id, crc, w)[..count]);
  }

  /** A record that was stored and then synced is still there, on the device and on its durable copy, after any further
      steps and any number of crashes, as long as its reservation stays live and it is not stored to again. */
  lemma {:induction false} RecordSurvives(c: Config, id: seq<byte>, crc: Checksum, ws: seq<World>, ops: seq<Op>,
                                          j: nat, s: nat, k: nat)
    requires ValidConfig(c) && c.deviceSize >= DATA_REGION_OFFSET && |id| == ID_SIZE
    requires IsRun(c, id, crc, ws, ops) && j < s <= |ops| && j < k <= |ops| && ops[j].Storing?
    requires s < |ops| ==> ops[s].Syncing?
    requires forall n :: j < n < k ==> !(ops[n].Storing? && ops[n].offset == ops[j].offset)
    requires forall n :: j < n < k && ops[n].Restarting? ==> s < n
    requires forall n :: j <= n <= k ==> ops[j].offset in ws[n].live && |ops[j].data| <= ws[n].live[ops[j].offset]
    ensures Has(ws[k].device, ops[j].offset, ops[j].data)
    ensures s < k ==> Has(ws[k].durable, ops[j].offset, ops[j].data)
  {
    hide Exec, Legal, Sound, Has, Fresh;
    var o, data := ops[j].offset, ops[j].data;
    RunSound(c, id, crc, ws, ops, k - 1);
    RunStep(c, id, crc, ws, ops, k - 1);
    if k == j + 1 {
      StoredNow(c, id, crc, ws[j], ops[j]);
    } else {
      RecordSurvives(c, id, crc, ws, ops, j, s, k - 1);
      if ops[k - 1].Restarting? {
        RestartDevice(c, id, crc, ws[k - 1], ops[k - 1]);
      } else {
        RecordKept(c, id, crc, ws[k - 1], ops[k - 1], o, data);
        DurableOnly(c, id, crc, ws[k - 1], ops[k - 1]);
      }
    }
  }

  lemma RunStep(c: Config, id: seq<byte>, crc: Checksum, ws: seq<World>, ops: seq<Op>, i: nat)
    requires ValidConfig(c) && |id| == ID_SIZE && IsRun(c, id, crc, ws, ops) && i < |ops|
    ensures Legal(c, ws[i], ops[i]) && ws[i + 1] == Exec(c, id, crc, ws[i], ops[i])
  {
    hide Exec, Legal, Fresh;
  }

  lemma StoredNow(c: Config, id: seq<byte>, crc: Checksum, w: World, op: Op)
    requires ValidConfig(c) && |id| == ID_SIZE && Sound(c, id, crc, w) && Legal(c, w, op) && op.Storing?
    ensures Has(Exec(c, id, crc, w, op).device, op.offset, op.data)
  {
    hide Splice, Has;
    StoreInside(c, w, op);
    HasStored(w.device, op.offset, op.data);
  }

  /** A crash leaves the durable copy. */
  lemma RestartDevice(c: Config, id: seq<byte>, crc: Checksum, w: World, op: Op)
    requires ValidConfig(c) && |id| == ID_SIZE && Sound(c, id, crc, w) && Legal(c, w, op) && op.Restarting?
    ensures var w' := Exec(c, id, crc, w, op); w'.device == w'.durable == w.durable
  {
    hide Safe, Booted, ReplayAll, LiveAfter;
    SafeParts(c, w.state, w.live);
    RestartIs(c, crc, w, op.torn);
  }

  lemma DurableOnly(c: Config, id: seq<byte>, crc: Checksum, w: World, op: Op)
    requires ValidConfig(c) && |id| == ID_SIZE && !op.Restarting?
    ensures Exec(c, id, crc, w, op).durable == if op.Syncing? then w.device else w.durable
  {
    hide WithHeader, WithPartOfHeader, ReserveAll, WellFormed, AlignReservation;
  }
}
