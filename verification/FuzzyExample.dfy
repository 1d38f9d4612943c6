/** A run in which replay over a later header hands out live space. */
module FuzzyExample {
  import opened Prelude
  import opened Regions
  import opened Freelist
  import opened Redo
  import opened AllocatorSpec
  import opened HeaderCodec
  import opened AllocatorRuns
  import opened AllocatorRecovery
  import opened FuzzyCheckpoints

  const BLOCK: nat := 4096
  const BASE: nat := DATA_REGION_OFFSET

  ghost function SmallDevice(): Config {
    Config(BASE + 16 * BLOCK, BLOCK, false, false, 0)
  }

  lemma SmallValid()
    ensures ValidConfig(SmallDevice())
  {
  }

  /** A whole number of blocks is reserved as it is. */
  lemma WholeBlocks(size: u64)
    requires size % BLOCK == 0 && size <= 16 * BLOCK
    ensures ValidConfig(SmallDevice()) && AlignReservation(SmallDevice(), size) == size
  {
  }

  // ----- single steps -----

  /** With nothing free an allocation extends the high-water mark. */
  lemma Extend(next: nat, size: nat)
    requires BASE <= next && next + size <= BASE + 16 * BLOCK
    ensures ValidConfig(SmallDevice())
    ensures Reserve(SmallDevice(), State(map[], next), size) ==
            Some(Reserved(State(map[], next + size), next, FromHighWater(next)))
  {
    assert forall p :: !Fits(map[], size, Place(SmallDevice(), size), p);
  }

  /** An allocation of exactly the only free region takes it. */
  lemma TakeAll(offset: nat, size: nat, next: nat)
    requires size > 0
    ensures ValidConfig(SmallDevice())
    ensures Reserve(SmallDevice(), State(map[offset := size], next), size) ==
            Some(Reserved(State(map[], next), offset, FromFreelist(offset, size)))
  {
    var m, place := map[offset := size], Place(SmallDevice(), size);
    assert Fits(m, size, place, offset);
    assert IsBestFit(m, size, place, offset);
    BestUnique(m, size, place, offset);
    assert TakeHead(m, offset, size) == map[];
  }

  lemma AllocateExec(id: seq<byte>, crc: Checksum, w: World, size: u64, r: Reserved)
    requires |id| == ID_SIZE && 0 < size <= 16 * BLOCK && size % BLOCK == 0 && !w.log.poisoned
    requires ValidConfig(SmallDevice()) && Reserve(SmallDevice(), w.state, size) == Some(r)
    ensures Exec(SmallDevice(), id, crc, w, Allocating([size], Durable)) ==
            w.(state := r.state, live := w.live[r.offset := size],
               log := w.log.(entries := w.log.entries + [AllocateRegion(r.offset, size, 0)]))
  {
    hide Reserve, AlignReservation, ReserveAll, WithRegions;
    WholeBlocks(size);
    BatchOfOne(SmallDevice(), w.state, w.live, size, r);
  }

  lemma BatchOfOne(c: Config, s: State, live: FreeMap, size: u64, r: Reserved)
    requires ValidConfig(c) && AlignReservation(c, size) == size > 0 && Reserve(c, s, size) == Some(r)
    ensures var b := ReserveAll(c, s, [size]);
            && b.state == r.state && b.ops == [AllocateRegion(r.offset, size, c.redoDeviceId)]
            && WithRegions(live, b.regions) == live[r.offset := size]
  {
    hide Reserve, AlignReservation, ValidConfig, ReserveNext;
    var sizes := [size];
    assert sizes[..0] == [];
    assert ReserveAll(c, s, sizes) == ReserveNext(c, Batch(s, [], [], []), size);
    NextOfNone(c, s, size, r);
    var regions := [Some(Region(r.offset, size))];
    assert regions[..0] == [] && WithRegions(live, regions[..0]) == live;
  }

  lemma NextOfNone(c: Config, s: State, size: u64, r: Reserved)
    requires ValidConfig(c) && AlignReservation(c, size) == size && Reserve(c, s, size) == Some(r)
    ensures var b := ReserveNext(c, Batch(s, [], [], []), size);
            && b.state == r.state && b.ops == [AllocateRegion(r.offset, size, c.redoDeviceId)]
            && b.regions == [Some(Region(r.offset, size))]
  {
    hide Reserve, AlignReservation, ValidConfig;
  }

  /** Freeing a region merges it with the free regions it touches. */
  lemma ReleaseIs(s: State, offset: nat, size: nat, start: nat, right: nat)
    requires WellFormed(SmallDevice(), s)
    requires size > 0 && BASE <= offset && offset + size <= BASE + 16 * BLOCK
    requires forall o :: o in s.free ==> o + s.free[o] <= offset || offset + size <= o
    requires right == if offset + size in s.free then s.free[offset + size] else 0
    requires start == offset || (start in s.free && start + s.free[start] == offset)
    requires start == offset ==> forall p :: p in s.free ==> p + s.free[p] != offset
    requires start <= offset
    ensures Releasable(SmallDevice(), s, offset, size)
    ensures Release(SmallDevice(), s, offset, size) ==
            State((s.free - {offset + size} - {start})[start := offset - start + size + right], s.next)
  {
    hide AddRange, Bytes;
    DisjointRange(s.free, offset, size);
    AddRangeIs(s.free, offset, size, start, right);
  }

  lemma FreeExec(id: seq<byte>, crc: Checksum, w: World, offset: nat, size: u64)
    requires |id| == ID_SIZE && size % BLOCK == 0 && size <= 16 * BLOCK && !w.log.poisoned
    requires WellFormed(SmallDevice(), w.state) && Releasable(SmallDevice(), w.state, offset, size)
    requires offset in w.live && w.live[offset] == size
    ensures ValidConfig(SmallDevice()) && Legal(SmallDevice(), w, Freeing(offset, size, Durable))
    ensures Exec(SmallDevice(), id, crc, w, Freeing(offset, size, Durable)) ==
            w.(state := Release(SmallDevice(), w.state, offset, size), live := w.live - {offset},
               log := w.log.(entries := w.log.entries + [RedoOp.FreeRegion(offset, size, 0)]))
  {
    hide AlignReservation, Releasable, Release, WellFormed;
    WholeBlocks(size);
  }

  // ----- the run -----

  /** What the run does to the allocator: state, live reservations and log. */
  ghost predicate At(w: World, state: State, live: FreeMap, entries: seq<RedoOp>) {
    w.state == state && w.live == live && w.log == Log(entries, [], false)
  }

  const TWO: u64 := 2 * BLOCK
  const SIX: u64 := 6 * BLOCK

  ghost function Setup(): seq<RedoOp> {
    [AllocateRegion(BASE, TWO, 0), AllocateRegion(BASE + TWO, TWO, 0), AllocateRegion(BASE + 2 * TWO, TWO, 0),
     RedoOp.FreeRegion(BASE + TWO, TWO, 0)]
  }

  /** Both live pairs are freed, then all six blocks are allocated at once. */
  ghost function SinceFence(): seq<RedoOp> {
    [RedoOp.FreeRegion(BASE, TWO, 0), RedoOp.FreeRegion(BASE + 2 * TWO, TWO, 0), AllocateRegion(BASE, SIX, 0)]
  }

  /** Three pairs of blocks are allocated and the middle pair is freed. */
  lemma ToFence(id: seq<byte>, crc: Checksum) returns (ws: seq<World>, ops: seq<Op>)
    requires |id| == ID_SIZE
    ensures ValidConfig(SmallDevice()) && IsRun(SmallDevice(), id, crc, ws, ops) && |ws| == 5 && |ops| == 4
    ensures At(ws[4], State(map[BASE + TWO := TWO], BASE + SIX), map[BASE := TWO, BASE + 2 * TWO := TWO], Setup())
  {
    hide Exec, Legal, Reserve, WellFormed, Release, Fresh;
    SmallValid();
    var c, grow := SmallDevice(), Allocating([TWO], Durable);
    ops := [grow, grow, grow, Freeing(BASE + TWO, TWO, Durable)];
    var w0 := Fresh(c);
    FreshAt();
    Extend(BASE, TWO);
    AllocateExec(id, crc, w0, TWO, Reserved(State(map[], BASE + TWO), BASE, FromHighWater(BASE)));
    var w1 := Exec(c, id, crc, w0, grow);
    Extend(BASE + TWO, TWO);
    AllocateExec(id, crc, w1, TWO, Reserved(State(map[], BASE + 2 * TWO), BASE + TWO, FromHighWater(BASE + TWO)));
    var w2 := Exec(c, id, crc, w1, grow);
    Extend(BASE + 2 * TWO, TWO);
    AllocateExec(id, crc, w2, TWO, Reserved(State(map[], BASE + SIX), BASE + 2 * TWO, FromHighWater(BASE + 2 * TWO)));
    var w3 := Exec(c, id, crc, w2, grow);
    Tidy(State(map[], BASE + SIX));
    ReleaseIs(State(map[], BASE + SIX), BASE + TWO, TWO, BASE + TWO, 0);
    FreeExec(id, crc, w3, BASE + TWO, TWO);
    var w4 := Exec(c, id, crc, w3, ops[3]);
    ws := [w0, w1, w2, w3, w4];
    AllocatingLegal(w0, TWO);
    AllocatingLegal(w1, TWO);
    AllocatingLegal(w2, TWO);
    assert w4.live == map[BASE := TWO, BASE + 2 * TWO := TWO];
    assert w4.log.entries == Setup();
  }

  lemma FreshAt()
    ensures At(Fresh(SmallDevice()), State(map[], BASE), map[], [])
  {
  }

  lemma AllocatingLegal(w: World, size: u64)
    ensures ValidConfig(SmallDevice()) && Legal(SmallDevice(), w, Allocating([size], Durable))
  {
  }

  lemma Tidy(s: State)
    requires Canonical(s.free) && Inside(s.free, BASE, BASE + 16 * BLOCK) && BASE <= s.next <= BASE + 16 * BLOCK
    ensures WellFormed(SmallDevice(), s)
  {
  }

  /** From there the first pair and the third pair are freed, all six blocks are allocated and the header is written. */
  lemma ToHeader(id: seq<byte>, crc: Checksum) returns (ws: seq<World>, ops: seq<Op>)
    requires |id| == ID_SIZE
    ensures ValidConfig(SmallDevice()) && IsRun(SmallDevice(), id, crc, ws, ops) && |ws| == 9 && |ops| == 8 && ops[7].WritingHeader?
    ensures ws[4].log.entries == Setup()
    ensures At(ws[8], State(map[], BASE + SIX), map[BASE := SIX], Setup() + SinceFence())
    ensures ws[8].written == ws[8].state && ws[8].mark == |ws[8].log.entries| && ws[8].whole
  {
    hide Exec, Legal, Reserve, WellFormed, Release, Fresh;
    ws, ops := ToFence(id, crc);
    var c, w4 := SmallDevice(), ws[4];
    var more := [Freeing(BASE, TWO, Durable), Freeing(BASE + 2 * TWO, TWO, Durable), Allocating([SIX], Durable), WritingHeader];
    FreeTwice(id, crc, w4);
    var w5 := Exec(c, id, crc, w4, more[0]);
    var w6 := Exec(c, id, crc, w5, more[1]);
    TakeAll(BASE, SIX, BASE + SIX);
    AllocateExec(id, crc, w6, SIX, Reserved(State(map[], BASE + SIX), BASE, FromFreelist(BASE, SIX)));
    var w7 := Exec(c, id, crc, w6, more[2]);
    AllocatingLegal(w6, SIX);
    var w8 := Exec(c, id, crc, w7, WritingHeader);
    HeaderOnly(id, crc, w7);
    assert w7.live == map[BASE := SIX];
    assert w7.log.entries == Setup() + SinceFence();
    var ws', ops' := ws + [w5, w6, w7, w8], ops + more;
    forall n | 0 <= n < |ops'| ensures Legal(c, ws'[n], ops'[n]) && ws'[n + 1] == Exec(c, id, crc, ws'[n], ops'[n]) {
      if n < 4 { assert ws'[n] == ws[n] && ops'[n] == ops[n] && ws'[n + 1] == ws[n + 1]; }
    }
    ws, ops := ws', ops';
  }

  lemma FreeTwice(id: seq<byte>, crc: Checksum, w: World)
    requires |id| == ID_SIZE
    requires At(w, State(map[BASE + TWO := TWO], BASE + SIX), map[BASE := TWO, BASE + 2 * TWO := TWO], Setup())
    ensures ValidConfig(SmallDevice())
    ensures var w' := Exec(SmallDevice(), id, crc, w, Freeing(BASE, TWO, Durable));
            var w'' := Exec(SmallDevice(), id, crc, w', Freeing(BASE + 2 * TWO, TWO, Durable));
            && Legal(SmallDevice(), w, Freeing(BASE, TWO, Durable))
            && Legal(SmallDevice(), w', Freeing(BASE + 2 * TWO, TWO, Durable))
            && At(w'', State(map[BASE := SIX], BASE + SIX), map[], Setup() + SinceFence()[..2])
  {
    hide Exec, Legal, WellFormed, Release;
    SmallValid();
    var s := State(map[BASE + TWO := TWO], BASE + SIX);
    var s' := State(map[BASE := 2 * TWO], BASE + SIX);
    Tidy(s);
    Tidy(s');
    ReleaseIs(s, BASE, TWO, BASE, TWO);
    assert (s.free - {BASE + TWO} - {BASE})[BASE := 2 * TWO] == s'.free;
    FreeExec(id, crc, w, BASE, TWO);
    var w' := Exec(SmallDevice(), id, crc, w, Freeing(BASE, TWO, Durable));
    ReleaseIs(s', BASE + 2 * TWO, TWO, BASE, 0);
    FreeExec(id, crc, w', BASE + 2 * TWO, TWO);
    assert (s'.free - {BASE + SIX} - {BASE})[BASE := SIX] == map[BASE := SIX];
  }

  /** Writing the header changes the device only. */
  lemma HeaderOnly(id: seq<byte>, crc: Checksum, w: World)
    requires |id| == ID_SIZE
    ensures ValidConfig(SmallDevice()) && Legal(SmallDevice(), w, WritingHeader)
    ensures var w' := Exec(SmallDevice(), id, crc, w, WritingHeader);
            && w'.state == w.state && w'.live == w.live && w'.log == w.log
            && (w.state.free == map[] ==> w'.written == w.state && w'.mark == |w.log.entries| && w'.whole)
  {
    hide WithHeader;
  }

  /** Over the header, the two frees leave two separate free regions under the allocation. */
  lemma TwoFree()
    ensures ValidConfig(SmallDevice()) && WellFormed(SmallDevice(), State(map[], BASE + SIX))
    ensures ReplayAll(SmallDevice(), State(map[], BASE + SIX), SinceFence()[..2]) ==
            State(map[BASE := TWO, BASE + 2 * TWO := TWO], BASE + SIX)
  {
    hide WellFormed, Release, Releasable, ReplayAll, Replay;
    SmallValid();
    var c, s, s' := SmallDevice(), State(map[], BASE + SIX), State(map[BASE := TWO], BASE + SIX);
    Tidy(s);
    Tidy(s');
    ReleaseIs(s, BASE, TWO, BASE, 0);
    ReleaseIs(s', BASE + 2 * TWO, TWO, BASE + 2 * TWO, 0);
    assert (s.free - {BASE + TWO} - {BASE})[BASE := TWO] == s'.free;
    assert (s'.free - {BASE + SIX} - {BASE + 2 * TWO})[BASE + 2 * TWO := TWO] == map[BASE := TWO, BASE + 2 * TWO := TWO];
    WholeBlocks(TWO);
    ReplayRelease(c, s, BASE, TWO);
    ReplayRelease(c, s', BASE + 2 * TWO, TWO);
    var e := SinceFence();
    assert e[..2] == ([] + [e[0]]) + [e[1]];
    assert ReplayAll(c, s, []) == s by { NoReplay(c, s); }
    ReplayAllSnoc(c, s, [], e[0]);
    ReplayAllSnoc(c, s, [] + [e[0]], e[1]);
  }

  /** The run: fence after step 4, header written by step 8. The entries in between, replayed over that header, leave
      a byte free that belongs to a live reservation. */
  lemma FuzzyReplayCanFreeLiveSpace(id: seq<byte>, crc: Checksum)
    returns (ws: seq<World>, ops: seq<Op>, i: nat, j: nat, x: nat)
    requires |id| == ID_SIZE
    ensures ValidConfig(SmallDevice()) && IsRun(SmallDevice(), id, crc, ws, ops)
    ensures i < j < |ws| && ops[j - 1].WritingHeader? && WellFormed(SmallDevice(), ws[j].state)
    ensures |ws[i].log.entries| <= |ws[j].log.entries|
    ensures var replayed := ReplayAll(SmallDevice(), ws[j].state, ws[j].log.entries[|ws[i].log.entries|..]);
            x in Bytes(ws[j].live) && x in Bytes(replayed.free) && replayed != ws[j].state
  {
    hide IsRun, ReplayAll, WellFormed, Bytes, AtMostOne;
    ws, ops := ToHeader(id, crc);
    i, j := 4, 8;
    TwoFree();
    var c, e := SmallDevice(), SinceFence();
    assert ws[j].log.entries[|ws[i].log.entries|..] == e;
    WholeBlocks(SIX);
    SecondRegion();
    assert !OneRegionAt(c, ws[j].state, e, 2);
    x := FuzzyLeavesLiveFree(c, id, crc, ws, ops, i, j, j, 2);
  }

  /** The same run with the header synced. A recovery that boots it and replays from the fence is not safe. */
  lemma FenceRestartCanFreeLiveSpace(id: seq<byte>, crc: Checksum)
    returns (ws: seq<World>, ops: seq<Op>, i: nat, k: nat, x: nat)
    requires |id| == ID_SIZE
    ensures ValidConfig(SmallDevice()) && IsRun(SmallDevice(), id, crc, ws, ops) && i < k < |ws|
    ensures ws[k].syncedWhole && |ws[i].log.entries| <= ws[k].syncedMark && |ws[i].log.entries| <= |ws[k].log.entries|
    ensures var w := FenceRestarted(SmallDevice(), crc, ws[k], |ws[i].log.entries|, 0);
            x in Bytes(w.live) && x in Bytes(w.state.free) && !Safe(SmallDevice(), w.state, w.live)
  {
    hide IsRun, ReplayAll, WellFormed, Bytes, AtMostOne, FenceRestarted, Safe;
    ws, ops := ToSync(id, crc);
    i, k := 4, 9;
    TwoFree();
    var c, e := SmallDevice(), SinceFence();
    assert OnDisk(ws[k], |ws[i].log.entries|, 0) == e;
    WholeBlocks(SIX);
    SecondRegion();
    assert !OneRegionAt(c, ws[k].synced, e, 2);
    x := FenceRestartUnsafe(c, id, crc, ws, ops, i, k, 0, 2);
  }

  lemma ToSync(id: seq<byte>, crc: Checksum) returns (ws: seq<World>, ops: seq<Op>)
    requires |id| == ID_SIZE
    ensures ValidConfig(SmallDevice()) && IsRun(SmallDevice(), id, crc, ws, ops) && |ws| == 10
    ensures ws[4].log.entries == Setup()
    ensures At(ws[9], State(map[], BASE + SIX), map[BASE := SIX], Setup() + SinceFence())
    ensures ws[9].synced == ws[9].state && ws[9].syncedMark == |ws[9].log.entries| && ws[9].syncedWhole
  {
    ws, ops := ToHeader(id, crc);
    hide Exec, Legal, Fresh;
    var c, w8 := SmallDevice(), ws[8];
    SyncOnly(id, crc, w8);
    var ws', ops' := ws + [Exec(c, id, crc, w8, Syncing)], ops + [Syncing];
    forall n | 0 <= n < |ops'| ensures Legal(c, ws'[n], ops'[n]) && ws'[n + 1] == Exec(c, id, crc, ws'[n], ops'[n]) {
      if n < 8 { assert ws'[n] == ws[n] && ops'[n] == ops[n] && ws'[n + 1] == ws[n + 1]; }
    }
    ws, ops := ws', ops';
  }

  lemma SyncOnly(id: seq<byte>, crc: Checksum, w: World)
    requires |id| == ID_SIZE
    ensures ValidConfig(SmallDevice()) && Legal(SmallDevice(), w, Syncing)
    ensures Exec(SmallDevice(), id, crc, w, Syncing) ==
            w.(durable := w.device, synced := w.written, syncedMark := w.mark, syncedWhole := w.whole)
  {
    SmallValid();
  }

  lemma SecondRegion()
    ensures !AtMostOne(map[BASE := TWO, BASE + 2 * TWO := TWO], BASE, BASE + SIX)
  {
    var m := map[BASE := TWO, BASE + 2 * TWO := TWO];
    assert Overlaps(m, BASE, BASE + SIX, BASE) && Overlaps(m, BASE, BASE + SIX, BASE + 2 * TWO);
  }
}
