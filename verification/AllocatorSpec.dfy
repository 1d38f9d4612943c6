/** The device-space allocator on plain values: a free map and a high-water mark.

    These definitions say what one reservation, release, rollback or replayed redo
    entry does to that state. The class in SlotAllocator.dfy is proved against
    them; AllocatorRuns.dfy reasons about whole runs of them.
 */
module AllocatorSpec {
  import opened Prelude
  import opened Rounding
  import opened Regions
  import opened Freelist
  import opened Redo

  const DATA_REGION_OFFSET: nat := 0x10_0000
  const RECORD_ALIGN: nat := 8
  const MIN_ALIGNMENT: nat := 512

  /** The settings fixed before the first allocation. */
  datatype Config = Config(
    deviceSize: nat,
    alignment: nat,
    packed: bool,
    appendOnly: bool,
    redoDeviceId: nat)

  /** Alignments divide the 1 MiB header region, and the device leaves room to round up in 64 bits. */
  predicate ValidConfig(c: Config) {
    && c.alignment >= MIN_ALIGNMENT && c.alignment % RECORD_ALIGN == 0
    && DATA_REGION_OFFSET % c.alignment == 0
    && c.deviceSize + c.alignment <= U64_LIMIT
  }

  datatype State = State(free: FreeMap, next: nat)

  datatype Region = Region(offset: nat, size: nat)

  datatype Reservation =
    | FromFreelist(allocOffset: nat, regionSize: nat)
    | FromHighWater(previousNextOffset: nat)

  // ----- reservation sizes -----

  /** `size` rounded up to the device block, in wrapping 64-bit arithmetic. */
  function AlignUp(c: Config, size: u64): u64
    requires ValidConfig(c)
  {
    RoundUp(size, c.alignment) % U64_LIMIT
  }

  /** The number of bytes reserved for a request of `size` bytes. */
  function AlignReservation(c: Config, size: u64): u64
    requires ValidConfig(c)
  {
    if !c.packed then AlignUp(c, size)
    else if size <= c.alignment then RoundUp(size, RECORD_ALIGN) % U64_LIMIT
    else AlignUp(c, size)
  }

  /** The unit every offset and size is a multiple of. */
  function Unit(c: Config): nat {
    if c.packed then RECORD_ALIGN else c.alignment
  }

  lemma LimitIsAligned(c: Config)
    requires ValidConfig(c)
    ensures U64_LIMIT % c.alignment == 0
  {
    assert U64_LIMIT == 0x1000_0000_0000 * DATA_REGION_OFFSET;
    MulMod(0x1000_0000_0000, DATA_REGION_OFFSET);
    ModTrans(U64_LIMIT, DATA_REGION_OFFSET, c.alignment);
  }

  /** Rounding up overflows 64 bits exactly when less than one block is left, and then gives zero. */
  lemma AlignUpWraps(c: Config, size: u64)
    requires ValidConfig(c)
    ensures AlignUp(c, size) % c.alignment == 0
    ensures size <= U64_LIMIT - c.alignment ==> size <= AlignUp(c, size) == RoundUp(size, c.alignment)
    ensures size > U64_LIMIT - c.alignment ==> AlignUp(c, size) == 0
  {
    hide RoundUp;
    LimitIsAligned(c);
    RoundUpBounds(size, c.alignment);
    RoundUpLeast(size, U64_LIMIT, c.alignment);
    if RoundUp(size, c.alignment) < U64_LIMIT {
      assert AlignUp(c, size) == RoundUp(size, c.alignment);
      AddMod(U64_LIMIT, RoundUp(size, c.alignment), c.alignment);
      if size > U64_LIMIT - c.alignment {
        CloseMultiples(RoundUp(size, c.alignment), U64_LIMIT, c.alignment);
      }
    }
  }

  /** A reservation holds the request exactly when rounding did not overflow; every reservation is a
      whole number of units. */
  lemma ReservationHolds(c: Config, size: u64)
    requires ValidConfig(c)
    ensures AlignReservation(c, size) % Unit(c) == 0
    ensures size <= AlignReservation(c, size) <==> size <= U64_LIMIT - c.alignment
    ensures AlignReservation(c, size) > c.alignment ==> AlignReservation(c, size) % c.alignment == 0
  {
    hide RoundUp;
    AlignUpWraps(c, size);
    if c.packed && size <= c.alignment {
      SmallReservation(c, size);
    } else if c.packed {
      ModTrans(AlignUp(c, size), c.alignment, RECORD_ALIGN);
    }
  }

  /** What a request of `size` bytes is rounded to: records when packed and at most one block, else blocks. */
  function UnitFor(c: Config, size: nat): nat {
    if c.packed && size <= c.alignment then RECORD_ALIGN else c.alignment
  }

  /** Without overflow the reservation is the least whole number of units that holds the request. */
  lemma ReservationLeast(c: Config, size: u64, m: nat)
    requires ValidConfig(c) && size <= U64_LIMIT - c.alignment
    ensures size <= AlignReservation(c, size) && AlignReservation(c, size) % UnitFor(c, size) == 0
    ensures size <= m && m % UnitFor(c, size) == 0 ==> AlignReservation(c, size) <= m
  {
    hide RoundUp;
    AlignUpWraps(c, size);
    if c.packed && size <= c.alignment { SmallReservation(c, size); }
    if size <= m && m % UnitFor(c, size) == 0 { RoundUpLeast(size, m, UnitFor(c, size)); }
  }

  lemma SmallReservation(c: Config, size: u64)
    requires ValidConfig(c) && c.packed && size <= c.alignment
    ensures AlignReservation(c, size) == RoundUp(size, RECORD_ALIGN)
    ensures size <= RoundUp(size, RECORD_ALIGN) <= c.alignment <= U64_LIMIT - c.alignment
    ensures RoundUp(size, RECORD_ALIGN) % RECORD_ALIGN == 0
  {
    AlignmentBounded(c);
    RoundUpBounds(size, RECORD_ALIGN);
    RoundUpLeast(size, c.alignment, RECORD_ALIGN);
  }

  lemma AlignmentBounded(c: Config)
    requires ValidConfig(c)
    ensures c.alignment <= DATA_REGION_OFFSET
  {
  }

  /** Freeing by the reserved size frees the same extent as freeing by the requested size. */
  lemma AlignReservationIdempotent(c: Config, size: u64)
    requires ValidConfig(c)
    ensures AlignReservation(c, AlignReservation(c, size)) == AlignReservation(c, size)
  {
    if c.packed && size <= c.alignment {
      SmallIdempotent(c, size);
    } else {
      LargeIdempotent(c, size);
    }
  }

  lemma SmallIdempotent(c: Config, size: u64)
    requires ValidConfig(c) && c.packed && size <= c.alignment
    ensures AlignReservation(c, AlignReservation(c, size)) == AlignReservation(c, size)
  {
    hide RoundUp;
    SmallReservation(c, size);
    RoundUpFixed(RoundUp(size, RECORD_ALIGN), RECORD_ALIGN);
  }

  lemma LargeIdempotent(c: Config, size: u64)
    requires ValidConfig(c) && (c.packed ==> size > c.alignment)
    ensures AlignReservation(c, AlignReservation(c, size)) == AlignReservation(c, size)
  {
    hide RoundUp;
    var a := AlignUp(c, size);
    assert AlignReservation(c, size) == a;
    AlignUpWraps(c, size);
    RoundUpFixed(a, c.alignment);
    if a == 0 { RoundUpFixed(a, RECORD_ALIGN); }
  }

  // ----- placement -----

  /** Packed placement: a small reservation stays within one block, a large one starts a block. */
  predicate Within(block: nat, offset: nat, size: nat)
    requires block > 0
  {
    if size <= block then offset % block + size <= block else offset % block == 0
  }

  /** The offsets a reservation of `size` bytes may start at. */
  function Place(c: Config, size: nat): nat -> bool
    requires ValidConfig(c)
  {
    (offset: nat) => c.packed ==> Within(c.alignment, offset, size)
  }

  /** Where a reservation that extends the high-water mark starts. */
  function AppendPoint(c: Config, next: nat, size: nat): nat
    requires ValidConfig(c)
  {
    if Place(c, size)(next) then next else RoundUp(next, c.alignment)
  }

  lemma AppendPointPlaced(c: Config, next: nat, size: nat)
    requires ValidConfig(c)
    ensures next <= AppendPoint(c, next, size) < next + c.alignment
    ensures Place(c, size)(AppendPoint(c, next, size))
    ensures next % Unit(c) == 0 ==> AppendPoint(c, next, size) % Unit(c) == 0
  {
    hide RoundUp;
    RoundUpBounds(next, c.alignment);
    if c.packed {
      ModTrans(RoundUp(next, c.alignment), c.alignment, RECORD_ALIGN);
    }
  }

  /** Packed placement as the device sees it: a small reservation has no block boundary inside it, a large one starts
      at one. */
  lemma WithinMeans(block: nat, offset: nat, size: nat)
    requires block > 0
    ensures Within(block, offset, size) <==>
              if size <= block then forall x :: offset < x < offset + size ==> x % block != 0
              else offset % block == 0
  {
    if size <= block {
      var q := offset / block;
      assert offset == q * block + offset % block;
      if Within(block, offset, size) {
        forall x | offset < x < offset + size ensures x % block != 0 { BetweenBlocks(block, q, x); }
      } else {
        var x := q * block + block;
        BlockStart(block, q);
        assert offset < x < offset + size && x % block == 0;
      }
    }
  }

  lemma BlockStart(block: nat, q: nat)
    requires block > 0
    ensures (q * block + block) % block == 0
  {
    MulMod(q, block);
    AddMod(q * block, block, block);
  }

  lemma BetweenBlocks(block: nat, q: nat, x: nat)
    requires block > 0 && q * block < x < q * block + block
    ensures x % block != 0
  {
    MulMod(q, block);
    if x % block == 0 { CloseMultiples(q * block, x, block); }
  }

  /** `x` is the first point at or after the high-water mark where the reservation may start. */
  ghost predicate IsAppendPoint(c: Config, next: nat, size: nat, x: nat)
    requires ValidConfig(c)
  {
    next <= x && Place(c, size)(x) && forall y :: next <= y < x ==> !Place(c, size)(y)
  }

  lemma AppendPointLeast(c: Config, next: nat, size: nat)
    requires ValidConfig(c)
    ensures IsAppendPoint(c, next, size, AppendPoint(c, next, size))
  {
    hide RoundUp;
    AppendPointPlaced(c, next, size);
    var x, block := AppendPoint(c, next, size), c.alignment;
    RoundUpBounds(next, block);
    forall y | next <= y < x ensures !Place(c, size)(y) {
      if size > block {
        if y % block == 0 { RoundUpLeast(next, y, block); }
      } else {
        SameBlock(next, y, block);
      }
    }
  }

  /** Up to the next block boundary remainders grow. */
  lemma SameBlock(x: nat, y: nat, block: nat)
    requires block > 0 && x <= y < RoundUp(x, block)
    ensures x % block <= y % block
  {
    hide RoundUp;
    RoundUpBounds(x, block);
    var q := y / block;
    MulMod(q, block);
    if x <= q * block { RoundUpLeast(x, q * block, block); }
    BlockRemainder(x, q, block);
    BlockRemainder(y, q, block);
  }

  lemma BlockRemainder(x: nat, q: nat, block: nat)
    requires block > 0 && q * block <= x < q * block + block
    ensures x % block == x - q * block
  {
    var p := x / block;
    assert x == p * block + x % block;
    MulMod(p, block);
    MulMod(q, block);
    if p * block <= q * block {
      CloseMultiples(p * block, q * block, block);
    } else {
      CloseMultiples(q * block, p * block, block);
    }
  }

  // ----- states -----

  /** Canonical free map inside the data region; high-water mark inside the device. */
  ghost predicate WellFormed(c: Config, s: State) {
    && Canonical(s.free) && Inside(s.free, DATA_REGION_OFFSET, c.deviceSize)
    && DATA_REGION_OFFSET <= s.next
    && (s.next <= c.deviceSize || s.next == DATA_REGION_OFFSET)
  }

  /** Every boundary is a multiple of the reservation unit. */
  ghost predicate Granular(c: Config, s: State)
    requires ValidConfig(c)
  {
    && s.next % Unit(c) == 0
    && forall o :: o in s.free ==> o % Unit(c) == 0 && s.free[o] % Unit(c) == 0
  }

  const INITIAL: State := State(map[], DATA_REGION_OFFSET)

  lemma InitialWellFormed(c: Config)
    requires ValidConfig(c)
    ensures WellFormed(c, INITIAL) && Granular(c, INITIAL)
  {
    assert DATA_REGION_OFFSET % Unit(c) == 0;
  }

  // ----- reserving -----

  datatype Reserved = Reserved(state: State, offset: nat, undo: Reservation)

  /** The best-fitting region; unique, so every freelist form finds the same one. */
  ghost function Best(m: FreeMap, size: nat, place: nat -> bool): (o: nat)
    requires exists p :: Fits(m, size, place, p)
    ensures IsBestFit(m, size, place, o)
  {
    BestExists(m, size, place);
    var o :| IsBestFit(m, size, place, o);
    o
  }

  lemma BestExists(m: FreeMap, size: nat, place: nat -> bool)
    requires exists p :: Fits(m, size, place, p)
    ensures exists o :: IsBestFit(m, size, place, o)
  {
    var p :| Fits(m, size, place, p);
    var pairs := set o | o in m && m[o] >= size && place(o) :: (m[o], o);
    assert (m[p], p) in pairs;
    var least := LeastPair(pairs);
    forall q | Fits(m, size, place, q) ensures SizeOrder((m[least.1], least.1), (m[q], q)) {
      assert (m[q], q) in pairs;
    }
    assert IsBestFit(m, size, place, least.1);
  }

  lemma BestUnique(m: FreeMap, size: nat, place: nat -> bool, o: nat)
    requires IsBestFit(m, size, place, o)
    ensures o == Best(m, size, place)
  {
    var b := Best(m, size, place);
    assert Fits(m, size, place, b) && Fits(m, size, place, o);
  }

  /** Reserves `a` bytes: from the best-fitting free region, else by extending the high-water mark. */
  ghost function Reserve(c: Config, s: State, a: nat): Option<Reserved>
    requires ValidConfig(c)
  {
    var place := Place(c, a);
    if !c.appendOnly && exists p :: Fits(s.free, a, place, p) then
      var o := Best(s.free, a, place);
      Some(Reserved(State(TakeHead(s.free, o, a), s.next), o, FromFreelist(o, s.free[o])))
    else
      var o := AppendPoint(c, s.next, a);
      if o + a > c.deviceSize then None
      else Some(Reserved(State(s.free, o + a), o, FromHighWater(s.next)))
  }

  lemma TakeHeadBytes(m: FreeMap, o: nat, size: nat)
    requires Canonical(m) && o in m && size <= m[o]
    ensures Canonical(TakeHead(m, o, size))
    ensures Bytes(TakeHead(m, o, size)) == Bytes(m) - Range(o, size)
    ensures Range(o, size) <= Bytes(m)
  {
    forall x | x in Range(o, size) ensures x in Bytes(m) { Owned(m, o, x); }
    if size == 0 {
      assert TakeHead(m, o, size) == m;
    } else {
      assert TakeHead(m, o, size) == Cut(m, o, o, o + size);
      assert Range(o, size) * Range(o, m[o]) == Range(o, size);
    }
  }

  /** Where a reservation goes. Unless the store only appends, it takes the head of the least (size, offset) among the
      free regions that can hold it. With none, it starts at the first point past the high-water mark that its placement
      allows, and fails exactly when it would end past the device. */
  lemma ReserveWhere(c: Config, s: State, a: nat) returns (x: nat)
    requires ValidConfig(c) && WellFormed(c, s)
    ensures IsAppendPoint(c, s.next, a, x)
    ensures var r := Reserve(c, s, a);
            if !c.appendOnly && exists p :: Fits(s.free, a, Place(c, a), p) then
              && r.Some? && IsBestFit(s.free, a, Place(c, a), r.value.offset) && r.value.state.next == s.next
              && Canonical(r.value.state.free)
              && Bytes(r.value.state.free) == Bytes(s.free) - Range(r.value.offset, a)
              && r.value.undo == FromFreelist(r.value.offset, s.free[r.value.offset])
            else
              && (r.None? <==> x + a > c.deviceSize)
              && (r.Some? ==> r.value == Reserved(State(s.free, x + a), x, FromHighWater(s.next)))
  {
    hide RoundUp, Bytes, Canonical, TakeHead;
    x := AppendPoint(c, s.next, a);
    AppendPointLeast(c, s.next, a);
    var r := Reserve(c, s, a);
    if r.Some? && r.value.undo.FromFreelist? {
      TakeHeadBytes(s.free, r.value.offset, a);
    }
  }

  /** What a reservation takes: bytes that were free, or fresh bytes past the high-water mark. */
  lemma ReserveTakes(c: Config, s: State, a: nat)
    requires ValidConfig(c) && WellFormed(c, s) && Reserve(c, s, a).Some?
    ensures var r := Reserve(c, s, a).value;
            && WellFormed(c, r.state)
            && DATA_REGION_OFFSET <= r.offset && r.offset + a <= c.deviceSize
            && Place(c, a)(r.offset)
    ensures var r := Reserve(c, s, a).value;
            r.undo.FromFreelist? ==>
              && r.state.next == s.next
              && Range(r.offset, a) <= Bytes(s.free)
              && Bytes(r.state.free) == Bytes(s.free) - Range(r.offset, a)
    ensures var r := Reserve(c, s, a).value;
            r.undo.FromHighWater? ==>
              r.state.free == s.free && s.next <= r.offset && r.state.next == r.offset + a
  {
    var r := Reserve(c, s, a).value;
    if r.undo.FromFreelist? {
      TakeHeadBytes(s.free, r.offset, a);
    } else {
      AppendPointPlaced(c, s.next, a);
    }
  }

  /** Every region lies below the high-water mark, as it does while only live ranges are freed. */
  ghost predicate Tight(s: State) {
    Inside(s.free, DATA_REGION_OFFSET, s.next)
  }

  lemma TightBytes(s: State, x: nat)
    requires Tight(s) && x in Bytes(s.free)
    ensures DATA_REGION_OFFSET <= x < s.next
  {
    var o := Owner(s.free, x);
  }

  /** From a tight state a reservation removes exactly its own bytes from the free set and keeps the state tight. */
  lemma ReserveTight(c: Config, s: State, a: nat)
    requires ValidConfig(c) && WellFormed(c, s) && Tight(s) && Reserve(c, s, a).Some?
    ensures var r := Reserve(c, s, a).value;
            && Tight(r.state) && s.next <= r.state.next && r.offset + a <= r.state.next
            && Bytes(r.state.free) == Bytes(s.free) - Range(r.offset, a)
  {
    ReserveTakes(c, s, a);
    var r := Reserve(c, s, a).value;
    forall x | x in Bytes(s.free) ensures x < s.next { TightBytes(s, x); }
  }

  lemma ReserveGranular(c: Config, s: State, a: nat)
    requires ValidConfig(c) && WellFormed(c, s) && Granular(c, s) && a % Unit(c) == 0
    requires Reserve(c, s, a).Some?
    ensures Granular(c, Reserve(c, s, a).value.state)
    ensures Reserve(c, s, a).value.offset % Unit(c) == 0
  {
    hide RoundUp, Canonical, AppendPoint, Inside;
    var r := Reserve(c, s, a).value;
    if r.undo.FromFreelist? {
      AddMod(r.offset, a, Unit(c));
      AddMod(s.free[r.offset], a, Unit(c));
    } else {
      AppendPointPlaced(c, s.next, a);
      AddMod(r.offset, a, Unit(c));
    }
  }

  // ----- rolling back -----

  /** Undoes one reservation: drop the split remainder, then merge the whole region back in. */
  ghost function Rollback(s: State, a: nat, undo: Reservation): State
    requires CanRollback(s, a, undo)
  {
    match undo
    case FromHighWater(previous) => State(s.free, previous)
    case FromFreelist(o, size) => State(AddRange(WithoutRemainder(s, a, undo), o, size), s.next)
  }

  ghost function WithoutRemainder(s: State, a: nat, undo: Reservation): FreeMap
    requires undo.FromFreelist?
  {
    if undo.regionSize > a then s.free - {undo.allocOffset + a} else s.free
  }

  ghost predicate CanRollback(s: State, a: nat, undo: Reservation) {
    undo.FromFreelist? ==>
      && undo.regionSize > 0 && Canonical(WithoutRemainder(s, a, undo))
      && Range(undo.allocOffset, undo.regionSize) !! Bytes(WithoutRemainder(s, a, undo))
  }

  /** Rolling back the reservation just made restores the state exactly, and merges no neighbour. */
  lemma RollbackExact(c: Config, s: State, a: nat)
    requires ValidConfig(c) && WellFormed(c, s) && Reserve(c, s, a).Some?
    ensures var r := Reserve(c, s, a).value;
            CanRollback(r.state, a, r.undo) && Rollback(r.state, a, r.undo) == s
    ensures var r := Reserve(c, s, a).value;
            r.undo.FromFreelist? ==>
              var m := WithoutRemainder(r.state, a, r.undo);
              && r.offset + r.undo.regionSize !in m
              && forall p :: p in m ==> p + m[p] != r.offset
  {
    hide AddRange, Bytes, Canonical, Inside, Place, AppendPoint, Range;
    var r := Reserve(c, s, a).value;
    if r.undo.FromFreelist? {
      HeadRemoved(s.free, r.offset, a);
      Reinsert(s.free, r.offset);
    }
  }

  /** Without its remainder a split region leaves the map it came from minus itself, and nothing adjacent. */
  lemma HeadRemoved(m: FreeMap, o: nat, a: nat)
    requires Canonical(m) && o in m && a <= m[o]
    ensures var rest := TakeHead(m, o, a); (if a < m[o] then rest - {o + a} else rest) == m - {o}
    ensures m[o] > 0 && Canonical(m - {o}) && Range(o, m[o]) !! Bytes(m - {o})
    ensures o + m[o] !in m - {o} && forall p :: p in m - {o} ==> p + m[p] != o
  {
    RemoveBytes(m, o);
    hide Bytes;
    assert a > 0 && a < m[o] ==> o + a !in m;
  }

  /** Taking a region out of a canonical map and adding it back changes nothing. */
  lemma Reinsert(m: FreeMap, o: nat)
    requires Canonical(m) && o in m
    requires Canonical(m - {o}) && Range(o, m[o]) !! Bytes(m - {o})
    ensures AddRange(m - {o}, o, m[o]) == m
  {
    RemoveBytes(m, o);
    CanonicalUnique(m, AddRange(m - {o}, o, m[o]));
  }

  // ----- releasing -----

  /** The range is non-empty, inside the data region and disjoint from every free region. */
  ghost predicate Releasable(c: Config, s: State, offset: nat, a: nat) {
    && a > 0 && DATA_REGION_OFFSET <= offset && offset + a <= c.deviceSize
    && Range(offset, a) !! Bytes(s.free)
  }

  /** The state after [offset, offset + a) joined the freelist. */
  ghost function Release(c: Config, s: State, offset: nat, a: nat): State
    requires WellFormed(c, s) && Releasable(c, s, offset, a)
  {
    State(AddRange(s.free, offset, a), s.next)
  }

  lemma InsideBytes(m: FreeMap, lo: nat, hi: nat)
    requires Canonical(m)
    ensures Inside(m, lo, hi) <==> forall x :: x in Bytes(m) ==> lo <= x < hi
  {
    if Inside(m, lo, hi) {
      forall x | x in Bytes(m) ensures lo <= x < hi { var o := Owner(m, x); }
    } else {
      var o: nat :| o in m && !(lo <= o && o + m[o] <= hi);
      Owned(m, o, o);
      Owned(m, o, o + m[o] - 1);
    }
  }

  lemma ReleaseKeeps(c: Config, s: State, offset: nat, a: nat)
    requires WellFormed(c, s) && Releasable(c, s, offset, a)
    ensures WellFormed(c, Release(c, s, offset, a))
    ensures Tight(s) && offset + a <= s.next ==> Tight(Release(c, s, offset, a))
  {
    InsideBytes(s.free, DATA_REGION_OFFSET, c.deviceSize);
    InsideBytes(s.free, DATA_REGION_OFFSET, s.next);
    InsideBytes(Release(c, s, offset, a).free, DATA_REGION_OFFSET, c.deviceSize);
    InsideBytes(Release(c, s, offset, a).free, DATA_REGION_OFFSET, s.next);
  }

  lemma ReleaseGranular(c: Config, s: State, offset: nat, a: nat)
    requires ValidConfig(c) && WellFormed(c, s) && Granular(c, s) && Releasable(c, s, offset, a)
    requires offset % Unit(c) == 0 && a % Unit(c) == 0
    ensures Granular(c, Release(c, s, offset, a))
  {
    hide AddRange, Bytes, Canonical;
    var m, m' := s.free, Release(c, s, offset, a).free;
    forall o | o in m' ensures o % Unit(c) == 0 && m'[o] % Unit(c) == 0 {
      AddRangeEntry(m, offset, a, o);
      if !(o in m && m'[o] == m[o]) {
        var right := if offset + a in m then m[offset + a] else 0;
        AddMod(offset, o, Unit(c));
        AddMod(offset - o, a, Unit(c));
        AddMod(offset - o + a, right, Unit(c));
      }
    }
  }

  /** Each region after a release is an old one or the merged one. */
  lemma AddRangeEntry(m: FreeMap, offset: nat, size: nat, o: nat)
    requires Canonical(m) && size > 0 && Range(offset, size) !! Bytes(m)
    requires o in AddRange(m, offset, size)
    ensures var m' := AddRange(m, offset, size);
            || (o in m && m'[o] == m[o])
            || (&& o <= offset && (o == offset || (o in m && o + m[o] == offset))
                && m'[o] == offset - o + size + (if offset + size in m then m[offset + size] else 0))
  {
  }

  // ----- replaying redo entries -----

  ghost predicate Overlaps(m: FreeMap, lo: nat, hi: nat, o: nat) {
    o in m && o < hi && lo < o + m[o]
  }

  /** Region `o` is the lowest region that overlaps [lo, hi). */
  ghost predicate IsFirstOverlap(m: FreeMap, lo: nat, hi: nat, o: nat) {
    Overlaps(m, lo, hi, o) && forall p :: Overlaps(m, lo, hi, p) ==> o <= p
  }

  ghost function FirstOverlap(m: FreeMap, lo: nat, hi: nat): (o: nat)
    requires exists p :: Overlaps(m, lo, hi, p)
    ensures IsFirstOverlap(m, lo, hi, o)
  {
    var p :| Overlaps(m, lo, hi, p);
    var candidates := set q | q in m && Overlaps(m, lo, hi, q);
    assert p in candidates;
    FirstOverlapExists(m, lo, hi, candidates);
    var o :| IsFirstOverlap(m, lo, hi, o);
    o
  }

  lemma FirstOverlapExists(m: FreeMap, lo: nat, hi: nat, candidates: set<nat>)
    requires candidates != {} && candidates == set q | q in m && Overlaps(m, lo, hi, q)
    ensures exists o :: IsFirstOverlap(m, lo, hi, o)
  {
    var least := LeastNat(candidates);
    forall p | Overlaps(m, lo, hi, p) ensures least <= p { assert p in candidates; }
    assert IsFirstOverlap(m, lo, hi, least);
  }

  /** Cuts [lo, hi) out of the first region it overlaps, and out of that one only. */
  ghost function CarveFirst(m: FreeMap, lo: nat, hi: nat): FreeMap
    requires Canonical(m) && lo < hi
  {
    if exists p :: Overlaps(m, lo, hi, p) then Cut(m, FirstOverlap(m, lo, hi), lo, hi) else m
  }

  ghost predicate InData(c: Config, offset: nat, a: nat) {
    a > 0 && DATA_REGION_OFFSET <= offset && offset + a <= c.deviceSize
  }

  ghost function ReplayAllocate(c: Config, s: State, offset: nat, a: nat): State
    requires WellFormed(c, s)
  {
    if !InData(c, offset, a) then s
    else State(CarveFirst(s.free, offset, offset + a), if s.next < offset + a then offset + a else s.next)
  }

  ghost function ReplayFree(c: Config, s: State, offset: nat, a: nat): State
    requires WellFormed(c, s)
  {
    if Releasable(c, s, offset, a) then Release(c, s, offset, a) else s
  }

  /** One redo entry applied to the state; entries of another store are skipped. */
  ghost function Replay(c: Config, s: State, op: RedoOp): State
    requires ValidConfig(c) && WellFormed(c, s)
  {
    match op
    case AllocateRegion(offset, size, id) =>
      if id != c.redoDeviceId then s else ReplayAllocate(c, s, offset, AlignReservation(c, size))
    case FreeRegion(offset, size, id) =>
      if id != c.redoDeviceId then s else ReplayFree(c, s, offset, AlignReservation(c, size))
    case OtherOp => s
  }

  // ----- reconciling with records found live -----

  /** The whole range is non-empty and currently free. */
  ghost predicate Reclaimable(s: State, offset: nat, a: nat) {
    a > 0 && Range(offset, a) <= Bytes(s.free)
  }

  /** The state with a range that is wholly free taken out of the freelist; any other range changes nothing. */
  ghost function Reclaim(c: Config, s: State, offset: nat, a: nat): State
    requires WellFormed(c, s)
  {
    if Reclaimable(s, offset, a) then
      State(CarveFirst(s.free, offset, offset + a), s.next)
    else s
  }

  lemma ReclaimIs(c: Config, s: State, offset: nat, a: nat, o: nat)
    requires WellFormed(c, s) && a > 0
    requires o in s.free && o <= offset && offset + a <= o + s.free[o]
    ensures Reclaimable(s, offset, a)
    ensures Reclaim(c, s, offset, a).free == Cut(s.free, o, offset, offset + a)
    ensures WellFormed(c, Reclaim(c, s, offset, a))
    ensures Reclaim(c, s, offset, a).next == s.next
    ensures Bytes(Reclaim(c, s, offset, a).free) == Bytes(s.free) - Range(offset, a)
  {
    forall x | x in Range(offset, a) ensures x in Bytes(s.free) && x in Range(o, s.free[o]) {
      Owned(s.free, o, x);
      InRange(o, s.free[o], x);
    }
    assert IsFirstOverlap(s.free, offset, offset + a, o);
    var f := FirstOverlap(s.free, offset, offset + a);
    assert Overlaps(s.free, offset, offset + a, f);
    assert f == o;
    InsideBytes(s.free, DATA_REGION_OFFSET, c.deviceSize);
    InsideBytes(Cut(s.free, o, offset, offset + a), DATA_REGION_OFFSET, c.deviceSize);
  }

  lemma ReclaimKeeps(c: Config, s: State, offset: nat, a: nat)
    requires WellFormed(c, s)
    ensures WellFormed(c, Reclaim(c, s, offset, a)) && Reclaim(c, s, offset, a).next == s.next
    ensures Reclaimable(s, offset, a) ==> Bytes(Reclaim(c, s, offset, a).free) == Bytes(s.free) - Range(offset, a)
    ensures !Reclaimable(s, offset, a) ==> Reclaim(c, s, offset, a) == s
  {
    if Reclaimable(s, offset, a) {
      var o := CoveredByOne(s.free, offset, a);
      ReclaimIs(c, s, offset, a, o);
    }
  }

  // ----- whole calls -----

  datatype AllocError =
    | DeviceFull(requested: nat, largestFree: nat)
    | InvalidFree(offset: nat, size: nat)
    | DoubleFree(offset: nat, size: nat, freeOffset: nat, freeSize: nat)
    | RedoLogFailure

  /** The reservations of a batch, in order; `undos` and `ops` skip the requests that did not fit. */
  datatype Batch = Batch(
    state: State,
    regions: seq<Option<Region>>,
    undos: seq<(nat, Reservation)>,
    ops: seq<RedoOp>)

  ghost function ReserveAll(c: Config, s: State, sizes: seq<u64>): Batch
    requires ValidConfig(c)
  {
    if sizes == [] then Batch(s, [], [], [])
    else
      var n := |sizes| - 1;
      ReserveNext(c, ReserveAll(c, s, sizes[..n]), sizes[n])
  }

  ghost function ReserveNext(c: Config, b: Batch, size: u64): Batch
    requires ValidConfig(c)
  {
    var a := AlignReservation(c, size);
    match Reserve(c, b.state, a)
    case None => b.(regions := b.regions + [None])
    case Some(r) =>
      Batch(r.state, b.regions + [Some(Region(r.offset, a))], b.undos + [(a, r.undo)],
            b.ops + [AllocateRegion(r.offset, a, c.redoDeviceId)])
  }

  /** The regions a batch got. */
  function Granted(regions: seq<Option<Region>>): seq<Region> {
    if regions == [] then []
    else
      var n := |regions| - 1;
      Granted(regions[..n]) + if regions[n].Some? then [regions[n].value] else []
  }

  predicate Records(c: Config, op: RedoOp, r: Region) {
    op.AllocateRegion? && op.offset == r.offset && op.size == r.size && op.deviceId == c.redoDeviceId
  }

  /** The journal of a batch lists exactly the regions it got, in order. */
  lemma {:induction false} BatchJournal(c: Config, s: State, sizes: seq<u64>)
    requires ValidConfig(c)
    ensures var b := ReserveAll(c, s, sizes);
            && |b.regions| == |sizes| && |b.ops| == |Granted(b.regions)|
            && forall k :: 0 <= k < |b.ops| ==> Records(c, b.ops[k], Granted(b.regions)[k])
    decreases |sizes|
  {
    hide Reserve, AlignReservation;
    if sizes != [] {
      var n := |sizes| - 1;
      BatchJournal(c, s, sizes[..n]);
      assert ReserveAll(c, s, sizes).regions[..n] == ReserveAll(c, s, sizes[..n]).regions;
    }
  }

  /** Request `i` of a batch is granted exactly as one made alone after the requests before it, whatever became of
      them. */
  lemma {:induction false} BatchItem(c: Config, s: State, sizes: seq<u64>, i: nat)
    requires ValidConfig(c) && i < |sizes|
    ensures |ReserveAll(c, s, sizes).regions| == |sizes|
    ensures var before, after := ReserveAll(c, s, sizes[..i]).state, ReserveAll(c, s, sizes[..i + 1]).state;
            var a := AlignReservation(c, sizes[i]);
            match Reserve(c, before, a)
            case None => ReserveAll(c, s, sizes).regions[i] == None && after == before
            case Some(r) => ReserveAll(c, s, sizes).regions[i] == Some(Region(r.offset, a)) && after == r.state
    decreases |sizes|
  {
    hide Reserve, AlignReservation, ReserveAll, ReserveNext;
    var n := |sizes| - 1;
    BatchJournal(c, s, sizes);
    BatchStep(c, s, sizes);
    if i < n {
      BatchItem(c, s, sizes[..n], i);
      assert sizes[..n][..i] == sizes[..i] && sizes[..n][..i + 1] == sizes[..i + 1];
    } else {
      assert sizes[..n + 1] == sizes;
    }
  }

  /** The last request of a batch. */
  lemma BatchStep(c: Config, s: State, sizes: seq<u64>)
    requires ValidConfig(c) && sizes != []
    ensures var n, b' := |sizes| - 1, ReserveAll(c, s, sizes);
            var b, a := ReserveAll(c, s, sizes[..n]), AlignReservation(c, sizes[n]);
            match Reserve(c, b.state, a)
            case None => b'.regions == b.regions + [None] && b'.state == b.state
            case Some(r) => b'.regions == b.regions + [Some(Region(r.offset, a))] && b'.state == r.state
  {
    hide Reserve, AlignReservation;
  }

  /** Undoing `undos` last to first from state `s` leads back to `before`. */
  ghost predicate Undoes(c: Config, before: State, s: State, undos: seq<(nat, Reservation)>)
    requires ValidConfig(c)
    decreases |undos|
  {
    if undos == [] then s == before
    else
      var n := |undos| - 1;
      exists mid :: WellFormed(c, mid) && Undoes(c, before, mid, undos[..n]) &&
                    Undo(c, mid, s, undos[n])
  }

  /** `s` is what the reservation recorded by `undo` made of `mid`. */
  ghost predicate Undo(c: Config, mid: State, s: State, undo: (nat, Reservation))
    requires ValidConfig(c)
  {
    var r := Reserve(c, mid, undo.0);
    r.Some? && r.value.state == s && r.value.undo == undo.1
  }

  /** A batch can always be undone, whatever mix of splits, exact fits, appends and misses it made. */
  lemma {:induction false} ReserveAllUndoes(c: Config, s: State, sizes: seq<u64>)
    requires ValidConfig(c) && WellFormed(c, s)
    ensures var b := ReserveAll(c, s, sizes); WellFormed(c, b.state) && Undoes(c, s, b.state, b.undos)
    ensures |ReserveAll(c, s, sizes).regions| == |sizes|
    decreases |sizes|
  {
    if sizes != [] {
      var n := |sizes| - 1;
      var b := ReserveAll(c, s, sizes[..n]);
      var a := AlignReservation(c, sizes[n]);
      ReserveAllUndoes(c, s, sizes[..n]);
      if Reserve(c, b.state, a).Some? {
        ReserveTakes(c, b.state, a);
        var b' := ReserveAll(c, s, sizes);
        assert b'.undos[..|b.undos|] == b.undos;
        assert Undo(c, b.state, b'.state, b'.undos[|b.undos|]);
      }
    }
  }

  lemma CarveFirstBytes(m: FreeMap, lo: nat, hi: nat)
    requires Canonical(m) && lo < hi
    ensures Canonical(CarveFirst(m, lo, hi))
    ensures Bytes(CarveFirst(m, lo, hi)) <= Bytes(m)
    ensures Bytes(m) - Range(lo, hi - lo) <= Bytes(CarveFirst(m, lo, hi))
  {

  }

  /** No redo entry, however corrupt, breaks the free map. */
  lemma ReplayKeeps(c: Config, s: State, op: RedoOp)
    requires ValidConfig(c) && WellFormed(c, s)
    ensures WellFormed(c, Replay(c, s, op))
  {
    if op.AllocateRegion? && op.deviceId == c.redoDeviceId {
      var a := AlignReservation(c, op.size);
      if InData(c, op.offset, a) {
        CarveFirstBytes(s.free, op.offset, op.offset + a);
        InsideBytes(s.free, DATA_REGION_OFFSET, c.deviceSize);
        InsideBytes(Replay(c, s, op).free, DATA_REGION_OFFSET, c.deviceSize);
      }
    } else if op.FreeRegion? && op.deviceId == c.redoDeviceId {
      var a := AlignReservation(c, op.size);
      if Releasable(c, s, op.offset, a) { ReleaseKeeps(c, s, op.offset, a); }
    }
  }
}
